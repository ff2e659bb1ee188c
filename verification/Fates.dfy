/** How runs of code put one after another add up. */
module Fates {
  import opened Ints
  import opened Wasm
  import opened Run
  import Fuel

  /**
   * What becomes of a body: it ends having spent exactly `cost`, or it is stopped by a trap,
   * or it is still running when `limit` is spent.
   */
  datatype Fate = Ends(cost: nat, state: State, flow: Flow) | Dies(cost: nat, trap: Trap) | Late(limit: nat)

  ghost predicate Meets(w: World, code: seq<Ins>, s: State, fate: Fate) {
    match fate
    case Ends(cost, out, flow) => Body(w, cost, code, s) == Done(0, (out, flow))
    case Dies(cost, trap) => trap != TooLong && Body(w, cost, code, s) == Trapped(trap)
    case Late(limit) => Body(w, limit, code, s) == Trapped(TooLong)
  }

  /** Code that only touches the state, one unit of fuel an instruction. */
  ghost predicate StepsTo(w: World, code: seq<Ins>, s: State, out: State) {
    Body(w, |code|, code, s) == Done(0, (out, Normal))
  }

  lemma {:induction false} RunAppend(w: World, fuel: nat, one: seq<Ins>, two: seq<Ins>, s: State)
    ensures Body(w, fuel, one + two, s) ==
            match Body(w, fuel, one, s)
            case Done(left, (next, Normal)) => Body(w, left, two, next)
            case other => other
    decreases |one|
  {
    if one == [] {
      assert one + two == two;
    } else if fuel > 0 {
      assert (one + two)[1..] == one[1..] + two;
      var first := Instr(w, fuel, one[0], s);
      if first.Done? && first.value.1 == Normal {
        RunAppend(w, first.fuel, one[1..], two, first.value.0);
      }
    }
  }

  function Joined(one: Fate, two: Fate): Fate {
    if one.Ends? && one.flow == Normal then
      (match two
       case Ends(cost, out, flow) => Ends(one.cost + cost, out, flow)
       case Dies(cost, trap) => Dies(one.cost + cost, trap)
       case Late(limit) => two)
    else one
  }

  lemma MeetsThen(w: World, one: seq<Ins>, two: seq<Ins>, s: State, f: Fate, g: Fate)
    requires Meets(w, one, s, f)
    requires f.Ends? && f.flow == Normal ==> Meets(w, two, f.state, g)
    ensures Meets(w, one + two, s, Joined(f, g))
  {
    if f.Ends? && f.flow == Normal {
      if g.Late? {
        SecondLate(w, one, two, s, f, g.limit);
      } else {
        RunAppend(w, f.cost + g.cost, one, two, s);
        Fuel.BodySpares(w, w, f.cost, g.cost, one, s);
      }
    } else {
      RunAppend(w, if f.Late? then f.limit else f.cost, one, two, s);
    }
  }

  lemma SecondLate(w: World, one: seq<Ins>, two: seq<Ins>, s: State, f: Fate, limit: nat)
    requires f.Ends? && f.flow == Normal && Meets(w, one, s, f) && Meets(w, two, f.state, Late(limit))
    ensures Meets(w, one + two, s, Late(limit))
  {
    RunAppend(w, limit, one, two, s);
    if f.cost <= limit {
      Fuel.BodySpares(w, w, f.cost, limit - f.cost, one, s);
      NoLater(w, two, f.state, limit - f.cost, limit);
    } else {
      NotBefore(w, one, s, f, limit);
    }
  }

  /** What is not done within a budget is not done within a smaller one. */
  lemma NoLater(w: World, code: seq<Ins>, s: State, fuel: nat, limit: nat)
    requires fuel <= limit && Meets(w, code, s, Late(limit))
    ensures Meets(w, code, s, Late(fuel))
  {
    if Body(w, fuel, code, s) != Trapped(TooLong) {
      Fuel.BodySpares(w, w, fuel, limit - fuel, code, s);
    }
  }

  /** A body that ends having spent everything does not end on less. */
  lemma NotBefore(w: World, code: seq<Ins>, s: State, f: Fate, fuel: nat)
    requires f.Ends? && Meets(w, code, s, f) && fuel < f.cost
    ensures Meets(w, code, s, Late(fuel))
  {
    if Body(w, fuel, code, s) != Trapped(TooLong) {
      Fuel.BodySpares(w, w, fuel, f.cost - fuel, code, s);
    }
  }

  lemma StepsThen(w: World, one: seq<Ins>, two: seq<Ins>, s: State, between: State, out: State)
    requires StepsTo(w, one, s, between) && StepsTo(w, two, between, out)
    ensures StepsTo(w, one + two, s, out)
  {
    MeetsThen(w, one, two, s, Ends(|one|, between, Normal), Ends(|two|, out, Normal));
  }

  // -- single instructions ---------------------------------------------------

  lemma RunOne(w: World, fuel: nat, ins: Ins, s: State)
    requires fuel > 0
    ensures Body(w, fuel, [ins], s) == Instr(w, fuel, ins, s)
  {
    assert [ins][1..] == [];
    var r := Instr(w, fuel, ins, s);
    if r.Done? {
      assert Body(w, r.fuel, [], r.value.0) == Done(r.fuel, (r.value.0, Normal));
    }
  }

  lemma SimpleSteps(w: World, ins: Ins, s: State, out: State)
    requires Simple(ins) && ExecSimple(ins, s) == Ok(out) && (ins.Drop? ==> s.stack != [])
    ensures StepsTo(w, [ins], s, out)
  {
    RunOne(w, 1, ins, s);
  }

  lemma MarkedSteps(w: World, site: nat, ins: Ins, s: State, out: State)
    requires Simple(ins) && ExecSimple(ins, s) == Ok(out) && (ins.Drop? ==> s.stack != [])
    ensures StepsTo(w, [Marked(site, ins)], s, out)
  {
    RunOne(w, 1, Marked(site, ins), s);
  }

  lemma NumSteps(w: World, op: NumOp, s: State, left: Value, right: Value, v: Value)
    requires !Unary(op) && BinaryOn(op, AsI64(left), AsI64(right)) == Ok(v)
    ensures StepsTo(w, [Num(op)], Pushed(Pushed(s, left), right), Pushed(s, v))
  {
    var both := Pushed(Pushed(s, left), right);
    assert Popped(both) == Ok((right, Pushed(s, left)));
    assert Popped(Pushed(s, left)) == Ok((left, s));
    SimpleSteps(w, Num(op), both, Pushed(s, v));
  }

  lemma UnarySteps(w: World, op: NumOp, s: State, x: Value)
    requires Unary(op)
    ensures StepsTo(w, [Num(op)], Pushed(s, x), Pushed(s, UnaryOn(op, AsI64(x))))
  {
    assert Popped(Pushed(s, x)) == Ok((x, s));
    SimpleSteps(w, Num(op), Pushed(s, x), Pushed(s, UnaryOn(op, AsI64(x))));
  }

  lemma GetSteps(w: World, a: nat, s: State)
    requires a < |s.locals|
    ensures StepsTo(w, [LocalGet(a)], s, Pushed(s, s.locals[a]))
  {
    SimpleSteps(w, LocalGet(a), s, Pushed(s, s.locals[a]));
  }

  lemma SetSteps(w: World, a: nat, s: State, v: Value)
    requires a < |s.locals|
    ensures StepsTo(w, [LocalSet(a)], Pushed(s, v), s.(locals := s.locals[a := v]))
  {
    assert Popped(Pushed(s, v)) == Ok((v, s));
    SimpleSteps(w, LocalSet(a), Pushed(s, v), s.(locals := s.locals[a := v]));
  }

  /** An `if` runs the arm its condition picks. */
  lemma ArmMeets(w: World, result: Option<ValType>, taken: seq<Ins>, otherwise: seq<Ins>, s: State, b: bool, f: Fate)
    requires Meets(w, if b then taken else otherwise, s, f)
    requires f.Ends? ==> !f.flow.Break?
    ensures Meets(w, [Ins.If(result, taken, otherwise)], Pushed(s, Boolean(b)),
                  match f
                  case Ends(cost, out, flow) => Ends(cost + 1, out, flow)
                  case Dies(cost, trap) => Dies(cost + 1, trap)
                  case Late(limit) => Late(limit + 1))
  {
    var ins := Ins.If(result, taken, otherwise);
    var n := (if f.Late? then f.limit else f.cost) + 1;
    RunOne(w, n, ins, Pushed(s, Boolean(b)));
    assert Popped(Pushed(s, Boolean(b))) == Ok((Boolean(b), s));
    assert Instr(w, n, ins, Pushed(s, Boolean(b))) == Choose(w, n, taken, otherwise, Pushed(s, Boolean(b)));
  }
}
