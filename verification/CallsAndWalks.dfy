/** What calls and walks come to, once what they run is known. */
module CallsAndWalks {
  import opened Ints
  import opened Wasm
  import opened Types
  import opened Run
  import opened Compile
  import opened Fates
  import opened Slots
  import opened Simulation
  import Fuel
  import Ir

  // -- entering a function ---------------------------------------------------

  /** The local of a slot holds what the slot does, when locals are laid out in order. */
  lemma {:induction false} EncAt(vs: seq<Ir.Val>, types: seq<Ty>, i: nat)
    requires HasTypes(vs, types) && i < |types| && ValTypeOf(types[i]).Some?
    ensures |Represented(types[..i])| < |EncAll(vs)|
    ensures Enc(vs[i]) == [EncAll(vs)[|Represented(types[..i])|]]
    decreases i
  {
    if i == 0 {
      assert types[..0] == [];
    } else {
      EncAt(vs[1..], types[1..], i - 1);
      assert types[..i][1..] == types[1..][..i - 1];
    }
  }

  /** Locals that start with every slot in order show those slots. */
  lemma ShowsInOrder(cx: Cx, env: seq<Ir.Val>, rest: seq<Value>)
    requires HasTypes(env, cx.f.locals)
    ensures Shows(cx, env, EncAll(env) + rest)
  {
    forall i | 0 <= i < |env| ensures ShowsAt(cx, env[i], EncAll(env) + rest, i) {
      SlotRepresented(cx.f.locals, 0, i);
      if SlotOf(cx, i).Some? {
        EncAt(env, cx.f.locals, i);
      }
    }
  }

  function Defaults(types: seq<Ty>): (vs: seq<Ir.Val>)
    ensures |vs| == |types|
  {
    seq(|types|, i requires 0 <= i < |types| => Ir.Default(types[i]))
  }

  function Zeros(types: seq<ValType>): (vs: seq<Value>)
    ensures |vs| == |types|
  {
    seq(|types|, i requires 0 <= i < |types| => Zero(types[i]))
  }

  lemma ZerosAppend(one: seq<ValType>, two: seq<ValType>)
    ensures Zeros(one + two) == Zeros(one) + Zeros(two)
  {
  }

  lemma DefaultIsZero(ty: Ty)
    requires Ir.Scalar(ty)
    ensures Enc(Ir.Default(ty)) == Zeros(Results(ValTypeOf(ty)))
  {
    if !ty.Unit? {
      assert Zeros(Results(ValTypeOf(ty))) == [Zero(ValTypeOf(ty).value)];
    }
  }

  lemma {:induction false} DefaultsAreZero(types: seq<Ty>)
    requires forall ty | ty in types :: Ir.Scalar(ty)
    ensures EncAll(Defaults(types)) == Zeros(Represented(types))
    decreases |types|
  {
    if types != [] {
      DefaultsAreZero(types[1..]);
      assert Defaults(types)[1..] == Defaults(types[1..]);
      assert types[0] in types;
      ZerosAppend(Results(ValTypeOf(types[0])), Represented(types[1..]));
      DefaultIsZero(types[0]);
    }
  }

  /** What a body starts from: the arguments in the first slots and nothing yet in the rest. */
  lemma BegunShows(cx: Cx, strings: Strings, func: Func, args: seq<Ir.Val>, memory: seq<byte>)
    requires Ir.FunctionOk(cx.p, cx.f) && HasTypes(args, cx.f.params) && Begin(cx.f, strings).extra <= func.locals
    ensures var s := Begun(func, EncAll(args), memory);
      && Shows(cx, Ir.Slots(cx.f, args), s.locals) && s.stack == [] && s.memory == memory
      && |s.locals| == Params(cx.f) + |func.locals|
  {
    var declared := cx.f.locals[|cx.f.params|..];
    SlotsInOrder(cx, args, declared);
    LocalsInOrder(cx, Ir.Slots(cx.f, args), func, EncAll(args), Represented(declared), memory);
  }

  lemma LocalsInOrder(cx: Cx, env: seq<Ir.Val>, func: Func, args: seq<Value>, declared: seq<ValType>, memory: seq<byte>)
    requires HasTypes(env, cx.f.locals) && EncAll(env) == args + Zeros(declared) && declared <= func.locals
    ensures var s := Begun(func, args, memory);
      && Shows(cx, env, s.locals) && s.stack == [] && s.memory == memory
      && |s.locals| == |args| + |func.locals|
  {
    var temporaries := func.locals[|declared|..];
    assert func.locals == declared + temporaries;
    ZerosAppend(declared, temporaries);
    assert Begun(func, args, memory).locals == args + Zeros(func.locals) == EncAll(env) + Zeros(temporaries);
    ShowsInOrder(cx, env, Zeros(temporaries));
  }

  lemma SlotsInOrder(cx: Cx, args: seq<Ir.Val>, declared: seq<Ty>)
    requires Ir.FunctionOk(cx.p, cx.f) && HasTypes(args, cx.f.params) && declared == cx.f.locals[|cx.f.params|..]
    ensures HasTypes(Ir.Slots(cx.f, args), cx.f.locals)
    ensures EncAll(Ir.Slots(cx.f, args)) == EncAll(args) + Zeros(Represented(declared))
    ensures |EncAll(args)| == Params(cx.f) && cx.f.params <= cx.f.locals
  {
    var env := Ir.Slots(cx.f, args);
    assert env == args + Defaults(declared);
    EncAppend(args, Defaults(declared));
    forall ty | ty in declared ensures Ir.Scalar(ty) {
      assert ty in cx.f.locals;
    }
    DefaultsAreZero(declared);
    EncRepresented(args, cx.f.params);
    forall i | 0 <= i < |env| ensures Ir.ValTy(env[i]) == cx.f.locals[i] {
      assert cx.f.locals[i] in cx.f.locals;
    }
  }

  // -- answering a call ------------------------------------------------------

  function Reply(v: Ir.Val): Option<Value> {
    if Enc(v) == [] then None else Some(Enc(v)[0])
  }

  /** The function at this index does, called this way, what the IR says. */
  ghost predicate Invokes(
    w: World, index: nat, args: seq<Value>, memory: seq<byte>, r: Ir.Eval<Ir.Val>, depth: nat, cost: nat)
  {
    match r
    case Gives(v, _) => Invoke(w, cost, index, args, memory) == Done(0, (memory, Reply(v)))
    case Returns(_) => false
    case Fails(code, message) => Invoke(w, cost, index, args, memory) == Trapped(Failed(code, message))
    case Deep => Invoke(w, depth, index, args, memory) == Trapped(TooLong)
  }

  /** What a call by the IR answers, once the body's outcome is known. */
  function Called(r: Ir.Eval<Ir.Val>): Ir.Eval<Ir.Val> {
    match r case Returns(v) => Ir.Gives(v, []) case other => other
  }

  /** A body that ends in the return every function ends in has answered. */
  lemma BodyAnswers(
    w: World, cx: Cx, g: nat, func: Func, code: seq<Ins>, args: seq<Value>, memory: seq<byte>,
    r: Ir.Eval<Ir.Val>, depth: nat, keep: nat, f: Fate)
    returns (cost: nat)
    requires g < |w.m.funcs| && w.m.funcs[g] == func && func.body == code + [Ins.Return]
    requires func.typeIndex < |w.m.types| && w.m.types[func.typeIndex].results == Results(ValTypeOf(cx.f.ret))
    requires Runs(w, cx, keep, code, Begun(func, args, memory), One(r), [cx.f.ret], depth, Normal, f)
    ensures Invokes(w, g + |w.m.imports|, args, memory, Called(r), depth, cost)
  {
    var s := Begun(func, args, memory);
    if r.Gives? {
      var last := ReturnRuns(w, cx, keep, s, r.value, r.env, f, depth);
      MeetsThen(w, code, [Ins.Return], s, f, last);
      EncOne(r.value);
      assert [r.value][0] == r.value;
      assert f.state.stack == Enc(r.value);
      cost := AnswerOnTop(w, cx, g, func, args, memory, r.value, Joined(f, last));
    } else {
      MeetsThen(w, code, [Ins.Return], s, f, f);
      if r.Returns? {
        cost := AnswerOnTop(w, cx, g, func, args, memory, r.answer, f);
      } else {
        cost := if f.Dies? then f.cost else 0;
        NoAnswer(w, g, func, args, memory, f);
      }
    }
  }

  lemma AnswerOnTop(
    w: World, cx: Cx, g: nat, func: Func, args: seq<Value>, memory: seq<byte>, v: Ir.Val, f: Fate)
    returns (cost: nat)
    requires g < |w.m.funcs| && w.m.funcs[g] == func
    requires func.typeIndex < |w.m.types| && w.m.types[func.typeIndex].results == Results(ValTypeOf(cx.f.ret))
    requires Meets(w, func.body, Begun(func, args, memory), f)
    requires f.Ends? && Tops(f.state.stack, Enc(v)) && f.state.memory == memory && Ir.ValTy(v) == cx.f.ret
    ensures Invoke(w, cost, g + |w.m.imports|, args, memory) == Done(0, (memory, Reply(v)))
  {
    cost := f.cost;
    assert Body(w, cost, func.body, Begun(func, args, memory)) == Done(0, (f.state, f.flow));
    hide Body, Meets, Begun;
    assert g + |w.m.imports| - |w.m.imports| == g;
    if Enc(v) != [] {
      assert f.state.stack[|f.state.stack| - 1..][0] == f.state.stack[|f.state.stack| - 1];
    }
  }

  lemma NoAnswer(w: World, g: nat, func: Func, args: seq<Value>, memory: seq<byte>, f: Fate)
    requires g < |w.m.funcs| && w.m.funcs[g] == func && func.typeIndex < |w.m.types|
    requires Meets(w, func.body, Begun(func, args, memory), f) && !f.Ends?
    ensures f.Dies? ==> Invoke(w, f.cost, g + |w.m.imports|, args, memory) == Trapped(f.trap)
    ensures f.Late? ==> Invoke(w, f.limit, g + |w.m.imports|, args, memory) == Trapped(TooLong)
  {
    assert g + |w.m.imports| - |w.m.imports| == g;
  }

  /** The call instruction, once its arguments are on the stack and what it calls is known. */
  lemma CallMeets(
    w: World, site: nat, index: nat, s: State, args: seq<Value>, r: Ir.Eval<Ir.Val>, depth: nat, cost: nat)
    returns (f: Fate)
    requires Arity(w.m, index) == Ok(|args|)
    requires depth > 0 ==> Invokes(w, index, args, s.memory, r, depth - 1, cost)
    requires depth == 0 ==> r.Deep?
    ensures Meets(w, [Marked(site, Ins.Call(index))], s.(stack := s.stack + args), f)
    ensures match r
      case Gives(v, _) => f == Ends(cost + 1, s.(stack := s.stack + Enc(v)), Normal)
      case Returns(_) => false
      case Fails(code, message) => f == Dies(cost + 1, Failed(code, message))
      case Deep => f == Late(depth)
  {
    if depth == 0 {
      return Late(0);
    }
    var fuel := if r.Deep? then depth else cost + 1;
    var before := s.(stack := s.stack + args);
    RunOne(w, fuel, Marked(site, Ins.Call(index)), before);
    assert before.stack[..|s.stack|] == s.stack && before.stack[|s.stack|..] == args;
    assert Instr(w, fuel, Marked(site, Ins.Call(index)), before) == Apply(w, fuel - 1, index, before);
    if r.Gives? {
      var under := State(s.memory, s.locals, s.stack);
      assert (if Reply(r.value).Some? then Pushed(under, Reply(r.value).value) else under)
          == s.(stack := s.stack + Enc(r.value));
      f := Ends(cost + 1, s.(stack := s.stack + Enc(r.value)), Normal);
    } else if r.Fails? {
      f := Dies(cost + 1, Failed(r.code, r.message));
    } else {
      f := Late(depth);
    }
  }

  // -- walks -----------------------------------------------------------------

  /** What becomes of a loop. */
  ghost predicate Circles(w: World, turn: seq<Ins>, s: State, fate: Fate) {
    match fate
    case Ends(cost, out, flow) => Iterate(w, cost, turn, s) == Done(0, (out, flow))
    case Dies(cost, trap) => trap != TooLong && Iterate(w, cost, turn, s) == Trapped(trap)
    case Late(limit) => Iterate(w, limit, turn, s) == Trapped(TooLong)
  }

  /** A turn that does not jump to the loop's own label ends the loop. */
  lemma LastTurn(w: World, turn: seq<Ins>, s: State, f: Fate)
    requires Meets(w, turn, s, f) && (f.Ends? ==> f.flow != Break(0))
    ensures Circles(w, turn, s, if f.Ends? && f.flow.Break? then f.(flow := Break(f.flow.depth - 1)) else f)
  {
  }

  /** A turn that does starts it again. */
  lemma AnotherTurn(w: World, turn: seq<Ins>, s: State, f: Fate, g: Fate) returns (h: Fate)
    requires Meets(w, turn, s, f) && f.Ends? && f.flow == Break(0) && f.cost > 0
    requires Circles(w, turn, f.state, g)
    ensures Circles(w, turn, s, h)
    ensures match g
      case Ends(cost, out, flow) => h == Ends(f.cost + cost, out, flow)
      case Dies(cost, trap) => h == Dies(f.cost + cost, trap)
      case Late(limit) => h == Late(limit + 1)
  {
    if g.Late? {
      h := Late(g.limit + 1);
      if f.cost <= g.limit + 1 {
        Fuel.BodySpares(w, w, f.cost, g.limit + 1 - f.cost, turn, s);
        StillCircling(w, turn, f.state, g.limit + 1 - f.cost, g.limit);
      } else {
        NotBefore(w, turn, s, f, g.limit + 1);
      }
    } else {
      Fuel.BodySpares(w, w, f.cost, g.cost, turn, s);
      h := g.(cost := f.cost + g.cost);
    }
  }

  lemma StillCircling(w: World, turn: seq<Ins>, s: State, fuel: nat, limit: nat)
    requires fuel <= limit && Circles(w, turn, s, Late(limit))
    ensures Circles(w, turn, s, Late(fuel))
  {
    if Iterate(w, fuel, turn, s) != Trapped(TooLong) {
      Fuel.IterateSpares(w, w, fuel, limit - fuel, turn, s);
    }
  }

  function Walk(turn: seq<Ins>): Ins { Ins.Block(None, [Ins.Loop(None, turn)]) }

  /** The loop in its block: leaving the loop for the block is going on after the walk. */
  lemma WalkMeets(w: World, turn: seq<Ins>, s: State, f: Fate) returns (g: Fate)
    requires Circles(w, turn, s, f) && (f.Ends? ==> f.flow == Break(0) || f.flow == Returning)
    ensures Meets(w, [Walk(turn)], s, g)
    ensures match f
      case Ends(cost, out, flow) => g == Ends(cost + 2, out, if flow == Break(0) then Normal else flow)
      case Dies(cost, trap) => g == Dies(cost + 2, trap)
      case Late(limit) => g == Late(limit)
  {
    var n := if f.Late? then f.limit else f.cost;
    WalkRuns(w, turn, s, n);
    if f.Late? {
      g := Late(f.limit);
      NoLater(w, [Walk(turn)], s, f.limit, f.limit + 2);
    } else if f.Dies? {
      g := Dies(f.cost + 2, f.trap);
    } else {
      g := Ends(f.cost + 2, f.state, if f.flow == Break(0) then Normal else f.flow);
    }
  }

  lemma WalkRuns(w: World, turn: seq<Ins>, s: State, n: nat)
    ensures Body(w, n + 2, [Walk(turn)], s) == Leave(Iterate(w, n, turn, s))
  {
    var inner := Ins.Loop(None, turn);
    RunOne(w, n + 2, Walk(turn), s);
    RunOne(w, n + 1, inner, s);
    assert Instr(w, n + 1, inner, s) == Iterate(w, n, turn, s);
    assert Instr(w, n + 2, Walk(turn), s) == Leave(Body(w, n + 1, [inner], s));
  }

  /** The test at the top of a turn: a condition that does not hold leaves, one that does goes on. */
  lemma TestTop(w: World, s: State, b: bool)
    ensures Meets(w, [Num(I32Eqz), BrIf(1)], Pushed(s, Boolean(b)), Ends(2, s, if b then Normal else Break(1)))
  {
    var one := Pushed(s, Boolean(!b));
    UnarySteps(w, I32Eqz, s, Boolean(b));
    RunOne(w, 1, BrIf(1), one);
    assert Popped(one) == Ok((Boolean(!b), s));
    assert Instr(w, 1, BrIf(1), one) == BranchIf(0, 1, one);
    MeetsThen(w, [Num(I32Eqz)], [BrIf(1)], Pushed(s, Boolean(b)), Ends(1, one, Normal),
              Ends(1, s, if b then Normal else Break(1)));
    assert [Num(I32Eqz)] + [BrIf(1)] == [Num(I32Eqz), BrIf(1)];
  }

  lemma JumpMeets(w: World, s: State)
    ensures Meets(w, [Br(0)], s, Ends(1, s, Break(0)))
  {
    RunOne(w, 1, Br(0), s);
  }
}
