/**
 * How a state of the machine stands for a state of the IR, and what becomes of a run
 * compared with what the IR gives: the relation the compiler's correctness is proved with.
 */
module Simulation {
  import opened Ints
  import opened Wasm
  import opened Types
  import opened Run
  import opened Compile
  import opened Fates
  import opened Slots
  import opened CompileRuns
  import Exact
  import Ir

  // -- values ----------------------------------------------------------------

  /** What stands for a value on the stack: nothing for unit, a single value for the rest. */
  function Enc(v: Ir.Val): seq<Value> {
    match v case UnitV => [] case BoolV(b) => [Boolean(b)] case IntV(n) => [V64(n)]
  }

  function EncAll(vs: seq<Ir.Val>): seq<Value> {
    if vs == [] then [] else Enc(vs[0]) + EncAll(vs[1..])
  }

  lemma EncOne(v: Ir.Val)
    ensures EncAll([v]) == Enc(v)
  {
    assert [v][1..] == [];
  }

  lemma {:induction false} EncAppend(one: seq<Ir.Val>, two: seq<Ir.Val>)
    ensures EncAll(one + two) == EncAll(one) + EncAll(two)
    decreases |one|
  {
    if one == [] {
      assert one + two == two;
    } else {
      assert (one + two)[1..] == one[1..] + two;
      EncAppend(one[1..], two);
    }
  }

  ghost predicate HasTypes(vs: seq<Ir.Val>, types: seq<Ty>) {
    |vs| == |types| && forall i | 0 <= i < |vs| :: Ir.ValTy(vs[i]) == types[i]
  }

  lemma TypedAppend(one: seq<Ir.Val>, types1: seq<Ty>, two: seq<Ir.Val>, types2: seq<Ty>)
    requires HasTypes(one, types1) && HasTypes(two, types2)
    ensures HasTypes(one + two, types1 + types2)
  {
  }

  lemma {:induction false} EncRepresented(vs: seq<Ir.Val>, types: seq<Ty>)
    requires HasTypes(vs, types)
    ensures |EncAll(vs)| == |Represented(types)|
    decreases |vs|
  {
    if vs != [] {
      EncRepresented(vs[1..], types[1..]);
    }
  }

  // -- locals ----------------------------------------------------------------

  /** A slot of the IR is the local it was given, if it was given one. */
  ghost predicate ShowsAt(cx: Cx, v: Ir.Val, locals: seq<Value>, i: nat)
    requires i < |cx.f.locals|
  {
    && Ir.ValTy(v) == cx.f.locals[i]
    && (SlotOf(cx, i).Some? ==> SlotOf(cx, i).value < |locals| && Enc(v) == [locals[SlotOf(cx, i).value]])
  }

  ghost predicate Shows(cx: Cx, env: seq<Ir.Val>, locals: seq<Value>) {
    |env| == |cx.f.locals| && forall i | 0 <= i < |env| :: ShowsAt(cx, env[i], locals, i)
  }

  /** The first local that is not a slot of the IR. */
  function Base(cx: Cx): nat { |Represented(cx.f.locals)| }

  /** The temporaries handed out before `keep` are as they were. */
  ghost predicate Kept(cx: Cx, keep: nat, before: seq<Value>, now: seq<Value>) {
    |now| == |before| && forall j | Base(cx) <= j < keep && j < |before| :: now[j] == before[j]
  }

  lemma SlotBelow(cx: Cx, i: nat)
    requires i < |cx.f.locals| && SlotOf(cx, i).Some?
    ensures SlotOf(cx, i).value < Base(cx)
  {
    SlotRepresented(cx.f.locals, 0, i);
  }

  /** Locals that are not slots can change without the IR noticing. */
  lemma ShowsOutside(cx: Cx, env: seq<Ir.Val>, before: seq<Value>, now: seq<Value>)
    requires Shows(cx, env, before) && |now| == |before|
    requires forall j | 0 <= j < Base(cx) && j < |before| :: now[j] == before[j]
    ensures Shows(cx, env, now)
  {
    forall i | 0 <= i < |env| ensures ShowsAt(cx, env[i], now, i) {
      assert ShowsAt(cx, env[i], before, i);
      if SlotOf(cx, i).Some? {
        SlotBelow(cx, i);
      }
    }
  }

  /** Writing a slot's local is assigning the slot. */
  lemma ShowsAssigned(cx: Cx, env: seq<Ir.Val>, locals: seq<Value>, i: nat, v: Ir.Val, x: Value)
    requires Shows(cx, env, locals) && i < |cx.f.locals| && Ir.ValTy(v) == cx.f.locals[i]
    requires SlotOf(cx, i).Some? && SlotOf(cx, i).value < |locals| && Enc(v) == [x]
    ensures Shows(cx, env[i := v], locals[SlotOf(cx, i).value := x])
  {
    var after := env[i := v];
    forall j | 0 <= j < |after| ensures ShowsAt(cx, after[j], locals[SlotOf(cx, i).value := x], j) {
      assert ShowsAt(cx, env[j], locals, j);
      if j != i && SlotOf(cx, j).Some? {
        SlotsApart(cx.f.locals, 0, if i < j then i else j, if i < j then j else i);
      }
    }
  }

  lemma ShowsUnit(cx: Cx, env: seq<Ir.Val>, locals: seq<Value>, i: nat, v: Ir.Val)
    requires Shows(cx, env, locals) && i < |cx.f.locals| && Ir.ValTy(v) == cx.f.locals[i] && SlotOf(cx, i).None?
    ensures Shows(cx, env[i := v], locals)
  {
    var after := env[i := v];
    forall j | 0 <= j < |after| ensures ShowsAt(cx, after[j], locals, j) {
      assert ShowsAt(cx, env[j], locals, j);
    }
  }

  // -- outcomes --------------------------------------------------------------

  type Meaning = Ir.Eval<seq<Ir.Val>>

  function One(r: Ir.Eval<Ir.Val>): Meaning {
    match r
    case Gives(v, env) => Ir.Gives([v], env)
    case Returns(v) => Ir.Returns(v)
    case Fails(code, message) => Ir.Fails(code, message)
    case Deep => Ir.Deep
  }

  function Nothing(r: Ir.Eval<()>): Meaning {
    match r
    case Gives(_, env) => Ir.Gives([], env)
    case Returns(v) => Ir.Returns(v)
    case Fails(code, message) => Ir.Fails(code, message)
    case Deep => Ir.Deep
  }

  ghost predicate Tops(stack: seq<Value>, values: seq<Value>) {
    |values| <= |stack| && stack[|stack| - |values|..] == values
  }

  /**
   * The run that met this fate did what the IR says: left the values on the stack and
   * the slots as they should be, or returned with the answer on top, or stopped with the
   * failure; and what the IR does not reach within a depth, the run does not reach within
   * as many instructions.
   */
  ghost predicate Lands(cx: Cx, keep: nat, s: State, r: Meaning, types: seq<Ty>, depth: nat, flow: Flow, fate: Fate) {
    match r
    case Gives(vs, env) =>
      && fate.Ends? && fate.flow == flow && fate.state.stack == s.stack + EncAll(vs)
      && fate.state.memory == s.memory && HasTypes(vs, types)
      && Kept(cx, keep, s.locals, fate.state.locals) && Shows(cx, env, fate.state.locals)
    case Returns(v) =>
      && fate.Ends? && fate.flow == Returning && Tops(fate.state.stack, Enc(v))
      && fate.state.memory == s.memory && Ir.ValTy(v) == cx.f.ret
    case Fails(code, message) => fate.Dies? && fate.trap == Failed(code, message)
    case Deep => fate == Late(depth)
  }

  ghost predicate Runs(
    w: World, cx: Cx, keep: nat, code: seq<Ins>, s: State, r: Meaning, types: seq<Ty>, depth: nat, flow: Flow, fate: Fate)
  {
    Meets(w, code, s, fate) && Lands(cx, keep, s, r, types, depth, flow, fate)
  }

  /** What is left of an outcome once the values already there are put under it. */
  function Behind(vs: seq<Ir.Val>, r: Meaning): Meaning {
    if r.Gives? then Ir.Gives(vs + r.value, r.env) else r
  }

  /** The second part starts where the first ended. */
  lemma Rebased(
    cx: Cx, keep: nat, later: nat, s: State, r1: Meaning, types1: seq<Ty>, f: Fate,
    r2: Meaning, types2: seq<Ty>, depth: nat, flow: Flow, g: Fate)
    requires Lands(cx, keep, s, r1, types1, depth, Normal, f) && r1.Gives? && keep <= later
    requires Lands(cx, later, f.state, r2, types2, depth, flow, g)
    ensures Lands(cx, keep, s, Behind(r1.value, r2), types1 + types2, depth, flow, g)
  {
    hide Shows, EncAll, HasTypes;
    if r2.Gives? {
      TypedAppend(r1.value, types1, r2.value, types2);
      EncAppend(r1.value, r2.value);
      assert g.state.stack == s.stack + (EncAll(r1.value) + EncAll(r2.value));
    }
  }

  lemma Then(
    w: World, cx: Cx, keep: nat, one: seq<Ins>, two: seq<Ins>, s: State,
    r1: Meaning, types1: seq<Ty>, f: Fate, r: Meaning, types: seq<Ty>, depth: nat, flow: Flow, g: Fate)
    requires Runs(w, cx, keep, one, s, r1, types1, depth, Normal, f)
    requires r1.Gives? ==> Meets(w, two, f.state, g) && Lands(cx, keep, s, r, types, depth, flow, g)
    requires !r1.Gives? ==> r == r1
    ensures Runs(w, cx, keep, one + two, s, r, types, depth, flow, Joined(f, g))
  {
    hide Meets;
    MeetsThen(w, one, two, s, f, g);
  }

  /** Two runs end to end, where the second was proved over any stack it might start on. */
  lemma ThenMore(
    w: World, cx: Cx, keep: nat, later: nat, one: seq<Ins>, two: seq<Ins>, s: State,
    r1: Meaning, types1: seq<Ty>, f: Fate, r2: Meaning, types2: seq<Ty>, depth: nat, flow: Flow, g: Fate)
    requires Runs(w, cx, keep, one, s, r1, types1, depth, Normal, f) && keep <= later
    requires r1.Gives? ==> Runs(w, cx, later, two, f.state, r2, types2, depth, flow, g)
    ensures Runs(w, cx, keep, one + two, s, if r1.Gives? then Behind(r1.value, r2) else r1, types1 + types2, depth, flow, Joined(f, g))
  {
    hide Meets;
    if r1.Gives? {
      Rebased(cx, keep, later, s, r1, types1, f, r2, types2, depth, flow, g);
    }
    Then(w, cx, keep, one, two, s, r1, types1, f, if r1.Gives? then Behind(r1.value, r2) else r1,
         types1 + types2, depth, flow, g);
  }

  /** Instructions that replace the values on top by others. */
  lemma Replaces(
    w: World, cx: Cx, keep: nat, s: State, vs: seq<Ir.Val>, env: seq<Ir.Val>, types1: seq<Ty>, f: Fate,
    code: seq<Ins>, ws: seq<Ir.Val>, types: seq<Ty>, depth: nat)
    returns (g: Fate)
    requires Lands(cx, keep, s, Ir.Gives(vs, env), types1, depth, Normal, f) && HasTypes(ws, types)
    requires StepsTo(w, code, f.state, f.state.(stack := s.stack + EncAll(ws)))
    ensures Meets(w, code, f.state, g) && Lands(cx, keep, s, Ir.Gives(ws, env), types, depth, Normal, g)
  {
    g := Ends(|code|, f.state.(stack := s.stack + EncAll(ws)), Normal);
  }

  // -- the ends of expressions -----------------------------------------------

  /** A literal, or anything else that only pushes. */
  lemma Pushes(w: World, cx: Cx, keep: nat, code: seq<Ins>, s: State, env: seq<Ir.Val>, v: Ir.Val, depth: nat) returns (f: Fate)
    requires Shows(cx, env, s.locals) && StepsTo(w, code, s, s.(stack := s.stack + Enc(v)))
    ensures Runs(w, cx, keep, code, s, Ir.Gives([v], env), [Ir.ValTy(v)], depth, Normal, f)
  {
    EncOne(v);
    f := Ends(|code|, s.(stack := s.stack + Enc(v)), Normal);
  }

  lemma NoSteps(w: World, s: State)
    ensures StepsTo(w, [], s, s)
  {
  }

  lemma LocalRuns(w: World, cx: Cx, keep: nat, s: State, env: seq<Ir.Val>, i: nat, depth: nat) returns (f: Fate)
    requires Shows(cx, env, s.locals) && i < |cx.f.locals|
    ensures Runs(w, cx, keep, if SlotOf(cx, i).Some? then [LocalGet(SlotOf(cx, i).value)] else [], s,
                 Ir.Gives([env[i]], env), [cx.f.locals[i]], depth, Normal, f)
  {
    assert ShowsAt(cx, env[i], s.locals, i);
    SlotRepresented(cx.f.locals, 0, i);
    if SlotOf(cx, i).Some? {
      var at := SlotOf(cx, i).value;
      GetSteps(w, at, s);
      f := Pushes(w, cx, keep, [LocalGet(at)], s, env, env[i], depth);
    } else {
      NoSteps(w, s);
      assert s.(stack := s.stack + Enc(env[i])) == s;
      f := Pushes(w, cx, keep, [], s, env, env[i], depth);
    }
  }

  /** One value on top of what was there. */
  lemma OnTop(s: State, stack: seq<Value>, v: Value)
    requires s.stack == stack + [v]
    ensures s == Pushed(s.(stack := stack), v)
  {
  }

  lemma NotRuns(w: World, cx: Cx, keep: nat, s: State, b: bool, env: seq<Ir.Val>, f: Fate, depth: nat) returns (g: Fate)
    requires Lands(cx, keep, s, Ir.Gives([Ir.BoolV(b)], env), [Ty.Bool], depth, Normal, f)
    ensures Meets(w, [Num(I32Eqz)], f.state, g)
    ensures Lands(cx, keep, s, Ir.Gives([Ir.BoolV(!b)], env), [Ty.Bool], depth, Normal, g)
  {
    EncOne(Ir.BoolV(b));
    EncOne(Ir.BoolV(!b));
    OnTop(f.state, s.stack, Boolean(b));
    UnarySteps(w, I32Eqz, f.state.(stack := s.stack), Boolean(b));
    g := Replaces(w, cx, keep, s, [Ir.BoolV(b)], env, [Ty.Bool], f, [Num(I32Eqz)], [Ir.BoolV(!b)], [Ty.Bool], depth);
  }

  /** The value on top into a temporary. */
  lemma StoresTop(w: World, cx: Cx, keep: nat, s: State, n: i64, env: seq<Ir.Val>, f: Fate, x: nat, depth: nat) returns (g: Fate)
    requires Lands(cx, keep, s, Ir.Gives([Ir.IntV(n)], env), [Ty.Int], depth, Normal, f)
    requires keep <= x && Base(cx) <= x < |s.locals|
    ensures Meets(w, [LocalSet(x)], f.state, g)
    ensures Lands(cx, keep, s, Ir.Gives([], env), [], depth, Normal, g)
    ensures g.Ends? && g.state == State(f.state.memory, f.state.locals[x := V64(n)], s.stack)
  {
    EncOne(Ir.IntV(n));
    OnTop(f.state, s.stack, V64(n));
    SetSteps(w, x, f.state.(stack := s.stack), V64(n));
    g := Ends(1, State(f.state.memory, f.state.locals[x := V64(n)], s.stack), Normal);
    ShowsOutside(cx, env, f.state.locals, g.state.locals);
  }

  /** Checked arithmetic on temporaries leaves its answer, or fails, and touches one temporary. */
  lemma AnswersLand(
    w: World, cx: Cx, keep: nat, code: seq<Ins>, s: State, env: seq<Ir.Val>, f: Fate,
    r: Ir.Eval<Ir.Val>, x: nat, depth: nat, g: Fate)
    requires Lands(cx, keep, s, Ir.Gives([], env), [], depth, Normal, f)
    requires Answers(w, code, f.state, r, x, g) && keep <= x && Base(cx) <= x
    ensures Meets(w, code, f.state, g)
    ensures Lands(cx, keep, s, if r.Gives? then Ir.Gives([r.value], env) else One(r), [Ty.Int], depth, Normal, g)
  {
    if r.Gives? {
      EncOne(r.value);
      ShowsOutside(cx, env, f.state.locals, g.state.locals);
    }
  }

  lemma CompareSteps(w: World, s: State, site: nat, op: Ir.BinaryOp, x: Ir.Val, y: Ir.Val, operand: Ty)
    requires !Ir.Arithmetic(op) && Ir.ValTy(x) == operand && Ir.ValTy(y) == operand && Ir.Operands(op, operand, operand)
    ensures StepsTo(w, [Marked(site, BinaryIns(op, operand))], s.(stack := s.stack + (Enc(x) + Enc(y))),
                    Pushed(s, Boolean(Ir.Compare(op, x, y))))
  {
    var v := Boolean(Ir.Compare(op, x, y));
    if x.UnitV? {
      assert s.stack + (Enc(x) + Enc(y)) == s.stack;
      MarkedSteps(w, site, BinaryIns(op, operand), s, Pushed(s, v));
    } else {
      var both := s.(stack := s.stack + (Enc(x) + Enc(y)));
      assert both == Pushed(Pushed(s, Enc(x)[0]), Enc(y)[0]);
      var num := CompareNum(op, x, y, operand);
      NumExec(s, num, Enc(x)[0], Enc(y)[0], v);
      MarkedSteps(w, site, BinaryIns(op, operand), both, Pushed(s, v));
    }
  }

  lemma NumExec(s: State, num: NumOp, left: Value, right: Value, v: Value)
    requires !Run.Unary(num) && BinaryOn(num, AsI64(left), AsI64(right)) == Ok(v)
    ensures ExecSimple(Num(num), Pushed(Pushed(s, left), right)) == Ok(Pushed(s, v))
  {
    assert Popped(Pushed(Pushed(s, left), right)) == Ok((right, Pushed(s, left)));
    assert Popped(Pushed(s, left)) == Ok((left, s));
  }

  /** The instruction a comparison becomes, on the values that stand for its operands. */
  lemma CompareNum(op: Ir.BinaryOp, x: Ir.Val, y: Ir.Val, operand: Ty) returns (num: NumOp)
    requires !Ir.Arithmetic(op) && Ir.ValTy(x) == operand && Ir.ValTy(y) == operand && Ir.Operands(op, operand, operand)
    requires !x.UnitV?
    ensures BinaryIns(op, operand) == Num(num) && !Run.Unary(num)
    ensures BinaryOn(num, AsI64(Enc(x)[0]), AsI64(Enc(y)[0])) == Ok(Boolean(Ir.Compare(op, x, y)))
  {
    num := BinaryIns(op, operand).op;
    if op.Eq? || op.Ne? {
      if x.BoolV? {
        assert num == if op.Eq? then I32Eq else I32Ne;
      }
    } else if op.And? || op.Or? {
      assert x.BoolV? && y.BoolV?;
    } else {
      assert x.IntV? && y.IntV?;
    }
  }

  lemma CompareRuns(
    w: World, cx: Cx, keep: nat, s: State, x: Ir.Val, y: Ir.Val, env: seq<Ir.Val>, f: Fate,
    site: nat, op: Ir.BinaryOp, operand: Ty, depth: nat) returns (g: Fate)
    requires Lands(cx, keep, s, Ir.Gives([x] + [y], env), [operand] + [operand], depth, Normal, f)
    requires !Ir.Arithmetic(op) && Ir.Operands(op, operand, operand)
    ensures Meets(w, [Marked(site, BinaryIns(op, operand))], f.state, g)
    ensures Lands(cx, keep, s, Ir.Gives([Ir.BoolV(Ir.Compare(op, x, y))], env), [Ty.Bool], depth, Normal, g)
  {
    hide StepsTo;
    var v := Ir.BoolV(Ir.Compare(op, x, y));
    assert ([x] + [y])[0] == x && ([x] + [y])[1] == y;
    EncAppend([x], [y]);
    EncOne(x);
    EncOne(y);
    EncOne(v);
    CompareSteps(w, f.state.(stack := s.stack), site, op, x, y, operand);
    g := Replaces(w, cx, keep, s, [x] + [y], env, [operand] + [operand], f, [Marked(site, BinaryIns(op, operand))],
                  [v], [Ty.Bool], depth);
  }

  // -- the ends of statements ------------------------------------------------

  lemma AssignRuns(w: World, cx: Cx, keep: nat, s: State, v: Ir.Val, env: seq<Ir.Val>, f: Fate, i: nat, depth: nat) returns (g: Fate)
    requires i < |cx.f.locals| && |env| == |cx.f.locals|
    requires Lands(cx, keep, s, Ir.Gives([v], env), [cx.f.locals[i]], depth, Normal, f)
    ensures Meets(w, if SlotOf(cx, i).Some? then [LocalSet(SlotOf(cx, i).value)] else [], f.state, g)
    ensures Lands(cx, keep, s, Ir.Gives([], env[i := v]), [], depth, Normal, g)
  {
    EncOne(v);
    SlotRepresented(cx.f.locals, 0, i);
    assert ShowsAt(cx, env[i], f.state.locals, i);
    assert [v][0] == v;
    if SlotOf(cx, i).Some? {
      var at, x := SlotOf(cx, i).value, Enc(v)[0];
      SlotBelow(cx, i);
      OnTop(f.state, s.stack, x);
      SetSteps(w, at, f.state.(stack := s.stack), x);
      ShowsAssigned(cx, env, f.state.locals, i, v, x);
      g := Ends(1, State(f.state.memory, f.state.locals[at := x], s.stack), Normal);
    } else {
      NoSteps(w, f.state);
      ShowsUnit(cx, env, f.state.locals, i, v);
      g := Ends(0, f.state, Normal);
    }
  }

  lemma DiscardRuns(w: World, cx: Cx, keep: nat, s: State, v: Ir.Val, env: seq<Ir.Val>, f: Fate, ty: Ty, depth: nat) returns (g: Fate)
    requires Lands(cx, keep, s, Ir.Gives([v], env), [ty], depth, Normal, f)
    ensures Meets(w, if ValTypeOf(ty).Some? then [Drop] else [], f.state, g)
    ensures Lands(cx, keep, s, Ir.Gives([], env), [], depth, Normal, g)
  {
    EncOne(v);
    assert [v][0] == v;
    if ValTypeOf(ty).Some? {
      SimpleSteps(w, Drop, f.state, f.state.(stack := s.stack));
      g := Ends(1, f.state.(stack := s.stack), Normal);
    } else {
      NoSteps(w, f.state);
      g := Ends(0, f.state, Normal);
    }
  }

  lemma ReturnRuns(w: World, cx: Cx, keep: nat, s: State, v: Ir.Val, env: seq<Ir.Val>, f: Fate, depth: nat) returns (g: Fate)
    requires Lands(cx, keep, s, Ir.Gives([v], env), [cx.f.ret], depth, Normal, f)
    ensures Meets(w, [Ins.Return], f.state, g)
    ensures forall types :: Lands(cx, keep, s, Ir.Returns(v), types, depth, Normal, g)
    ensures g == Ends(1, f.state, Returning)
  {
    EncOne(v);
    assert [v][0] == v;
    RunOne(w, 1, Ins.Return, f.state);
    g := Ends(1, f.state, Returning);
  }

  lemma FailRuns(w: World, s: State, d: Draft, code: Text, message: Text, site: nat, placed: seq<(Text, nat)>)
    requires Primed(s.memory, placed) && Failure(d, code, message).draft.strings.placed <= placed
    ensures Meets(w, Failure(d, code, message).code + [Marked(site, Ins.Unreachable)], s, Dies(7, Failed(code, message)))
  {
    var one := Place(d.strings, code);
    var two := Place(one.0, message);
    assert one.0.placed <= two.0.placed <= placed;
    PlaceReads(s.memory, d.strings, code, placed);
    PlaceReads(s.memory, one.0, message, placed);
    FailDies(w, s, one.1, code, two.1, message, Marked(site, Ins.Unreachable));
  }
}
