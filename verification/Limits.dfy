/**
 * Why soundness asks for more than validating. Each lemma here is a module that the
 * specified rules accept and that goes wrong in this runner, one for every condition
 * `Soundness.WellFormed` adds and for the table calls `Soundness.RunsAreSound` sets aside.
 */
module Limits {
  import opened Ints
  import opened Wasm
  import opened Validate
  import opened Run

  function Alone(m: Module): World { World(m, None, false) }

  /** One function of one type, and nothing else. */
  function Single(ty: FuncType, body: seq<Ins>): Module {
    Module([ty], [], [Func(0, [], body)], None, [], [])
  }

  lemma Pair(env: Env, c: Control, one: Ins, two: Ins)
    requires Sound(c)
    ensures CheckBody(env, c, [one, two]) ==
            if CheckIns(env, c, one).None? then None else CheckIns(env, CheckIns(env, c, one).value, two)
  {
    assert [one, two][1..] == [two] && [two][1..] == [];
    if CheckIns(env, c, one).Some? {
      var next := CheckIns(env, c, one).value;
      assert CheckBody(env, next, [two]) ==
             if CheckIns(env, next, two).None? then None else CheckBody(env, CheckIns(env, next, two).value, []);
    }
  }

  lemma PushPop(c: Control, ty: ValType)
    requires Sound(c)
    ensures PushAll(c, [ty]) == Push(c, ty)
    ensures PopExpect(Push(c, ty), ty) == Some(c) && PopAll(Push(c, ty), [ty]) == Some(c)
  {
    assert PopExpect(Push(c, ty), ty) == Some(c);
    assert [ty][..0] == [] && PopAll(c, []) == Some(c);
    assert PushAll(c, [ty]).stack == Push(c, ty).stack;
  }

  lemma RunPair(w: World, fuel: nat, one: Ins, two: Ins, s: State)
    requires fuel >= 2
    ensures var first := Instr(w, fuel, one, s);
      first.Done? && first.value.1 == Normal && first.fuel > 0 ==>
        Body(w, fuel, [one, two], s) == Instr(w, first.fuel, two, first.value.0)
  {
    assert [one, two][1..] == [two] && [two][1..] == [];
    var first := Instr(w, fuel, one, s);
    if first.Done? && first.value.1 == Normal && first.fuel > 0 {
      var second := Instr(w, first.fuel, two, first.value.0);
      assert Body(w, first.fuel, [two], first.value.0) == second;
    }
  }

  // -- a branch that leaves values behind ------------------------------------

  const INNER: seq<Ins> := [I32Const(7), Br(0)]
  const LOOSE: seq<Ins> := [I64Const(5), Ins.Block(None, INNER)]

  lemma LooseInside(env: Env, c: Control)
    requires Sound(c)
    ensures var entered := PushFrame(c, [], []);
      CheckBody(env, entered, INNER) == if env.rules.Tight? then None else Some(Cut(Push(entered, I32)))
  {
    var entered := PushFrame(c, [], []);
    Pair(env, entered, I32Const(7), Br(0));
    assert PushAll(entered, [I32]) == Push(entered, I32);
    assert CheckIns(env, entered, I32Const(7)) == Some(Push(entered, I32));
    assert CheckIns(env, Push(entered, I32), Br(0)) == CheckBr(env.rules, Push(entered, I32), 0);
  }

  lemma LooseBody(env: Env, c: Control)
    requires Sound(c)
    ensures CheckBody(env, c, LOOSE) == if env.rules.Tight? then None else Some(Push(c, I64))
  {
    var held := Push(c, I64);
    Pair(env, c, I64Const(5), Ins.Block(None, INNER));
    PushPop(c, I64);
    assert CheckIns(env, c, I64Const(5)) == Some(held);
    LooseInside(env, held);
    var cut := Cut(Push(PushFrame(held, [], []), I32));
    assert PopAll(cut, []) == Some(cut) && PopFrame(cut).Some?;
    assert PushAll(held, []) == held;
    assert CheckIns(env, held, Ins.Block(None, INNER)) == CheckNested(env, held, [], [], INNER);
  }

  /** The specified rules accept the branch, and only the tight ones turn it away. */
  lemma LooseBranchChecks(rules: Rules)
    ensures Validates(Single(FuncType([], [I64]), LOOSE), rules) <==> rules == Specified
  {
    var m := Single(FuncType([], [I64]), LOOSE);
    var c := Entry([I64]);
    LooseBody(Env(m, [], rules), c);
    PushPop(c, I64);
    assert PopFrame(Push(c, I64)).Some?;
    assert m.types[0].params + m.funcs[0].locals == [];
    assert FuncChecks(m, m.funcs[0], rules) <==> rules == Specified;
  }

  /** The value left under the branch is what the function answers with, in the wrong type. */
  lemma LooseBranchGoesWrong()
    ensures Invoke(Alone(Single(FuncType([], [I64]), LOOSE)), 4, 0, [], []) == Done(0, ([], Some(V32(7))))
  {
    var w := Alone(Single(FuncType([], [I64]), LOOSE));
    var s := State([], [], []);
    var held := Pushed(s, V64(5));
    var over := Pushed(held, V32(7));
    RunPair(w, 2, I32Const(7), Br(0), held);
    assert Instr(w, 2, I32Const(7), held) == Done(1, (over, Normal));
    assert Body(w, 2, INNER, held) == Done(0, (over, Break(0)));
    assert Instr(w, 3, Ins.Block(None, INNER), held) == Leave(Body(w, 2, INNER, held));
    assert Instr(w, 4, I64Const(5), s) == Done(3, (held, Normal));
    RunPair(w, 4, I64Const(5), Ins.Block(None, INNER), s);
    assert Begun(w.m.funcs[0], [], []) == s;
  }

  // -- a table call of the wrong signature -----------------------------------

  const TABLED: Module := Module(
    [FuncType([], [I64]), FuncType([], [I32])], [],
    [Func(0, [], [I32Const(0), CallIndirect(0)]), Func(1, [], [I32Const(9)])], None, [1], [])

  lemma TableCallChecks(rules: Rules)
    ensures Validates(TABLED, rules)
  {
    TableCallerChecks(TABLED, rules, 0, 0);
    TableCalleeChecks(rules);
  }

  lemma TableCallerChecks(m: Module, rules: Rules, slot: i32, at: nat)
    requires at < |m.types| && m.types[at] == FuncType([], [I64])
    ensures FuncChecks(m, Func(at, [], [I32Const(slot), CallIndirect(at)]), rules)
  {
    var c := Entry([I64]);
    var env := Env(m, [] + [], rules);
    TableCallerBody(env, c, slot, at, I64);
    PushPop(c, I64);
    assert PopFrame(Push(c, I64)).Some?;
  }

  lemma TableCallerBody(env: Env, c: Control, slot: i32, at: nat, result: ValType)
    requires Sound(c) && at < |env.m.types| && env.m.types[at] == FuncType([], [result])
    ensures CheckBody(env, c, [I32Const(slot), CallIndirect(at)]) == Some(Push(c, result))
  {
    Pair(env, c, I32Const(slot), CallIndirect(at));
    PushPop(c, I32);
    PushPop(c, result);
    assert CheckIns(env, c, I32Const(slot)) == CheckPlain(c, FuncType([], [I32]));
    assert [] + [I32] == [I32];
    assert CheckIns(env, Push(c, I32), CallIndirect(at)) == CheckPlain(Push(c, I32), FuncType([I32], [result]));
  }

  lemma TableCalleeChecks(rules: Rules)
    ensures FuncChecks(TABLED, TABLED.funcs[1], rules)
  {
    var c := Entry([I32]);
    TableCalleeBody(Env(TABLED, [] + [], rules), c);
    PushPop(c, I32);
    assert PopFrame(Push(c, I32)).Some?;
  }

  lemma TableCalleeBody(env: Env, c: Control)
    requires Sound(c)
    ensures CheckBody(env, c, [I32Const(9)]) == Some(Push(c, I32))
  {
    PushPop(c, I32);
    assert CheckIns(env, c, I32Const(9)) == Some(Push(c, I32));
    assert [I32Const(9)][1..] == [];
    assert CheckBody(env, c, [I32Const(9)]) == CheckBody(env, Push(c, I32), []);
  }

  lemma NineAnswers(fuel: nat)
    requires fuel > 0
    ensures Invoke(Alone(TABLED), fuel, 1, [], []) == Done(fuel - 1, ([], Some(V32(9))))
  {
    var w := Alone(TABLED);
    var s := State([], [], []);
    assert Begun(TABLED.funcs[1], [], []) == s;
    assert [I32Const(9)][1..] == [];
    assert Instr(w, fuel, I32Const(9), s) == Done(fuel - 1, (Pushed(s, V32(9)), Normal));
    assert Body(w, fuel, [I32Const(9)], s) == Body(w, fuel - 1, [], Pushed(s, V32(9)));
  }

  lemma TableCallerRuns(w: World, slot: i32, at: nat, s: State, v: Value)
    requires 0 <= slot < |w.m.table| && !w.checks
    requires Arity(w.m, w.m.table[slot]) == Ok(0)
    requires Invoke(w, 1, w.m.table[slot], [], s.memory) == Done(0, (s.memory, Some(v)))
    ensures Body(w, 3, [I32Const(slot), CallIndirect(at)], s) == Done(0, (Pushed(s, v), Normal))
  {
    var asked := Pushed(s, V32(slot));
    assert Popped(asked) == Ok((V32(slot), s));
    assert s.stack[|s.stack|..] == [] && s.stack[..|s.stack|] == s.stack;
    assert Apply(w, 1, w.m.table[slot], s) == Done(0, (Pushed(s, v), Normal));
    assert Instr(w, 2, CallIndirect(at), asked) == ApplyTable(w, 2, at, asked);
    assert Instr(w, 3, I32Const(slot), s) == Done(2, (asked, Normal));
    RunPair(w, 3, I32Const(slot), CallIndirect(at), s);
  }

  /** A function declared to answer with an i64 answers with an i32. */
  lemma TableCallGoesWrong()
    ensures Invoke(Alone(TABLED), 3, 0, [], []) == Done(0, ([], Some(V32(9))))
  {
    var s := State([], [], []);
    NineAnswers(1);
    TableCallerRuns(Alone(TABLED), 0, 0, s, V32(9));
    assert Begun(TABLED.funcs[0], [], []) == s;
  }

  // -- two results -----------------------------------------------------------

  const DOUBLED: Module := Module(
    [FuncType([], [I64]), FuncType([], [I64, I64])], [],
    [Func(0, [], [Call(1), Num(I64Add)]), Func(1, [], [I64Const(1), I64Const(2)])], None, [], [])

  lemma TwoResultsCheck(rules: Rules)
    ensures Validates(DOUBLED, rules)
  {
    TwoResultsCallerChecks(DOUBLED, rules, 0, 1);
    TwoResultsCalleeChecks(rules);
  }

  lemma TwoResultsCallerChecks(m: Module, rules: Rules, at: nat, callee: nat)
    requires at < |m.types| && m.types[at] == FuncType([], [I64])
    requires FuncTypeOf(m, callee) == Some(FuncType([], [I64, I64]))
    ensures FuncChecks(m, Func(at, [], [Call(callee), Num(I64Add)]), rules)
  {
    var c := Entry([I64]);
    TwoResultsCallerBody(Env(m, [] + [], rules), c, callee);
    PushPop(c, I64);
    assert PopFrame(Push(c, I64)).Some?;
  }

  lemma TwoResultsCallerBody(env: Env, c: Control, index: nat)
    requires Sound(c) && FuncTypeOf(env.m, index) == Some(FuncType([], [I64, I64]))
    ensures CheckBody(env, c, [Call(index), Num(I64Add)]) == Some(Push(c, I64))
  {
    Pair(env, c, Call(index), Num(I64Add));
    assert CheckIns(env, c, Call(index)) == CheckPlain(c, FuncType([], [I64, I64]));
    PopTwo(c);
    PushPop(c, I64);
    assert CheckIns(env, Push(Push(c, I64), I64), Num(I64Add))
        == CheckPlain(Push(Push(c, I64), I64), FuncType([I64, I64], [I64]));
  }

  lemma TwoResultsCalleeChecks(rules: Rules)
    ensures FuncChecks(DOUBLED, DOUBLED.funcs[1], rules)
  {
    var c := Entry([I64, I64]);
    TwoResultsCalleeBody(Env(DOUBLED, [] + [], rules), c);
    PopTwo(c);
    assert PopFrame(Push(Push(c, I64), I64)).Some?;
  }

  lemma TwoResultsCalleeBody(env: Env, c: Control)
    requires Sound(c)
    ensures CheckBody(env, c, [I64Const(1), I64Const(2)]) == Some(Push(Push(c, I64), I64))
  {
    ConstChecks(env, c, 1);
    ConstChecks(env, Push(c, I64), 2);
    Pair(env, c, I64Const(1), I64Const(2));
  }

  lemma ConstChecks(env: Env, c: Control, n: i64)
    requires Sound(c)
    ensures Sound(Push(c, I64)) && CheckIns(env, c, I64Const(n)) == Some(Push(c, I64))
  {
    assert CheckIns(env, c, I64Const(n)) == CheckPlain(c, FuncType([], [I64]));
    assert PushAll(c, [I64]).stack == Push(c, I64).stack;
  }

  lemma PopTwo(c: Control)
    requires Sound(c)
    ensures PopAll(Push(Push(c, I64), I64), [I64, I64]) == Some(c)
    ensures PushAll(c, [I64, I64]) == Push(Push(c, I64), I64)
  {
    PushPop(c, I64);
    PushPop(Push(c, I64), I64);
    assert [I64, I64][..1] == [I64];
    assert PushAll(c, [I64, I64]).stack == Push(Push(c, I64), I64).stack;
  }

  lemma TwoAnswers()
    ensures Invoke(Alone(DOUBLED), 3, 1, [], []) == Done(1, ([], Some(V64(2))))
  {
    var w := Alone(DOUBLED);
    var s := State([], [], []);
    var one := Pushed(s, V64(1));
    assert Begun(DOUBLED.funcs[1], [], []) == s;
    RunPair(w, 3, I64Const(1), I64Const(2), s);
    assert Instr(w, 3, I64Const(1), s) == Done(2, (one, Normal));
    assert Instr(w, 2, I64Const(2), one) == Done(1, (Pushed(one, V64(2)), Normal));
  }

  lemma TwoResultsCallerRuns(w: World, fuel: nat, left: nat, index: nat, s: State, v: Value)
    requires Arity(w.m, index) == Ok(0) && s.stack == [] && fuel >= 2 && left > 0
    requires Invoke(w, fuel - 1, index, [], s.memory) == Done(left, (s.memory, Some(v)))
    ensures Body(w, fuel, [Call(index), Num(I64Add)], s) == Trapped(EmptyStack)
  {
    OneToAdd(w, left, s, v);
    assert Apply(w, fuel - 1, index, s) == Done(left, (Pushed(s, v), Normal));
    assert Instr(w, fuel, Call(index), s) == Apply(w, fuel - 1, index, s);
    hide Instr;
    RunPair(w, fuel, Call(index), Num(I64Add), s);
  }

  lemma OneToAdd(w: World, fuel: nat, s: State, v: Value)
    requires s.stack == [] && fuel > 0
    ensures Instr(w, fuel, Num(I64Add), Pushed(s, v)) == Trapped(EmptyStack)
  {
    assert Popped(Pushed(s, v)) == Ok((v, s));
    assert ExecNum(I64Add, Pushed(s, v)) == Stops(EmptyStack);
  }

  /** A call hands over one of two results, and the next pop finds nothing. */
  lemma TwoResultsGoWrong()
    ensures Invoke(Alone(DOUBLED), 4, 0, [], []) == Trapped(EmptyStack)
  {
    TwoAnswers();
    TwoResultsCallerRuns(Alone(DOUBLED), 4, 1, 1, State([], [], []), V64(2));
    assert Begun(DOUBLED.funcs[0], [], []) == State([], [], []);
  }

  // -- a marker around a marker ----------------------------------------------

  const MARKED: Ins := Marked(0, Marked(0, Nop))

  lemma NestedMarkersCheck(rules: Rules)
    ensures Validates(Single(FuncType([], []), [MARKED]), rules) <==> rules == Specified
  {
    var m := Single(FuncType([], []), [MARKED]);
    var env := Env(m, [], rules);
    var c := Entry([]);
    assert [MARKED][1..] == [];
    assert CheckIns(env, c, Nop) == Some(PushAll(c, []));
    assert PushAll(c, []) == c;
    assert CheckIns(env, c, Marked(0, Nop)) == Some(c);
    assert CheckIns(env, c, MARKED) == if rules.Tight? then None else Some(c);
    assert CheckBody(env, c, [MARKED]) == if rules.Tight? then None else CheckBody(env, c, []);
    assert FuncChecks(m, m.funcs[0], rules) <==> rules == Specified;
  }

  lemma NestedMarkersGoWrong()
    ensures Invoke(Alone(Single(FuncType([], []), [MARKED])), 1, 0, [], []) == Panics
  {
    var w := Alone(Single(FuncType([], []), [MARKED]));
    var s := State([], [], []);
    assert Begun(w.m.funcs[0], [], []) == s;
    assert Instr(w, 1, MARKED, s) == Panics;
    assert Body(w, 1, [MARKED], s) == Panics;
  }
}
