/**
 * What the backend emits means what the IR means: by induction over the IR, running the
 * code from a state that shows the slots gives the IR's answer, its early return or its
 * failure, and is not done when the IR is not.
 */
module CompileMeans {
  import opened Ints
  import opened Wasm
  import opened Types
  import opened Run
  import opened Compile
  import opened Fates
  import opened Slots
  import opened CompileRuns
  import opened Simulation
  import opened CallsAndWalks
  import Exact
  import Ir

  // -- what a body is run in -------------------------------------------------

  /** A world, the function being compiled, where each function's literals start, and all literals. */
  datatype Setting = Setting(w: World, cx: Cx, starts: seq<Strings>, placed: seq<(Text, nat)>)

  /** The function of the module is the one of the program, compiled. */
  ghost predicate LinkedAt(w: World, p: Ir.Program, g: nat, start: Strings, placed: seq<(Text, nat)>)
    requires g < |p| && g < |w.m.funcs|
  {
    var body := CompileBody(Cx(p, p[g], |w.m.imports|), start);
    var func := w.m.funcs[g];
    && func.typeIndex < |w.m.types|
    && w.m.types[func.typeIndex] == FuncType(Represented(p[g].params), Results(ValTypeOf(p[g].ret)))
    && func.locals == body.draft.extra && func.body == body.code && body.draft.strings.placed <= placed
  }

  ghost predicate Linked(w: World, p: Ir.Program, starts: seq<Strings>, placed: seq<(Text, nat)>) {
    && |starts| == |p| <= |w.m.funcs| && Ir.ProgramOk(p)
    && forall g | 0 <= g < |p| :: LinkedAt(w, p, g, starts[g], placed)
  }

  /** Everything code compiled up to this draft needs: the module, the literals, and the locals. */
  ghost predicate Ready(t: Setting, after: Draft, memory: seq<byte>, locals: nat) {
    && Linked(t.w, t.cx.p, t.starts, t.placed) && t.cx.shift == |t.w.m.imports| && Ir.FunctionOk(t.cx.p, t.cx.f)
    && Primed(memory, t.placed) && after.strings.placed <= t.placed && Fresh(t.cx, after) <= locals
  }

  lemma Earlier(t: Setting, d: Draft, after: Draft, memory: seq<byte>, locals: nat)
    requires Ready(t, after, memory, locals) && Grows(d, after)
    ensures Ready(t, d, memory, locals) && Fresh(t.cx, d) <= Fresh(t.cx, after) <= locals
  {
  }

  /** Temporaries start above the slots. */
  lemma AboveSlots(cx: Cx, d: Draft)
    requires Covers(cx, d)
    ensures Base(cx) <= Fresh(cx, d)
  {
  }

  // -- putting parts together ------------------------------------------------

  /** A run that did not give a value is not changed by what comes after. */
  lemma Stopped(
    w: World, cx: Cx, keep: nat, one: seq<Ins>, two: seq<Ins>, s: State,
    r: Meaning, types1: seq<Ty>, types: seq<Ty>, depth: nat, flow: Flow, f: Fate)
    requires Runs(w, cx, keep, one, s, r, types1, depth, Normal, f) && !r.Gives?
    ensures Runs(w, cx, keep, one + two, s, r, types, depth, flow, f)
  {
    hide Meets;
    MeetsThen(w, one, two, s, f, f);
  }

  lemma KeptLess(
    w: World, cx: Cx, keep: nat, less: nat, code: seq<Ins>, s: State, r: Meaning, types: seq<Ty>, depth: nat, flow: Flow, f: Fate)
    requires Runs(w, cx, keep, code, s, r, types, depth, flow, f) && less <= keep
    ensures Runs(w, cx, less, code, s, r, types, depth, flow, f)
  {
    hide Meets;
  }

  /** The outcome once its value has been put away. */
  function Emptied(r: Ir.Eval<Ir.Val>): Meaning {
    if r.Gives? then Ir.Gives([], r.env) else One(r)
  }

  /** A number computed into a temporary. */
  lemma Stored(
    w: World, cx: Cx, keep: nat, code: seq<Ins>, s: State, r: Ir.Eval<Ir.Val>, f: Fate, x: nat, depth: nat) returns (a: Fate)
    requires Runs(w, cx, keep, code, s, One(r), [Ty.Int], depth, Normal, f)
    requires keep <= x && Base(cx) <= x < |s.locals|
    ensures Runs(w, cx, keep, code + [LocalSet(x)], s, Emptied(r), [], depth, Normal, a)
    ensures r.Gives? ==> a.Ends? && r.value.IntV? && Holds(a.state, x, r.value.n)
  {
    hide Meets;
    if r.Gives? {
      assert Ir.ValTy([r.value][0]) == Ty.Int;
      var g := StoresTop(w, cx, keep, s, r.value.n, r.env, f, x, depth);
      Then(w, cx, keep, code, [LocalSet(x)], s, One(r), [Ty.Int], f, Emptied(r), [], depth, Normal, g);
      a := Joined(f, g);
    } else {
      Stopped(w, cx, keep, code, [LocalSet(x)], s, One(r), [Ty.Int], [], depth, Normal, f);
      a := f;
    }
  }

  /** Both numbers in their temporaries, and then the checked operator on them. */
  lemma Operated(
    t: Setting, one: seq<Ins>, two: Emitted, s: State, env: seq<Ir.Val>, op: Ir.BinaryOp, x: nat, depth: nat, l: i64, r: i64, f: Fate)
    returns (h: Fate)
    requires Ir.Arithmetic(op) && Covers(t.cx, two.draft) && x + 2 <= Fresh(t.cx, two.draft)
    requires Ready(t, CheckedOp(t.cx, two.draft, op, x, x + 1).draft, s.memory, |s.locals|)
    requires Runs(t.w, t.cx, x, one + two.code, s, Ir.Gives([], env), [], depth, Normal, f)
    requires Holds(f.state, x, l) && Holds(f.state, x + 1, r)
    ensures Runs(t.w, t.cx, x, one + two.code + CheckedOp(t.cx, two.draft, op, x, x + 1).code, s,
                 One(Ir.Arith(op, l, r, env)), [Ty.Int], depth, Normal, h)
  {
    hide Meets, Linked, CheckedOp, Ir.FunctionOk;
    AboveSlots(t.cx, two.draft);
    var three := CheckedOp(t.cx, two.draft, op, x, x + 1);
    var g := CheckedOpRuns(t.w, f.state, t.cx, two.draft, op, t.placed, x, x + 1, l, r);
    AnswersLand(t.w, t.cx, x, three.code, s, env, f, Ir.Arith(op, l, r, []), Fresh(t.cx, two.draft), depth, g);
    ArithAfter(op, l, r, env);
    Then(t.w, t.cx, x, one + two.code, three.code, s, Ir.Gives([], env), [], f,
         One(Ir.Arith(op, l, r, env)), [Ty.Int], depth, Normal, g);
    h := Joined(f, g);
  }

  lemma ArithAfter(op: Ir.BinaryOp, l: i64, r: i64, env: seq<Ir.Val>)
    requires Ir.Arithmetic(op)
    ensures var empty := Ir.Arith(op, l, r, []);
      One(Ir.Arith(op, l, r, env)) == if empty.Gives? then Ir.Gives([empty.value], env) else One(empty)
  {
  }

  // -- the induction ---------------------------------------------------------

  lemma {:induction false} RunsExpr(t: Setting, d: Draft, e: Ir.Expr, depth: nat, env: seq<Ir.Val>, s: State) returns (f: Fate)
    requires Ir.ExprOk(t.cx.p, t.cx.f, e) && Covers(t.cx, d) && Shows(t.cx, env, s.locals)
    requires Ready(t, CompileExpr(t.cx, d, e).draft, s.memory, |s.locals|)
    ensures Runs(t.w, t.cx, Fresh(t.cx, d), CompileExpr(t.cx, d, e).code, s,
                 One(Ir.EvalExpr(t.cx.p, Ir.Strict, depth, env, e)), [Ir.TyOf(t.cx.p, t.cx.f, e)], depth, Normal, f)
    decreases depth, e, 2
  {
    hide Runs, Linked, Shows;
    if e.UnitLit? || e.BoolLit? || e.IntLit? {
      f := RunsLiteral(t.w, t.cx, d, e, depth, env, s);
    } else if e.Local? {
      assert |env| == |t.cx.f.locals| by { ShowsLength(t.cx, env, s.locals); }
      f := LocalRuns(t.w, t.cx, Fresh(t.cx, d), s, env, e.local, depth);
    } else if e.Unary? {
      f := RunsUnary(t, d, e, depth, env, s);
    } else if e.Binary? {
      if Ir.Arithmetic(e.op) {
        f := RunsArithmetic(t, d, e, depth, env, s);
      } else {
        f := RunsComparison(t, d, e, depth, env, s);
      }
    } else if e.Call? {
      f := RunsCall(t, d, e, depth, env, s);
    } else if e.If? {
      f := RunsIf(t, d, e, depth, env, s);
    } else {
      f := RunsBlock(t, d, e.block, depth, env, s);
    }
  }

  lemma ShowsLength(cx: Cx, env: seq<Ir.Val>, locals: seq<Value>)
    requires Shows(cx, env, locals)
    ensures |env| == |cx.f.locals|
  {
  }

  lemma RunsLiteral(w: World, cx: Cx, d: Draft, e: Ir.Expr, depth: nat, env: seq<Ir.Val>, s: State) returns (f: Fate)
    requires e.UnitLit? || e.BoolLit? || e.IntLit?
    requires Shows(cx, env, s.locals)
    ensures Runs(w, cx, Fresh(cx, d), CompileExpr(cx, d, e).code, s,
                 One(Ir.EvalExpr(cx.p, Ir.Strict, depth, env, e)), [Ir.TyOf(cx.p, cx.f, e)], depth, Normal, f)
  {
    var code := CompileExpr(cx, d, e).code;
    var v := if e.UnitLit? then Ir.UnitV else if e.BoolLit? then Ir.BoolV(e.b) else Ir.IntV(e.n);
    if e.UnitLit? {
      assert s.(stack := s.stack + Enc(v)) == s;
      NoSteps(w, s);
    } else {
      SimpleSteps(w, code[0], s, Pushed(s, Enc(v)[0]));
      assert code == [code[0]];
    }
    f := Pushes(w, cx, Fresh(cx, d), code, s, env, v, depth);
  }

  lemma {:induction false} RunsUnary(t: Setting, d: Draft, e: Ir.Expr, depth: nat, env: seq<Ir.Val>, s: State) returns (f: Fate)
    requires e.Unary?
    requires Ir.ExprOk(t.cx.p, t.cx.f, e) && Covers(t.cx, d) && Shows(t.cx, env, s.locals)
    requires Ready(t, CompileExpr(t.cx, d, e).draft, s.memory, |s.locals|)
    ensures Runs(t.w, t.cx, Fresh(t.cx, d), CompileExpr(t.cx, d, e).code, s,
                 One(Ir.EvalExpr(t.cx.p, Ir.Strict, depth, env, e)), [Ir.TyOf(t.cx.p, t.cx.f, e)], depth, Normal, f)
    decreases depth, e, 1
  {
    hide Runs, Linked, Shows, Ready;
    var r := Ir.EvalExpr(t.cx.p, Ir.Strict, depth, env, e.operand);
    if e.uop.Not? {
      var inner := CompileExpr(t.cx, d, e.operand);
      Earlier(t, inner.draft, CompileExpr(t.cx, d, e).draft, s.memory, |s.locals|);
      var g := RunsExpr(t, d, e.operand, depth, env, s);
      f := Negated(t.w, t.cx, Fresh(t.cx, d), inner.code, s, r, depth, g);
    } else {
      var x := Fresh(t.cx, d);
      var held := Took(d, I64);
      var inner := CompileExpr(t.cx, held, e.operand);
      Earlier(t, inner.draft, CompileExpr(t.cx, d, e).draft, s.memory, |s.locals|);
      CoversLater(t.cx, d, held);
      var g := RunsExpr(t, held, e.operand, depth, env, s);
      KeptLess(t.w, t.cx, Fresh(t.cx, held), x, inner.code, s, One(r), [Ty.Int], depth, Normal, g);
      AboveSlots(t.cx, d);
      f := Opposed(t, inner, x, s, r, depth, g);
    }
  }

  /** A condition and then its negation. */
  lemma Negated(w: World, cx: Cx, keep: nat, code: seq<Ins>, s: State, r: Ir.Eval<Ir.Val>, depth: nat, f: Fate) returns (h: Fate)
    requires Runs(w, cx, keep, code, s, One(r), [Ty.Bool], depth, Normal, f)
    ensures Runs(w, cx, keep, code + [Num(I32Eqz)], s,
                 if r.Gives? then Ir.Gives([Ir.BoolV(!Ir.AsBool(r.value))], r.env) else One(r), [Ty.Bool], depth, Normal, h)
  {
    hide Meets;
    if r.Gives? {
      assert Ir.ValTy([r.value][0]) == Ty.Bool;
      var g := NotRuns(w, cx, keep, s, r.value.b, r.env, f, depth);
      Then(w, cx, keep, code, [Num(I32Eqz)], s, One(r), [Ty.Bool], f,
           Ir.Gives([Ir.BoolV(!Ir.AsBool(r.value))], r.env), [Ty.Bool], depth, Normal, g);
      h := Joined(f, g);
    } else {
      Stopped(w, cx, keep, code, [Num(I32Eqz)], s, One(r), [Ty.Bool], [Ty.Bool], depth, Normal, f);
      h := f;
    }
  }

  /** A number and then zero less it. */
  lemma Opposed(t: Setting, inner: Emitted, x: nat, s: State, r: Ir.Eval<Ir.Val>, depth: nat, f: Fate) returns (h: Fate)
    requires Runs(t.w, t.cx, x, inner.code, s, One(r), [Ty.Int], depth, Normal, f)
    requires Ready(t, CheckedNegate(inner, x).draft, s.memory, |s.locals|) && Base(t.cx) <= x < |s.locals|
    ensures Runs(t.w, t.cx, x, CheckedNegate(inner, x).code, s,
                 if r.Gives? then One(Ir.Checked(0 - Ir.AsInt(r.value), r.env)) else One(r), [Ty.Int], depth, Normal, h)
  {
    hide Meets, Linked, Ir.FunctionOk, TestConst, ArithmeticFailure, TrapOnTrue;
    var test := TestConst(x, I64Eq, MIN_64) + [TrapOnTrue(ArithmeticFailure(inner.draft).code)];
    var last := [I64Const(0), LocalGet(x), Num(I64Sub)];
    assert inner.code + [LocalSet(x)] + (test + last) == CheckedNegate(inner, x).code;
    var a := Stored(t.w, t.cx, x, inner.code, s, r, f, x, depth);
    if r.Gives? {
      var n: i64 := r.value.n;
      var g := NegationRuns(t.w, a.state, inner.draft, t.placed, x, n);
      AnswersLand(t.w, t.cx, x, test + last, s, r.env, a, Ir.Checked(0 - n, []), x, depth, g);
      Then(t.w, t.cx, x, inner.code + [LocalSet(x)], test + last, s, Emptied(r), [], a,
           One(Ir.Checked(0 - n, r.env)), [Ty.Int], depth, Normal, g);
      h := Joined(a, g);
    } else {
      Stopped(t.w, t.cx, x, inner.code + [LocalSet(x)], test + last, s, One(r), [], [Ty.Int], depth, Normal, a);
      h := a;
    }
  }

  lemma {:induction false} RunsArithmetic(t: Setting, d: Draft, e: Ir.Expr, depth: nat, env: seq<Ir.Val>, s: State) returns (f: Fate)
    requires e.Binary? && Ir.Arithmetic(e.op)
    requires Ir.ExprOk(t.cx.p, t.cx.f, e) && Covers(t.cx, d) && Shows(t.cx, env, s.locals)
    requires Ready(t, CompileExpr(t.cx, d, e).draft, s.memory, |s.locals|)
    ensures Runs(t.w, t.cx, Fresh(t.cx, d), CompileExpr(t.cx, d, e).code, s,
                 One(Ir.EvalExpr(t.cx.p, Ir.Strict, depth, env, e)), [Ir.TyOf(t.cx.p, t.cx.f, e)], depth, Normal, f)
    decreases depth, e, 1
  {
    hide Linked, Shows, Ready, CheckedOp, Meets;
    var x := Fresh(t.cx, d);
    var held := Took(Took(d, I64), I64);
    var one := CompileExpr(t.cx, held, e.left);
    var two := CompileExpr(t.cx, one.draft, e.right);
    var after := CheckedBinary(t.cx, e.op, x, one, two).draft;
    ArithmeticReady(t, d, one.draft, two.draft, after, s.memory, |s.locals|);
    var g := RunsExpr(t, held, e.left, depth, env, s);
    var r := Ir.EvalExpr(t.cx.p, Ir.Strict, depth, env, e.left);
    KeptLess(t.w, t.cx, x + 2, x, one.code, s, One(r), [Ty.Int], depth, Normal, g);
    var a := Stored(t.w, t.cx, x, one.code, s, r, g, x, depth);
    if r.Gives? {
      var h := RunsExpr(t, one.draft, e.right, depth, r.env, a.state);
      f := BothSides(t, one, two, s, r, e.op, x, depth, a, Ir.EvalExpr(t.cx.p, Ir.Strict, depth, r.env, e.right), h);
    } else {
      f := a;
      Stopped(t.w, t.cx, x, one.code + [LocalSet(x)],
              two.code + [LocalSet(x + 1)] + CheckedOp(t.cx, two.draft, e.op, x, x + 1).code,
              s, One(r), [], [Ty.Int], depth, Normal, a);
      assert one.code + [LocalSet(x)] + (two.code + [LocalSet(x + 1)] + CheckedOp(t.cx, two.draft, e.op, x, x + 1).code)
          == CheckedBinary(t.cx, e.op, x, one, two).code;
    }
  }

  lemma ArithmeticReady(t: Setting, d: Draft, one: Draft, two: Draft, after: Draft, memory: seq<byte>, locals: nat)
    requires Covers(t.cx, d) && Ready(t, after, memory, locals)
    requires Grows(Took(Took(d, I64), I64), one) && Grows(one, two) && Grows(two, after)
    ensures Ready(t, one, memory, locals) && Ready(t, two, memory, locals)
    ensures Covers(t.cx, Took(Took(d, I64), I64)) && Covers(t.cx, one) && Covers(t.cx, two)
    ensures Base(t.cx) <= Fresh(t.cx, d)
    ensures Fresh(t.cx, d) + 2 <= Fresh(t.cx, one) <= Fresh(t.cx, two) <= locals
  {
    Earlier(t, two, after, memory, locals);
    Earlier(t, one, two, memory, locals);
    CoversLater(t.cx, d, Took(Took(d, I64), I64));
    CoversLater(t.cx, Took(Took(d, I64), I64), one);
    CoversLater(t.cx, one, two);
    AboveSlots(t.cx, d);
  }

  /** The left side put away, what becomes of the right side and the operator. */
  lemma BothSides(
    t: Setting, one: Emitted, two: Emitted, s: State, r1: Ir.Eval<Ir.Val>, op: Ir.BinaryOp, x: nat, depth: nat, a: Fate,
    r2: Ir.Eval<Ir.Val>, f: Fate) returns (h: Fate)
    requires Ir.Arithmetic(op) && Covers(t.cx, two.draft) && r1.Gives? && r1.value.IntV?
    requires Ready(t, CheckedBinary(t.cx, op, x, one, two).draft, s.memory, |s.locals|)
    requires Base(t.cx) <= x && x + 2 <= Fresh(t.cx, one.draft) <= Fresh(t.cx, two.draft) <= |s.locals|
    requires Runs(t.w, t.cx, x, one.code + [LocalSet(x)], s, Ir.Gives([], r1.env), [], depth, Normal, a)
    requires Holds(a.state, x, r1.value.n)
    requires Runs(t.w, t.cx, Fresh(t.cx, one.draft), two.code, a.state, One(r2), [Ty.Int], depth, Normal, f)
    ensures Runs(t.w, t.cx, x, CheckedBinary(t.cx, op, x, one, two).code, s,
                 if r2.Gives? then One(Ir.Arith(op, r1.value.n, Ir.AsInt(r2.value), r2.env)) else One(r2),
                 [Ty.Int], depth, Normal, h)
  {
    hide Linked, Shows, Ready, CheckedOp, Meets;
    KeptLess(t.w, t.cx, Fresh(t.cx, one.draft), x + 1, two.code, a.state, One(r2), [Ty.Int], depth, Normal, f);
    var b := Stored(t.w, t.cx, x + 1, two.code, a.state, r2, f, x + 1, depth);
    var first, second := one.code + [LocalSet(x)], two.code + [LocalSet(x + 1)];
    var three := CheckedOp(t.cx, two.draft, op, x, x + 1);
    ThenMore(t.w, t.cx, x, x + 1, first, second, s, Ir.Gives([], r1.env), [], a, Emptied(r2), [], depth, Normal, b);
    assert Behind([], Emptied(r2)) == Emptied(r2);
    if r2.Gives? {
      assert first + second == one.code + [LocalSet(x)] + two.code + [LocalSet(x + 1)];
      h := Operated(t, one.code + [LocalSet(x)], Emitted(second, two.draft), s, r2.env, op, x, depth,
                    r1.value.n, r2.value.n, Joined(a, b));
    } else {
      Stopped(t.w, t.cx, x, first + second, three.code, s, One(r2), [] + [], [Ty.Int], depth, Normal, Joined(a, b));
      h := Joined(a, b);
    }
  }

  lemma {:induction false} RunsComparison(t: Setting, d: Draft, e: Ir.Expr, depth: nat, env: seq<Ir.Val>, s: State) returns (f: Fate)
    requires e.Binary? && !Ir.Arithmetic(e.op)
    requires Ir.ExprOk(t.cx.p, t.cx.f, e) && Covers(t.cx, d) && Shows(t.cx, env, s.locals)
    requires Ready(t, CompileExpr(t.cx, d, e).draft, s.memory, |s.locals|)
    ensures Runs(t.w, t.cx, Fresh(t.cx, d), CompileExpr(t.cx, d, e).code, s,
                 One(Ir.EvalExpr(t.cx.p, Ir.Strict, depth, env, e)), [Ir.TyOf(t.cx.p, t.cx.f, e)], depth, Normal, f)
    decreases depth, e, 1
  {
    hide Linked, Shows, Ready, Meets;
    var one := CompileExpr(t.cx, d, e.left);
    var two := CompileExpr(t.cx, one.draft, e.right);
    Earlier(t, two.draft, CompileExpr(t.cx, d, e).draft, s.memory, |s.locals|);
    Earlier(t, one.draft, two.draft, s.memory, |s.locals|);
    CoversLater(t.cx, d, one.draft);
    var keep := Fresh(t.cx, d);
    var ty := Ir.TyOf(t.cx.p, t.cx.f, e.left);
    var r1 := Ir.EvalExpr(t.cx.p, Ir.Strict, depth, env, e.left);
    var last := [Marked(two.draft.sites, BinaryIns(e.op, ty))];
    var g := RunsExpr(t, d, e.left, depth, env, s);
    if r1.Gives? {
      var r2 := Ir.EvalExpr(t.cx.p, Ir.Strict, depth, r1.env, e.right);
      var h := RunsExpr(t, one.draft, e.right, depth, r1.env, g.state);
      f := Compared(t.w, t.cx, keep, Fresh(t.cx, one.draft), one.code, two.code, s, r1, g, r2, h, two.draft.sites, e.op, ty, depth);
    } else {
      f := g;
      Stopped(t.w, t.cx, keep, one.code, two.code + last, s, One(r1), [ty], [Ty.Bool], depth, Normal, g);
      assert one.code + (two.code + last) == one.code + two.code + last;
    }
  }

  lemma Compared(
    w: World, cx: Cx, keep: nat, later: nat, one: seq<Ins>, two: seq<Ins>, s: State,
    r1: Ir.Eval<Ir.Val>, f: Fate, r2: Ir.Eval<Ir.Val>, g: Fate, site: nat, op: Ir.BinaryOp, ty: Ty, depth: nat)
    returns (h: Fate)
    requires !Ir.Arithmetic(op) && Ir.Operands(op, ty, ty) && keep <= later && r1.Gives?
    requires Runs(w, cx, keep, one, s, One(r1), [ty], depth, Normal, f)
    requires Runs(w, cx, later, two, f.state, One(r2), [ty], depth, Normal, g)
    ensures Runs(w, cx, keep, one + two + [Marked(site, BinaryIns(op, ty))], s,
                 if r2.Gives? then Ir.Gives([Ir.BoolV(Ir.Compare(op, r1.value, r2.value))], r2.env) else One(r2),
                 [Ty.Bool], depth, Normal, h)
  {
    hide Meets, Lands;
    var last := [Marked(site, BinaryIns(op, ty))];
    ThenMore(w, cx, keep, later, one, two, s, One(r1), [ty], f, One(r2), [ty], depth, Normal, g);
    var both := Behind([r1.value], One(r2));
    if r2.Gives? {
      var r := Ir.Gives([Ir.BoolV(Ir.Compare(op, r1.value, r2.value))], r2.env);
      var k := CompareRuns(w, cx, keep, s, r1.value, r2.value, r2.env, Joined(f, g), site, op, ty, depth);
      Then(w, cx, keep, one + two, last, s, both, [ty] + [ty], Joined(f, g), r, [Ty.Bool], depth, Normal, k);
      h := Joined(Joined(f, g), k);
    } else {
      Stopped(w, cx, keep, one + two, last, s, both, [ty] + [ty], [Ty.Bool], depth, Normal, Joined(f, g));
      h := Joined(f, g);
    }
  }

  lemma {:induction false} RunsIf(t: Setting, d: Draft, e: Ir.Expr, depth: nat, env: seq<Ir.Val>, s: State) returns (f: Fate)
    requires e.If?
    requires Ir.ExprOk(t.cx.p, t.cx.f, e) && Covers(t.cx, d) && Shows(t.cx, env, s.locals)
    requires Ready(t, CompileExpr(t.cx, d, e).draft, s.memory, |s.locals|)
    ensures Runs(t.w, t.cx, Fresh(t.cx, d), CompileExpr(t.cx, d, e).code, s,
                 One(Ir.EvalExpr(t.cx.p, Ir.Strict, depth, env, e)), [Ir.TyOf(t.cx.p, t.cx.f, e)], depth, Normal, f)
    decreases depth, e, 1
  {
    hide Linked, Shows, Ready, Meets;
    var test := CompileExpr(t.cx, d, e.condition);
    var one := CompileBlock(t.cx, test.draft, e.taken);
    var two := CompileBlock(t.cx, one.draft, e.otherwise);
    Earlier(t, one.draft, two.draft, s.memory, |s.locals|);
    Earlier(t, test.draft, one.draft, s.memory, |s.locals|);
    CoversLater(t.cx, d, test.draft);
    CoversLater(t.cx, test.draft, one.draft);
    var keep := Fresh(t.cx, d);
    var r := Ir.EvalExpr(t.cx.p, Ir.Strict, depth, env, e.condition);
    var ins := Ins.If(ValTypeOf(e.ty), one.code, two.code);
    var g := RunsExpr(t, d, e.condition, depth, env, s);
    if r.Gives? {
      assert Ir.ValTy([r.value][0]) == Ty.Bool;
      EncOne(r.value);
      var under := g.state.(stack := s.stack);
      OnTop(g.state, s.stack, Boolean(r.value.b));
      var h;
      if r.value.b {
        h := RunsBlock(t, test.draft, e.taken, depth, r.env, under);
        KeptLess(t.w, t.cx, Fresh(t.cx, test.draft), keep, one.code, under,
                 One(Ir.EvalBlock(t.cx.p, Ir.Strict, depth, r.env, e.taken)), [e.ty], depth, Normal, h);
      } else {
        h := RunsBlock(t, one.draft, e.otherwise, depth, r.env, under);
        KeptLess(t.w, t.cx, Fresh(t.cx, one.draft), keep, two.code, under,
                 One(Ir.EvalBlock(t.cx.p, Ir.Strict, depth, r.env, e.otherwise)), [e.ty], depth, Normal, h);
      }
      var r2 := Ir.EvalBlock(t.cx.p, Ir.Strict, depth, r.env, if r.value.b then e.taken else e.otherwise);
      f := Chosen(t.w, t.cx, keep, test.code, s, r, g, ValTypeOf(e.ty), one.code, two.code, One(r2), [e.ty], depth, h);
    } else {
      f := g;
      Stopped(t.w, t.cx, keep, test.code, [ins], s, One(r), [Ty.Bool], [e.ty], depth, Normal, g);
    }
  }

  /** A condition, and the arm it picks run from where the condition left things. */
  lemma Chosen(
    w: World, cx: Cx, keep: nat, test: seq<Ins>, s: State, r: Ir.Eval<Ir.Val>, f: Fate,
    result: Option<ValType>, one: seq<Ins>, two: seq<Ins>, r2: Meaning, types: seq<Ty>, depth: nat, g: Fate)
    returns (h: Fate)
    requires r.Gives? && r.value.BoolV?
    requires Runs(w, cx, keep, test, s, One(r), [Ty.Bool], depth, Normal, f)
    requires Runs(w, cx, keep, if r.value.b then one else two, f.state.(stack := s.stack), r2, types, depth, Normal, g)
    ensures Runs(w, cx, keep, test + [Ins.If(result, one, two)], s, r2, types, depth, Normal, h)
  {
    hide Meets;
    EncOne(r.value);
    var under := f.state.(stack := s.stack);
    OnTop(f.state, s.stack, Boolean(r.value.b));
    var ins := Ins.If(result, one, two);
    ArmMeets(w, result, one, two, under, r.value.b, g);
    var k: Fate;
    if g.Late? {
      k := g;
      LateSooner(w, [ins], f.state, g.limit + 1, g.limit);
    } else {
      k := g.(cost := g.cost + 1);
    }
    Then(w, cx, keep, test, [ins], s, One(r), [Ty.Bool], f, r2, types, depth, Normal, k);
    h := Joined(f, k);
  }

  lemma LateSooner(w: World, code: seq<Ins>, s: State, limit: nat, fuel: nat)
    requires fuel <= limit && Meets(w, code, s, Late(limit))
    ensures Meets(w, code, s, Late(fuel))
  {
    NoLater(w, code, s, fuel, limit);
  }

  lemma {:induction false} RunsBlock(t: Setting, d: Draft, block: Ir.Block, depth: nat, env: seq<Ir.Val>, s: State) returns (f: Fate)
    requires Ir.BlockOk(t.cx.p, t.cx.f, block) && Covers(t.cx, d) && Shows(t.cx, env, s.locals)
    requires Ready(t, CompileBlock(t.cx, d, block).draft, s.memory, |s.locals|)
    ensures Runs(t.w, t.cx, Fresh(t.cx, d), CompileBlock(t.cx, d, block).code, s,
                 One(Ir.EvalBlock(t.cx.p, Ir.Strict, depth, env, block)), [Ir.TyOf(t.cx.p, t.cx.f, block.value)], depth, Normal, f)
    decreases depth, block, 0
  {
    hide Linked, Shows, Ready, Meets;
    var stmts := CompileStmts(t.cx, d, block.stmts);
    var value := CompileExpr(t.cx, stmts.draft, block.value);
    Earlier(t, stmts.draft, value.draft, s.memory, |s.locals|);
    CoversLater(t.cx, d, stmts.draft);
    var keep := Fresh(t.cx, d);
    var types := [Ir.TyOf(t.cx.p, t.cx.f, block.value)];
    var r := Ir.EvalStmts(t.cx.p, Ir.Strict, depth, env, block.stmts);
    var g := RunsStmts(t, d, block.stmts, depth, env, s);
    if r.Gives? {
      var r2 := One(Ir.EvalExpr(t.cx.p, Ir.Strict, depth, r.env, block.value));
      var h := RunsExpr(t, stmts.draft, block.value, depth, r.env, g.state);
      f := Followed(t.w, t.cx, keep, Fresh(t.cx, stmts.draft), stmts.code, value.code, s, r.env, g, r2, types, depth, h);
    } else {
      f := g;
      Stopped(t.w, t.cx, keep, stmts.code, value.code, s, Nothing(r), [], types, depth, Normal, g);
    }
  }

  /** What leaves nothing, and then what comes after it. */
  lemma Followed(
    w: World, cx: Cx, keep: nat, later: nat, one: seq<Ins>, two: seq<Ins>, s: State,
    env: seq<Ir.Val>, f: Fate, r: Meaning, types: seq<Ty>, depth: nat, g: Fate) returns (h: Fate)
    requires keep <= later
    requires Runs(w, cx, keep, one, s, Ir.Gives([], env), [], depth, Normal, f)
    requires Runs(w, cx, later, two, f.state, r, types, depth, Normal, g)
    ensures Runs(w, cx, keep, one + two, s, r, types, depth, Normal, h)
  {
    hide Runs;
    ThenMore(w, cx, keep, later, one, two, s, Ir.Gives([], env), [], f, r, types, depth, Normal, g);
    if r.Gives? {
      assert [] + r.value == r.value;
    }
    assert [] + types == types;
    h := Joined(f, g);
  }

  lemma {:induction false} RunsStmts(t: Setting, d: Draft, stmts: seq<Ir.Stmt>, depth: nat, env: seq<Ir.Val>, s: State) returns (f: Fate)
    requires Ir.StmtsOk(t.cx.p, t.cx.f, stmts) && Covers(t.cx, d) && Shows(t.cx, env, s.locals)
    requires Ready(t, CompileStmts(t.cx, d, stmts).draft, s.memory, |s.locals|)
    ensures Runs(t.w, t.cx, Fresh(t.cx, d), CompileStmts(t.cx, d, stmts).code, s,
                 Nothing(Ir.EvalStmts(t.cx.p, Ir.Strict, depth, env, stmts)), [], depth, Normal, f)
    decreases depth, stmts, 0
  {
    hide Linked, Shows, Ready, Meets;
    var keep := Fresh(t.cx, d);
    if stmts == [] {
      f := Idle(t.w, t.cx, keep, s, env, depth);
    } else {
      var one := CompileStmt(t.cx, d, stmts[0]);
      var rest := CompileStmts(t.cx, one.draft, stmts[1..]);
      Earlier(t, one.draft, rest.draft, s.memory, |s.locals|);
      CoversLater(t.cx, d, one.draft);
      var r := Ir.EvalStmt(t.cx.p, Ir.Strict, depth, env, stmts[0]);
      var g := RunsStmt(t, d, stmts[0], depth, env, s);
      if r.Gives? {
        var r2 := Nothing(Ir.EvalStmts(t.cx.p, Ir.Strict, depth, r.env, stmts[1..]));
        var h := RunsStmts(t, one.draft, stmts[1..], depth, r.env, g.state);
        f := Followed(t.w, t.cx, keep, Fresh(t.cx, one.draft), one.code, rest.code, s, r.env, g, r2, [], depth, h);
      } else {
        f := g;
        Stopped(t.w, t.cx, keep, one.code, rest.code, s, Nothing(r), [], [], depth, Normal, g);
      }
    }
  }

  lemma Idle(w: World, cx: Cx, keep: nat, s: State, env: seq<Ir.Val>, depth: nat) returns (f: Fate)
    requires Shows(cx, env, s.locals)
    ensures Runs(w, cx, keep, [], s, Ir.Gives([], env), [], depth, Normal, f)
  {
    f := Ends(0, s, Normal);
  }

  lemma {:induction false} RunsStmt(t: Setting, d: Draft, stmt: Ir.Stmt, depth: nat, env: seq<Ir.Val>, s: State) returns (f: Fate)
    requires Ir.StmtOk(t.cx.p, t.cx.f, stmt) && Covers(t.cx, d) && Shows(t.cx, env, s.locals)
    requires Ready(t, CompileStmt(t.cx, d, stmt).draft, s.memory, |s.locals|)
    ensures Runs(t.w, t.cx, Fresh(t.cx, d), CompileStmt(t.cx, d, stmt).code, s,
                 Nothing(Ir.EvalStmt(t.cx.p, Ir.Strict, depth, env, stmt)), [], depth, Normal, f)
    decreases depth, stmt, 1
  {
    hide Linked, Shows, Meets;
    var keep := Fresh(t.cx, d);
    if stmt.Fail? {
      FailRuns(t.w, s, d, stmt.code, stmt.message, d.sites, t.placed);
      f := Dies(7, Failed(stmt.code, stmt.message));
    } else if stmt.While? {
      f := RunsWalk(t, d, stmt, depth, env, s);
    } else {
      var g := RunsExpr(t, d, stmt.value, depth, env, s);
      f := Ended(t.w, t.cx, keep, CompileExpr(t.cx, d, stmt.value).code, s,
                 Ir.EvalExpr(t.cx.p, Ir.Strict, depth, env, stmt.value), stmt, Ir.TyOf(t.cx.p, t.cx.f, stmt.value), depth, g);
    }
  }

  /** What a statement that computes one value does with it. */
  function Ending(cx: Cx, stmt: Ir.Stmt, ty: Ty): seq<Ins> {
    if stmt.Assign? then
      if SlotOf(cx, stmt.slot).Some? then [LocalSet(SlotOf(cx, stmt.slot).value)] else []
    else if stmt.Discard? then
      if ValTypeOf(ty).Some? then [Drop] else []
    else [Ins.Return]
  }

  function EndMeaning(stmt: Ir.Stmt, r: Ir.Eval<Ir.Val>): Meaning {
    if !r.Gives? then One(r)
    else if stmt.Assign? then
      Ir.Gives([], if stmt.slot < |r.env| then r.env[stmt.slot := r.value] else r.env)
    else if stmt.Discard? then Ir.Gives([], r.env)
    else Ir.Returns(r.value)
  }

  lemma Ended(
    w: World, cx: Cx, keep: nat, code: seq<Ins>, s: State, r: Ir.Eval<Ir.Val>, stmt: Ir.Stmt, ty: Ty, depth: nat, f: Fate)
    returns (h: Fate)
    requires stmt.Assign? || stmt.Discard? || stmt.Return?
    requires stmt.Assign? ==> stmt.slot < |cx.f.locals| && ty == cx.f.locals[stmt.slot]
    requires stmt.Return? ==> ty == cx.f.ret
    requires Runs(w, cx, keep, code, s, One(r), [ty], depth, Normal, f)
    ensures Runs(w, cx, keep, code + Ending(cx, stmt, ty), s, EndMeaning(stmt, r), [], depth, Normal, h)
  {
    hide Meets;
    var ending := Ending(cx, stmt, ty);
    if r.Gives? {
      var g: Fate;
      if stmt.Assign? {
        g := AssignRuns(w, cx, keep, s, r.value, r.env, f, stmt.slot, depth);
      } else if stmt.Discard? {
        g := DiscardRuns(w, cx, keep, s, r.value, r.env, f, ty, depth);
      } else {
        g := ReturnRuns(w, cx, keep, s, r.value, r.env, f, depth);
      }
      Then(w, cx, keep, code, ending, s, One(r), [ty], f, EndMeaning(stmt, r), [], depth, Normal, g);
      h := Joined(f, g);
    } else {
      h := f;
      Stopped(w, cx, keep, code, ending, s, One(r), [ty], [], depth, Normal, f);
    }
  }

  // -- walks -----------------------------------------------------------------

  lemma {:induction false} RunsWalk(t: Setting, d: Draft, stmt: Ir.Stmt, depth: nat, env: seq<Ir.Val>, s: State) returns (f: Fate)
    requires stmt.While?
    requires Ir.StmtOk(t.cx.p, t.cx.f, stmt) && Covers(t.cx, d) && Shows(t.cx, env, s.locals)
    requires Ready(t, CompileStmt(t.cx, d, stmt).draft, s.memory, |s.locals|)
    ensures Runs(t.w, t.cx, Fresh(t.cx, d), CompileStmt(t.cx, d, stmt).code, s,
                 Nothing(Ir.EvalStmt(t.cx.p, Ir.Strict, depth, env, stmt)), [], depth, Normal, f)
    decreases depth, stmt, 0, 1
  {
    hide Linked, Shows, Ready, Meets, Circles;
    var test := CompileExpr(t.cx, d, stmt.condition);
    var turn := CompileStmts(t.cx, test.draft, stmt.body);
    var g := RunsTurns(t, d, stmt, depth, env, s);
    f := WalkMeets(t.w, Turn(test.code, turn.code), s, g);
  }

  lemma {:induction false} RunsTurns(t: Setting, d: Draft, stmt: Ir.Stmt, depth: nat, env: seq<Ir.Val>, s: State) returns (f: Fate)
    requires stmt.While?
    requires Ir.StmtOk(t.cx.p, t.cx.f, stmt) && Covers(t.cx, d) && Shows(t.cx, env, s.locals)
    requires Ready(t, CompileStmt(t.cx, d, stmt).draft, s.memory, |s.locals|)
    ensures var test := CompileExpr(t.cx, d, stmt.condition);
      Circles(t.w, Turn(test.code, CompileStmts(t.cx, test.draft, stmt.body).code), s, f)
    ensures Lands(t.cx, Fresh(t.cx, d), s, Nothing(Ir.EvalWhile(t.cx.p, Ir.Strict, depth, env, stmt)), [], depth, Break(0), f)
    decreases depth, stmt, 0, 0
  {
    hide Linked, Shows, Ready, Meets, Circles;
    var test := CompileExpr(t.cx, d, stmt.condition);
    var turn := CompileStmts(t.cx, test.draft, stmt.body);
    var keep := Fresh(t.cx, d);
    if depth == 0 {
      NotEvenOnce(t.w, Turn(test.code, turn.code), s);
      return Late(0);
    }
    Earlier(t, test.draft, turn.draft, s.memory, |s.locals|);
    CoversLater(t.cx, d, test.draft);
    var r := Ir.EvalExpr(t.cx.p, Ir.Strict, depth, env, stmt.condition);
    var g := RunsExpr(t, d, stmt.condition, depth, env, s);
    if r.Gives? && Ir.AsBool(r.value) {
      var top := Tested(t.w, t.cx, keep, test.code, s, r, g, depth);
      var r2 := Ir.EvalStmts(t.cx.p, Ir.Strict, depth, r.env, stmt.body);
      var h := RunsStmts(t, test.draft, stmt.body, depth, r.env, top.state);
      var whole := Turned(t.w, t.cx, keep, Fresh(t.cx, test.draft), test.code, turn.code, s, r.env, top, r2, depth, h);
      if r2.Gives? {
        var more := RunsTurns(t, d, stmt, depth - 1, r2.env, whole.state);
        f := Again(t.w, t.cx, keep, Turn(test.code, turn.code), s, r2.env, whole,
                   Nothing(Ir.EvalWhile(t.cx.p, Ir.Strict, depth - 1, r2.env, stmt)), depth, more);
      } else {
        LastTurn(t.w, Turn(test.code, turn.code), s, whole);
        f := whole;
      }
    } else {
      f := Over(t.w, t.cx, keep, test.code, turn.code, s, r, g, depth);
    }
  }

  lemma NotEvenOnce(w: World, turn: seq<Ins>, s: State)
    requires turn != []
    ensures Circles(w, turn, s, Late(0))
  {
  }

  /** The top of a turn, for a condition that has a value. */
  lemma Tested(w: World, cx: Cx, keep: nat, test: seq<Ins>, s: State, r: Ir.Eval<Ir.Val>, f: Fate, depth: nat) returns (g: Fate)
    requires Runs(w, cx, keep, test, s, One(r), [Ty.Bool], depth, Normal, f) && r.Gives?
    ensures Runs(w, cx, keep, test + [Num(I32Eqz), BrIf(1)], s, Ir.Gives([], r.env), [], depth,
                 if Ir.AsBool(r.value) then Normal else Break(1), g)
  {
    hide Meets;
    EncOne(r.value);
    assert Ir.ValTy([r.value][0]) == Ty.Bool;
    var under := f.state.(stack := s.stack);
    OnTop(f.state, s.stack, Boolean(r.value.b));
    TestTop(w, under, r.value.b);
    var flow := if r.value.b then Normal else Break(1);
    Then(w, cx, keep, test, [Num(I32Eqz), BrIf(1)], s, One(r), [Ty.Bool], f, Ir.Gives([], r.env), [], depth, flow, Ends(2, under, flow));
    g := Joined(f, Ends(2, under, flow));
  }

  /** A turn whose condition holds: the body, and then back to the top. */
  lemma Turned(
    w: World, cx: Cx, keep: nat, later: nat, test: seq<Ins>, body: seq<Ins>, s: State, env: seq<Ir.Val>, top: Fate,
    r: Ir.Eval<()>, depth: nat, f: Fate) returns (h: Fate)
    requires keep <= later
    requires Runs(w, cx, keep, test + [Num(I32Eqz), BrIf(1)], s, Ir.Gives([], env), [], depth, Normal, top)
    requires Runs(w, cx, later, body, top.state, Nothing(r), [], depth, Normal, f)
    ensures Runs(w, cx, keep, Turn(test, body), s, Nothing(r), [], depth, Break(0), h)
    ensures r.Gives? ==> h.Ends? && h.cost > 0
  {
    hide Meets;
    var one := test + [Num(I32Eqz), BrIf(1)];
    var g := Followed(w, cx, keep, later, one, body, s, env, top, Nothing(r), [], depth, f);
    assert one + body + [Br(0)] == Turn(test, body);
    if r.Gives? {
      JumpMeets(w, g.state);
      Then(w, cx, keep, one + body, [Br(0)], s, Nothing(r), [], g, Nothing(r), [], depth, Break(0), Ends(1, g.state, Break(0)));
      h := Joined(g, Ends(1, g.state, Break(0)));
    } else {
      Stopped(w, cx, keep, one + body, [Br(0)], s, Nothing(r), [], [], depth, Break(0), g);
      h := g;
    }
  }

  /** A turn and the walk that goes on from it. */
  lemma Again(
    w: World, cx: Cx, keep: nat, turn: seq<Ins>, s: State, env: seq<Ir.Val>, f: Fate, r: Meaning, depth: nat, g: Fate)
    returns (h: Fate)
    requires depth > 0 && f.Ends? && f.cost > 0
    requires Runs(w, cx, keep, turn, s, Ir.Gives([], env), [], depth, Break(0), f)
    requires Circles(w, turn, f.state, g) && Lands(cx, keep, f.state, r, [], depth - 1, Break(0), g)
    ensures Circles(w, turn, s, h) && Lands(cx, keep, s, r, [], depth, Break(0), h)
  {
    hide Meets, Circles;
    h := AnotherTurn(w, turn, s, f, g);
    if r.Gives? {
      Rebased(cx, keep, keep, s, Ir.Gives([], env), [], f.(flow := Normal), r, [], depth, Break(0), g);
      assert Behind([], r) == r;
    }
  }

  /** The last turn: its condition does not hold, or has no value. */
  lemma Over(
    w: World, cx: Cx, keep: nat, test: seq<Ins>, body: seq<Ins>, s: State, r: Ir.Eval<Ir.Val>, f: Fate, depth: nat)
    returns (h: Fate)
    requires Runs(w, cx, keep, test, s, One(r), [Ty.Bool], depth, Normal, f)
    requires r.Gives? ==> !Ir.AsBool(r.value)
    ensures Circles(w, Turn(test, body), s, h) && Lands(cx, keep, s, Emptied(r), [], depth, Break(0), h)
  {
    hide Meets, Circles;
    var top := [Num(I32Eqz), BrIf(1)];
    var rest := body + [Br(0)];
    if r.Gives? {
      var g := Tested(w, cx, keep, test, s, r, f, depth);
      MeetsThen(w, test + top, rest, s, g, g);
      LastTurn(w, Turn(test, body), s, g);
      h := g.(flow := Break(0));
    } else {
      Stopped(w, cx, keep, test, top + rest, s, One(r), [Ty.Bool], [], depth, Break(0), f);
      assert test + (top + rest) == Turn(test, body);
      LastTurn(w, Turn(test, body), s, f);
      h := f;
    }
  }

  // -- calls -----------------------------------------------------------------

  function TypesOf(cx: Cx, args: seq<Ir.Expr>): (types: seq<Ty>)
    ensures |types| == |args|
    ensures forall i | 0 <= i < |args| :: types[i] == Ir.TyOf(cx.p, cx.f, args[i])
  {
    if args == [] then [] else [Ir.TyOf(cx.p, cx.f, args[0])] + TypesOf(cx, args[1..])
  }

  lemma {:induction false} RunsArgs(t: Setting, d: Draft, args: seq<Ir.Expr>, depth: nat, env: seq<Ir.Val>, s: State) returns (f: Fate)
    requires Ir.ArgsOk(t.cx.p, t.cx.f, args) && Covers(t.cx, d) && Shows(t.cx, env, s.locals)
    requires Ready(t, CompileArgs(t.cx, d, args).draft, s.memory, |s.locals|)
    ensures Runs(t.w, t.cx, Fresh(t.cx, d), CompileArgs(t.cx, d, args).code, s,
                 Ir.EvalArgs(t.cx.p, Ir.Strict, depth, env, args), TypesOf(t.cx, args), depth, Normal, f)
    decreases depth, args, 0
  {
    hide Linked, Shows, Ready, Meets;
    var keep := Fresh(t.cx, d);
    if args == [] {
      f := Idle(t.w, t.cx, keep, s, env, depth);
    } else {
      var one := CompileExpr(t.cx, d, args[0]);
      var rest := CompileArgs(t.cx, one.draft, args[1..]);
      Earlier(t, one.draft, rest.draft, s.memory, |s.locals|);
      CoversLater(t.cx, d, one.draft);
      var ty := Ir.TyOf(t.cx.p, t.cx.f, args[0]);
      var r := Ir.EvalExpr(t.cx.p, Ir.Strict, depth, env, args[0]);
      var g := RunsExpr(t, d, args[0], depth, env, s);
      if r.Gives? {
        var r2 := Ir.EvalArgs(t.cx.p, Ir.Strict, depth, r.env, args[1..]);
        var h := RunsArgs(t, one.draft, args[1..], depth, r.env, g.state);
        ThenMore(t.w, t.cx, keep, Fresh(t.cx, one.draft), one.code, rest.code, s, One(r), [ty], g,
                 r2, TypesOf(t.cx, args[1..]), depth, Normal, h);
        f := Joined(g, h);
      } else {
        f := g;
        Stopped(t.w, t.cx, keep, one.code, rest.code, s, One(r), [ty], TypesOf(t.cx, args), depth, Normal, g);
      }
    }
  }

  lemma {:induction false} RunsCall(t: Setting, d: Draft, e: Ir.Expr, depth: nat, env: seq<Ir.Val>, s: State) returns (f: Fate)
    requires e.Call?
    requires Ir.ExprOk(t.cx.p, t.cx.f, e) && Covers(t.cx, d) && Shows(t.cx, env, s.locals)
    requires Ready(t, CompileExpr(t.cx, d, e).draft, s.memory, |s.locals|)
    ensures Runs(t.w, t.cx, Fresh(t.cx, d), CompileExpr(t.cx, d, e).code, s,
                 One(Ir.EvalExpr(t.cx.p, Ir.Strict, depth, env, e)), [Ir.TyOf(t.cx.p, t.cx.f, e)], depth, Normal, f)
    decreases depth, e, 1
  {
    hide Shows, Meets, Linked, Invokes;
    var keep := Fresh(t.cx, d);
    var pushed := CompileArgs(t.cx, d, e.args);
    var p := t.cx.p;
    Earlier(t, pushed.draft, CompileExpr(t.cx, d, e).draft, s.memory, |s.locals|);
    assert TypesOf(t.cx, e.args) == p[e.func].params;
    var r := Ir.EvalArgs(p, Ir.Strict, depth, env, e.args);
    var g := RunsArgs(t, d, e.args, depth, env, s);
    if r.Gives? {
      var cost := 0;
      var reply := Ir.Deep;
      if depth > 0 {
        reply := Ir.EvalFunction(p, Ir.Strict, depth - 1, p[e.func], r.value);
        cost := RunsFunction(t, e.func, r.value, depth - 1, s.memory);
      }
      f := Replied(t, keep, pushed.code, pushed.draft.sites, s, r, g, e.func, reply, depth, cost);
    } else {
      f := g;
      Stopped(t.w, t.cx, keep, pushed.code, [Marked(pushed.draft.sites, Ins.Call(e.func + t.cx.shift))], s,
              r, p[e.func].params, [p[e.func].ret], depth, Normal, g);
    }
  }

  /** Arguments, and the call that is answered. */
  lemma Replied(
    t: Setting, keep: nat, code: seq<Ins>, site: nat, s: State, r: Meaning, f: Fate,
    g: nat, reply: Ir.Eval<Ir.Val>, depth: nat, cost: nat) returns (h: Fate)
    requires Linked(t.w, t.cx.p, t.starts, t.placed) && t.cx.shift == |t.w.m.imports| && g < |t.cx.p| && r.Gives?
    requires Runs(t.w, t.cx, keep, code, s, r, t.cx.p[g].params, depth, Normal, f)
    requires depth > 0 ==> Invokes(t.w, g + t.cx.shift, EncAll(r.value), s.memory, reply, depth - 1, cost)
    requires depth == 0 ==> reply.Deep?
    requires reply.Gives? ==> Ir.ValTy(reply.value) == t.cx.p[g].ret
    ensures Runs(t.w, t.cx, keep, code + [Marked(site, Ins.Call(g + t.cx.shift))], s,
                 if reply.Gives? then Ir.Gives([reply.value], r.env) else One(reply), [t.cx.p[g].ret], depth, Normal, h)
  {
    hide Meets, Invokes;
    var args := EncAll(r.value);
    var base := f.state.(stack := s.stack);
    CalleeArity(t, g, r.value);
    var k := CallMeets(t.w, site, g + t.cx.shift, base, args, reply, depth, cost);
    assert base.(stack := base.stack + args) == f.state;
    if reply.Gives? {
      EncOne(reply.value);
    }
    var result := if reply.Gives? then Ir.Gives([reply.value], r.env) else One(reply);
    Then(t.w, t.cx, keep, code, [Marked(site, Ins.Call(g + t.cx.shift))], s, r, t.cx.p[g].params, f,
         result, [t.cx.p[g].ret], depth, Normal, k);
    h := Joined(f, k);
  }

  lemma CalleeArity(t: Setting, g: nat, vs: seq<Ir.Val>)
    requires Linked(t.w, t.cx.p, t.starts, t.placed) && g < |t.cx.p| && HasTypes(vs, t.cx.p[g].params)
    ensures Arity(t.w.m, g + |t.w.m.imports|) == Ok(|EncAll(vs)|)
  {
    assert LinkedAt(t.w, t.cx.p, g, t.starts[g], t.placed);
    EncRepresented(vs, t.cx.p[g].params);
    assert g + |t.w.m.imports| - |t.w.m.imports| == g;
  }

  /**
   * Calling the compiled function does what calling the function in the IR does: it answers
   * the same value, leaving memory as it was, or fails the same way, or is not done.
   */
  lemma {:induction false} RunsFunction(t: Setting, g: nat, vs: seq<Ir.Val>, depth: nat, memory: seq<byte>) returns (cost: nat)
    requires Linked(t.w, t.cx.p, t.starts, t.placed) && g < |t.cx.p| && Primed(memory, t.placed)
    requires HasTypes(vs, t.cx.p[g].params)
    ensures Invokes(t.w, g + |t.w.m.imports|, EncAll(vs), memory,
                    Ir.EvalFunction(t.cx.p, Ir.Strict, depth, t.cx.p[g], vs), depth, cost)
    ensures var r := Ir.EvalFunction(t.cx.p, Ir.Strict, depth, t.cx.p[g], vs); r.Gives? ==> Ir.ValTy(r.value) == t.cx.p[g].ret
    decreases depth, t.cx.p[g], 1
  {
    hide Meets, Shows, Invokes;
    var f := t.cx.p[g];
    var u := t.(cx := Cx(t.cx.p, f, |t.w.m.imports|));
    var start := t.starts[g];
    assert LinkedAt(t.w, t.cx.p, g, start, t.placed);
    var func := t.w.m.funcs[g];
    var block := CompileBlock(u.cx, Begin(f, start), f.body);
    assert f in t.cx.p;
    BeginCovers(u.cx, start);
    BegunShows(u.cx, start, func, vs, memory);
    var s := Begun(func, EncAll(vs), memory);
    var r := Ir.EvalBlock(t.cx.p, Ir.Strict, depth, Ir.Slots(f, vs), f.body);
    var k := RunsBlock(u, Begin(f, start), f.body, depth, Ir.Slots(f, vs), s);
    cost := BodyAnswers(t.w, u.cx, g, func, block.code, EncAll(vs), memory, r, depth, Fresh(u.cx, Begin(f, start)), k);
    if r.Gives? {
      assert Ir.ValTy([r.value][0]) == f.ret;
    }
  }
}
