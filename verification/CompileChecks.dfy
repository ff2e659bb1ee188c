/**
 * What the backend emits validates, and its branches are tight: every well-typed function of
 * the scalar IR compiles to a body the validator accepts under the rules soundness needs.
 */
module CompileChecks {
  import opened Ints
  import opened Wasm
  import opened Types
  import opened Validate
  import opened Compile
  import opened Slots
  import Ir
  import L = Layout

  // -- the control stack -----------------------------------------------------

  lemma PushAllNone(c: Control)
    ensures PushAll(c, []) == c
  {
    assert PushAll(c, []).stack == c.stack;
  }

  lemma PushAllTwice(c: Control, one: seq<ValType>, two: seq<ValType>)
    ensures PushAll(PushAll(c, one), two) == PushAll(c, one + two)
  {
    assert PushAll(PushAll(c, one), two).stack == PushAll(c, one + two).stack;
  }

  lemma CutAgain(c: Control, types: seq<ValType>)
    requires Sound(c)
    ensures Sound(PushAll(c, types)) && Cut(PushAll(c, types)) == Cut(c)
    ensures Cut(Cut(c)) == Cut(c)
  {
    assert PushAll(c, types).stack[..Top(c).height] == c.stack[..Top(c).height];
    assert Cut(Cut(c)).frames == Cut(c).frames;
  }

  lemma {:induction false} PopPushed(c: Control, types: seq<ValType>)
    requires Sound(c)
    ensures Sound(PushAll(c, types)) && PopAll(PushAll(c, types), types) == Some(c)
    decreases |types|
  {
    if types == [] {
      PushAllNone(c);
    } else {
      var last := types[|types| - 1];
      var rest := types[..|types| - 1];
      assert types == rest + [last];
      PushAllTwice(c, rest, [last]);
      var under := PushAll(c, rest);
      assert PushAll(under, [last]).stack == under.stack + [Val(last)];
      assert PopExpect(PushAll(under, [last]), last) == Some(under);
      PopPushed(c, rest);
    }
  }

  /** In unreachable code what is missing under the top stands for itself. */
  lemma {:induction false} PopCut(c: Control, types: seq<ValType>, missing: nat)
    requires Sound(c) && Top(c).unreachable && |c.stack| == Top(c).height && missing <= |types|
    ensures PopAll(PushAll(c, types[missing..]), types) == Some(c)
    decreases |types|
  {
    if types == [] {
      PushAllNone(c);
    } else {
      var last := types[|types| - 1];
      var rest := types[..|types| - 1];
      if missing == |types| {
        PushAllNone(c);
        assert rest[|rest|..] == [];
        PopCut(c, rest, missing - 1);
      } else {
        assert types[missing..] == rest[missing..] + [last];
        PushAllTwice(c, rest[missing..], [last]);
        var under := PushAll(c, rest[missing..]);
        assert PushAll(under, [last]).stack == under.stack + [Val(last)];
        assert PopExpect(PushAll(under, [last]), last) == Some(under);
        PopCut(c, rest, missing);
      }
    }
  }

  // -- sequences -------------------------------------------------------------

  lemma {:induction false} CheckAppend(env: Env, c: Control, one: seq<Ins>, two: seq<Ins>)
    requires Sound(c)
    ensures CheckBody(env, c, one + two) ==
            match CheckBody(env, c, one) case Some(next) => CheckBody(env, next, two) case None => None
    decreases |one|
  {
    hide CheckIns;
    if one == [] {
      assert one + two == two;
    } else {
      assert (one + two)[1..] == one[1..] + two;
      if CheckIns(env, c, one[0]).Some? {
        CheckAppend(env, CheckIns(env, c, one[0]).value, one[1..], two);
      }
    }
  }

  lemma CheckOne(env: Env, c: Control, ins: Ins)
    requires Sound(c)
    ensures CheckBody(env, c, [ins]) == CheckIns(env, c, ins)
  {
    assert [ins][1..] == [];
    if CheckIns(env, c, ins).Some? {
      var next := CheckIns(env, c, ins).value;
      assert CheckBody(env, next, []) == Some(next);
    }
  }

  /** Code that takes these types off the stack and leaves those. */
  ghost predicate Turns(env: Env, c: Control, code: seq<Ins>, params: seq<ValType>, results: seq<ValType>)
    requires Sound(c)
  {
    Sound(PushAll(c, params)) && CheckBody(env, PushAll(c, params), code) == Some(PushAll(c, results))
  }

  lemma PlainTurns(env: Env, c: Control, ins: Ins)
    requires Sound(c) && PlainType(env, ins).Some?
    ensures Turns(env, c, [ins], PlainType(env, ins).value.params, PlainType(env, ins).value.results)
  {
    var ty := PlainType(env, ins).value;
    PopPushed(c, ty.params);
    CheckOne(env, PushAll(c, ty.params), ins);
    assert CheckIns(env, PushAll(c, ty.params), ins) == CheckPlain(PushAll(c, ty.params), ty);
  }

  lemma TurnsThen(
    env: Env, c: Control, one: seq<Ins>, two: seq<Ins>,
    params: seq<ValType>, middle: seq<ValType>, results: seq<ValType>)
    requires Sound(c) && Turns(env, c, one, params, middle) && Turns(env, c, two, middle, results)
    ensures Turns(env, c, one + two, params, results)
  {
    hide CheckIns;
    CheckAppend(env, PushAll(c, params), one, two);
  }

  lemma TurnsThrough(
    env: Env, c: Control, one: seq<Ins>, two: seq<Ins>, three: seq<Ins>, results: seq<ValType>)
    requires Sound(c)
    requires Turns(env, c, one, [], []) && Turns(env, c, two, [], []) && Turns(env, c, three, [], results)
    ensures Turns(env, c, one + two + three, [], results)
  {
    hide CheckIns;
    TurnsThen(env, c, one, two, [], [], []);
    TurnsThen(env, c, one + two, three, [], [], results);
  }

  /** The same code, over values it does not touch. */
  lemma TurnsOver(env: Env, c: Control, code: seq<Ins>, under: seq<ValType>, results: seq<ValType>)
    requires Sound(c) && Sound(PushAll(c, under)) && Turns(env, PushAll(c, under), code, [], results)
    ensures Turns(env, c, code, under, under + results)
  {
    hide CheckIns;
    PushAllNone(PushAll(c, under));
    PushAllTwice(c, under, results);
  }

  // -- locals ----------------------------------------------------------------

  /** What checking a body needs of the environment it is checked in. */
  ghost predicate EnvFor(env: Env, cx: Cx, after: Draft) {
    && env.rules.Tight? && env.m.memoryPages.Some?
    && LocalsAt(cx, after) <= env.locals
    && (forall g | 0 <= g < |cx.p| ::
          FuncTypeOf(env.m, g + cx.shift) == Some(FuncType(Represented(cx.p[g].params), Results(ValTypeOf(cx.p[g].ret)))))
  }

  lemma EnvEarlier(env: Env, cx: Cx, d: Draft, after: Draft)
    requires EnvFor(env, cx, after) && Grows(d, after)
    ensures EnvFor(env, cx, d)
  {
    assert LocalsAt(cx, d) <= LocalsAt(cx, after);
  }

  lemma SlotTyped(env: Env, cx: Cx, d: Draft, i: nat)
    requires EnvFor(env, cx, d) && Covers(cx, d) && i < |cx.f.locals|
    ensures SlotOf(cx, i).Some? <==> ValTypeOf(cx.f.locals[i]).Some?
    ensures SlotOf(cx, i).Some? ==>
              SlotOf(cx, i).value < |env.locals| && Some(env.locals[SlotOf(cx, i).value]) == ValTypeOf(cx.f.locals[i])
  {
    SlotRepresented(cx.f.locals, 0, i);
    if SlotOf(cx, i).Some? {
      var k := SlotOf(cx, i).value;
      assert env.locals[k] == LocalsAt(cx, d)[k] == Represented(cx.f.locals)[k];
    }
  }

  lemma FreshTyped(env: Env, cx: Cx, d: Draft, ty: ValType, after: Draft)
    requires EnvFor(env, cx, after) && Grows(Took(d, ty), after)
    ensures Fresh(cx, d) < |env.locals| && env.locals[Fresh(cx, d)] == ty
  {
    assert after.extra[|d.extra|] == Took(d, ty).extra[|d.extra|] == ty;
    assert LocalsAt(cx, after)[Fresh(cx, d)] == ty;
  }

  // -- the small pieces ------------------------------------------------------

  lemma TwoThen(env: Env, c: Control, a: Ins, b: Ins, op: Ins, t: ValType, u: ValType, results: seq<ValType>)
    requires Sound(c)
    requires PlainType(env, a) == Some(FuncType([], [t])) && PlainType(env, b) == Some(FuncType([], [u]))
    requires PlainType(env, op) == Some(FuncType([t, u], results))
    ensures Turns(env, c, [a, b, op], [], results)
  {
    hide CheckIns;
    PlainTurns(env, c, a);
    PushAllNone(PushAll(c, [t]));
    PopPushed(c, [t]);
    PlainTurns(env, PushAll(c, [t]), b);
    TurnsOver(env, c, [b], [t], [u]);
    assert [t] + [u] == [t, u];
    PlainTurns(env, c, op);
    TurnsThen(env, c, [a], [b], [], [t], [t, u]);
    TurnsThen(env, c, [a] + [b], [op], [], [t, u], results);
    assert [a] + [b] + [op] == [a, b, op];
  }

  /** The local is one that holds a word. */
  ghost predicate Word(env: Env, a: nat) { a < |env.locals| && env.locals[a] == I64 }

  lemma TestTurns(env: Env, c: Control, a: nat, op: NumOp, b: nat)
    requires Sound(c) && Word(env, a) && Word(env, b)
    requires NumParams(op) == [I64, I64]
    ensures Turns(env, c, Test(a, op, b), [], [NumResult(op)])
  {
    TwoThen(env, c, LocalGet(a), LocalGet(b), Num(op), I64, I64, [NumResult(op)]);
  }

  lemma TestConstTurns(env: Env, c: Control, a: nat, op: NumOp, n: i64)
    requires Sound(c) && Word(env, a)
    requires NumParams(op) == [I64, I64]
    ensures Turns(env, c, TestConst(a, op, n), [], [NumResult(op)])
  {
    TwoThen(env, c, LocalGet(a), I64Const(n), Num(op), I64, I64, [NumResult(op)]);
  }

  lemma ZeroTestTurns(env: Env, c: Control, a: nat)
    requires Sound(c) && Word(env, a)
    ensures Turns(env, c, [LocalGet(a), Num(I64Eqz)], [], [I32])
  {
    hide CheckIns;
    PlainTurns(env, c, LocalGet(a));
    PlainTurns(env, c, Num(I64Eqz));
    TurnsThen(env, c, [LocalGet(a)], [Num(I64Eqz)], [], [I64], [I32]);
    assert [LocalGet(a)] + [Num(I64Eqz)] == [LocalGet(a), Num(I64Eqz)];
  }

  /** Two conditions joined by a boolean operator are one. */
  lemma JoinTurns(env: Env, c: Control, one: seq<Ins>, two: seq<Ins>, op: NumOp)
    requires Sound(c) && Sound(PushAll(c, [I32]))
    requires Turns(env, c, one, [], [I32]) && Turns(env, PushAll(c, [I32]), two, [], [I32])
    requires NumParams(op) == [I32, I32] && NumResult(op) == I32
    ensures Turns(env, c, one + two + [Num(op)], [], [I32])
  {
    hide CheckIns;
    TurnsOver(env, c, two, [I32], [I32]);
    assert [I32] + [I32] == [I32, I32];
    TurnsThen(env, c, one, two, [], [I32], [I32, I32]);
    PlainTurns(env, c, Num(op));
    TurnsThen(env, c, one + two, [Num(op)], [], [I32, I32], [I32]);
  }

  /** Storing one of the two failure words. */
  lemma WordTurns(env: Env, c: Control, word: i32, at: i64)
    requires Sound(c) && env.m.memoryPages.Some?
    ensures Turns(env, c, [I32Const(word), I64Const(at), I64Store(0)], [], [])
  {
    TwoThen(env, c, I32Const(word), I64Const(at), I64Store(0), I32, I64, []);
  }

  lemma FailWordsTurn(env: Env, c: Control, code: nat, message: nat)
    requires Sound(c) && env.m.memoryPages.Some?
    ensures Turns(env, c, FailWords(code, message), [], [])
  {
    var one := [I32Const(L.FAILURE_CODE), I64Const(AsWord(code)), I64Store(0)];
    var two := [I32Const(L.FAILURE_MESSAGE), I64Const(AsWord(message)), I64Store(0)];
    WordTurns(env, c, L.FAILURE_CODE, AsWord(code));
    WordTurns(env, c, L.FAILURE_MESSAGE, AsWord(message));
    TurnsThen(env, c, one, two, [], [], []);
    assert one + two == FailWords(code, message);
  }

  /** A failure leaves the rest of its block unreachable. */
  lemma FailureCuts(env: Env, c: Control, code: nat, message: nat, last: Ins)
    requires Sound(c) && env.m.memoryPages.Some?
    requires last == Ins.Unreachable || (last.Marked? && last.inner == Ins.Unreachable)
    ensures CheckBody(env, c, FailWords(code, message) + [last]) == Some(Cut(c))
  {
    FailWordsTurn(env, c, code, message);
    PushAllNone(c);
    CheckAppend(env, c, FailWords(code, message), [last]);
    CheckOne(env, c, last);
    if last.Marked? {
      assert CheckIns(env, c, last) == CheckIns(env, c, Ins.Unreachable);
    }
  }

  /** An arm that ends in a failure, or falls off having left nothing, changes nothing outside. */
  lemma GuardTurns(env: Env, c: Control, arm: seq<Ins>)
    requires Sound(c)
    requires var entered := PushFrame(c, [], []);
      CheckBody(env, entered, arm) == Some(entered) || CheckBody(env, entered, arm) == Some(Cut(entered))
    ensures Turns(env, c, [Ins.If(None, arm, [])], [I32], [])
  {
    PopPushed(c, [I32]);
    CheckOne(env, PushAll(c, [I32]), Ins.If(None, arm, []));
    EmptyNested(env, c, arm);
    EmptyNested(env, c, []);
    PushAllNone(c);
  }

  lemma EmptyNested(env: Env, c: Control, arm: seq<Ins>)
    requires Sound(c)
    requires var entered := PushFrame(c, [], []);
      CheckBody(env, entered, arm) == Some(entered) || CheckBody(env, entered, arm) == Some(Cut(entered))
    ensures CheckNested(env, c, [], [], arm) == Some(PushAll(c, []))
  {
    var inner := CheckBody(env, PushFrame(c, [], []), arm).value;
    assert PopAll(inner, []) == Some(inner);
    assert inner.stack == c.stack;
  }

  lemma FailureGuards(env: Env, c: Control, d: Draft)
    requires Sound(c) && env.m.memoryPages.Some?
    ensures Turns(env, c, [TrapOnTrue(ArithmeticFailure(d).code)], [I32], [])
  {
    var one := Place(d.strings, Ir.ARITHMETIC_CODE);
    var two := Place(one.0, Ir.ARITHMETIC_MESSAGE);
    FailureCuts(env, PushFrame(c, [], []), one.1, two.1, Ins.Unreachable);
    GuardTurns(env, c, ArithmeticFailure(d).code);
  }

  // -- checked arithmetic ----------------------------------------------------

  lemma WentPastTurns(env: Env, c: Control, right: nat, x: nat, left: nat, up: NumOp, down: NumOp)
    requires Sound(c) && Word(env, right) && Word(env, x) && Word(env, left)
    requires NumParams(up) == NumParams(down) == [I64, I64] && NumResult(up) == NumResult(down) == I32
    ensures Turns(env, c, WentPast(right, x, left, up, down), [], [I32])
  {
    PopPushed(c, [I32]);
    SignTestTurns(env, c, right, I64GtS, x, up, left);
    SignTestTurns(env, PushAll(c, [I32]), right, I64LtS, x, down, left);
    JoinTurns(env, c, TestConst(right, I64GtS, 0) + Test(x, up, left) + [Num(I32And)],
              TestConst(right, I64LtS, 0) + Test(x, down, left) + [Num(I32And)], I32Or);
  }

  lemma SignTestTurns(env: Env, c: Control, right: nat, sign: NumOp, x: nat, way: NumOp, left: nat)
    requires Sound(c) && Word(env, right) && Word(env, x) && Word(env, left)
    requires NumParams(sign) == NumParams(way) == [I64, I64] && NumResult(sign) == NumResult(way) == I32
    ensures Turns(env, c, TestConst(right, sign, 0) + Test(x, way, left) + [Num(I32And)], [], [I32])
  {
    PopPushed(c, [I32]);
    TestConstTurns(env, c, right, sign, 0);
    TestTurns(env, PushAll(c, [I32]), x, way, left);
    JoinTurns(env, c, TestConst(right, sign, 0), Test(x, way, left), I32And);
  }

  lemma ConstTestsTurn(env: Env, c: Control, left: nat, n: i64, right: nat, m: i64)
    requires Sound(c) && Word(env, left) && Word(env, right)
    ensures Turns(env, c, TestConst(left, I64Eq, n) + TestConst(right, I64Eq, m) + [Num(I32And)], [], [I32])
  {
    PopPushed(c, [I32]);
    TestConstTurns(env, c, left, I64Eq, n);
    TestConstTurns(env, PushAll(c, [I32]), right, I64Eq, m);
    JoinTurns(env, c, TestConst(left, I64Eq, n), TestConst(right, I64Eq, m), I32And);
  }

  lemma NeitherZeroTurns(env: Env, c: Control, left: nat, right: nat)
    requires Sound(c) && Word(env, left) && Word(env, right)
    ensures Turns(env, c, NeitherZero(left, right), [], [I32])
  {
    hide CheckIns;
    PopPushed(c, [I32]);
    ZeroTestTurns(env, c, left);
    ZeroTestTurns(env, PushAll(c, [I32]), right);
    var one, two := [LocalGet(left), Num(I64Eqz)], [LocalGet(right), Num(I64Eqz)];
    JoinTurns(env, c, one, two, I32Or);
    PlainTurns(env, c, Num(I32Eqz));
    TurnsThen(env, c, one + two + [Num(I32Or)], [Num(I32Eqz)], [], [I32], [I32]);
    assert one + two + [Num(I32Or)] + [Num(I32Eqz)] == NeitherZero(left, right);
  }

  lemma NoQuotientTurns(env: Env, c: Control, left: nat, right: nat)
    requires Sound(c) && Word(env, left) && Word(env, right)
    ensures Turns(env, c, NoQuotient(left, right), [], [I32])
  {
    PopPushed(c, [I32]);
    ZeroTestTurns(env, c, right);
    ConstTestsTurn(env, PushAll(c, [I32]), left, MIN_64, right, -1);
    JoinTurns(env, c, [LocalGet(right), Num(I64Eqz)],
              TestConst(left, I64Eq, MIN_64) + TestConst(right, I64Eq, -1) + [Num(I32And)], I32Or);
  }

  lemma DividesBackTurns(env: Env, c: Control, product: nat, left: nat, right: nat, d: Draft)
    requires Sound(c) && env.m.memoryPages.Some?
    requires Word(env, left) && Word(env, right) && Word(env, product)
    ensures Turns(env, c, DividesBack(product, left, right, ArithmeticFailure(d).code), [], [])
  {
    var trap := TrapOnTrue(ArithmeticFailure(d).code);
    var compared := Test(product, I64DivS, left) + [LocalGet(right)] + [Num(I64Ne)];
    QuotientTurns(env, c, product, left, right);
    GuardedTurns(env, c, compared, d);
    assert compared + [trap] == DividesBack(product, left, right, ArithmeticFailure(d).code);
  }

  lemma QuotientTurns(env: Env, c: Control, product: nat, left: nat, right: nat)
    requires Sound(c) && Word(env, left) && Word(env, right) && Word(env, product)
    ensures Turns(env, c, Test(product, I64DivS, left) + [LocalGet(right)] + [Num(I64Ne)], [], [I32])
  {
    hide CheckIns;
    PopPushed(c, [I64]);
    TestTurns(env, c, product, I64DivS, left);
    PlainTurns(env, PushAll(c, [I64]), LocalGet(right));
    PushAllNone(PushAll(c, [I64]));
    TurnsOver(env, c, [LocalGet(right)], [I64], [I64]);
    assert [I64] + [I64] == [I64, I64];
    PlainTurns(env, c, Num(I64Ne));
    TurnsThen(env, c, Test(product, I64DivS, left), [LocalGet(right)], [], [I64], [I64, I64]);
    TurnsThen(env, c, Test(product, I64DivS, left) + [LocalGet(right)], [Num(I64Ne)], [], [I64, I64], [I32]);
  }

  /** What computes a word and puts it in a slot. */
  lemma StoredTurns(env: Env, c: Control, left: nat, op: NumOp, right: nat, x: nat)
    requires Sound(c) && Word(env, left) && Word(env, right) && Word(env, x)
    requires NumParams(op) == [I64, I64] && NumResult(op) == I64
    ensures Turns(env, c, Test(left, op, right) + [LocalSet(x)], [], [])
  {
    TestTurns(env, c, left, op, right);
    PlainTurns(env, c, LocalSet(x));
    TurnsThen(env, c, Test(left, op, right), [LocalSet(x)], [], [I64], []);
  }

  /** A condition that traps when it holds. */
  lemma GuardedTurns(env: Env, c: Control, test: seq<Ins>, d: Draft)
    requires Sound(c) && env.m.memoryPages.Some? && Turns(env, c, test, [], [I32])
    ensures Turns(env, c, test + [TrapOnTrue(ArithmeticFailure(d).code)], [], [])
  {
    FailureGuards(env, c, d);
    TurnsThen(env, c, test, [TrapOnTrue(ArithmeticFailure(d).code)], [], [I32], []);
  }

  lemma CheckedOpTurns(env: Env, c: Control, cx: Cx, d: Draft, op: Ir.BinaryOp, left: nat, right: nat)
    requires Sound(c) && Ir.Arithmetic(op)
    requires EnvFor(env, cx, CheckedOp(cx, d, op, left, right).draft)
    requires Word(env, left) && Word(env, right)
    ensures Turns(env, c, CheckedOp(cx, d, op, left, right).code, [], [I64])
  {
    if op.AddInt? || op.SubInt? || op.MulInt? {
      FreshTyped(env, cx, d, I64, CheckedOp(cx, d, op, left, right).draft);
    }
    if op.AddInt? {
      AddTurns(env, c, cx, d, left, right);
    } else if op.SubInt? {
      SubtractTurns(env, c, cx, d, left, right);
    } else if op.MulInt? {
      MultiplyTurns(env, c, cx, d, left, right);
    } else {
      DivideTurns(env, c, cx, d, op, left, right);
    }
  }

  lemma AddTurns(env: Env, c: Control, cx: Cx, d: Draft, left: nat, right: nat)
    requires Sound(c) && env.m.memoryPages.Some?
    requires Word(env, left) && Word(env, right) && Word(env, Fresh(cx, d))
    ensures Turns(env, c, CheckedOp(cx, d, Ir.AddInt, left, right).code, [], [I64])
  {
    var x := Fresh(cx, d);
    WentPastTurns(env, c, right, x, left, I64LtS, I64GtS);
    SumTurns(env, c, d, I64Add, left, right, x, WentPast(right, x, left, I64LtS, I64GtS));
  }

  lemma SubtractTurns(env: Env, c: Control, cx: Cx, d: Draft, left: nat, right: nat)
    requires Sound(c) && env.m.memoryPages.Some?
    requires Word(env, left) && Word(env, right) && Word(env, Fresh(cx, d))
    ensures Turns(env, c, CheckedOp(cx, d, Ir.SubInt, left, right).code, [], [I64])
  {
    var x := Fresh(cx, d);
    WentPastTurns(env, c, right, x, left, I64GtS, I64LtS);
    SumTurns(env, c, d, I64Sub, left, right, x, WentPast(right, x, left, I64GtS, I64LtS));
  }

  lemma SumTurns(env: Env, c: Control, d: Draft, num: NumOp, left: nat, right: nat, x: nat, test: seq<Ins>)
    requires Sound(c) && env.m.memoryPages.Some? && Word(env, left) && Word(env, right) && Word(env, x)
    requires NumParams(num) == [I64, I64] && NumResult(num) == I64 && Turns(env, c, test, [], [I32])
    ensures Turns(env, c, Test(left, num, right) + [LocalSet(x)] + test
                    + [TrapOnTrue(ArithmeticFailure(Took(d, I64)).code), LocalGet(x)], [], [I64])
  {
    var stored := Test(left, num, right) + [LocalSet(x)];
    var trap := TrapOnTrue(ArithmeticFailure(Took(d, I64)).code);
    StoredTurns(env, c, left, num, right, x);
    GuardedTurns(env, c, test, Took(d, I64));
    PlainTurns(env, c, LocalGet(x));
    TurnsThrough(env, c, stored, test + [trap], [LocalGet(x)], [I64]);
    assert stored + (test + [trap]) + [LocalGet(x)] == stored + test + [trap, LocalGet(x)];
  }

  lemma MultiplyTurns(env: Env, c: Control, cx: Cx, d: Draft, left: nat, right: nat)
    requires Sound(c) && env.m.memoryPages.Some?
    requires Word(env, left) && Word(env, right) && Word(env, Fresh(cx, d))
    ensures Turns(env, c, CheckedOp(cx, d, Ir.MulInt, left, right).code, [], [I64])
  {
    var x := Fresh(cx, d);
    var failure := ArithmeticFailure(Took(d, I64));
    var back := DividesBack(x, left, right, ArithmeticFailure(failure.draft).code);
    StoredTurns(env, c, left, I64Mul, right, x);
    ConstTestsTurn(env, c, left, -1, right, MIN_64);
    GuardedTurns(env, c, LeastByMinusOne(left, right), Took(d, I64));
    BackTurns(env, c, x, left, right, failure.draft);
    PlainTurns(env, c, LocalGet(x));
    ProductTurns(env, c, Test(left, I64Mul, right) + [LocalSet(x)], LeastByMinusOne(left, right),
                 TrapOnTrue(failure.code), NeitherZero(left, right), Ins.If(None, back, []), LocalGet(x));
  }

  lemma ProductTurns(
    env: Env, c: Control, stored: seq<Ins>, least: seq<Ins>, trap: Ins, zero: seq<Ins>, back: Ins, last: Ins)
    requires Sound(c) && Turns(env, c, stored, [], []) && Turns(env, c, least + [trap], [], [])
    requires Turns(env, c, zero + [back], [], []) && Turns(env, c, [last], [], [I64])
    ensures Turns(env, c, stored + least + [trap] + zero + [back, last], [], [I64])
  {
    TurnsThrough(env, c, stored, least + [trap], zero + [back], []);
    TurnsThen(env, c, stored + (least + [trap]) + (zero + [back]), [last], [], [], [I64]);
    assert stored + (least + [trap]) + (zero + [back]) + [last] == stored + least + [trap] + zero + [back, last];
  }

  lemma BackTurns(env: Env, c: Control, x: nat, left: nat, right: nat, d: Draft)
    requires Sound(c) && env.m.memoryPages.Some? && Word(env, left) && Word(env, right) && Word(env, x)
    ensures Turns(env, c, NeitherZero(left, right)
                    + [Ins.If(None, DividesBack(x, left, right, ArithmeticFailure(d).code), [])], [], [])
  {
    var back := DividesBack(x, left, right, ArithmeticFailure(d).code);
    NeitherZeroTurns(env, c, left, right);
    var entered := PushFrame(c, [], []);
    DividesBackTurns(env, entered, x, left, right, d);
    PushAllNone(entered);
    GuardTurns(env, c, back);
    TurnsThen(env, c, NeitherZero(left, right), [Ins.If(None, back, [])], [], [I32], []);
  }

  lemma DivideTurns(env: Env, c: Control, cx: Cx, d: Draft, op: Ir.BinaryOp, left: nat, right: nat)
    requires Sound(c) && env.m.memoryPages.Some? && (op.DivInt? || op.RemInt?)
    requires Word(env, left) && Word(env, right)
    ensures Turns(env, c, CheckedOp(cx, d, op, left, right).code, [], [I64])
  {
    var num := if op.DivInt? then I64DivS else I64RemS;
    NoQuotientTurns(env, c, left, right);
    GuardedTurns(env, c, NoQuotient(left, right), d);
    TestTurns(env, c, left, num, right);
    TurnsThen(env, c, NoQuotient(left, right) + [TrapOnTrue(ArithmeticFailure(d).code)], Test(left, num, right), [], [], [I64]);
  }

  // -- the induction over the IR ---------------------------------------------

  /** The state a body of this function is checked in, wherever in it we are. */
  ghost predicate Inside(cx: Cx, c: Control) {
    Sound(c) && c.frames[0].endTypes == Results(ValTypeOf(cx.f.ret))
  }

  /** Falling through, or the rest of the innermost block being unreachable. */
  ghost predicate Through(c: Control, x: Control)
    requires Sound(c)
  {
    x == c || x == Cut(c)
  }

  /** Code that leaves one value, and then code that consumes it and leaves something else. */
  lemma ThenTurns(env: Env, c: Control, x: Control, one: seq<Ins>, two: seq<Ins>,
                  middle: seq<ValType>, results: seq<ValType>)
    requires Sound(c) && Sound(x) && CheckBody(env, c, one) == Some(PushAll(x, middle))
    requires Turns(env, x, two, middle, results)
    ensures CheckBody(env, c, one + two) == Some(PushAll(x, results))
  {
    CheckAppend(env, c, one, two);
  }

  function OneTy(cx: Cx, e: Ir.Expr): seq<ValType> { Results(ValTypeOf(Ir.TyOf(cx.p, cx.f, e))) }

  lemma {:induction false} ExprChecks(env: Env, cx: Cx, d: Draft, e: Ir.Expr, c: Control) returns (x: Control)
    requires Ir.ExprOk(cx.p, cx.f, e) && Covers(cx, d) && EnvFor(env, cx, CompileExpr(cx, d, e).draft) && Inside(cx, c)
    ensures Through(c, x)
    ensures CheckBody(env, c, CompileExpr(cx, d, e).code) == Some(PushAll(x, OneTy(cx, e)))
    decreases e, 2
  {
    var after := CompileExpr(cx, d, e).draft;
    if e.UnitLit? {
      x := c;
      PushAllNone(c);
    } else if e.BoolLit? {
      x := c;
      PushAllNone(c);
      PlainTurns(env, c, I32Const(if e.b then 1 else 0));
    } else if e.IntLit? {
      x := c;
      PushAllNone(c);
      PlainTurns(env, c, I64Const(e.n));
    } else if e.Local? {
      x := c;
      PushAllNone(c);
      SlotTyped(env, cx, d, e.local);
      if SlotOf(cx, e.local).Some? {
        PlainTurns(env, c, LocalGet(SlotOf(cx, e.local).value));
      }
    } else if e.Unary? {
      x := UnaryChecks(env, cx, d, e, c);
    } else if e.Binary? {
      if Ir.Arithmetic(e.op) {
        x := ArithmeticChecks(env, cx, d, e, c);
      } else {
        x := ComparisonChecks(env, cx, d, e, c);
      }
    } else if e.Call? {
      x := CallChecks(env, cx, d, e, c);
    } else if e.If? {
      x := IfChecks(env, cx, d, e, c);
    } else {
      x := BlockChecks(env, cx, d, e.block, c);
    }
  }

  lemma {:induction false} UnaryChecks(env: Env, cx: Cx, d: Draft, e: Ir.Expr, c: Control) returns (x: Control)
    requires e.Unary?
    requires Ir.ExprOk(cx.p, cx.f, e) && Covers(cx, d) && EnvFor(env, cx, CompileExpr(cx, d, e).draft) && Inside(cx, c)
    ensures Through(c, x)
    ensures CheckBody(env, c, CompileExpr(cx, d, e).code) == Some(PushAll(x, OneTy(cx, e)))
    decreases e, 1
  {
    hide CheckIns, CheckBody, CheckedOp, Covers;
    if e.uop.Not? {
      x := ExprChecks(env, cx, d, e.operand, c);
      PlainTurns(env, x, Num(I32Eqz));
      ThenTurns(env, c, x, CompileExpr(cx, d, e.operand).code, [Num(I32Eqz)], [I32], [I32]);
    } else {
      var held := Took(d, I64);
      var inner := CompileExpr(cx, held, e.operand);
      NegateReady(env, cx, d, inner.draft, CompileExpr(cx, d, e).draft);
      x := ExprChecks(env, cx, held, e.operand, c);
      NegateChecks(env, c, x, inner, Fresh(cx, d));
    }
  }

  /** What the operand of a negation is checked under. */
  lemma NegateReady(env: Env, cx: Cx, d: Draft, inner: Draft, after: Draft)
    requires Covers(cx, d) && EnvFor(env, cx, after) && Grows(Took(d, I64), inner) && Grows(inner, after)
    ensures Covers(cx, Took(d, I64)) && EnvFor(env, cx, inner) && Word(env, Fresh(cx, d))
  {
    EnvEarlier(env, cx, inner, after);
    CoversLater(cx, d, Took(d, I64));
    FreshTyped(env, cx, d, I64, inner);
  }

  lemma NegateChecks(env: Env, c: Control, x: Control, inner: Emitted, slot: nat)
    requires Sound(c) && Sound(x) && env.m.memoryPages.Some? && Word(env, slot)
    requires CheckBody(env, c, inner.code) == Some(PushAll(x, [I64]))
    ensures CheckBody(env, c, CheckedNegate(inner, slot).code) == Some(PushAll(x, [I64]))
  {
    SlotFilled(env, c, x, inner.code, slot);
    LeastTestTurns(env, x, inner.draft, slot);
    LastTurns(env, x, slot);
    FilledThen(env, c, x, inner.code + [LocalSet(slot)], TestConst(slot, I64Eq, MIN_64),
               TrapOnTrue(ArithmeticFailure(inner.draft).code), [I64Const(0), LocalGet(slot), Num(I64Sub)]);
  }

  lemma LeastTestTurns(env: Env, x: Control, d: Draft, slot: nat)
    requires Sound(x) && env.m.memoryPages.Some? && Word(env, slot)
    ensures Turns(env, x, TestConst(slot, I64Eq, MIN_64) + [TrapOnTrue(ArithmeticFailure(d).code)], [], [])
  {
    TestConstTurns(env, x, slot, I64Eq, MIN_64);
    GuardedTurns(env, x, TestConst(slot, I64Eq, MIN_64), d);
  }

  lemma LastTurns(env: Env, x: Control, slot: nat)
    requires Sound(x) && Word(env, slot)
    ensures Turns(env, x, [I64Const(0), LocalGet(slot), Num(I64Sub)], [], [I64])
  {
    TwoThen(env, x, I64Const(0), LocalGet(slot), Num(I64Sub), I64, I64, [I64]);
  }

  lemma FilledThen(env: Env, c: Control, x: Control, filled: seq<Ins>, test: seq<Ins>, trap: Ins, last: seq<Ins>)
    requires Sound(c) && Sound(x) && CheckBody(env, c, filled) == Some(x)
    requires Turns(env, x, test + [trap], [], []) && Turns(env, x, last, [], [I64])
    ensures CheckBody(env, c, filled + test + [trap] + last) == Some(PushAll(x, [I64]))
  {
    hide CheckIns;
    PushAllNone(x);
    ThenTurns(env, c, x, filled, test + [trap], [], []);
    ThenTurns(env, c, x, filled + (test + [trap]), last, [], [I64]);
    assert filled + (test + [trap]) + last == filled + test + [trap] + last;
  }

  lemma {:induction false} ArithmeticChecks(env: Env, cx: Cx, d: Draft, e: Ir.Expr, c: Control) returns (x: Control)
    requires e.Binary? && Ir.Arithmetic(e.op)
    requires Ir.ExprOk(cx.p, cx.f, e) && Covers(cx, d) && EnvFor(env, cx, CompileExpr(cx, d, e).draft) && Inside(cx, c)
    ensures Through(c, x)
    ensures CheckBody(env, c, CompileExpr(cx, d, e).code) == Some(PushAll(x, OneTy(cx, e)))
    decreases e, 1
  {
    hide CheckIns, CheckBody, CheckedOp, Covers, EnvFor;
    var held := Took(Took(d, I64), I64);
    var slot := Fresh(cx, d);
    var one := CompileExpr(cx, held, e.left);
    var two := CompileExpr(cx, one.draft, e.right);
    ArithmeticReady(env, cx, d, one.draft, two.draft, CheckedBinary(cx, e.op, slot, one, two).draft);
    var y := ExprChecks(env, cx, held, e.left, c);
    x := ExprChecks(env, cx, one.draft, e.right, y);
    BothFilledThen(env, cx, c, y, x, one, two, e.op, slot);
    CutAgain(c, []);
  }

  /** What the two sides of an arithmetic operator are checked under. */
  lemma ArithmeticReady(env: Env, cx: Cx, d: Draft, one: Draft, two: Draft, after: Draft)
    requires Covers(cx, d) && EnvFor(env, cx, after)
    requires Grows(Took(Took(d, I64), I64), one) && Grows(one, two) && Grows(two, after)
    ensures Covers(cx, Took(Took(d, I64), I64)) && Covers(cx, one)
    ensures EnvFor(env, cx, one) && EnvFor(env, cx, two)
    ensures Word(env, Fresh(cx, d)) && Word(env, Fresh(cx, d) + 1)
  {
    CoversLater(cx, d, Took(Took(d, I64), I64));
    CoversLater(cx, Took(Took(d, I64), I64), one);
    EnvEarlier(env, cx, two, after);
    EnvEarlier(env, cx, one, two);
    FreshTyped(env, cx, d, I64, one);
    FreshTyped(env, cx, Took(d, I64), I64, one);
  }

  lemma BothFilledThen(
    env: Env, cx: Cx, c: Control, y: Control, x: Control, one: Emitted, two: Emitted, op: Ir.BinaryOp, slot: nat)
    requires Sound(c) && Sound(y) && Sound(x) && Word(env, slot) && Word(env, slot + 1) && Ir.Arithmetic(op)
    requires EnvFor(env, cx, CheckedBinary(cx, op, slot, one, two).draft)
    requires CheckBody(env, c, one.code) == Some(PushAll(y, [I64]))
    requires CheckBody(env, y, two.code) == Some(PushAll(x, [I64]))
    ensures CheckBody(env, c, CheckedBinary(cx, op, slot, one, two).code) == Some(PushAll(x, [I64]))
  {
    hide CheckIns, CheckBody, CheckedOp, Covers;
    var three := CheckedOp(cx, two.draft, op, slot, slot + 1);
    assert Turns(env, x, three.code, [], [I64]) by {
      CheckedOpTurns(env, x, cx, two.draft, op, slot, slot + 1);
    }
    SlotsFilled(env, c, y, x, one.code, two.code, slot, three.code);
  }

  lemma SlotsFilled(env: Env, c: Control, y: Control, x: Control,
                    one: seq<Ins>, two: seq<Ins>, slot: nat, three: seq<Ins>)
    requires Sound(c) && Sound(y) && Sound(x) && Word(env, slot) && Word(env, slot + 1)
    requires CheckBody(env, c, one) == Some(PushAll(y, [I64])) && CheckBody(env, y, two) == Some(PushAll(x, [I64]))
    requires Turns(env, x, three, [], [I64])
    ensures CheckBody(env, c, one + [LocalSet(slot)] + (two + [LocalSet(slot + 1)]) + three) == Some(PushAll(x, [I64]))
  {
    hide CheckIns;
    SlotFilled(env, c, y, one, slot);
    SlotFilled(env, y, x, two, slot + 1);
    InTurn(env, c, y, x, one + [LocalSet(slot)], two + [LocalSet(slot + 1)], three, [I64]);
  }

  lemma InTurn(env: Env, c: Control, y: Control, x: Control,
               one: seq<Ins>, two: seq<Ins>, three: seq<Ins>, results: seq<ValType>)
    requires Sound(c) && Sound(y) && Sound(x)
    requires CheckBody(env, c, one) == Some(y) && CheckBody(env, y, two) == Some(x) && Turns(env, x, three, [], results)
    ensures CheckBody(env, c, one + two + three) == Some(PushAll(x, results))
  {
    hide CheckIns;
    CheckAppend(env, c, one, two);
    PushAllNone(x);
    ThenTurns(env, c, x, one + two, three, [], results);
  }

  lemma SlotFilled(env: Env, c: Control, x: Control, code: seq<Ins>, slot: nat)
    requires Sound(c) && Sound(x) && Word(env, slot) && CheckBody(env, c, code) == Some(PushAll(x, [I64]))
    ensures CheckBody(env, c, code + [LocalSet(slot)]) == Some(x)
  {
    PlainTurns(env, x, LocalSet(slot));
    ThenTurns(env, c, x, code, [LocalSet(slot)], [I64], []);
    PushAllNone(x);
  }

  /** Nothing is missing, or the block is unreachable and what is missing stands for itself. */
  ghost predicate Landed(x: Control, missing: nat) {
    Sound(x) && (missing > 0 ==> Top(x).unreachable && |x.stack| == Top(x).height)
  }

  lemma MarkedPlain(env: Env, x: Control, types: seq<ValType>, missing: nat, site: nat, ins: Ins)
    requires missing <= |types| && Landed(x, missing) && Sound(PushAll(x, types[missing..]))
    requires PlainType(env, ins).Some? && PlainType(env, ins).value.params == types
    ensures CheckIns(env, PushAll(x, types[missing..]), Marked(site, ins)) == Some(PushAll(x, PlainType(env, ins).value.results))
  {
    var ty := PlainType(env, ins).value;
    if missing == 0 {
      assert types[0..] == types;
      PopPushed(x, types);
    } else {
      PopCut(x, types, missing);
    }
    assert CheckIns(env, PushAll(x, types[missing..]), Marked(site, ins)) == CheckIns(env, PushAll(x, types[missing..]), ins);
    assert CheckIns(env, PushAll(x, types[missing..]), ins) == CheckPlain(PushAll(x, types[missing..]), ty);
  }

  /** Falling through over a pushed value, or having been cut below it. */
  lemma OverPushed(c: Control, y: Control, one: seq<ValType>, z: Control, rest: seq<ValType>, gone: nat)
    returns (x: Control, missing: nat)
    requires Sound(c) && Through(c, y) && Sound(PushAll(y, one)) && Through(PushAll(y, one), z)
    requires gone <= |rest| && Landed(z, gone)
    ensures Through(c, x) && missing <= |one + rest| && Landed(x, missing)
    ensures PushAll(z, rest[gone..]) == PushAll(x, (one + rest)[missing..])
  {
    CutAgain(c, []);
    CutAgain(y, one);
    if gone == 0 && z == PushAll(y, one) {
      PushAllTwice(y, one, rest);
      assert rest[0..] == rest && (one + rest)[0..] == one + rest;
      return y, 0;
    }
    if z == PushAll(y, one) {
      assert z.stack[..Top(z).height] == z.stack;
      assert z == Cut(z);
    }
    assert (one + rest)[|one| + gone..] == rest[gone..];
    return Cut(c), |one| + gone;
  }

  lemma {:induction false} ComparisonChecks(env: Env, cx: Cx, d: Draft, e: Ir.Expr, c: Control) returns (x: Control)
    requires e.Binary? && !Ir.Arithmetic(e.op)
    requires Ir.ExprOk(cx.p, cx.f, e) && Covers(cx, d) && EnvFor(env, cx, CompileExpr(cx, d, e).draft) && Inside(cx, c)
    ensures Through(c, x)
    ensures CheckBody(env, c, CompileExpr(cx, d, e).code) == Some(PushAll(x, OneTy(cx, e)))
    decreases e, 1
  {
    assert CompileExpr(cx, d, e) == CompileBinary(cx, d, e);
    var after := CompileExpr(cx, d, e).draft;
    var one := CompileExpr(cx, d, e.left);
    var two := CompileExpr(cx, one.draft, e.right);
    var t := OneTy(cx, e.left);
    EnvEarlier(env, cx, one.draft, after);
    EnvEarlier(env, cx, two.draft, after);
    CoversLater(cx, d, one.draft);
    var y := ExprChecks(env, cx, d, e.left, c);
    PopPushed(y, t);
    var z := ExprChecks(env, cx, one.draft, e.right, PushAll(y, t));
    var missing;
    x, missing := OverPushed(c, y, t, z, t, 0);
    assert t[0..] == t;
    var ins := BinaryIns(e.op, Ir.TyOf(cx.p, cx.f, e.left));
    ComparisonType(env, e.op, Ir.TyOf(cx.p, cx.f, e.left));
    CheckAppend(env, c, one.code, two.code);
    CheckAppend(env, c, one.code + two.code, [Marked(two.draft.sites, ins)]);
    MarkedPlain(env, x, t + t, missing, two.draft.sites, ins);
    CheckOne(env, PushAll(z, t), Marked(two.draft.sites, ins));
  }

  lemma ComparisonType(env: Env, op: Ir.BinaryOp, operand: Ty)
    requires !Ir.Arithmetic(op) && Ir.Scalar(operand) && Ir.Operands(op, operand, operand)
    ensures var t := Results(ValTypeOf(operand));
      PlainType(env, BinaryIns(op, operand)) == Some(FuncType(t + t, [I32]))
  {
    var t := Results(ValTypeOf(operand));
    assert t + t == if operand.Unit? then [] else if operand.Bool? then [I32, I32] else [I64, I64];
  }

  function TypesOf(cx: Cx, args: seq<Ir.Expr>): (types: seq<Ty>)
    ensures |types| == |args|
    ensures forall i | 0 <= i < |args| :: types[i] == Ir.TyOf(cx.p, cx.f, args[i])
  {
    if args == [] then [] else [Ir.TyOf(cx.p, cx.f, args[0])] + TypesOf(cx, args[1..])
  }

  lemma {:induction false} ArgsCheck(env: Env, cx: Cx, d: Draft, args: seq<Ir.Expr>, c: Control)
    returns (x: Control, missing: nat)
    requires Ir.ArgsOk(cx.p, cx.f, args) && Covers(cx, d) && EnvFor(env, cx, CompileArgs(cx, d, args).draft) && Inside(cx, c)
    ensures Through(c, x) && missing <= |Represented(TypesOf(cx, args))| && Landed(x, missing)
    ensures CheckBody(env, c, CompileArgs(cx, d, args).code) == Some(PushAll(x, Represented(TypesOf(cx, args))[missing..]))
    decreases args, 0
  {
    if args == [] {
      PushAllNone(c);
      return c, 0;
    }
    var after := CompileArgs(cx, d, args).draft;
    var one := CompileExpr(cx, d, args[0]);
    var rest := CompileArgs(cx, one.draft, args[1..]);
    var t := OneTy(cx, args[0]);
    EnvEarlier(env, cx, one.draft, after);
    CoversLater(cx, d, one.draft);
    var y := ExprChecks(env, cx, d, args[0], c);
    PopPushed(y, t);
    var z, gone := ArgsCheck(env, cx, one.draft, args[1..], PushAll(y, t));
    CheckAppend(env, c, one.code, rest.code);
    var types := TypesOf(cx, args[1..]);
    x, missing := OverPushed(c, y, t, z, Represented(types), gone);
    assert TypesOf(cx, args)[1..] == types;
    assert Represented(TypesOf(cx, args)) == t + Represented(types);
  }

  lemma {:induction false} CallChecks(env: Env, cx: Cx, d: Draft, e: Ir.Expr, c: Control) returns (x: Control)
    requires e.Call?
    requires Ir.ExprOk(cx.p, cx.f, e) && Covers(cx, d) && EnvFor(env, cx, CompileExpr(cx, d, e).draft) && Inside(cx, c)
    ensures Through(c, x)
    ensures CheckBody(env, c, CompileExpr(cx, d, e).code) == Some(PushAll(x, OneTy(cx, e)))
    decreases e, 1
  {
    var pushed := CompileArgs(cx, d, e.args);
    EnvEarlier(env, cx, pushed.draft, CompileExpr(cx, d, e).draft);
    var missing;
    x, missing := ArgsCheck(env, cx, d, e.args, c);
    assert TypesOf(cx, e.args) == cx.p[e.func].params;
    var types := Represented(cx.p[e.func].params);
    var ins := Ins.Call(e.func + cx.shift);
    CheckAppend(env, c, pushed.code, [Marked(pushed.draft.sites, ins)]);
    MarkedPlain(env, x, types, missing, pushed.draft.sites, ins);
    CheckOne(env, PushAll(x, types[missing..]), Marked(pushed.draft.sites, ins));
  }

  /** A body that leaves what it should inside a frame leaves it outside. */
  lemma NestedTurns(env: Env, c: Control, labelTypes: seq<ValType>, endTypes: seq<ValType>, body: seq<Ins>, x: Control)
    requires Sound(c) && Through(PushFrame(c, labelTypes, endTypes), x)
    requires CheckBody(env, PushFrame(c, labelTypes, endTypes), body) == Some(PushAll(x, endTypes))
    ensures CheckNested(env, c, labelTypes, endTypes, body) == Some(PushAll(c, endTypes))
  {
    PopPushed(x, endTypes);
    assert x.stack == c.stack;
  }

  lemma {:induction false} IfChecks(env: Env, cx: Cx, d: Draft, e: Ir.Expr, c: Control) returns (x: Control)
    requires e.If?
    requires Ir.ExprOk(cx.p, cx.f, e) && Covers(cx, d) && EnvFor(env, cx, CompileExpr(cx, d, e).draft) && Inside(cx, c)
    ensures Through(c, x)
    ensures CheckBody(env, c, CompileExpr(cx, d, e).code) == Some(PushAll(x, OneTy(cx, e)))
    decreases e, 1
  {
    hide CheckIns;
    var after := CompileExpr(cx, d, e).draft;
    var test := CompileExpr(cx, d, e.condition);
    var one := CompileBlock(cx, test.draft, e.taken);
    var two := CompileBlock(cx, one.draft, e.otherwise);
    EnvEarlier(env, cx, test.draft, after);
    EnvEarlier(env, cx, one.draft, after);
    CoversLater(cx, d, test.draft);
    CoversLater(cx, test.draft, one.draft);
    x := ExprChecks(env, cx, d, e.condition, c);
    var types := Results(ValTypeOf(e.ty));
    var entered := PushFrame(x, types, types);
    var ins := Ins.If(ValTypeOf(e.ty), one.code, two.code);
    var y := BlockChecks(env, cx, test.draft, e.taken, entered);
    NestedTurns(env, x, types, types, one.code, y);
    var z := BlockChecks(env, cx, one.draft, e.otherwise, entered);
    NestedTurns(env, x, types, types, two.code, z);
    if ValTypeOf(e.ty).Some? {
      CodeForValue(cx, one.draft, e.otherwise);
    }
    ArmsCheck(env, c, x, test.code, ValTypeOf(e.ty), one.code, two.code);
  }

  /** A condition, and then arms that each leave the result. */
  lemma ArmsCheck(env: Env, c: Control, x: Control, test: seq<Ins>, result: Option<ValType>, one: seq<Ins>, two: seq<Ins>)
    requires Sound(c) && Sound(x) && CheckBody(env, c, test) == Some(PushAll(x, [I32]))
    requires CheckNested(env, x, Results(result), Results(result), one) == Some(PushAll(x, Results(result)))
    requires CheckNested(env, x, Results(result), Results(result), two) == Some(PushAll(x, Results(result)))
    requires result.Some? ==> two != []
    ensures CheckBody(env, c, test + [Ins.If(result, one, two)]) == Some(PushAll(x, Results(result)))
  {
    var ins := Ins.If(result, one, two);
    PopPushed(x, [I32]);
    CheckAppend(env, c, test, [ins]);
    CheckOne(env, PushAll(x, [I32]), ins);
  }

  /** An expression of a type with a representation compiles to some code. */
  lemma {:induction false} CodeForValue(cx: Cx, d: Draft, block: Ir.Block)
    requires Ir.BlockOk(cx.p, cx.f, block) && ValTypeOf(Ir.TyOf(cx.p, cx.f, block.value)).Some?
    ensures CompileBlock(cx, d, block).code != []
    decreases block
  {
    var stmts := CompileStmts(cx, d, block.stmts);
    var e := block.value;
    if e.Nested? {
      CodeForValue(cx, stmts.draft, e.block);
    } else if e.Local? {
      SlotRepresented(cx.f.locals, 0, e.local);
    }
    assert CompileExpr(cx, stmts.draft, e).code != [];
  }

  lemma {:induction false} BlockChecks(env: Env, cx: Cx, d: Draft, block: Ir.Block, c: Control) returns (x: Control)
    requires Ir.BlockOk(cx.p, cx.f, block) && Covers(cx, d) && EnvFor(env, cx, CompileBlock(cx, d, block).draft) && Inside(cx, c)
    ensures Through(c, x)
    ensures CheckBody(env, c, CompileBlock(cx, d, block).code) == Some(PushAll(x, OneTy(cx, block.value)))
    decreases block, 0
  {
    var stmts := CompileStmts(cx, d, block.stmts);
    EnvEarlier(env, cx, stmts.draft, CompileBlock(cx, d, block).draft);
    CoversLater(cx, d, stmts.draft);
    var y := StmtsCheck(env, cx, d, block.stmts, c);
    x := ExprChecks(env, cx, stmts.draft, block.value, y);
    CheckAppend(env, c, stmts.code, CompileExpr(cx, stmts.draft, block.value).code);
    CutAgain(c, []);
  }

  lemma {:induction false} StmtsCheck(env: Env, cx: Cx, d: Draft, stmts: seq<Ir.Stmt>, c: Control) returns (x: Control)
    requires Ir.StmtsOk(cx.p, cx.f, stmts) && Covers(cx, d) && EnvFor(env, cx, CompileStmts(cx, d, stmts).draft) && Inside(cx, c)
    ensures Through(c, x) && CheckBody(env, c, CompileStmts(cx, d, stmts).code) == Some(x)
    decreases stmts, 0
  {
    if stmts == [] {
      return c;
    }
    var one := CompileStmt(cx, d, stmts[0]);
    var rest := CompileStmts(cx, one.draft, stmts[1..]);
    EnvEarlier(env, cx, one.draft, rest.draft);
    CoversLater(cx, d, one.draft);
    var y := StmtChecks(env, cx, d, stmts[0], c);
    x := StmtsCheck(env, cx, one.draft, stmts[1..], y);
    CheckAppend(env, c, one.code, rest.code);
    CutAgain(c, []);
  }

  lemma {:induction false} StmtChecks(env: Env, cx: Cx, d: Draft, stmt: Ir.Stmt, c: Control) returns (x: Control)
    requires Ir.StmtOk(cx.p, cx.f, stmt) && Covers(cx, d) && EnvFor(env, cx, CompileStmt(cx, d, stmt).draft) && Inside(cx, c)
    ensures Through(c, x) && CheckBody(env, c, CompileStmt(cx, d, stmt).code) == Some(x)
    decreases stmt, 1
  {
    if stmt.Assign? {
      x := ExprChecks(env, cx, d, stmt.value, c);
      PushAllNone(x);
      SlotTyped(env, cx, CompileExpr(cx, d, stmt.value).draft, stmt.slot) by {
        CoversLater(cx, d, CompileExpr(cx, d, stmt.value).draft);
      }
      if SlotOf(cx, stmt.slot).Some? {
        PlainTurns(env, x, LocalSet(SlotOf(cx, stmt.slot).value));
        ThenTurns(env, c, x, CompileExpr(cx, d, stmt.value).code, [LocalSet(SlotOf(cx, stmt.slot).value)], OneTy(cx, stmt.value), []);
      } else {
        assert CompileExpr(cx, d, stmt.value).code + [] == CompileExpr(cx, d, stmt.value).code;
      }
    } else if stmt.Discard? {
      x := ExprChecks(env, cx, d, stmt.value, c);
      DiscardChecks(env, cx, d, stmt.value, c, x);
    } else if stmt.Return? {
      var y := ExprChecks(env, cx, d, stmt.value, c);
      ReturnChecks(env, cx, c, y, CompileExpr(cx, d, stmt.value).code);
      x := Cut(c);
    } else if stmt.Fail? {
      var one := Place(d.strings, stmt.code);
      var two := Place(one.0, stmt.message);
      FailureCuts(env, c, one.1, two.1, Marked(d.sites, Ins.Unreachable));
      x := Cut(c);
    } else {
      WalkChecks(env, cx, d, stmt, c);
      x := c;
    }
  }

  lemma DiscardChecks(env: Env, cx: Cx, d: Draft, e: Ir.Expr, c: Control, x: Control)
    requires Sound(c) && Through(c, x)
    requires CheckBody(env, c, CompileExpr(cx, d, e).code) == Some(PushAll(x, OneTy(cx, e)))
    ensures CheckBody(env, c, CompileStmt(cx, d, Ir.Discard(e)).code) == Some(x)
  {
    var value := CompileExpr(cx, d, e);
    PushAllNone(x);
    if ValTypeOf(Ir.TyOf(cx.p, cx.f, e)).Some? {
      PopPushed(x, OneTy(cx, e));
      CheckAppend(env, c, value.code, [Drop]);
      CheckOne(env, PushAll(x, OneTy(cx, e)), Drop);
      assert PushAll(x, OneTy(cx, e)).stack[..|x.stack|] == x.stack;
    } else {
      assert value.code + [] == value.code;
    }
  }

  /** Returning takes the function's result and leaves the rest unreachable. */
  lemma ReturnChecks(env: Env, cx: Cx, c: Control, x: Control, code: seq<Ins>)
    requires Inside(cx, c) && Through(c, x)
    requires CheckBody(env, c, code) == Some(PushAll(x, Results(ValTypeOf(cx.f.ret))))
    ensures CheckBody(env, c, code + [Ins.Return]) == Some(Cut(c))
  {
    var types := Results(ValTypeOf(cx.f.ret));
    PopPushed(x, types);
    CheckAppend(env, c, code, [Ins.Return]);
    CheckOne(env, PushAll(x, types), Ins.Return);
    assert PushAll(x, types).frames[0].endTypes == types;
    CutAgain(c, []);
  }

  lemma {:induction false} WalkChecks(env: Env, cx: Cx, d: Draft, stmt: Ir.Stmt, c: Control)
    requires stmt.While?
    requires Ir.StmtOk(cx.p, cx.f, stmt) && Covers(cx, d) && EnvFor(env, cx, CompileStmt(cx, d, stmt).draft) && Inside(cx, c)
    ensures CheckBody(env, c, CompileStmt(cx, d, stmt).code) == Some(c)
    decreases stmt, 0
  {
    hide CheckIns;
    var test := CompileExpr(cx, d, stmt.condition);
    var turn := CompileStmts(cx, test.draft, stmt.body);
    EnvEarlier(env, cx, test.draft, turn.draft);
    CoversLater(cx, d, test.draft);
    var outer := PushFrame(c, [], []);
    var inner := PushFrame(outer, [], []);
    var x := ExprChecks(env, cx, d, stmt.condition, inner);
    var y := StmtsCheck(env, cx, test.draft, stmt.body, x);
    TurnChecks(env, c, test.code, x, turn.code, y);
    WalkNests(env, c, Turn(test.code, turn.code));
  }

  /** A turn that never falls out of the bottom, in a loop, in a block. */
  lemma WalkNests(env: Env, c: Control, turn: seq<Ins>)
    requires Sound(c)
    requires var inner := PushFrame(PushFrame(c, [], []), [], []); CheckBody(env, inner, turn) == Some(Cut(inner))
    ensures CheckBody(env, c, [Ins.Block(None, [Ins.Loop(None, turn)])]) == Some(c)
  {
    var outer := PushFrame(c, [], []);
    var walk := Ins.Loop(None, turn);
    LoopNests(env, outer, turn);
    PushAllNone(outer);
    PushAllNone(c);
    NestedTurns(env, c, [], [], [walk], outer);
    CheckOne(env, c, Ins.Block(None, [walk]));
  }

  lemma LoopNests(env: Env, c: Control, turn: seq<Ins>)
    requires Sound(c)
    requires CheckBody(env, PushFrame(c, [], []), turn) == Some(Cut(PushFrame(c, [], [])))
    ensures CheckBody(env, c, [Ins.Loop(None, turn)]) == Some(c)
  {
    PushAllNone(Cut(PushFrame(c, [], [])));
    PushAllNone(c);
    NestedTurns(env, c, [], [], turn, Cut(PushFrame(c, [], [])));
    CheckOne(env, c, Ins.Loop(None, turn));
  }

  /** One turn of a walk: both its branches leave exactly nothing above their targets. */
  lemma TurnChecks(env: Env, c: Control, test: seq<Ins>, x: Control, body: seq<Ins>, y: Control)
    requires Sound(c) && env.rules.Tight?
    requires Through(PushFrame(PushFrame(c, [], []), [], []), x) && Sound(x) && Through(x, y)
    requires CheckBody(env, PushFrame(PushFrame(c, [], []), [], []), test) == Some(PushAll(x, [I32]))
    requires CheckBody(env, x, body) == Some(y)
    ensures CheckBody(env, PushFrame(PushFrame(c, [], []), [], []), Turn(test, body))
         == Some(Cut(PushFrame(PushFrame(c, [], []), [], [])))
  {
    hide CheckIns;
    var inner := PushFrame(PushFrame(c, [], []), [], []);
    CutAgain(inner, []);
    PlainTurns(env, x, Num(I32Eqz));
    ThenTurns(env, inner, x, test, [Num(I32Eqz)], [I32], [I32]);
    LeavesWalk(env, c, x);
    CheckAppend(env, inner, test + [Num(I32Eqz)], [BrIf(1)]);
    CheckOne(env, PushAll(x, [I32]), BrIf(1));
    assert test + [Num(I32Eqz)] + [BrIf(1)] == test + [Num(I32Eqz), BrIf(1)];
    StartsAgain(env, c, y);
    CheckAppend(env, x, body, [Br(0)]);
    CheckOne(env, y, Br(0));
    CheckAppend(env, inner, test + [Num(I32Eqz), BrIf(1)], body + [Br(0)]);
  }

  lemma StartsAgain(env: Env, c: Control, y: Control)
    requires Sound(c) && env.rules.Tight? && Through(PushFrame(PushFrame(c, [], []), [], []), y) && Sound(y)
    ensures CheckIns(env, y, Br(0)) == Some(Cut(y))
  {
    assert y.stack == c.stack && TightAt(y, 0);
    assert PopAll(y, []) == Some(y);
    assert CheckIns(env, y, Br(0)) == CheckBr(env.rules, y, 0);
  }

  lemma LeavesWalk(env: Env, c: Control, x: Control)
    requires Sound(c) && env.rules.Tight? && Through(PushFrame(PushFrame(c, [], []), [], []), x) && Sound(x)
    ensures Sound(PushAll(x, [I32])) && CheckIns(env, PushAll(x, [I32]), BrIf(1)) == Some(x)
  {
    PopPushed(x, [I32]);
    PushAllNone(x);
    var at := |x.frames| - 2;
    assert x.frames[at] == Frame([], [], |c.stack|, false);
    assert x.stack == c.stack && TightAt(x, 1);
    assert PopAll(x, []) == Some(x);
    assert CheckIns(env, PushAll(x, [I32]), BrIf(1)) == CheckBrIf(env.rules, PushAll(x, [I32]), 1);
  }

  /** The whole body of a function, with the return it ends with. */
  lemma BodyChecks(env: Env, cx: Cx, strings: Strings)
    requires Ir.FunctionOk(cx.p, cx.f) && EnvFor(env, cx, CompileBody(cx, strings).draft)
    ensures var c := Entry(Results(ValTypeOf(cx.f.ret)));
      CheckBody(env, c, CompileBody(cx, strings).code) == Some(Cut(c)) && PopFrame(Cut(c)).Some?
  {
    var types := Results(ValTypeOf(cx.f.ret));
    var c := Entry(types);
    BeginCovers(cx, strings);
    var x := BlockChecks(env, cx, Begin(cx.f, strings), cx.f.body, c);
    ReturnChecks(env, cx, c, x, CompileBlock(cx, Begin(cx.f, strings), cx.f.body).code);
    PushAllNone(Cut(c));
    assert types[|types|..] == [];
    PopCut(Cut(c), types, |types|);
  }
}
