/**
 * What the backend emits does what the IR means: the small pieces, that is failures and
 * checked arithmetic.
 */
module CompileRuns {
  import opened Ints
  import opened Wasm
  import opened Types
  import opened Run
  import opened Compile
  import opened Fates
  import Exact
  import Ir
  import L = Layout

  // -- the failure words -----------------------------------------------------

  /** The literal at this address can be read back out of memory. */
  ghost predicate Reads(memory: seq<byte>, at: nat, text: Text) {
    && L.HEAP_START <= at && at + 16 + |text| <= |memory|
    && memory[at..at + 8] == WordBytes(AsWord(Characters(text)))
    && memory[at + 8..at + 16] == WordBytes(AsWord(|text|))
    && memory[at + 16..at + 16 + |text|] == text
  }

  /** Every literal is where the table of literals says. */
  ghost predicate Primed(memory: seq<byte>, placed: seq<(Text, nat)>) {
    |memory| <= MAX_64 && forall k | 0 <= k < |placed| :: Reads(memory, placed[k].1, placed[k].0)
  }

  lemma {:induction false} WhereFinds(placed: seq<(Text, nat)>, text: Text)
    requires Where(placed, text).Some?
    ensures (text, Where(placed, text).value) in placed
    decreases |placed|
  {
    if placed[0].0 == text {
      assert placed[0] == (text, placed[0].1);
    } else {
      WhereFinds(placed[1..], text);
    }
  }

  lemma PlaceReads(memory: seq<byte>, strings: Strings, text: Text, placed: seq<(Text, nat)>)
    requires Primed(memory, placed) && Place(strings, text).0.placed <= placed
    ensures Reads(memory, Place(strings, text).1, text)
  {
    var (after, at) := Place(strings, text);
    if Where(strings.placed, text).Some? {
      WhereFinds(strings.placed, text);
    } else {
      assert after.placed[|strings.placed|] == (text, at);
    }
    assert (text, at) in after.placed;
    assert (text, at) in placed;
  }

  lemma SpliceKeeps(memory: seq<byte>, at: nat, bytes: seq<byte>, from: nat, to: nat)
    requires at + |bytes| <= |memory| && from <= to <= |memory|
    requires to <= at || at + |bytes| <= from
    ensures Splice(memory, at, bytes)[from..to] == memory[from..to]
  {
  }

  lemma SpliceReads(memory: seq<byte>, at: nat, bytes: seq<byte>)
    requires at + |bytes| <= |memory|
    ensures Splice(memory, at, bytes)[at..at + |bytes|] == bytes
  {
  }

  function WithWord(memory: seq<byte>, word: nat, v: nat): seq<byte>
    requires word + 8 <= |memory|
  {
    Splice(memory, word, WordBytes(AsWord(v)))
  }

  lemma StringReads(memory: seq<byte>, word: nat, at: nat, text: Text)
    requires |memory| <= MAX_64 && Reads(memory, at, text)
    requires word + 8 <= |memory| && memory[word..word + 8] == WordBytes(AsWord(at))
    ensures StringAt(memory, word) == Some(text)
  {
    hide LeValue, WordBytes, AsWord, Characters;
    WordValue(at);
    WordValue(|text|);
  }

  lemma ReadsStay(memory: seq<byte>, after: seq<byte>, at: nat, text: Text)
    requires Reads(memory, at, text) && |after| == |memory| && after[L.HEAP_START..] == memory[L.HEAP_START..]
    ensures Reads(after, at, text)
  {
    hide WordBytes, Characters;
    SameSlice(memory, after, L.HEAP_START, at, at + 8);
    SameSlice(memory, after, L.HEAP_START, at + 8, at + 16);
    SameSlice(memory, after, L.HEAP_START, at + 16, at + 16 + |text|);
  }

  lemma SameSlice(memory: seq<byte>, after: seq<byte>, h: nat, from: nat, to: nat)
    requires |after| == |memory| && h <= from <= to <= |memory| && after[h..] == memory[h..]
    ensures after[from..to] == memory[from..to]
  {
    forall i | from <= i < to ensures after[i] == memory[i] {
      assert after[h..][i - h] == memory[h..][i - h];
    }
  }

  /** Once both words are written, what is read back is the failure they name. */
  lemma WhyAfterWords(memory: seq<byte>, atCode: nat, code: Text, atMessage: nat, message: Text)
    requires |memory| <= MAX_64 && Reads(memory, atCode, code) && Reads(memory, atMessage, message)
    ensures Why(WithWord(WithWord(memory, L.FAILURE_CODE, atCode), L.FAILURE_MESSAGE, atMessage)) == Failed(code, message)
  {
    var one := WithWord(memory, L.FAILURE_CODE, atCode);
    var two := WithWord(one, L.FAILURE_MESSAGE, atMessage);
    SpliceReads(memory, L.FAILURE_CODE, WordBytes(AsWord(atCode)));
    SpliceReads(one, L.FAILURE_MESSAGE, WordBytes(AsWord(atMessage)));
    SpliceKeeps(one, L.FAILURE_MESSAGE, WordBytes(AsWord(atMessage)), L.FAILURE_CODE, L.FAILURE_CODE + 8);
    SpliceKeeps(memory, L.FAILURE_CODE, WordBytes(AsWord(atCode)), L.HEAP_START, |memory|);
    SpliceKeeps(one, L.FAILURE_MESSAGE, WordBytes(AsWord(atMessage)), L.HEAP_START, |memory|);
    assert two[L.HEAP_START..] == memory[L.HEAP_START..];
    ReadsStay(memory, two, atCode, code);
    ReadsStay(memory, two, atMessage, message);
    StringReads(two, L.FAILURE_CODE, atCode, code);
    StringReads(two, L.FAILURE_MESSAGE, atMessage, message);
  }

  lemma WordSteps(w: World, s: State, word: i32, v: nat)
    requires 0 <= word && word + 8 <= |s.memory|
    ensures StepsTo(w, [I32Const(word), I64Const(AsWord(v)), I64Store(0)], s, s.(memory := WithWord(s.memory, word, v)))
  {
    var one := Pushed(s, V32(word));
    var two := Pushed(one, V64(AsWord(v)));
    SimpleSteps(w, I32Const(word), s, one);
    SimpleSteps(w, I64Const(AsWord(v)), one, two);
    StoreStep(w, s, word, v);
    StepsThen(w, [I32Const(word)], [I64Const(AsWord(v))], s, one, two);
    StepsThen(w, [I32Const(word)] + [I64Const(AsWord(v))], [I64Store(0)], s, two, s.(memory := WithWord(s.memory, word, v)));
    assert [I32Const(word)] + [I64Const(AsWord(v))] + [I64Store(0)] == [I32Const(word), I64Const(AsWord(v)), I64Store(0)];
  }

  lemma StoreStep(w: World, s: State, word: i32, v: nat)
    requires 0 <= word && word + 8 <= |s.memory|
    ensures StepsTo(w, [I64Store(0)], Pushed(Pushed(s, V32(word)), V64(AsWord(v))), s.(memory := WithWord(s.memory, word, v)))
  {
    var one := Pushed(s, V32(word));
    var two := Pushed(one, V64(AsWord(v)));
    assert Popped(two) == Ok((V64(AsWord(v)), one));
    assert Popped(one) == Ok((V32(word), s));
    assert ExecStore(I64Store(0), two) == Ok(s.(memory := WithWord(s.memory, word, v)));
    SimpleSteps(w, I64Store(0), two, s.(memory := WithWord(s.memory, word, v)));
  }

  /** Writing both words and stopping is the contract failure, whatever was on the stack. */
  lemma FailDies(w: World, s: State, atCode: nat, code: Text, atMessage: nat, message: Text, last: Ins)
    requires |s.memory| <= MAX_64 && Reads(s.memory, atCode, code) && Reads(s.memory, atMessage, message)
    requires last == Ins.Unreachable || (last.Marked? && last.inner == Ins.Unreachable)
    ensures Meets(w, FailWords(atCode, atMessage) + [last], s, Dies(7, Failed(code, message)))
  {
    var two := s.(memory := WithWord(WithWord(s.memory, L.FAILURE_CODE, atCode), L.FAILURE_MESSAGE, atMessage));
    FailWordsStep(w, s, atCode, atMessage);
    WhyAfterWords(s.memory, atCode, code, atMessage, message);
    StopsAfter(w, s, FailWords(atCode, atMessage), last, two);
  }

  lemma FailWordsStep(w: World, s: State, atCode: nat, atMessage: nat)
    requires L.HEAP_START <= |s.memory|
    ensures StepsTo(w, FailWords(atCode, atMessage), s,
                    s.(memory := WithWord(WithWord(s.memory, L.FAILURE_CODE, atCode), L.FAILURE_MESSAGE, atMessage)))
  {
    var one := s.(memory := WithWord(s.memory, L.FAILURE_CODE, atCode));
    var two := one.(memory := WithWord(one.memory, L.FAILURE_MESSAGE, atMessage));
    var first := [I32Const(L.FAILURE_CODE), I64Const(AsWord(atCode)), I64Store(0)];
    var second := [I32Const(L.FAILURE_MESSAGE), I64Const(AsWord(atMessage)), I64Store(0)];
    WordSteps(w, s, L.FAILURE_CODE, atCode);
    WordSteps(w, one, L.FAILURE_MESSAGE, atMessage);
    StepsThen(w, first, second, s, one, two);
    assert first + second == FailWords(atCode, atMessage);
  }

  /** Stopping once some steps have been taken: the trap is what memory says by then. */
  lemma StopsAfter(w: World, s: State, code: seq<Ins>, last: Ins, out: State)
    requires StepsTo(w, code, s, out) && Why(out.memory) != TooLong
    requires last == Ins.Unreachable || (last.Marked? && last.inner == Ins.Unreachable)
    ensures Meets(w, code + [last], s, Dies(|code| + 1, Why(out.memory)))
  {
    RunOne(w, 1, last, out);
    MeetsThen(w, code, [last], s, Ends(|code|, out, Normal), Dies(1, Why(out.memory)));
  }

  // -- conditions ------------------------------------------------------------

  /** The state reaches the same state with a value more. */
  ghost predicate Adds(w: World, code: seq<Ins>, s: State, v: Value) { StepsTo(w, code, s, Pushed(s, v)) }

  ghost predicate Holds(s: State, a: nat, n: i64) { a < |s.locals| && s.locals[a] == V64(n) }

  lemma TestAdds(w: World, s: State, a: nat, op: NumOp, b: nat, x: i64, y: i64, v: Value)
    requires Holds(s, a, x) && Holds(s, b, y) && !Unary(op) && BinaryOn(op, x, y) == Ok(v)
    ensures Adds(w, Test(a, op, b), s, v)
  {
    GetSteps(w, a, s);
    GetSteps(w, b, Pushed(s, V64(x)));
    ThreeSteps(w, s, LocalGet(a), LocalGet(b), op, V64(x), V64(y), v);
  }

  lemma TestConstAdds(w: World, s: State, a: nat, op: NumOp, n: i64, x: i64, v: Value)
    requires Holds(s, a, x) && !Unary(op) && BinaryOn(op, x, n) == Ok(v)
    ensures Adds(w, TestConst(a, op, n), s, v)
  {
    GetSteps(w, a, s);
    SimpleSteps(w, I64Const(n), Pushed(s, V64(x)), Pushed(Pushed(s, V64(x)), V64(n)));
    ThreeSteps(w, s, LocalGet(a), I64Const(n), op, V64(x), V64(n), v);
  }

  lemma ThreeSteps(w: World, s: State, one: Ins, two: Ins, op: NumOp, x: Value, y: Value, v: Value)
    requires Adds(w, [one], s, x) && Adds(w, [two], Pushed(s, x), y)
    requires !Unary(op) && BinaryOn(op, AsI64(x), AsI64(y)) == Ok(v)
    ensures Adds(w, [one, two, Num(op)], s, v)
  {
    NumSteps(w, op, s, x, y, v);
    StepsThen(w, [one], [two], s, Pushed(s, x), Pushed(Pushed(s, x), y));
    StepsThen(w, [one] + [two], [Num(op)], s, Pushed(Pushed(s, x), y), Pushed(s, v));
    assert [one] + [two] + [Num(op)] == [one, two, Num(op)];
  }

  /** Two conditions joined by a boolean operator. */
  lemma JoinAdds(w: World, s: State, one: seq<Ins>, two: seq<Ins>, op: NumOp, a: bool, b: bool, r: bool)
    requires Adds(w, one, s, Boolean(a)) && Adds(w, two, Pushed(s, Boolean(a)), Boolean(b))
    requires (op.I32And? && r == (a && b)) || (op.I32Or? && r == (a || b))
    ensures Adds(w, one + two + [Num(op)], s, Boolean(r))
  {
    NumSteps(w, op, s, Boolean(a), Boolean(b), Boolean(r));
    StepsThen(w, one, two, s, Pushed(s, Boolean(a)), Pushed(Pushed(s, Boolean(a)), Boolean(b)));
    StepsThen(w, one + two, [Num(op)], s, Pushed(Pushed(s, Boolean(a)), Boolean(b)), Pushed(s, Boolean(r)));
  }

  lemma SignTestAdds(w: World, s: State, right: nat, sign: NumOp, x: nat, way: NumOp, left: nat,
                     r: i64, n: i64, l: i64, a: bool, b: bool)
    requires Holds(s, right, r) && Holds(s, x, n) && Holds(s, left, l) && !Unary(sign) && !Unary(way)
    requires BinaryOn(sign, r, 0) == Ok(Boolean(a)) && BinaryOn(way, n, l) == Ok(Boolean(b))
    ensures Adds(w, TestConst(right, sign, 0) + Test(x, way, left) + [Num(I32And)], s, Boolean(a && b))
  {
    TestConstAdds(w, s, right, sign, 0, r, Boolean(a));
    TestAdds(w, Pushed(s, Boolean(a)), x, way, left, n, l, Boolean(b));
    JoinAdds(w, s, TestConst(right, sign, 0), Test(x, way, left), I32And, a, b, a && b);
  }

  lemma WentPastAdds(w: World, s: State, right: nat, x: nat, left: nat, up: NumOp, down: NumOp,
                     r: i64, n: i64, l: i64, b: bool)
    requires Holds(s, right, r) && Holds(s, x, n) && Holds(s, left, l)
    requires (up == I64LtS && down == I64GtS && b == ((r > 0 && n < l) || (r < 0 && n > l)))
          || (up == I64GtS && down == I64LtS && b == ((r > 0 && n > l) || (r < 0 && n < l)))
    ensures Adds(w, WentPast(right, x, left, up, down), s, Boolean(b))
  {
    var upward := if up == I64LtS then n < l else n > l;
    var downward := if up == I64LtS then n > l else n < l;
    var one := TestConst(right, I64GtS, 0) + Test(x, up, left) + [Num(I32And)];
    var two := TestConst(right, I64LtS, 0) + Test(x, down, left) + [Num(I32And)];
    SignTestAdds(w, s, right, I64GtS, x, up, left, r, n, l, r > 0, upward);
    SignTestAdds(w, Pushed(s, Boolean(r > 0 && upward)), right, I64LtS, x, down, left, r, n, l, r < 0, downward);
    JoinAdds(w, s, one, two, I32Or, r > 0 && upward, r < 0 && downward, b);
  }

  lemma ConstTestsAdd(w: World, s: State, left: nat, n: i64, right: nat, m: i64, l: i64, r: i64)
    requires Holds(s, left, l) && Holds(s, right, r)
    ensures Adds(w, TestConst(left, I64Eq, n) + TestConst(right, I64Eq, m) + [Num(I32And)], s, Boolean(l == n && r == m))
  {
    TestConstAdds(w, s, left, I64Eq, n, l, Boolean(l == n));
    TestConstAdds(w, Pushed(s, Boolean(l == n)), right, I64Eq, m, r, Boolean(r == m));
    JoinAdds(w, s, TestConst(left, I64Eq, n), TestConst(right, I64Eq, m), I32And, l == n, r == m, l == n && r == m);
  }

  lemma ZeroTestAdds(w: World, s: State, a: nat, n: i64)
    requires Holds(s, a, n)
    ensures Adds(w, [LocalGet(a), Num(I64Eqz)], s, Boolean(n == 0))
  {
    GetSteps(w, a, s);
    UnarySteps(w, I64Eqz, s, V64(n));
    StepsThen(w, [LocalGet(a)], [Num(I64Eqz)], s, Pushed(s, V64(n)), Pushed(s, Boolean(n == 0)));
    assert [LocalGet(a)] + [Num(I64Eqz)] == [LocalGet(a), Num(I64Eqz)];
  }

  lemma NeitherZeroAdds(w: World, s: State, left: nat, right: nat, l: i64, r: i64)
    requires Holds(s, left, l) && Holds(s, right, r)
    ensures Adds(w, NeitherZero(left, right), s, Boolean(l != 0 && r != 0))
  {
    var one, two := [LocalGet(left), Num(I64Eqz)], [LocalGet(right), Num(I64Eqz)];
    ZeroTestAdds(w, s, left, l);
    ZeroTestAdds(w, Pushed(s, Boolean(l == 0)), right, r);
    JoinAdds(w, s, one, two, I32Or, l == 0, r == 0, l == 0 || r == 0);
    UnarySteps(w, I32Eqz, s, Boolean(l == 0 || r == 0));
    StepsThen(w, one + two + [Num(I32Or)], [Num(I32Eqz)], s,
              Pushed(s, Boolean(l == 0 || r == 0)), Pushed(s, Boolean(l != 0 && r != 0)));
    assert one + two + [Num(I32Or)] + [Num(I32Eqz)] == NeitherZero(left, right);
  }

  lemma NoQuotientAdds(w: World, s: State, left: nat, right: nat, l: i64, r: i64)
    requires Holds(s, left, l) && Holds(s, right, r)
    ensures Adds(w, NoQuotient(left, right), s, Boolean(r == 0 || (l == MIN_64 && r == -1)))
  {
    ZeroTestAdds(w, s, right, r);
    ConstTestsAdd(w, Pushed(s, Boolean(r == 0)), left, MIN_64, right, -1, l, r);
    JoinAdds(w, s, [LocalGet(right), Num(I64Eqz)],
             TestConst(left, I64Eq, MIN_64) + TestConst(right, I64Eq, -1) + [Num(I32And)], I32Or,
             r == 0, l == MIN_64 && r == -1, r == 0 || (l == MIN_64 && r == -1));
  }

  // -- guards ----------------------------------------------------------------

  const NO_ANSWER: Trap := Failed(Ir.ARITHMETIC_CODE, Ir.ARITHMETIC_MESSAGE)

  lemma ArithmeticDies(w: World, s: State, d: Draft, placed: seq<(Text, nat)>)
    requires Primed(s.memory, placed) && ArithmeticFailure(d).draft.strings.placed <= placed
    ensures Meets(w, ArithmeticFailure(d).code, s, Dies(7, NO_ANSWER))
  {
    var one := Place(d.strings, Ir.ARITHMETIC_CODE);
    var two := Place(one.0, Ir.ARITHMETIC_MESSAGE);
    assert one.0.placed <= two.0.placed <= placed;
    PlaceReads(s.memory, d.strings, Ir.ARITHMETIC_CODE, placed);
    PlaceReads(s.memory, one.0, Ir.ARITHMETIC_MESSAGE, placed);
    FailDies(w, s, one.1, Ir.ARITHMETIC_CODE, two.1, Ir.ARITHMETIC_MESSAGE, Ins.Unreachable);
  }

  /** Code that traps when a condition holds, and changes nothing when it does not. */
  ghost predicate Guards(w: World, code: seq<Ins>, s: State, b: bool, cost: nat) {
    Meets(w, code, s, if b then Dies(cost, NO_ANSWER) else Ends(cost, s, Normal))
  }

  /** An arm that guards, behind a test for whether it is needed. */
  lemma ArmGuards(w: World, s: State, test: seq<Ins>, arm: seq<Ins>, b: bool, c: bool, inner: nat) returns (cost: nat)
    requires Adds(w, test, s, Boolean(b)) && (b ==> Guards(w, arm, s, c, inner))
    ensures Guards(w, test + [Ins.If(None, arm, [])], s, b && c, cost)
  {
    var ins := Ins.If(None, arm, []);
    var tested := Ends(|test|, Pushed(s, Boolean(b)), Normal);
    var f := if b && c then Dies(inner, NO_ANSWER) else Ends(if b then inner else 0, s, Normal);
    ArmMeets(w, None, arm, [], s, b, f);
    var g := if b && c then Dies(inner + 1, NO_ANSWER) else Ends((if b then inner else 0) + 1, s, Normal);
    MeetsThen(w, test, [ins], s, tested, g);
    cost := |test| + g.cost;
  }

  lemma TestGuards(w: World, s: State, test: seq<Ins>, b: bool, d: Draft, placed: seq<(Text, nat)>) returns (cost: nat)
    requires Adds(w, test, s, Boolean(b))
    requires Primed(s.memory, placed) && ArithmeticFailure(d).draft.strings.placed <= placed
    ensures Guards(w, test + [TrapOnTrue(ArithmeticFailure(d).code)], s, b, cost)
  {
    ArithmeticDies(w, s, d, placed);
    cost := ArmGuards(w, s, test, ArithmeticFailure(d).code, b, true, 7);
  }

  /** Guards one after another trap when one of them does. */
  lemma GuardsThen(w: World, one: seq<Ins>, two: seq<Ins>, s: State, a: bool, b: bool, m: nat, n: nat) returns (cost: nat)
    requires Guards(w, one, s, a, m) && (!a ==> Guards(w, two, s, b, n))
    ensures Guards(w, one + two, s, a || b, cost)
  {
    var f := if a then Dies(m, NO_ANSWER) else Ends(m, s, Normal);
    var g := if b then Dies(n, NO_ANSWER) else Ends(n, s, Normal);
    MeetsThen(w, one, two, s, f, g);
    cost := if a then m else m + n;
  }

  // -- checked arithmetic ----------------------------------------------------

  /** What the operator's code does from a state that holds both operands. */
  ghost predicate Answers(w: World, code: seq<Ins>, s: State, r: Ir.Eval<Ir.Val>, x: nat, fate: Fate) {
    && Meets(w, code, s, fate)
    && match r
       case Gives(IntV(n), _) =>
         fate.Ends? && fate.flow == Normal && fate.state.stack == s.stack + [V64(n)] &&
         fate.state.memory == s.memory && |fate.state.locals| == |s.locals| &&
         forall j | 0 <= j < |s.locals| && j != x :: fate.state.locals[j] == s.locals[j]
       case Fails(code, message) => fate.Dies? && fate.trap == Failed(code, message)
       case _ => false
  }

  /** A guard and then the answer. */
  lemma GuardedAnswer(w: World, s: State, guard: seq<Ins>, last: seq<Ins>, b: bool, cost: nat, n: i64, x: nat)
    returns (fate: Fate)
    requires Guards(w, guard, s, b, cost) && (!b ==> Adds(w, last, s, V64(n)))
    ensures Answers(w, guard + last, s,
                    if b then Ir.Fails(Ir.ARITHMETIC_CODE, Ir.ARITHMETIC_MESSAGE) else Ir.Gives(Ir.IntV(n), []), x, fate)
  {
    hide Body;
    var f := if b then Dies(cost, NO_ANSWER) else Ends(cost, s, Normal);
    MeetsThen(w, guard, last, s, f, Ends(|last|, Pushed(s, V64(n)), Normal));
    fate := Joined(f, Ends(|last|, Pushed(s, V64(n)), Normal));
  }

  /** The result computed first, without a check, into a slot of its own. */
  lemma StoresResult(w: World, s: State, left: nat, op: NumOp, right: nat, x: nat, l: i64, r: i64, n: i64)
    requires Holds(s, left, l) && Holds(s, right, r) && x < |s.locals|
    requires !Unary(op) && BinaryOn(op, l, r) == Ok(V64(n))
    ensures StepsTo(w, Test(left, op, right) + [LocalSet(x)], s, s.(locals := s.locals[x := V64(n)]))
  {
    TestAdds(w, s, left, op, right, l, r, V64(n));
    SetSteps(w, x, s, V64(n));
    StepsThen(w, Test(left, op, right), [LocalSet(x)], s, Pushed(s, V64(n)), s.(locals := s.locals[x := V64(n)]));
  }

  /** The wrapped result into a slot, a guard for whether it wrapped, and the slot read back. */
  lemma StoredGuarded(w: World, s: State, stored: seq<Ins>, guard: seq<Ins>, cost: nat, x: nat, n: i64, exact: int)
    returns (fate: Fate)
    requires n == Wrap64(exact) && x < |s.locals| && StepsTo(w, stored, s, s.(locals := s.locals[x := V64(n)]))
    requires Guards(w, guard, s.(locals := s.locals[x := V64(n)]), !Exact.Fits(exact), cost)
    ensures Answers(w, stored + guard + [LocalGet(x)], s, Ir.Checked(exact, []), x, fate)
  {
    hide Body;
    var next := s.(locals := s.locals[x := V64(n)]);
    var f := if Exact.Fits(exact) then Ends(cost, next, Normal) else Dies(cost, NO_ANSWER);
    var g := Joined(Ends(|stored|, next, Normal), f);
    WrapFits(exact);
    GetSteps(w, x, next);
    MeetsThen(w, stored, guard, s, Ends(|stored|, next, Normal), f);
    MeetsThen(w, stored + guard, [LocalGet(x)], s, g, Ends(1, Pushed(next, V64(n)), Normal));
    fate := Joined(g, Ends(1, Pushed(next, V64(n)), Normal));
  }

  lemma SumGuards(w: World, s: State, d: Draft, placed: seq<(Text, nat)>, left: nat, right: nat, x: nat, l: i64, r: i64)
    returns (cost: nat)
    requires Holds(s, left, l) && Holds(s, right, r) && Holds(s, x, Wrap64(l + r))
    requires Primed(s.memory, placed) && ArithmeticFailure(d).draft.strings.placed <= placed
    ensures Guards(w, WentPast(right, x, left, I64LtS, I64GtS) + [TrapOnTrue(ArithmeticFailure(d).code)],
                   s, !Exact.Fits(l + r), cost)
  {
    Exact.SumTest(l, r);
    WentPastAdds(w, s, right, x, left, I64LtS, I64GtS, r, Wrap64(l + r), l, !Exact.Fits(l + r));
    cost := TestGuards(w, s, WentPast(right, x, left, I64LtS, I64GtS), !Exact.Fits(l + r), d, placed);
  }

  lemma SumRuns(w: World, s: State, d: Draft, placed: seq<(Text, nat)>, left: nat, right: nat, x: nat, l: i64, r: i64)
    returns (fate: Fate)
    requires Holds(s, left, l) && Holds(s, right, r) && x < |s.locals| && x != left && x != right
    requires Primed(s.memory, placed) && ArithmeticFailure(d).draft.strings.placed <= placed
    ensures Answers(w, Test(left, I64Add, right) + [LocalSet(x)]
                         + (WentPast(right, x, left, I64LtS, I64GtS) + [TrapOnTrue(ArithmeticFailure(d).code)]) + [LocalGet(x)],
                    s, Ir.Checked(l + r, []), x, fate)
  {
    hide Body, Meets, Test, WentPast, ArithmeticFailure;
    var n := Wrap64(l + r);
    StoresResult(w, s, left, I64Add, right, x, l, r, n);
    var cost := SumGuards(w, s.(locals := s.locals[x := V64(n)]), d, placed, left, right, x, l, r);
    fate := StoredGuarded(w, s, Test(left, I64Add, right) + [LocalSet(x)],
                          WentPast(right, x, left, I64LtS, I64GtS) + [TrapOnTrue(ArithmeticFailure(d).code)], cost, x, n, l + r);
  }

  lemma DifferenceGuards(w: World, s: State, d: Draft, placed: seq<(Text, nat)>, left: nat, right: nat, x: nat, l: i64, r: i64)
    returns (cost: nat)
    requires Holds(s, left, l) && Holds(s, right, r) && Holds(s, x, Wrap64(l - r))
    requires Primed(s.memory, placed) && ArithmeticFailure(d).draft.strings.placed <= placed
    ensures Guards(w, WentPast(right, x, left, I64GtS, I64LtS) + [TrapOnTrue(ArithmeticFailure(d).code)],
                   s, !Exact.Fits(l - r), cost)
  {
    Exact.DifferenceTest(l, r);
    WentPastAdds(w, s, right, x, left, I64GtS, I64LtS, r, Wrap64(l - r), l, !Exact.Fits(l - r));
    cost := TestGuards(w, s, WentPast(right, x, left, I64GtS, I64LtS), !Exact.Fits(l - r), d, placed);
  }

  lemma DifferenceRuns(w: World, s: State, d: Draft, placed: seq<(Text, nat)>, left: nat, right: nat, x: nat, l: i64, r: i64)
    returns (fate: Fate)
    requires Holds(s, left, l) && Holds(s, right, r) && x < |s.locals| && x != left && x != right
    requires Primed(s.memory, placed) && ArithmeticFailure(d).draft.strings.placed <= placed
    ensures Answers(w, Test(left, I64Sub, right) + [LocalSet(x)]
                         + (WentPast(right, x, left, I64GtS, I64LtS) + [TrapOnTrue(ArithmeticFailure(d).code)]) + [LocalGet(x)],
                    s, Ir.Checked(l - r, []), x, fate)
  {
    hide Body, Meets, Test, WentPast, ArithmeticFailure;
    var n := Wrap64(l - r);
    StoresResult(w, s, left, I64Sub, right, x, l, r, n);
    var cost := DifferenceGuards(w, s.(locals := s.locals[x := V64(n)]), d, placed, left, right, x, l, r);
    fate := StoredGuarded(w, s, Test(left, I64Sub, right) + [LocalSet(x)],
                          WentPast(right, x, left, I64GtS, I64LtS) + [TrapOnTrue(ArithmeticFailure(d).code)], cost, x, n, l - r);
  }

  /** Dividing the product back and comparing, for factors that are not zero. */
  lemma BackGuards(w: World, s: State, d: Draft, placed: seq<(Text, nat)>, left: nat, right: nat, x: nat, l: i64, r: i64)
    returns (cost: nat)
    requires Holds(s, left, l) && Holds(s, right, r) && Holds(s, x, Wrap64(l * r))
    requires l != 0 && r != 0 && !(l == -1 && r == MIN_64)
    requires Primed(s.memory, placed) && ArithmeticFailure(d).draft.strings.placed <= placed
    ensures Guards(w, DividesBack(x, left, right, ArithmeticFailure(d).code), s, !Exact.Fits(l * r), cost)
  {
    hide Body, Meets, Test, ArithmeticFailure, TrapOnTrue, Guards, Adds, Primed, Holds, Exact.Fits, Wrap64;
    BackAdds(w, s, left, right, x, l, r);
    cost := TestGuards(w, s, Test(x, I64DivS, left) + [LocalGet(right)] + [Num(I64Ne)], !Exact.Fits(l * r), d, placed);
    assert Test(x, I64DivS, left) + [LocalGet(right)] + [Num(I64Ne)] + [TrapOnTrue(ArithmeticFailure(d).code)]
        == DividesBack(x, left, right, ArithmeticFailure(d).code);
  }

  lemma BackAdds(w: World, s: State, left: nat, right: nat, x: nat, l: i64, r: i64)
    requires Holds(s, left, l) && Holds(s, right, r) && Holds(s, x, Wrap64(l * r))
    requires l != 0 && r != 0 && !(l == -1 && r == MIN_64)
    ensures Adds(w, Test(x, I64DivS, left) + [LocalGet(right)] + [Num(I64Ne)], s, Boolean(!Exact.Fits(l * r)))
  {
    var q := TruncDiv(Wrap64(l * r), l);
    Exact.ProductTest(l, r);
    WrapFits(q);
    TestAdds(w, s, x, I64DivS, left, Wrap64(l * r), l, V64(q));
    GetSteps(w, right, Pushed(s, V64(q)));
    NumSteps(w, I64Ne, s, V64(q), V64(r), Boolean(!Exact.Fits(l * r)));
    InThree(w, s, Test(x, I64DivS, left), [LocalGet(right)], [Num(I64Ne)],
            Pushed(s, V64(q)), Pushed(Pushed(s, V64(q)), V64(r)), Pushed(s, Boolean(!Exact.Fits(l * r))));
  }

  lemma InThree(w: World, s: State, one: seq<Ins>, two: seq<Ins>, three: seq<Ins>, a: State, b: State, c: State)
    requires StepsTo(w, one, s, a) && StepsTo(w, two, a, b) && StepsTo(w, three, b, c)
    ensures StepsTo(w, one + two + three, s, c)
  {
    StepsThen(w, one, two, s, a, b);
    StepsThen(w, one + two, three, s, b, c);
  }

  lemma ProductGuards(w: World, s: State, d: Draft, e: Draft, placed: seq<(Text, nat)>, left: nat, right: nat, x: nat, l: i64, r: i64)
    returns (cost: nat)
    requires Holds(s, left, l) && Holds(s, right, r) && Holds(s, x, Wrap64(l * r))
    requires Primed(s.memory, placed) && ArithmeticFailure(d).draft.strings.placed <= placed
    requires ArithmeticFailure(e).draft.strings.placed <= placed
    ensures Guards(w, LeastByMinusOne(left, right) + [TrapOnTrue(ArithmeticFailure(d).code)]
                        + (NeitherZero(left, right) + [Ins.If(None, DividesBack(x, left, right, ArithmeticFailure(e).code), [])]),
                   s, !Exact.Fits(l * r), cost)
  {
    var least := l == -1 && r == MIN_64;
    ConstTestsAdd(w, s, left, -1, right, MIN_64, l, r);
    var one := TestGuards(w, s, LeastByMinusOne(left, right), least, d, placed);
    var two := 0;
    if !least {
      two := NonLeastGuards(w, s, e, placed, left, right, x, l, r);
    }
    assert least ==> l * r == -MIN_64;
    cost := GuardsThen(w, LeastByMinusOne(left, right) + [TrapOnTrue(ArithmeticFailure(d).code)],
                       NeitherZero(left, right) + [Ins.If(None, DividesBack(x, left, right, ArithmeticFailure(e).code), [])],
                       s, least, !Exact.Fits(l * r), one, two);
  }

  lemma NonLeastGuards(w: World, s: State, e: Draft, placed: seq<(Text, nat)>, left: nat, right: nat, x: nat, l: i64, r: i64)
    returns (cost: nat)
    requires Holds(s, left, l) && Holds(s, right, r) && Holds(s, x, Wrap64(l * r)) && !(l == -1 && r == MIN_64)
    requires Primed(s.memory, placed) && ArithmeticFailure(e).draft.strings.placed <= placed
    ensures Guards(w, NeitherZero(left, right) + [Ins.If(None, DividesBack(x, left, right, ArithmeticFailure(e).code), [])],
                   s, !Exact.Fits(l * r), cost)
  {
    NeitherZeroAdds(w, s, left, right, l, r);
    var inner := 0;
    if l != 0 && r != 0 {
      inner := BackGuards(w, s, e, placed, left, right, x, l, r);
    } else {
      assert l * r == 0;
    }
    cost := ArmGuards(w, s, NeitherZero(left, right), DividesBack(x, left, right, ArithmeticFailure(e).code),
                      l != 0 && r != 0, !Exact.Fits(l * r), inner);
  }

  lemma ProductRuns(w: World, s: State, d: Draft, e: Draft, placed: seq<(Text, nat)>, left: nat, right: nat, x: nat, l: i64, r: i64)
    returns (fate: Fate)
    requires Holds(s, left, l) && Holds(s, right, r) && x < |s.locals| && x != left && x != right
    requires Primed(s.memory, placed) && ArithmeticFailure(d).draft.strings.placed <= placed
    requires ArithmeticFailure(e).draft.strings.placed <= placed
    ensures Answers(w, Test(left, I64Mul, right) + [LocalSet(x)]
                         + (LeastByMinusOne(left, right) + [TrapOnTrue(ArithmeticFailure(d).code)]
                              + (NeitherZero(left, right) + [Ins.If(None, DividesBack(x, left, right, ArithmeticFailure(e).code), [])]))
                         + [LocalGet(x)],
                    s, Ir.Checked(l * r, []), x, fate)
  {
    hide Body, Meets, Test, LeastByMinusOne, NeitherZero, ArithmeticFailure;
    var n := Wrap64(l * r);
    StoresResult(w, s, left, I64Mul, right, x, l, r, n);
    var cost := ProductGuards(w, s.(locals := s.locals[x := V64(n)]), d, e, placed, left, right, x, l, r);
    fate := StoredGuarded(w, s, Test(left, I64Mul, right) + [LocalSet(x)],
                          LeastByMinusOne(left, right) + [TrapOnTrue(ArithmeticFailure(d).code)]
                            + (NeitherZero(left, right) + [Ins.If(None, DividesBack(x, left, right, ArithmeticFailure(e).code), [])]),
                          cost, x, n, l * r);
  }

  lemma QuotientRuns(w: World, s: State, d: Draft, placed: seq<(Text, nat)>, left: nat, right: nat, op: Ir.BinaryOp, l: i64, r: i64, x: nat)
    returns (fate: Fate)
    requires Holds(s, left, l) && Holds(s, right, r) && (op.DivInt? || op.RemInt?)
    requires Primed(s.memory, placed) && ArithmeticFailure(d).draft.strings.placed <= placed
    ensures Answers(w, NoQuotient(left, right) + [TrapOnTrue(ArithmeticFailure(d).code)]
                         + Test(left, if op.DivInt? then I64DivS else I64RemS, right),
                    s, Ir.Arith(op, l, r, []), x, fate)
  {
    var b := r == 0 || (l == MIN_64 && r == -1);
    var cost := QuotientGuards(w, s, d, placed, left, right, l, r);
    if r != 0 {
      Exact.QuotientTest(l, r);
    }
    var n: i64 := 0;
    if !b {
      n := QuotientAdds(w, s, left, right, op, l, r);
    }
    hide Body, Meets, NoQuotient, Test;
    fate := GuardedAnswer(w, s, NoQuotient(left, right) + [TrapOnTrue(ArithmeticFailure(d).code)],
                          Test(left, if op.DivInt? then I64DivS else I64RemS, right), b, cost, n, x);
  }

  lemma QuotientAdds(w: World, s: State, left: nat, right: nat, op: Ir.BinaryOp, l: i64, r: i64) returns (n: i64)
    requires Holds(s, left, l) && Holds(s, right, r) && (op.DivInt? || op.RemInt?)
    requires r != 0 && Exact.Fits(TruncDiv(l, r))
    ensures n == if op.DivInt? then TruncDiv(l, r) else Wrap64(TruncRem(l, r))
    ensures Adds(w, Test(left, if op.DivInt? then I64DivS else I64RemS, right), s, V64(n))
  {
    WrapFits(TruncDiv(l, r));
    n := if op.DivInt? then TruncDiv(l, r) else Wrap64(TruncRem(l, r));
    TestAdds(w, s, left, if op.DivInt? then I64DivS else I64RemS, right, l, r, V64(n));
  }

  lemma QuotientGuards(w: World, s: State, d: Draft, placed: seq<(Text, nat)>, left: nat, right: nat, l: i64, r: i64)
    returns (cost: nat)
    requires Holds(s, left, l) && Holds(s, right, r)
    requires Primed(s.memory, placed) && ArithmeticFailure(d).draft.strings.placed <= placed
    ensures Guards(w, NoQuotient(left, right) + [TrapOnTrue(ArithmeticFailure(d).code)],
                   s, r == 0 || (l == MIN_64 && r == -1), cost)
  {
    NoQuotientAdds(w, s, left, right, l, r);
    cost := TestGuards(w, s, NoQuotient(left, right), r == 0 || (l == MIN_64 && r == -1), d, placed);
  }

  /**
   * Over all pairs of 64-bit integers the operator's code answers with the exact result or
   * fails, and fails exactly when the IR says there is no answer.
   */
  lemma CheckedOpRuns(w: World, s: State, cx: Cx, d: Draft, op: Ir.BinaryOp, placed: seq<(Text, nat)>,
                      left: nat, right: nat, l: i64, r: i64) returns (fate: Fate)
    requires Ir.Arithmetic(op) && Holds(s, left, l) && Holds(s, right, r)
    requires left < Fresh(cx, d) && right < Fresh(cx, d)
    requires Params(cx.f) + |CheckedOp(cx, d, op, left, right).draft.extra| <= |s.locals|
    requires Primed(s.memory, placed) && CheckedOp(cx, d, op, left, right).draft.strings.placed <= placed
    ensures Answers(w, CheckedOp(cx, d, op, left, right).code, s, Ir.Arith(op, l, r, []), Fresh(cx, d), fate)
  {
    if op.AddInt? {
      fate := AddRuns(w, s, cx, d, placed, left, right, l, r);
    } else if op.SubInt? {
      fate := SubtractRuns(w, s, cx, d, placed, left, right, l, r);
    } else if op.MulInt? {
      fate := MultiplyRuns(w, s, cx, d, placed, left, right, l, r);
    } else {
      fate := DivideRuns(w, s, cx, d, op, placed, left, right, l, r);
    }
  }

  lemma DivideRuns(w: World, s: State, cx: Cx, d: Draft, op: Ir.BinaryOp, placed: seq<(Text, nat)>, left: nat, right: nat, l: i64, r: i64)
    returns (fate: Fate)
    requires Holds(s, left, l) && Holds(s, right, r) && (op.DivInt? || op.RemInt?)
    requires Primed(s.memory, placed) && CheckedOp(cx, d, op, left, right).draft.strings.placed <= placed
    ensures Answers(w, CheckedOp(cx, d, op, left, right).code, s, Ir.Arith(op, l, r, []), Fresh(cx, d), fate)
  {
    fate := QuotientRuns(w, s, d, placed, left, right, op, l, r, Fresh(cx, d));
  }

  lemma AddRuns(w: World, s: State, cx: Cx, d: Draft, placed: seq<(Text, nat)>, left: nat, right: nat, l: i64, r: i64)
    returns (fate: Fate)
    requires Holds(s, left, l) && Holds(s, right, r) && left < Fresh(cx, d) && right < Fresh(cx, d)
    requires Params(cx.f) + |CheckedOp(cx, d, Ir.AddInt, left, right).draft.extra| <= |s.locals|
    requires Primed(s.memory, placed) && CheckedOp(cx, d, Ir.AddInt, left, right).draft.strings.placed <= placed
    ensures Answers(w, CheckedOp(cx, d, Ir.AddInt, left, right).code, s, Ir.Arith(Ir.AddInt, l, r, []), Fresh(cx, d), fate)
  {
    AddCode(cx, d, left, right);
    fate := SumRuns(w, s, Took(d, I64), placed, left, right, Fresh(cx, d), l, r);
  }

  lemma SubtractRuns(w: World, s: State, cx: Cx, d: Draft, placed: seq<(Text, nat)>, left: nat, right: nat, l: i64, r: i64)
    returns (fate: Fate)
    requires Holds(s, left, l) && Holds(s, right, r) && left < Fresh(cx, d) && right < Fresh(cx, d)
    requires Params(cx.f) + |CheckedOp(cx, d, Ir.SubInt, left, right).draft.extra| <= |s.locals|
    requires Primed(s.memory, placed) && CheckedOp(cx, d, Ir.SubInt, left, right).draft.strings.placed <= placed
    ensures Answers(w, CheckedOp(cx, d, Ir.SubInt, left, right).code, s, Ir.Arith(Ir.SubInt, l, r, []), Fresh(cx, d), fate)
  {
    SubtractCode(cx, d, left, right);
    fate := DifferenceRuns(w, s, Took(d, I64), placed, left, right, Fresh(cx, d), l, r);
  }

  lemma MultiplyRuns(w: World, s: State, cx: Cx, d: Draft, placed: seq<(Text, nat)>, left: nat, right: nat, l: i64, r: i64)
    returns (fate: Fate)
    requires Holds(s, left, l) && Holds(s, right, r) && left < Fresh(cx, d) && right < Fresh(cx, d)
    requires Params(cx.f) + |CheckedOp(cx, d, Ir.MulInt, left, right).draft.extra| <= |s.locals|
    requires Primed(s.memory, placed) && CheckedOp(cx, d, Ir.MulInt, left, right).draft.strings.placed <= placed
    ensures Answers(w, CheckedOp(cx, d, Ir.MulInt, left, right).code, s, Ir.Arith(Ir.MulInt, l, r, []), Fresh(cx, d), fate)
  {
    var again := ArithmeticFailure(Took(d, I64)).draft;
    assert again.strings.placed <= ArithmeticFailure(again).draft.strings.placed <= placed;
    MultiplyCode(cx, d, left, right);
    fate := ProductRuns(w, s, Took(d, I64), again, placed, left, right, Fresh(cx, d), l, r);
  }

  lemma AddCode(cx: Cx, d: Draft, left: nat, right: nat)
    ensures var x := Fresh(cx, d);
      CheckedOp(cx, d, Ir.AddInt, left, right).code
        == Test(left, I64Add, right) + [LocalSet(x)]
             + (WentPast(right, x, left, I64LtS, I64GtS) + [TrapOnTrue(ArithmeticFailure(Took(d, I64)).code)]) + [LocalGet(x)]
  {
  }

  lemma SubtractCode(cx: Cx, d: Draft, left: nat, right: nat)
    ensures var x := Fresh(cx, d);
      CheckedOp(cx, d, Ir.SubInt, left, right).code
        == Test(left, I64Sub, right) + [LocalSet(x)]
             + (WentPast(right, x, left, I64GtS, I64LtS) + [TrapOnTrue(ArithmeticFailure(Took(d, I64)).code)]) + [LocalGet(x)]
  {
  }

  lemma MultiplyCode(cx: Cx, d: Draft, left: nat, right: nat)
    ensures var x := Fresh(cx, d);
      var failure := ArithmeticFailure(Took(d, I64));
      var back := Ins.If(None, DividesBack(x, left, right, ArithmeticFailure(failure.draft).code), []);
      CheckedOp(cx, d, Ir.MulInt, left, right).code
        == Test(left, I64Mul, right) + [LocalSet(x)]
             + (LeastByMinusOne(left, right) + [TrapOnTrue(failure.code)] + (NeitherZero(left, right) + [back]))
             + [LocalGet(x)]
  {
  }

  /** Zero less what is in the slot, unless that is the least integer. */
  lemma NegationRuns(w: World, s: State, d: Draft, placed: seq<(Text, nat)>, x: nat, n: i64) returns (fate: Fate)
    requires Holds(s, x, n) && Primed(s.memory, placed) && ArithmeticFailure(d).draft.strings.placed <= placed
    ensures Answers(w, TestConst(x, I64Eq, MIN_64) + [TrapOnTrue(ArithmeticFailure(d).code)]
                         + [I64Const(0), LocalGet(x), Num(I64Sub)],
                    s, Ir.Checked(0 - n, []), x, fate)
  {
    hide Place, Primed, Failure, Body, Meets;
    TestConstAdds(w, s, x, I64Eq, MIN_64, n, Boolean(n == MIN_64));
    var cost := TestGuards(w, s, TestConst(x, I64Eq, MIN_64), n == MIN_64, d, placed);
    if n != MIN_64 {
      NegativeAdds(w, s, x, n);
    }
    hide ArithmeticFailure;
    fate := GuardedAnswer(w, s, TestConst(x, I64Eq, MIN_64) + [TrapOnTrue(ArithmeticFailure(d).code)],
                          [I64Const(0), LocalGet(x), Num(I64Sub)], n == MIN_64, cost, Wrap64(0 - n), x);
  }

  lemma NegativeAdds(w: World, s: State, x: nat, n: i64)
    requires Holds(s, x, n) && n != MIN_64
    ensures Adds(w, [I64Const(0), LocalGet(x), Num(I64Sub)], s, V64(Wrap64(0 - n)))
  {
    SimpleSteps(w, I64Const(0), s, Pushed(s, V64(0)));
    GetSteps(w, x, Pushed(s, V64(0)));
    ThreeSteps(w, s, I64Const(0), LocalGet(x), I64Sub, V64(0), V64(n), V64(Wrap64(0 - n)));
  }
}
