/**
 * What those instructions do when they are run: compare the strings, fold the string, and copy
 * it, byte for byte, in every module and for every string in memory.
 */
module HelperRuns {
  import opened Ints
  import opened Wasm
  import opened Types
  import opened Run
  import opened Fates
  import opened CompileRuns
  import opened CallsAndWalks
  import opened Combinators
  import opened Heap
  import opened HelperCode
  import Compile
  import Fuel
  import Hashing
  import Operators
  import Texts
  import L = Layout

  // -- the pieces ------------------------------------------------------------

  lemma AddsThen(w: World, s: State, one: seq<Ins>, two: seq<Ins>, v: Value, u: Value)
    requires Adds(w, one, s, v) && StepsTo(w, two, Pushed(s, v), Pushed(s, u))
    ensures Adds(w, one + two, s, u)
  {
    StepsThen(w, one, two, s, Pushed(s, v), Pushed(s, u));
  }

  lemma LoadSteps(w: World, s: State, ins: Ins, at: i32, v: Value)
    requires (ins.I64Load? || ins.I32Load8U?) && at >= 0
    requires at + ins.offset + (if ins.I32Load8U? then 1 else 8) <= |s.memory|
    requires v == if ins.I64Load? then V64(WordAt(s.memory, at + ins.offset)) else V32(s.memory[at + ins.offset])
    ensures StepsTo(w, [ins], Pushed(s, V32(at)), Pushed(s, v))
  {
    hide ExecSimple;
    Operators.Loads(ins, s, at);
    SimpleSteps(w, ins, Pushed(s, V32(at)), Pushed(s, v));
  }

  /** An address in a local, narrowed. */
  lemma NarrowedAdds(w: World, s: State, slot: nat, at: i32)
    requires slot < |s.locals| && s.locals[slot] == V64(at)
    ensures Adds(w, [LocalGet(slot), Num(I32WrapI64)], s, V32(at))
  {
    GetSteps(w, slot, s);
    UnarySteps(w, I32WrapI64, s, V64(at));
    Operators.NarrowFits(at);
    AddsThen(w, s, [LocalGet(slot)], [Num(I32WrapI64)], V64(at), V32(at));
    assert [LocalGet(slot)] + [Num(I32WrapI64)] == [LocalGet(slot), Num(I32WrapI64)];
  }

  lemma LengthAdds(w: World, s: State, slot: nat, at: i32, text: Text)
    requires slot < |s.locals| && s.locals[slot] == V64(at) && at >= 0 && TextAt(s.memory, at, text) && |s.memory| <= CEILING
    ensures Adds(w, ByteLength(slot), s, V32(|text|))
  {
    hide Adds, WordAt;
    var narrow := [LocalGet(slot), Num(I32WrapI64)];
    NarrowedAdds(w, s, slot, at);
    assert Adds(w, narrow + [I64Load(8)], s, V64(|text|)) by {
      LoadSteps(w, s, I64Load(8), at, V64(|text|));
      AddsThen(w, s, narrow, [I64Load(8)], V32(at), V64(|text|));
    }
    UnarySteps(w, I32WrapI64, s, V64(|text|));
    Operators.NarrowFits(|text|);
    AddsThen(w, s, narrow + [I64Load(8)], [Num(I32WrapI64)], V64(|text|), V32(|text|));
    assert narrow + [I64Load(8)] + [Num(I32WrapI64)] == ByteLength(slot);
  }

  /** From a narrow address on top to that of a byte past the two counts. */
  lemma OffsetSteps(w: World, s: State, index: nat, at: i32, i: i32)
    requires index < |s.locals| && s.locals[index] == V32(i) && 0 <= at && 0 <= i && at + TEXT + i < 0x8000_0000
    ensures StepsTo(w, [I32Const(TEXT_BYTES), Num(I32Add), LocalGet(index), Num(I32Add)], Pushed(s, V32(at)), Pushed(s, V32(at + TEXT + i)))
  {
    var one := Pushed(s, V32(at));
    SimpleSteps(w, I32Const(TEXT_BYTES), one, Pushed(one, V32(TEXT_BYTES)));
    AddedSteps(w, s, at, TEXT_BYTES);
    hide StepsTo;
    var two := Pushed(s, V32(at + TEXT));
    GetSteps(w, index, two);
    AddedSteps(w, s, at + TEXT, i);
    StepsThen(w, [I32Const(TEXT_BYTES)], [Num(I32Add)], one, Pushed(one, V32(TEXT_BYTES)), two);
    StepsThen(w, [LocalGet(index)], [Num(I32Add)], two, Pushed(two, V32(i)), Pushed(s, V32(at + TEXT + i)));
    StepsThen(w, [I32Const(TEXT_BYTES)] + [Num(I32Add)], [LocalGet(index)] + [Num(I32Add)], one, two, Pushed(s, V32(at + TEXT + i)));
    assert [I32Const(TEXT_BYTES)] + [Num(I32Add)] + ([LocalGet(index)] + [Num(I32Add)])
        == [I32Const(TEXT_BYTES), Num(I32Add), LocalGet(index), Num(I32Add)];
  }

  lemma AddedSteps(w: World, s: State, a: i32, b: i32)
    requires -0x8000_0000 <= a + b < 0x8000_0000
    ensures StepsTo(w, [Num(I32Add)], Pushed(Pushed(s, V32(a)), V32(b)), Pushed(s, V32(a + b)))
  {
    Operators.NarrowFits(a + b);
    NumSteps(w, I32Add, s, V32(a), V32(b), V32(a + b));
  }

  lemma ByteAdds(w: World, s: State, slot: nat, index: nat, at: i32, i: nat, text: Text)
    requires slot < |s.locals| && s.locals[slot] == V64(at) && at >= 0 && TextAt(s.memory, at, text) && |s.memory| <= CEILING
    requires i < |text| && index < |s.locals| && s.locals[index] == V32(i)
    ensures Adds(w, ByteOf(slot, index), s, V32(text[i]))
  {
    hide Adds, WordAt;
    var narrow := [LocalGet(slot), Num(I32WrapI64)];
    var offset := [I32Const(TEXT_BYTES), Num(I32Add), LocalGet(index), Num(I32Add)];
    assert s.memory[at + TEXT + i] == s.memory[at + TEXT..at + TEXT + |text|][i];
    NarrowedAdds(w, s, slot, at);
    OffsetSteps(w, s, index, at, i);
    AddsThen(w, s, narrow, offset, V32(at), V32(at + TEXT + i));
    assert narrow + offset == ByteAddress(slot, index);
    LoadSteps(w, s, I32Load8U(0), at + TEXT + i, V32(text[i]));
    AddsThen(w, s, ByteAddress(slot, index), [I32Load8U(0)], V32(at + TEXT + i), V32(text[i]));
  }

  lemma TextFits(memory: seq<byte>, at: nat, text: Text)
    requires TextAt(memory, at, text) && |memory| <= CEILING
    ensures at + TEXT + |text| <= |memory| && |text| < 0x8000_0000 && at < 0x8000_0000
  {
  }

  // -- counting --------------------------------------------------------------

  /** The inside of a counted loop. */
  function Counted(counter: nat, limit: nat, body: seq<Ins>): seq<Ins> {
    [LocalGet(counter), LocalGet(limit), Num(I32GeS)] + [BrIf(1)] + body + Next(counter) + [Br(0)]
  }

  /** A count and what it counts to. */
  ghost predicate Counts(s: State, counter: nat, limit: nat, i: nat, n: nat) {
    && counter < |s.locals| && limit < |s.locals| && counter != limit
    && i < 0x8000_0000 && n < 0x8000_0000 && s.locals[counter] == V32(i) && s.locals[limit] == V32(n)
  }

  lemma TestMeets(w: World, s: State, counter: nat, limit: nat, i: nat, n: nat)
    requires Counts(s, counter, limit, i, n)
    ensures Meets(w, [LocalGet(counter), LocalGet(limit), Num(I32GeS)] + [BrIf(1)], s, Ends(4, s, if i < n then Normal else Break(1)))
  {
    var test := [LocalGet(counter), LocalGet(limit), Num(I32GeS)];
    GetSteps(w, counter, s);
    GetSteps(w, limit, Pushed(s, V32(i)));
    ThreeSteps(w, s, LocalGet(counter), LocalGet(limit), I32GeS, V32(i), V32(n), Boolean(i >= n));
    var top := Pushed(s, Boolean(i >= n));
    RunOne(w, 1, BrIf(1), top);
    assert Popped(top) == Ok((Boolean(i >= n), s));
    assert Instr(w, 1, BrIf(1), top) == BranchIf(0, 1, top);
    MeetsThen(w, test, [BrIf(1)], s, Ends(3, top, Normal), Ends(1, s, if i < n then Normal else Break(1)));
  }

  lemma NextSteps(w: World, s: State, counter: nat, i: nat)
    requires i + 1 < 0x8000_0000 && counter < |s.locals| && s.locals[counter] == V32(i)
    ensures StepsTo(w, Next(counter), s, s.(locals := s.locals[counter := V32(i + 1)]))
  {
    hide ExecNum;
    var one := Pushed(s, V32(i));
    GetSteps(w, counter, s);
    SimpleSteps(w, I32Const(1), one, Pushed(one, V32(1)));
    AddedSteps(w, s, i, 1);
    SetSteps(w, counter, s, V32(i + 1));
    StepsThen(w, [LocalGet(counter)], [I32Const(1)], s, one, Pushed(one, V32(1)));
    StepsThen(w, [LocalGet(counter)] + [I32Const(1)], [Num(I32Add)], s, Pushed(one, V32(1)), Pushed(s, V32(i + 1)));
    StepsThen(w, [LocalGet(counter)] + [I32Const(1)] + [Num(I32Add)], [LocalSet(counter)], s, Pushed(s, V32(i + 1)),
              s.(locals := s.locals[counter := V32(i + 1)]));
    assert [LocalGet(counter)] + [I32Const(1)] + [Num(I32Add)] + [LocalSet(counter)] == Next(counter);
  }

  /** Counting further: the state a turn starts the next one from. */
  function Counting(s: State, counter: nat, i: nat): State
    requires counter < |s.locals| && i < 0x8000_0000
  {
    s.(locals := s.locals[counter := V32(i)])
  }

  lemma TurnGoes(w: World, s: State, counter: nat, limit: nat, body: seq<Ins>, i: nat, n: nat, cost: nat, after: State)
    requires Counts(s, counter, limit, i, n) && i < n && Meets(w, body, s, Ends(cost, after, Normal))
    requires counter < |after.locals| && after.locals[counter] == V32(i)
    ensures Meets(w, Counted(counter, limit, body), s, Ends(cost + 9, Counting(after, counter, i + 1), Break(0)))
  {
    hide Meets;
    var test := [LocalGet(counter), LocalGet(limit), Num(I32GeS)] + [BrIf(1)];
    var next := Counting(after, counter, i + 1);
    TestMeets(w, s, counter, limit, i, n);
    MeetsThen(w, test, body, s, Ends(4, s, Normal), Ends(cost, after, Normal));
    assert Meets(w, Next(counter), after, Ends(4, next, Normal)) by {
      NextSteps(w, after, counter, i);
      StepsMeet(w, Next(counter), after, next);
    }
    MeetsThen(w, test + body, Next(counter), s, Ends(4 + cost, after, Normal), Ends(4, next, Normal));
    JumpMeets(w, next);
    MeetsThen(w, test + body + Next(counter), [Br(0)], s, Ends(8 + cost, next, Normal), Ends(1, next, Break(0)));
  }

  lemma StepsMeet(w: World, code: seq<Ins>, s: State, out: State)
    requires StepsTo(w, code, s, out)
    ensures Meets(w, code, s, Ends(|code|, out, Normal))
  {
  }

  lemma TurnLeaves(w: World, s: State, counter: nat, limit: nat, body: seq<Ins>, i: nat, n: nat)
    requires Counts(s, counter, limit, i, n) && i >= n
    ensures Meets(w, Counted(counter, limit, body), s, Ends(4, s, Break(1)))
  {
    hide Meets;
    var test := [LocalGet(counter), LocalGet(limit), Num(I32GeS)] + [BrIf(1)];
    TestMeets(w, s, counter, limit, i, n);
    MeetsThen(w, test, body + Next(counter) + [Br(0)], s, Ends(4, s, Break(1)), Ends(0, s, Normal));
    assert test + (body + Next(counter) + [Br(0)]) == Counted(counter, limit, body);
  }

  lemma TurnReturns(w: World, s: State, counter: nat, limit: nat, body: seq<Ins>, i: nat, n: nat, cost: nat, after: State)
    requires Counts(s, counter, limit, i, n) && i < n && Meets(w, body, s, Ends(cost, after, Returning))
    ensures Meets(w, Counted(counter, limit, body), s, Ends(cost + 4, after, Returning))
  {
    hide Meets;
    var test := [LocalGet(counter), LocalGet(limit), Num(I32GeS)] + [BrIf(1)];
    TestMeets(w, s, counter, limit, i, n);
    MeetsThen(w, test, body, s, Ends(4, s, Normal), Ends(cost, after, Returning));
    MeetsThen(w, test + body, Next(counter) + [Br(0)], s, Ends(cost + 4, after, Returning), Ends(0, s, Normal));
    assert test + body + (Next(counter) + [Br(0)]) == Counted(counter, limit, body);
  }

  /** The whole loop, from what becomes of its turns. */
  lemma CountMeets(w: World, s: State, counter: nat, limit: nat, body: seq<Ins>, f: Fate)
    requires counter < |s.locals| && Circles(w, Counted(counter, limit, body), Counting(s, counter, 0), f)
    requires f.Ends? && (f.flow == Break(0) || f.flow == Returning)
    ensures Meets(w, CountTo(counter, limit, body), s, Ends(f.cost + 4, f.state, if f.flow == Break(0) then Normal else Returning))
  {
    hide Meets;
    var start := Counting(s, counter, 0);
    assert Meets(w, [I32Const(0)] + [LocalSet(counter)], s, Ends(2, start, Normal)) by {
      SimpleSteps(w, I32Const(0), s, Pushed(s, V32(0)));
      SetSteps(w, counter, s, V32(0));
      StepsThen(w, [I32Const(0)], [LocalSet(counter)], s, Pushed(s, V32(0)), start);
      StepsMeet(w, [I32Const(0)] + [LocalSet(counter)], s, start);
    }
    var g := WalkMeets(w, Counted(counter, limit, body), start, f);
    MeetsThen(w, [I32Const(0)] + [LocalSet(counter)], [Walk(Counted(counter, limit, body))], s, Ends(2, start, Normal), g);
    assert [I32Const(0)] + [LocalSet(counter)] + [Walk(Counted(counter, limit, body))] == CountTo(counter, limit, body);
  }

  // -- comparing -------------------------------------------------------------

  /** An answer at once when two bytes or two lengths differ, and nothing otherwise. */
  lemma UnlessMeets(w: World, s: State, a: i32, b: i32)
    ensures
      Meets(w, UnlessSame(), Pushed(Pushed(s, V32(a)), V32(b)), if a == b then Ends(2, s, Normal) else Ends(4, Pushed(s, V32(0)), Returning))
  {
    var full, test := Pushed(Pushed(s, V32(a)), V32(b)), Pushed(s, Boolean(a != b));
    NumSteps(w, I32Ne, s, V32(a), V32(b), Boolean(a != b));
    GivingMeets(w, s, 0);
    var arm := [Ins.If(None, Giving(0), [])];
    StepsMeet(w, [Num(I32Ne)], full, test);
    if a != b {
      ArmMeets(w, None, Giving(0), [], s, true, Ends(2, Pushed(s, V32(0)), Returning));
      MeetsThen(w, [Num(I32Ne)], arm, full, Ends(1, test, Normal), Ends(3, Pushed(s, V32(0)), Returning));
    } else {
      ArmMeets(w, None, Giving(0), [], s, false, Ends(0, s, Normal));
      MeetsThen(w, [Num(I32Ne)], arm, full, Ends(1, test, Normal), Ends(1, s, Normal));
    }
  }

  lemma GivingMeets(w: World, s: State, n: i32)
    ensures Meets(w, Giving(n), s, Ends(2, Pushed(s, V32(n)), Returning))
  {
    SimpleSteps(w, I32Const(n), s, Pushed(s, V32(n)));
    RunOne(w, 1, Ins.Return, Pushed(s, V32(n)));
    MeetsThen(w, [I32Const(n)], [Ins.Return], s, Ends(1, Pushed(s, V32(n)), Normal), Ends(1, Pushed(s, V32(n)), Returning));
    assert [I32Const(n)] + [Ins.Return] == Giving(n);
  }

  /** While two strings of as many bytes are compared: both addresses, the length and the index. */
  ghost predicate Comparing(s: State, a: i32, b: i32, x: Text, y: Text, i: nat) {
    && |s.memory| <= CEILING && a >= 0 && b >= 0 && TextAt(s.memory, a, x) && TextAt(s.memory, b, y)
    && |x| == |y| && i <= |x| && s.locals == [V64(a), V64(b), V32(|x|), V32(i)]
  }

  /** One turn compares one byte. */
  lemma CompareMeets(w: World, s: State, a: i32, b: i32, x: Text, y: Text, i: nat)
    requires Comparing(s, a, b, x, y, i) && i < |x|
    ensures
      Meets(w, ByteOf(0, 3) + ByteOf(1, 3) + UnlessSame(), s, if x[i] == y[i] then Ends(16, s, Normal) else Ends(18, Pushed(s, V32(0)), Returning))
  {
    hide Meets, UnlessSame, TextAt;
    var one := Pushed(s, V32(x[i]));
    ByteAdds(w, s, 0, 3, a, i, x);
    ByteAdds(w, one, 1, 3, b, i, y);
    assert Meets(w, ByteOf(0, 3) + ByteOf(1, 3), s, Ends(14, Pushed(one, V32(y[i])), Normal)) by {
      StepsThen(w, ByteOf(0, 3), ByteOf(1, 3), s, one, Pushed(one, V32(y[i])));
      StepsMeet(w, ByteOf(0, 3) + ByteOf(1, 3), s, Pushed(one, V32(y[i])));
    }
    UnlessMeets(w, s, x[i], y[i]);
    MeetsThen(w, ByteOf(0, 3) + ByteOf(1, 3), UnlessSame(), s, Ends(14, Pushed(one, V32(y[i])), Normal),
              if x[i] == y[i] then Ends(2, s, Normal) else Ends(4, Pushed(s, V32(0)), Returning));
  }

  lemma {:induction false} CompareCircles(w: World, s: State, a: i32, b: i32, x: Text, y: Text, i: nat) returns (f: Fate)
    requires Comparing(s, a, b, x, y, i)
    ensures Circles(w, Counted(3, 2, ByteOf(0, 3) + ByteOf(1, 3) + UnlessSame()), s, f)
    ensures f.Ends? && f.state.memory == s.memory
    ensures if x[i..] == y[i..] then f.flow == Break(0) && f.state.stack == s.stack
            else f.flow == Returning && f.state.stack == s.stack + [V32(0)]
    decreases |x| - i
  {
    hide Meets, Circles, TextAt, UnlessSame, ByteOf;
    TextFits(s.memory, a, x);
    var body := ByteOf(0, 3) + ByteOf(1, 3) + UnlessSame();
    if i == |x| {
      TurnLeaves(w, s, 3, 2, body, i, |x|);
      LastTurn(w, Counted(3, 2, body), s, Ends(4, s, Break(1)));
      f := Ends(4, s, Break(0));
    } else {
      CompareMeets(w, s, a, b, x, y, i);
      assert x[i..] == [x[i]] + x[i + 1..] && y[i..] == [y[i]] + y[i + 1..];
      if x[i] == y[i] {
        TurnGoes(w, s, 3, 2, body, i, |x|, 16, s);
        var rest := CompareCircles(w, Counting(s, 3, i + 1), a, b, x, y, i + 1);
        f := AnotherTurn(w, Counted(3, 2, body), s, Ends(25, Counting(s, 3, i + 1), Break(0)), rest);
      } else {
        assert x[i..][0] != y[i..][0];
        TurnReturns(w, s, 3, 2, body, i, |x|, 18, Pushed(s, V32(0)));
        LastTurn(w, Counted(3, 2, body), s, Ends(22, Pushed(s, V32(0)), Returning));
        f := Ends(22, Pushed(s, V32(0)), Returning);
      }
    }
  }

  lemma WholeLoops()
    ensures Compares() == CountTo(3, 2, ByteOf(0, 3) + ByteOf(1, 3) + UnlessSame())
    ensures Folds() == CountTo(4, 3, Absorbs(2, ByteOf(1, 4) + [Num(I64ExtendI32S)]))
  {
  }

  /** A string's length put in a local. */
  lemma LengthSets(w: World, s: State, slot: nat, at: i32, text: Text, to: nat, after: State)
    requires slot < |s.locals| && s.locals[slot] == V64(at) && at >= 0 && TextAt(s.memory, at, text) && |s.memory| <= CEILING
    requires to < |s.locals| && |text| < 0x8000_0000 && after == s.(locals := s.locals[to := V32(|text|)])
    ensures Meets(w, ByteLength(slot) + [LocalSet(to)], s, Ends(5, after, Normal))
  {
    hide StepsTo;
    LengthAdds(w, s, slot, at, text);
    SetSteps(w, to, s, V32(|text|));
    StepsThen(w, ByteLength(slot), [LocalSet(to)], s, Pushed(s, V32(|text|)), after);
    StepsMeet(w, ByteLength(slot) + [LocalSet(to)], s, after);
  }

  /** A string's length and the one in a local, compared. */
  lemma LengthCompares(w: World, s: State, slot: nat, at: i32, text: Text, held: nat, n: i32)
    requires slot < |s.locals| && s.locals[slot] == V64(at) && at >= 0 && TextAt(s.memory, at, text) && |s.memory| <= CEILING
    requires held < |s.locals| && s.locals[held] == V32(n)
    ensures
      Meets(w, ByteLength(slot) + [LocalGet(held)] + UnlessSame(), s,
            if n == |text| then Ends(7, s, Normal) else Ends(9, Pushed(s, V32(0)), Returning))
  {
    hide Meets, StepsTo, UnlessSame, TextAt;
    TextFits(s.memory, at, text);
    var one := Pushed(s, V32(|text|));
    LengthAdds(w, s, slot, at, text);
    GetSteps(w, held, one);
    StepsThen(w, ByteLength(slot), [LocalGet(held)], s, one, Pushed(one, V32(n)));
    StepsMeet(w, ByteLength(slot) + [LocalGet(held)], s, Pushed(one, V32(n)));
    UnlessMeets(w, s, |text|, n);
    if n == |text| {
      MeetsThen(w, ByteLength(slot) + [LocalGet(held)], UnlessSame(), s, Ends(5, Pushed(one, V32(n)), Normal), Ends(2, s, Normal));
    } else {
      MeetsThen(w, ByteLength(slot) + [LocalGet(held)], UnlessSame(), s, Ends(5, Pushed(one, V32(n)), Normal),
                Ends(4, Pushed(s, V32(0)), Returning));
    }
  }

  lemma LengthsMeet(w: World, s: State, a: i32, b: i32, x: Text, y: Text)
    requires |s.memory| <= CEILING && a >= 0 && b >= 0 && TextAt(s.memory, a, x) && TextAt(s.memory, b, y)
    requires s.locals == [V64(a), V64(b), V32(0), V32(0)] && |x| < 0x8000_0000
    ensures
      var after := s.(locals := [V64(a), V64(b), V32(|x|), V32(0)]);
      Meets(w, Lengths(), s, if |x| == |y| then Ends(12, after, Normal) else Ends(14, Pushed(after, V32(0)), Returning))
  {
    hide Meets, UnlessSame, TextAt, ByteLength;
    var after := s.(locals := [V64(a), V64(b), V32(|x|), V32(0)]);
    assert s.locals[2 := V32(|x|)] == after.locals;
    LengthSets(w, s, 0, a, x, 2, after);
    LengthCompares(w, after, 1, b, y, 2, |x|);
    var rest := ByteLength(1) + [LocalGet(2)] + UnlessSame();
    if |x| == |y| {
      MeetsThen(w, ByteLength(0) + [LocalSet(2)], rest, s, Ends(5, after, Normal), Ends(7, after, Normal));
    } else {
      MeetsThen(w, ByteLength(0) + [LocalSet(2)], rest, s, Ends(5, after, Normal), Ends(9, Pushed(after, V32(0)), Returning));
    }
  }

  /** The code of the comparison leaves one when the strings are the same and zero when they are not. */
  lemma SameTextMeets(w: World, s: State, a: i32, b: i32, x: Text, y: Text) returns (f: Fate)
    requires |s.memory| <= CEILING && a >= 0 && b >= 0 && TextAt(s.memory, a, x) && TextAt(s.memory, b, y)
    requires s.locals == [V64(a), V64(b), V32(0), V32(0)]
    ensures Meets(w, SameTextCode(), s, f) && f.Ends? && f.flow == Returning
    ensures f.state.memory == s.memory && f.state.stack == s.stack + [V32(if x == y then 1 else 0)]
  {
    hide Meets, Circles, TextAt, UnlessSame, Lengths, Compares, Giving, SameTextCode;
    SameTextParts();
    TextFits(s.memory, a, x);
    LengthsMeet(w, s, a, b, x, y);
    var after := s.(locals := [V64(a), V64(b), V32(|x|), V32(0)]);
    if |x| == |y| {
      var loop := CompareCircles(w, after, a, b, x, y, 0);
      assert x[0..] == x && y[0..] == y;
      var flow := if loop.flow == Break(0) then Normal else Returning;
      assert Meets(w, Compares(), after, Ends(loop.cost + 4, loop.state, flow)) by {
        assert Counting(after, 3, 0).locals == after.locals;
        CountMeets(w, after, 3, 2, ByteOf(0, 3) + ByteOf(1, 3) + UnlessSame(), loop);
        WholeLoops();
      }
      MeetsThen(w, Lengths(), Compares(), s, Ends(12, after, Normal), Ends(loop.cost + 4, loop.state, flow));
      if x == y {
        GivingMeets(w, loop.state, 1);
        f := Ends(loop.cost + 18, Pushed(loop.state, V32(1)), Returning);
        MeetsThen(w, Lengths() + Compares(), Giving(1), s, Ends(loop.cost + 16, loop.state, Normal), Ends(2, Pushed(loop.state, V32(1)), Returning));
      } else {
        f := Ends(loop.cost + 16, loop.state, Returning);
        MeetsThen(w, Lengths() + Compares(), Giving(1), s, f, Ends(0, s, Normal));
      }
    } else {
      f := Ends(14, Pushed(after, V32(0)), Returning);
      MeetsThen(w, Lengths(), Compares() + Giving(1), s, f, Ends(0, s, Normal));
      assert Lengths() + (Compares() + Giving(1)) == Lengths() + Compares() + Giving(1);
    }
  }

  // -- folding ---------------------------------------------------------------

  lemma AbsorbsSteps(w: World, s: State, slot: nat, what: seq<Ins>, h: i64, word: i64)
    requires slot < |s.locals| && s.locals[slot] == V64(h) && Adds(w, what, Pushed(s, V64(h)), V64(word))
    ensures StepsTo(w, Absorbs(slot, what), s, s.(locals := s.locals[slot := V64(Hashing.Absorbed(h, word))]))
  {
    hide StepsTo, Xor64, Wrap64;
    var one, mixed := Pushed(s, V64(h)), Xor64(h, word);
    var all := Hashing.Absorbed(h, word);
    GetSteps(w, slot, s);
    NumSteps(w, I64Xor, s, V64(h), V64(word), V64(mixed));
    StepsThen(w, [LocalGet(slot)], what, s, one, Pushed(one, V64(word)));
    StepsThen(w, [LocalGet(slot)] + what, [Num(I64Xor)], s, Pushed(one, V64(word)), Pushed(s, V64(mixed)));
    SimpleSteps(w, I64Const(Hashing.PRIME), Pushed(s, V64(mixed)), Pushed(Pushed(s, V64(mixed)), V64(Hashing.PRIME)));
    NumSteps(w, I64Mul, s, V64(mixed), V64(Hashing.PRIME), V64(all));
    SetSteps(w, slot, s, V64(all));
    StepsThen(w, [LocalGet(slot)] + what + [Num(I64Xor)], [I64Const(Hashing.PRIME)], s, Pushed(s, V64(mixed)),
              Pushed(Pushed(s, V64(mixed)), V64(Hashing.PRIME)));
    StepsThen(w, [LocalGet(slot)] + what + [Num(I64Xor)] + [I64Const(Hashing.PRIME)], [Num(I64Mul)], s,
              Pushed(Pushed(s, V64(mixed)), V64(Hashing.PRIME)), Pushed(s, V64(all)));
    StepsThen(w, [LocalGet(slot)] + what + [Num(I64Xor)] + [I64Const(Hashing.PRIME)] + [Num(I64Mul)], [LocalSet(slot)], s,
              Pushed(s, V64(all)), s.(locals := s.locals[slot := V64(all)]));
    assert [LocalGet(slot)] + what + [Num(I64Xor)] + [I64Const(Hashing.PRIME)] + [Num(I64Mul)] + [LocalSet(slot)] == Absorbs(slot, what);
  }

  /** While a string is folded: its address, the running hash, its length and the index. */
  ghost predicate Folding(s: State, h: i64, at: i32, text: Text, g: i64, i: nat) {
    && |s.memory| <= CEILING && at >= 0 && TextAt(s.memory, at, text) && i <= |text|
    && s.locals == [V64(h), V64(at), V64(g), V32(|text|), V32(i)]
  }

  /** One turn takes in one byte. */
  lemma FoldSteps(w: World, s: State, h: i64, at: i32, text: Text, g: i64, i: nat)
    requires Folding(s, h, at, text, g, i) && i < |text|
    ensures
      StepsTo(w, Absorbs(2, ByteOf(1, 4) + [Num(I64ExtendI32S)]), s, s.(locals := s.locals[2 := V64(Hashing.Absorbed(g, text[i]))]))
  {
    hide StepsTo, TextAt, Hashing.Absorbed, ByteOf;
    var one := Pushed(s, V64(g));
    ByteAdds(w, one, 1, 4, at, i, text);
    UnarySteps(w, I64ExtendI32S, one, V32(text[i]));
    AddsThen(w, one, ByteOf(1, 4), [Num(I64ExtendI32S)], V32(text[i]), V64(text[i]));
    AbsorbsSteps(w, s, 2, ByteOf(1, 4) + [Num(I64ExtendI32S)], g, text[i]);
  }

  lemma {:induction false} FoldCircles(w: World, s: State, h: i64, at: i32, text: Text, g: i64, i: nat) returns (f: Fate)
    requires Folding(s, h, at, text, g, i)
    ensures Circles(w, Counted(4, 3, Absorbs(2, ByteOf(1, 4) + [Num(I64ExtendI32S)])), s, f)
    ensures f.Ends? && f.flow == Break(0) && f.state.memory == s.memory && f.state.stack == s.stack
    ensures |f.state.locals| == 5 && f.state.locals[2] == V64(Hashing.FoldBytes(g, text[i..]))
    decreases |text| - i
  {
    hide Meets, Circles, TextAt, Absorbs, Hashing.Absorbed;
    TextFits(s.memory, at, text);
    var body := Absorbs(2, ByteOf(1, 4) + [Num(I64ExtendI32S)]);
    if i == |text| {
      TurnLeaves(w, s, 4, 3, body, i, |text|);
      LastTurn(w, Counted(4, 3, body), s, Ends(4, s, Break(1)));
      f := Ends(4, s, Break(0));
    } else {
      var next := Hashing.Absorbed(g, text[i]);
      var after := s.(locals := s.locals[2 := V64(next)]);
      FoldSteps(w, s, h, at, text, g, i);
      StepsMeet(w, body, s, after);
      TurnGoes(w, s, 4, 3, body, i, |text|, |body|, after);
      assert text[i..][1..] == text[i + 1..];
      var rest := FoldCircles(w, Counting(after, 4, i + 1), h, at, text, next, i + 1);
      f := AnotherTurn(w, Counted(4, 3, body), s, Ends(|body| + 9, Counting(after, 4, i + 1), Break(0)), rest);
    }
  }

  lemma FoldStartSteps(w: World, s: State, h: i64, at: i32, text: Text)
    requires |s.memory| <= CEILING && at >= 0 && TextAt(s.memory, at, text)
    requires s.locals == [V64(h), V64(at), V64(0), V32(0), V32(0)]
    ensures
      var g := Hashing.Absorbed(h, WordAt(s.memory, at));
      StepsTo(w, FoldStart(), s, s.(locals := [V64(h), V64(at), V64(g), V32(|text|), V32(0)]))
  {
    hide StepsTo, WordAt, Hashing.Absorbed, Absorbs, ByteLength;
    TextFits(s.memory, at, text);
    var word := WordAt(s.memory, at);
    var g := Hashing.Absorbed(h, word);
    var one := s.(locals := [V64(h), V64(at), V64(h), V32(0), V32(0)]);
    var two := s.(locals := [V64(h), V64(at), V64(g), V32(0), V32(0)]);
    var three := s.(locals := [V64(h), V64(at), V64(g), V32(|text|), V32(0)]);
    assert s.locals[2 := V64(h)] == one.locals && one.locals[2 := V64(g)] == two.locals && two.locals[3 := V32(|text|)] == three.locals;
    GetSteps(w, 0, s);
    SetSteps(w, 2, s, V64(h));
    StepsThen(w, [LocalGet(0)], [LocalSet(2)], s, Pushed(s, V64(h)), one);
    assert [LocalGet(0)] + [LocalSet(2)] == [LocalGet(0), LocalSet(2)];
    var what := [LocalGet(1), Num(I32WrapI64), I64Load(0)];
    NarrowedAdds(w, Pushed(one, V64(h)), 1, at);
    LoadSteps(w, Pushed(one, V64(h)), I64Load(0), at, V64(word));
    AddsThen(w, Pushed(one, V64(h)), [LocalGet(1), Num(I32WrapI64)], [I64Load(0)], V32(at), V64(word));
    assert [LocalGet(1), Num(I32WrapI64)] + [I64Load(0)] == what;
    AbsorbsSteps(w, one, 2, what, h, word);
    StepsThen(w, [LocalGet(0), LocalSet(2)], Absorbs(2, what), s, one, two);
    LengthAdds(w, two, 1, at, text);
    SetSteps(w, 3, two, V32(|text|));
    StepsThen(w, ByteLength(1), [LocalSet(3)], two, Pushed(two, V32(|text|)), three);
    StepsThen(w, [LocalGet(0), LocalSet(2)] + Absorbs(2, what), ByteLength(1) + [LocalSet(3)], s, two, three);
  }

  /** The code of the string hash leaves the running hash with the string taken in. */
  lemma HashTextMeets(w: World, s: State, h: i64, at: i32, text: Text) returns (f: Fate)
    requires |s.memory| <= CEILING && at >= 0 && TextAt(s.memory, at, text)
    requires s.locals == [V64(h), V64(at), V64(0), V32(0), V32(0)]
    ensures Meets(w, HashTextCode(), s, f) && f.Ends? && f.flow == Returning
    ensures f.state.memory == s.memory && f.state.stack == s.stack + [V64(Hashing.FoldText(h, text))]
  {
    hide Meets, Circles, WordAt, Hashing.Absorbed, Hashing.FoldBytes, FoldStart, Folds, HashTextCode, Absorbs;
    HashTextParts();
    TextFits(s.memory, at, text);
    CharactersFit(text);
    var g := Hashing.Absorbed(h, WordAt(s.memory, at));
    var after := s.(locals := [V64(h), V64(at), V64(g), V32(|text|), V32(0)]);
    FoldStartSteps(w, s, h, at, text);
    StepsMeet(w, FoldStart(), s, after);
    var loop := FoldCircles(w, after, h, at, text, g, 0);
    assert text[0..] == text;
    var last := Pushed(loop.state, V64(Hashing.FoldText(h, text)));
    assert Meets(w, Folds(), after, Ends(loop.cost + 4, loop.state, Normal)) by {
      assert Counting(after, 4, 0).locals == after.locals;
      CountMeets(w, after, 4, 3, Absorbs(2, ByteOf(1, 4) + [Num(I64ExtendI32S)]), loop);
      WholeLoops();
    }
    GetReturns(w, loop.state, 2, V64(Hashing.FoldText(h, text)));
    var n := |FoldStart()|;
    MeetsThen(w, FoldStart(), Folds(), s, Ends(n, after, Normal), Ends(loop.cost + 4, loop.state, Normal));
    MeetsThen(w, FoldStart() + Folds(), [LocalGet(2), Ins.Return], s, Ends(n + loop.cost + 4, loop.state, Normal), Ends(2, last, Returning));
    f := Ends(n + loop.cost + 6, last, Returning);
  }

  lemma CharactersFit(text: Text)
    requires |text| <= MAX_64
    ensures AsWord(Compile.Characters(text)) == Compile.Characters(text)
  {
    Texts.CharactersFew(text);
  }

  lemma GetReturns(w: World, s: State, slot: nat, v: Value)
    requires slot < |s.locals| && s.locals[slot] == v
    ensures Meets(w, [LocalGet(slot), Ins.Return], s, Ends(2, Pushed(s, v), Returning))
  {
    GetSteps(w, slot, s);
    RunOne(w, 1, Ins.Return, Pushed(s, v));
    MeetsThen(w, [LocalGet(slot)], [Ins.Return], s, Ends(1, Pushed(s, v), Normal), Ends(1, Pushed(s, v), Returning));
    assert [LocalGet(slot)] + [Ins.Return] == [LocalGet(slot), Ins.Return];
  }

  // -- copying ---------------------------------------------------------------

  /** While a string is copied past the counts of another: where to, where from, and how far. */
  ghost predicate Copying(s: State, out: nat, from: nat, index: nat, count: nat, to: i32, at: i32, text: Text, i: nat) {
    && at >= 0 && |s.memory| <= CEILING && TextAt(s.memory, at, text) && Counts(s, index, count, i, |text|) && i <= |text|
    && out < |s.locals| && from < |s.locals| && index != out && index != from
    && s.locals[out] == V32(to) && s.locals[from] == V64(at)
    && at + TEXT + |text| <= to && to + TEXT + |text| <= |s.memory|
  }

  /** One turn stores one byte. */
  lemma CopySteps(w: World, s: State, out: nat, from: nat, index: nat, count: nat, to: i32, at: i32, text: Text, i: nat)
    requires at >= 0 && Copying(s, out, from, index, count, to, at, text, i) && i < |text|
    ensures
      StepsTo(w, NarrowAddress(out, index) + ByteOf(from, index) + [I32Store8(0)], s,
              s.(memory := s.memory[to + TEXT + i := text[i]]))
  {
    hide StepsTo, TextAt, ByteOf, ExecSimple;
    var offset := [I32Const(TEXT_BYTES), Num(I32Add), LocalGet(index), Num(I32Add)];
    var one := Pushed(s, V32(to + TEXT + i));
    GetSteps(w, out, s);
    OffsetSteps(w, s, index, to, i);
    StepsThen(w, [LocalGet(out)], offset, s, Pushed(s, V32(to)), one);
    assert [LocalGet(out)] + offset == NarrowAddress(out, index);
    ByteAdds(w, one, from, index, at, i, text);
    StepsThen(w, NarrowAddress(out, index), ByteOf(from, index), s, one, Pushed(one, V32(text[i])));
    Operators.Stores(I32Store8(0), s, to + TEXT + i, V32(text[i]));
    SimpleSteps(w, I32Store8(0), Pushed(one, V32(text[i])), s.(memory := s.memory[to + TEXT + i := text[i]]));
    StepsThen(w, NarrowAddress(out, index) + ByteOf(from, index), [I32Store8(0)], s, Pushed(one, V32(text[i])),
              s.(memory := s.memory[to + TEXT + i := text[i]]));
  }

  lemma {:induction false} CopyCircles(
    w: World, s: State, out: nat, from: nat, index: nat, count: nat, to: i32, at: i32, text: Text, i: nat) returns (f: Fate)
    requires at >= 0 && to >= 0 && Copying(s, out, from, index, count, to, at, text, i)
    ensures Circles(w, Counted(index, count, NarrowAddress(out, index) + ByteOf(from, index) + [I32Store8(0)]), s, f)
    ensures f.Ends? && f.flow == Break(0) && f.state.stack == s.stack && Put(s.memory, f.state.memory, to + TEXT + i, text[i..])
    decreases |text| - i
  {
    hide Meets, Circles, ByteOf, StepsTo, TextAt;
    var body := NarrowAddress(out, index) + ByteOf(from, index) + [I32Store8(0)];
    if i == |text| {
      TurnLeaves(w, s, index, count, body, i, |text|);
      LastTurn(w, Counted(index, count, body), s, Ends(4, s, Break(1)));
      f := Ends(4, s, Break(0));
    } else {
      var after := s.(memory := s.memory[to + TEXT + i := text[i]]);
      CopySteps(w, s, out, from, index, count, to, at, text, i);
      StepsMeet(w, body, s, after);
      TurnGoes(w, s, index, count, body, i, |text|, |body|, after);
      TextUntouched(s.memory, after.memory, at, text, to + TEXT + i);
      var rest := CopyCircles(w, Counting(after, index, i + 1), out, from, index, count, to, at, text, i + 1);
      f := AnotherTurn(w, Counted(index, count, body), s, Ends(|body| + 9, Counting(after, index, i + 1), Break(0)), rest);
      assert f.state == rest.state;
      OneMorePut(s.memory, after.memory, f.state.memory, to + TEXT + i, text, i);
    }
  }

  lemma TextUntouched(before: seq<byte>, after: seq<byte>, at: nat, text: Text, place: nat)
    requires TextAt(before, at, text) && at + TEXT + |text| <= place < |before|
    requires |after| == |before| && forall j | 0 <= j < |before| && j != place :: after[j] == before[j]
    ensures TextAt(after, at, text)
  {
    assert after[at..at + 8] == before[at..at + 8] && after[at + 8..at + 16] == before[at + 8..at + 16];
    assert after[at + TEXT..at + TEXT + |text|] == before[at + TEXT..at + TEXT + |text|];
  }

  lemma OneMorePut(before: seq<byte>, between: seq<byte>, after: seq<byte>, place: nat, text: Text, i: nat)
    requires i < |text| && place + |text[i..]| <= |before| && between == before[place := text[i]]
    requires Put(between, after, place + 1, text[i + 1..])
    ensures Put(before, after, place, text[i..])
  {
    forall j | 0 <= j < |text[i..]| ensures after[place..place + |text[i..]|][j] == text[i..][j] {
      if j > 0 {
        assert after[place + 1..place + 1 + |text[i + 1..]|][j - 1] == text[i + 1..][j - 1];
      }
    }
  }

  /** The copying loop puts the string's bytes there and touches nothing else. */
  lemma CopyMeets(w: World, s: State, out: nat, from: nat, index: nat, count: nat, to: i32, at: i32, text: Text) returns (f: Fate)
    requires at >= 0 && to >= 0 && index < |s.locals| && Copying(Counting(s, index, 0), out, from, index, count, to, at, text, 0)
    ensures Meets(w, CopyTextCode(out, from, index, count), s, f) && f.Ends? && f.flow == Normal
    ensures f.state.stack == s.stack && Put(s.memory, f.state.memory, to + TEXT, text)
  {
    hide Meets, Circles;
    var loop := CopyCircles(w, Counting(s, index, 0), out, from, index, count, to, at, text, 0);
    assert text[0..] == text;
    f := Ends(loop.cost + 4, loop.state, Normal);
    CountMeets(w, s, index, count, NarrowAddress(out, index) + ByteOf(from, index) + [I32Store8(0)], loop);
  }

  // -- calls -----------------------------------------------------------------

  /** A function whose body is this is in the module at this index. */
  ghost predicate Has(w: World, index: nat, ty: FuncType, locals: seq<ValType>, body: seq<Ins>) {
    && |w.m.imports| <= index < |w.m.imports| + |w.m.funcs|
    && var func := w.m.funcs[index - |w.m.imports|];
       func.typeIndex < |w.m.types| && w.m.types[func.typeIndex] == ty && func.locals == locals && func.body == body
  }

  lemma CallAnswers(w: World, index: nat, ty: FuncType, locals: seq<ValType>, body: seq<Ins>, args: seq<Value>, memory: seq<byte>, s: State, f: Fate, v: Value)
    requires Has(w, index, ty, locals, body) && ty.results != []
    requires s == State(memory, args + seq(|locals|, i requires 0 <= i < |locals| => Zero(locals[i])), [])
    requires Meets(w, body, s, f) && f.Ends? && f.state.memory == memory && f.state.stack == [v]
    ensures forall fuel: nat | f.cost <= fuel :: Invoke(w, fuel, index, args, memory) == Done(fuel - f.cost, (memory, Some(v)))
  {
    forall fuel: nat | f.cost <= fuel ensures Invoke(w, fuel, index, args, memory) == Done(fuel - f.cost, (memory, Some(v))) {
      Fuel.BodySpares(w, w, f.cost, fuel - f.cost, body, s);
      assert Begun(w.m.funcs[index - |w.m.imports|], args, memory) == s;
    }
  }

  /** Calling the emitted comparison on two strings in memory answers whether they are the same text, and leaves memory alone. */
  lemma SameTextCalls(w: World, index: nat, a: i32, b: i32, x: Text, y: Text, memory: seq<byte>) returns (cost: nat)
    requires Has(w, index, FuncType([I64, I64], [I32]), [I32, I32], SameTextCode())
    requires |memory| <= CEILING && a >= 0 && b >= 0 && TextAt(memory, a, x) && TextAt(memory, b, y)
    ensures forall fuel: nat | cost <= fuel ::
              Invoke(w, fuel, index, [V64(a), V64(b)], memory) == Done(fuel - cost, (memory, Some(V32(if x == y then 1 else 0))))
  {
    hide Meets, SameTextCode, TextAt;
    var s := State(memory, [V64(a), V64(b), V32(0), V32(0)], []);
    var f := SameTextMeets(w, s, a, b, x, y);
    var locals := [I32, I32];
    assert [V64(a), V64(b)] + seq(2, i requires 0 <= i < 2 => Zero(locals[i])) == s.locals;
    CallAnswers(w, index, FuncType([I64, I64], [I32]), locals, SameTextCode(), [V64(a), V64(b)], memory, s, f, V32(if x == y then 1 else 0));
    cost := f.cost;
  }

  /** Calling the emitted hash answers the running hash with the string taken in. */
  lemma HashTextCalls(w: World, index: nat, h: i64, at: i32, text: Text, memory: seq<byte>) returns (cost: nat)
    requires Has(w, index, FuncType([I64, I64], [I64]), [I64, I32, I32], HashTextCode())
    requires |memory| <= CEILING && at >= 0 && TextAt(memory, at, text)
    ensures forall fuel: nat | cost <= fuel ::
              Invoke(w, fuel, index, [V64(h), V64(at)], memory) == Done(fuel - cost, (memory, Some(V64(Hashing.FoldText(h, text)))))
  {
    hide Meets, HashTextCode, TextAt, Hashing.FoldText;
    var s := State(memory, [V64(h), V64(at), V64(0), V32(0), V32(0)], []);
    var f := HashTextMeets(w, s, h, at, text);
    var locals := [I64, I32, I32];
    assert [V64(h), V64(at)] + seq(3, i requires 0 <= i < 3 => Zero(locals[i])) == s.locals;
    CallAnswers(w, index, FuncType([I64, I64], [I64]), locals, HashTextCode(), [V64(h), V64(at)], memory, s, f, V64(Hashing.FoldText(h, text)));
    cost := f.cost;
  }
}
