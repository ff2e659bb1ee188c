/**
 * Where string literals end up: placed one after another above the heap's start, so that
 * once the data section has been written every one of them can be read back.
 */
module Literals {
  import opened Ints
  import opened Wasm
  import opened Types
  import opened Run
  import opened Compile
  import opened CompileRuns
  import opened Program
  import Ir
  import L = Layout

  /** Every literal has its bytes in the data section, each after the one before. */
  ghost predicate Consecutive(placed: seq<(Text, nat)>, data: seq<(nat, seq<byte>)>, next: nat)
    decreases |data|
  {
    if data == [] then placed == [] && next == L.HEAP_START
    else
      var last := data[|data| - 1];
      && |placed| == |data|
      && placed[|data| - 1].1 == last.0 && last.1 == Laid(placed[|data| - 1].0) && next == last.0 + |last.1|
      && Consecutive(placed[..|data| - 1], data[..|data| - 1], last.0)
  }

  ghost predicate InOrder(strings: Strings) { Consecutive(strings.placed, strings.data, strings.next) }

  lemma PlaceInOrder(strings: Strings, text: Text)
    requires InOrder(strings)
    ensures InOrder(Place(strings, text).0)
  {
    var after := Place(strings, text).0;
    if Where(strings.placed, text).None? {
      assert after.placed[..|strings.placed|] == strings.placed && after.data[..|strings.data|] == strings.data;
    }
  }

  lemma FailureInOrder(d: Draft, code: Text, message: Text)
    requires InOrder(d.strings)
    ensures InOrder(Failure(d, code, message).draft.strings)
  {
    PlaceInOrder(d.strings, code);
    PlaceInOrder(Place(d.strings, code).0, message);
  }

  lemma ArithmeticInOrder(d: Draft)
    requires InOrder(d.strings)
    ensures InOrder(ArithmeticFailure(d).draft.strings)
  {
    FailureInOrder(d, Ir.ARITHMETIC_CODE, Ir.ARITHMETIC_MESSAGE);
  }

  lemma CheckedInOrder(cx: Cx, d: Draft, op: Ir.BinaryOp, left: nat, right: nat)
    requires Ir.Arithmetic(op) && InOrder(d.strings)
    ensures InOrder(CheckedOp(cx, d, op, left, right).draft.strings)
  {
    ArithmeticInOrder(d);
    ArithmeticInOrder(Took(d, I64));
    ArithmeticInOrder(ArithmeticFailure(Took(d, I64)).draft);
  }

  lemma {:induction false} ExprInOrder(cx: Cx, d: Draft, e: Ir.Expr)
    requires InOrder(d.strings)
    ensures InOrder(CompileExpr(cx, d, e).draft.strings)
    decreases e, 0
  {
    hide InOrder;
    if e.Unary? {
      var held := if e.uop.Not? then d else Took(d, I64);
      ExprInOrder(cx, held, e.operand);
      ArithmeticInOrder(CompileExpr(cx, held, e.operand).draft);
    } else if e.Binary? {
      var held := if Ir.Arithmetic(e.op) then Took(Took(d, I64), I64) else d;
      ExprInOrder(cx, held, e.left);
      var one := CompileExpr(cx, held, e.left);
      ExprInOrder(cx, one.draft, e.right);
      if Ir.Arithmetic(e.op) {
        var x := Fresh(cx, d);
        CheckedInOrder(cx, CompileExpr(cx, one.draft, e.right).draft, e.op, x, x + 1);
      }
    } else if e.Call? {
      ArgsInOrder(cx, d, e.args);
    } else if e.If? {
      ExprInOrder(cx, d, e.condition);
      var test := CompileExpr(cx, d, e.condition);
      BlockInOrder(cx, test.draft, e.taken);
      BlockInOrder(cx, CompileBlock(cx, test.draft, e.taken).draft, e.otherwise);
    } else if e.Nested? {
      BlockInOrder(cx, d, e.block);
    }
  }

  lemma {:induction false} ArgsInOrder(cx: Cx, d: Draft, args: seq<Ir.Expr>)
    requires InOrder(d.strings)
    ensures InOrder(CompileArgs(cx, d, args).draft.strings)
    decreases args, 0
  {
    if args != [] {
      ExprInOrder(cx, d, args[0]);
      ArgsInOrder(cx, CompileExpr(cx, d, args[0]).draft, args[1..]);
    }
  }

  lemma {:induction false} BlockInOrder(cx: Cx, d: Draft, block: Ir.Block)
    requires InOrder(d.strings)
    ensures InOrder(CompileBlock(cx, d, block).draft.strings)
    decreases block, 0
  {
    StmtsInOrder(cx, d, block.stmts);
    ExprInOrder(cx, CompileStmts(cx, d, block.stmts).draft, block.value);
  }

  lemma {:induction false} StmtsInOrder(cx: Cx, d: Draft, stmts: seq<Ir.Stmt>)
    requires InOrder(d.strings)
    ensures InOrder(CompileStmts(cx, d, stmts).draft.strings)
    decreases stmts, 0
  {
    if stmts != [] {
      StmtInOrder(cx, d, stmts[0]);
      StmtsInOrder(cx, CompileStmt(cx, d, stmts[0]).draft, stmts[1..]);
    }
  }

  lemma {:induction false} StmtInOrder(cx: Cx, d: Draft, stmt: Ir.Stmt)
    requires InOrder(d.strings)
    ensures InOrder(CompileStmt(cx, d, stmt).draft.strings)
    decreases stmt, 1
  {
    if stmt.Fail? {
      FailureInOrder(d, stmt.code, stmt.message);
    } else if stmt.While? {
      ExprInOrder(cx, d, stmt.condition);
      StmtsInOrder(cx, CompileExpr(cx, d, stmt.condition).draft, stmt.body);
    } else {
      ExprInOrder(cx, d, stmt.value);
    }
  }

  // -- reading them back -----------------------------------------------------

  /** The literal's bytes, and every byte before where the next one goes, are in memory. */
  lemma LaidReads(memory: seq<byte>, at: nat, text: Text)
    requires L.HEAP_START <= at && at + |Laid(text)| <= |memory| && memory[at..at + |Laid(text)|] == Laid(text)
    ensures Reads(memory, at, text)
  {
    hide WordBytes, AsWord, Characters;
    var laid := Laid(text);
    var head := WordBytes(AsWord(Characters(text)));
    var size := WordBytes(AsWord(|text|));
    assert laid[0..8] == head;
    assert laid[8..16] == size;
    assert laid[16..16 + |text|] == text;
    SliceOfSlice(memory, at, at + |laid|, 0, 8);
    SliceOfSlice(memory, at, at + |laid|, 8, 16);
    SliceOfSlice(memory, at, at + |laid|, 16, 16 + |text|);
  }

  lemma SliceOfSlice(memory: seq<byte>, from: nat, to: nat, a: nat, b: nat)
    requires from <= to <= |memory| && a <= b <= to - from
    ensures memory[from..to][a..b] == memory[from + a..from + b]
  {
    var one, two := memory[from..to][a..b], memory[from + a..from + b];
    forall i | 0 <= i < b - a ensures one[i] == two[i] {
      assert memory[from..to][a + i] == memory[from + a + i];
    }
  }

  lemma {:induction false} PlaceAllAppend(memory: seq<byte>, one: seq<(nat, seq<byte>)>, two: seq<(nat, seq<byte>)>)
    ensures PlaceAll(memory, one + two) == PlaceAll(PlaceAll(memory, one), two)
    decreases |one|
  {
    if one == [] {
      assert one + two == two;
    } else {
      assert (one + two)[1..] == one[1..] + two;
      var (at, bytes) := one[0];
      PlaceAllAppend(if at + |bytes| <= |memory| then Splice(memory, at, bytes) else memory, one[1..], two);
    }
  }

  lemma PlaceOne(memory: seq<byte>, at: nat, bytes: seq<byte>)
    requires at + |bytes| <= |memory|
    ensures PlaceAll(memory, [(at, bytes)]) == Splice(memory, at, bytes)
  {
    assert [(at, bytes)][1..] == [];
    assert PlaceAll(Splice(memory, at, bytes), []) == Splice(memory, at, bytes);
  }

  /** Literals written in order can all be read: none overlaps another. */
  lemma {:induction false} DataReads(memory: seq<byte>, placed: seq<(Text, nat)>, data: seq<(nat, seq<byte>)>, next: nat)
    requires Consecutive(placed, data, next) && next <= |memory|
    ensures L.HEAP_START <= next
    ensures forall k | 0 <= k < |placed| ::
              Reads(PlaceAll(memory, data), placed[k].1, placed[k].0) && placed[k].1 + 16 + |placed[k].0| <= next
    decreases |data|
  {
    hide Reads, Splice, Laid, PlaceAll;
    if data != [] {
      var n := |data| - 1;
      var (at, bytes) := data[n];
      NextAfter(placed[..n], data[..n], at);
      DataReads(memory, placed[..n], data[..n], at);
      var before := PlaceAll(memory, data[..n]);
      var after := PlaceAll(memory, data);
      LastPlaced(memory, data);
      WrittenReads(before, at, placed[n].0);
      forall k | 0 <= k < n
        ensures Reads(after, placed[k].1, placed[k].0) && placed[k].1 + 16 + |placed[k].0| <= next
      {
        assert placed[k] == placed[..n][k];
        assert Reads(before, placed[k].1, placed[k].0) && placed[k].1 + 16 + |placed[k].0| <= at;
        ReadsBelow(before, at, bytes, placed[k].1, placed[k].0);
      }
    }
  }

  /** A literal's room is whole words, so in whole pages it is inside memory as soon as its bytes are. */
  lemma WholeWords(size: nat, at: nat, text: Text)
    requires size % 8 == 0 && at % 8 == 0
    ensures |Laid(text)| % 8 == 0
    ensures at + 16 + |text| <= size ==> at + |Laid(text)| <= size
  {
    hide WordBytes, AsWord, Characters;
  }

  /**
   * However many literals there are, those and only those whose room is inside memory can be read:
   * one past the end is not written, and leaves those before it alone.
   */
  lemma {:induction false} DataReadsWhen(memory: seq<byte>, placed: seq<(Text, nat)>, data: seq<(nat, seq<byte>)>, next: nat)
    requires Consecutive(placed, data, next) && |memory| % 8 == 0
    ensures L.HEAP_START <= next && next % 8 == 0
    ensures forall k | 0 <= k < |placed| ::
              var (text, at) := placed[k];
              && (Reads(PlaceAll(memory, data), at, text) <==> at + |Laid(text)| <= |memory|)
              && at % 8 == 0 && at + |Laid(text)| <= next
    decreases |data|
  {
    hide Reads, Splice, Laid, PlaceAll;
    if data != [] {
      var n := |data| - 1;
      var (at, bytes) := data[n];
      var before, after := PlaceAll(memory, data[..n]), PlaceAll(memory, data);
      DataReadsWhen(memory, placed[..n], data[..n], at);
      WholeWords(|memory|, at, placed[n].0);
      LastWritten(memory, data);
      forall k | 0 <= k < n
        ensures
          var (text, here) := placed[k];
          && (Reads(after, here, text) <==> here + |Laid(text)| <= |memory|)
          && here % 8 == 0 && here + |Laid(text)| <= next
      {
        assert placed[k] == placed[..n][k];
        var (text, here) := placed[k];
        if at + |bytes| <= |memory| {
          assert here + |Laid(text)| <= at;
          WholeWords(|memory|, here, text);
          LaidLonger(text);
          ReadsBelow(before, at, bytes, here, text);
        }
      }
      LastReadsWhen(before, at, placed[n].0);
    }
  }

  lemma LaidLonger(text: Text)
    ensures 16 + |text| <= |Laid(text)|
  {
    hide WordBytes, AsWord, Characters;
  }

  lemma LastReadsWhen(before: seq<byte>, at: nat, text: Text)
    requires L.HEAP_START <= at && at % 8 == 0 && |before| % 8 == 0
    ensures
      var after := if at + |Laid(text)| <= |before| then Splice(before, at, Laid(text)) else before;
      Reads(after, at, text) <==> at + |Laid(text)| <= |before|
  {
    hide Laid, Splice;
    WholeWords(|before|, at, text);
    if at + |Laid(text)| <= |before| {
      WrittenReads(before, at, text);
    } else {
      hide WordBytes, Characters;
    }
  }

  lemma OnePlaced(memory: seq<byte>, one: (nat, seq<byte>))
    ensures PlaceAll(memory, [one]) == if one.0 + |one.1| <= |memory| then Splice(memory, one.0, one.1) else memory
  {
    hide Splice;
    assert [one][1..] == [];
  }

  lemma LastWritten(memory: seq<byte>, data: seq<(nat, seq<byte>)>)
    requires data != []
    ensures var (at, bytes) := data[|data| - 1]; var before := PlaceAll(memory, data[..|data| - 1]);
      PlaceAll(memory, data) == if at + |bytes| <= |memory| then Splice(before, at, bytes) else before
  {
    hide Splice, PlaceAll;
    var n := |data| - 1;
    assert data == data[..n] + [data[n]];
    PlaceAllAppend(memory, data[..n], [data[n]]);
    OnePlaced(PlaceAll(memory, data[..n]), data[n]);
  }

  lemma LastPlaced(memory: seq<byte>, data: seq<(nat, seq<byte>)>)
    requires data != [] && data[|data| - 1].0 + |data[|data| - 1].1| <= |memory|
    ensures var (at, bytes) := data[|data| - 1];
      PlaceAll(memory, data) == Splice(PlaceAll(memory, data[..|data| - 1]), at, bytes)
  {
    var n := |data| - 1;
    assert data == data[..n] + [data[n]];
    PlaceAllAppend(memory, data[..n], [data[n]]);
    PlaceOne(PlaceAll(memory, data[..n]), data[n].0, data[n].1);
  }

  lemma WrittenReads(memory: seq<byte>, at: nat, text: Text)
    requires L.HEAP_START <= at && at + |Laid(text)| <= |memory|
    ensures Reads(Splice(memory, at, Laid(text)), at, text)
    ensures 16 + |text| <= |Laid(text)|
  {
    SpliceReads(memory, at, Laid(text));
    LaidReads(Splice(memory, at, Laid(text)), at, text);
  }

  lemma {:induction false} NextAfter(placed: seq<(Text, nat)>, data: seq<(nat, seq<byte>)>, next: nat)
    requires Consecutive(placed, data, next)
    ensures L.HEAP_START <= next
    decreases |data|
  {
    if data != [] {
      NextAfter(placed[..|data| - 1], data[..|data| - 1], data[|data| - 1].0);
    }
  }

  /** Writing above a literal leaves it readable. */
  lemma ReadsBelow(memory: seq<byte>, at: nat, bytes: seq<byte>, from: nat, text: Text)
    requires at + |bytes| <= |memory| && Reads(memory, from, text) && from + 16 + |text| <= at
    ensures Reads(Splice(memory, at, bytes), from, text)
  {
    hide WordBytes, Characters;
    SpliceKeeps(memory, at, bytes, from, from + 8);
    SpliceKeeps(memory, at, bytes, from + 8, from + 16);
    SpliceKeeps(memory, at, bytes, from + 16, from + 16 + |text|);
  }

  /** Writing below the heap leaves every literal readable. */
  lemma ReadsAbove(memory: seq<byte>, at: nat, bytes: seq<byte>, from: nat, text: Text)
    requires at + |bytes| <= L.HEAP_START <= |memory| && Reads(memory, from, text)
    ensures Reads(Splice(memory, at, bytes), from, text)
  {
    hide WordBytes, Characters;
    SpliceKeeps(memory, at, bytes, from, from + 8);
    SpliceKeeps(memory, at, bytes, from + 8, from + 16);
    SpliceKeeps(memory, at, bytes, from + 16, from + 16 + |text|);
  }

  /** Memory holding every literal, when they all fit. */
  lemma MemoryReads(memory: seq<byte>, strings: Strings)
    requires InOrder(strings) && strings.next <= |memory| && |memory| <= MAX_64
    ensures Primed(PlaceAll(memory, strings.data + Bumps(strings.next)), strings.placed)
  {
    hide Reads, Bumps, PlaceAll, Consecutive;
    var one := PlaceAll(memory, strings.data);
    DataReads(memory, strings.placed, strings.data, strings.next);
    PlaceAllAppend(memory, strings.data, Bumps(strings.next));
    BumpsPlaced(one, strings.next);
    forall k | 0 <= k < |strings.placed|
      ensures Reads(PlaceAll(one, Bumps(strings.next)), strings.placed[k].1, strings.placed[k].0)
    {
      BumpsRead(one, strings.next, strings.placed[k].1, strings.placed[k].0);
    }
  }

  lemma BumpsPlaced(memory: seq<byte>, next: nat)
    requires L.HEAP_START <= |memory|
    ensures PlaceAll(memory, Bumps(next))
         == Splice(Splice(memory, L.BUMP, WordBytes(AsWord(next))), L.FRAME_BUMP, WordBytes(AsWord(L.FRAME_START)))
  {
    hide WordBytes, AsWord;
    var bump, frames := Bumps(next)[0], Bumps(next)[1];
    assert Bumps(next) == [bump] + [frames];
    PlaceAllAppend(memory, [bump], [frames]);
    PlaceOne(memory, bump.0, bump.1);
    PlaceOne(Splice(memory, bump.0, bump.1), frames.0, frames.1);
  }

  lemma BumpsRead(memory: seq<byte>, next: nat, at: nat, text: Text)
    requires L.HEAP_START <= |memory| && Reads(memory, at, text)
    ensures Reads(PlaceAll(memory, Bumps(next)), at, text)
  {
    hide Reads, WordBytes;
    BumpsPlaced(memory, next);
    ReadsAbove(memory, L.BUMP, WordBytes(AsWord(next)), at, text);
    ReadsAbove(Splice(memory, L.BUMP, WordBytes(AsWord(next))), L.FRAME_BUMP, WordBytes(AsWord(L.FRAME_START)), at, text);
  }
}
