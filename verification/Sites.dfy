/**
 * Site numbers follow emission order. The table of offsets therefore has an entry for every
 * number, and each entry counts the bytes before the instruction it marks.
 */
module Sites {
  import opened Ints
  import opened Wasm
  import opened Types
  import opened Compile
  import opened Encode
  import opened Writer
  import Ir

  /** The sites marked in an instruction, in order. */
  function Marks(ins: Ins): seq<nat>
    decreases ins, 0
  {
    match ins
    case Marked(site, inner) => [site] + Marks(inner)
    case Block(_, body) => AllMarks(body)
    case Loop(_, body) => AllMarks(body)
    case If(_, taken, otherwise) => AllMarks(taken) + AllMarks(otherwise)
    case _ => []
  }

  function AllMarks(body: seq<Ins>): seq<nat>
    decreases body, 0
  {
    if body == [] then [] else Marks(body[0]) + AllMarks(body[1..])
  }

  lemma {:induction false} MarksAppend(one: seq<Ins>, two: seq<Ins>)
    ensures AllMarks(one + two) == AllMarks(one) + AllMarks(two)
    decreases |one|
  {
    if one == [] {
      assert one + two == two;
    } else {
      assert (one + two)[1..] == one[1..] + two;
      MarksAppend(one[1..], two);
    }
  }

  lemma OneMark(ins: Ins)
    ensures AllMarks([ins]) == Marks(ins)
  {
    assert [ins][1..] == [];
  }

  function Range(from: nat, to: nat): (r: seq<nat>)
    requires from <= to
    ensures |r| == to - from
    ensures forall k | 0 <= k < |r| :: r[k] == from + k
  {
    seq(to - from, k requires 0 <= k < to - from => from + k)
  }

  /** The code marks exactly the sites handed out while it was compiled, in order. */
  ghost predicate InOrder(d: Draft, r: Emitted) {
    d.sites <= r.draft.sites && AllMarks(r.code) == Range(d.sites, r.draft.sites)
  }

  lemma NoMarks(d: Draft, code: seq<Ins>)
    requires AllMarks(code) == []
    ensures InOrder(d, Emitted(code, d))
  {
  }

  lemma InOrderThen(d: Draft, one: Emitted, two: Emitted)
    requires InOrder(d, one) && InOrder(one.draft, two)
    ensures InOrder(d, Emitted(one.code + two.code, two.draft))
  {
    MarksAppend(one.code, two.code);
  }

  lemma InOrderMarked(d: Draft, r: Emitted, ins: Ins)
    requires InOrder(d, r) && Marks(ins) == []
    ensures InOrder(d, Emitted(r.code + [Marked(r.draft.sites, ins)], r.draft.(sites := r.draft.sites + 1)))
  {
    MarksAppend(r.code, [Marked(r.draft.sites, ins)]);
    OneMark(Marked(r.draft.sites, ins));
  }

  // -- code that marks nothing -----------------------------------------------

  /** Nothing in this is marked, and nothing in it holds anything. */
  predicate AllFlat(code: seq<Ins>) { forall i | 0 <= i < |code| :: Flat(code[i]) }

  lemma {:induction false} FlatMarks(code: seq<Ins>)
    requires AllFlat(code)
    ensures AllMarks(code) == []
    decreases |code|
  {
    if code != [] {
      FlatMarks(code[1..]);
    }
  }

  lemma GuardMarks(words: seq<Ins>)
    requires AllMarks(words) == []
    ensures AllMarks([TrapOnTrue(words)]) == []
  {
    OneMark(TrapOnTrue(words));
  }

  lemma FailureMarks(d: Draft)
    ensures AllMarks([TrapOnTrue(ArithmeticFailure(d).code)]) == []
    ensures AllMarks(ArithmeticFailure(d).code) == [] && ArithmeticFailure(d).draft.sites == d.sites
  {
    FlatMarks(ArithmeticFailure(d).code);
    GuardMarks(ArithmeticFailure(d).code);
  }

  lemma ThreeMarks(one: seq<Ins>, two: seq<Ins>, three: seq<Ins>)
    requires AllMarks(one) == [] && AllMarks(two) == [] && AllMarks(three) == []
    ensures AllMarks(one + two + three) == []
  {
    MarksAppend(one, two);
    MarksAppend(one + two, three);
  }

  lemma CheckedMarks(cx: Cx, d: Draft, op: Ir.BinaryOp, left: nat, right: nat)
    requires Ir.Arithmetic(op)
    ensures AllMarks(CheckedOp(cx, d, op, left, right).code) == []
    ensures CheckedOp(cx, d, op, left, right).draft.sites == d.sites
  {
    if op.AddInt? || op.SubInt? {
      SumMarks(cx, d, op, left, right);
    } else if op.MulInt? {
      ProductMarks(cx, d, left, right);
    } else {
      QuotientMarks(cx, d, op, left, right);
    }
  }

  lemma SumMarks(cx: Cx, d: Draft, op: Ir.BinaryOp, left: nat, right: nat)
    requires op.AddInt? || op.SubInt?
    ensures AllMarks(CheckedOp(cx, d, op, left, right).code) == []
    ensures CheckedOp(cx, d, op, left, right).draft.sites == d.sites
  {
    var x := Fresh(cx, d);
    var stored := Test(left, if op.AddInt? then I64Add else I64Sub, right) + [LocalSet(x)];
    var test := if op.AddInt? then WentPast(right, x, left, I64LtS, I64GtS) else WentPast(right, x, left, I64GtS, I64LtS);
    var trap := TrapOnTrue(ArithmeticFailure(Took(d, I64)).code);
    hide AllMarks, Test, WentPast, ArithmeticFailure;
    SumParts(op, x, left, right);
    FailureMarks(Took(d, I64));
    ThreeMarks(stored, test, [trap]);
    MarksAppend(stored + test + [trap], [LocalGet(x)]);
    assert stored + test + [trap] + [LocalGet(x)] == stored + test + [trap, LocalGet(x)];
  }

  lemma SumParts(op: Ir.BinaryOp, x: nat, left: nat, right: nat)
    ensures AllMarks(Test(left, if op.AddInt? then I64Add else I64Sub, right) + [LocalSet(x)]) == []
    ensures AllMarks(if op.AddInt? then WentPast(right, x, left, I64LtS, I64GtS) else WentPast(right, x, left, I64GtS, I64LtS)) == []
    ensures AllMarks([LocalGet(x)]) == []
  {
    hide AllMarks;
    FlatMarks(Test(left, if op.AddInt? then I64Add else I64Sub, right) + [LocalSet(x)]);
    FlatMarks(if op.AddInt? then WentPast(right, x, left, I64LtS, I64GtS) else WentPast(right, x, left, I64GtS, I64LtS));
    FlatMarks([LocalGet(x)]);
  }

  lemma QuotientMarks(cx: Cx, d: Draft, op: Ir.BinaryOp, left: nat, right: nat)
    requires op.DivInt? || op.RemInt?
    ensures AllMarks(CheckedOp(cx, d, op, left, right).code) == []
    ensures CheckedOp(cx, d, op, left, right).draft.sites == d.sites
  {
    var last := Test(left, if op.DivInt? then I64DivS else I64RemS, right);
    hide AllMarks, ArithmeticFailure;
    FlatMarks(NoQuotient(left, right));
    FailureMarks(d);
    FlatMarks(last);
    ThreeMarks(NoQuotient(left, right), [TrapOnTrue(ArithmeticFailure(d).code)], last);
  }

  lemma ProductMarks(cx: Cx, d: Draft, left: nat, right: nat)
    ensures AllMarks(CheckedOp(cx, d, Ir.MulInt, left, right).code) == []
    ensures CheckedOp(cx, d, Ir.MulInt, left, right).draft.sites == d.sites
  {
    hide Test, LeastByMinusOne, NeitherZero, DividesBack, ArithmeticFailure, AllMarks;
    var x := Fresh(cx, d);
    var failure := ArithmeticFailure(Took(d, I64));
    var trap := TrapOnTrue(failure.code);
    var back := Ins.If(None, DividesBack(x, left, right, ArithmeticFailure(failure.draft).code), []);
    ProductParts(x, left, right);
    FailureMarks(Took(d, I64));
    BackMarks(x, left, right, failure.draft);
    GuardMarks(back.taken);
    var stored := Test(left, I64Mul, right) + [LocalSet(x)];
    ThreeMarks(stored, LeastByMinusOne(left, right), [trap]);
    ThreeMarks(stored + LeastByMinusOne(left, right) + [trap], NeitherZero(left, right), [back]);
    ProductPieces(stored, LeastByMinusOne(left, right), trap, NeitherZero(left, right), back, LocalGet(x));
  }

  lemma ProductPieces(stored: seq<Ins>, least: seq<Ins>, trap: Ins, zero: seq<Ins>, back: Ins, last: Ins)
    requires AllMarks(stored + least + [trap] + zero + [back]) == [] && AllMarks([last]) == []
    ensures AllMarks(stored + least + [trap] + zero + [back, last]) == []
  {
    MarksAppend(stored + least + [trap] + zero + [back], [last]);
    assert stored + least + [trap] + zero + [back] + [last] == stored + least + [trap] + zero + [back, last];
  }

  lemma ProductParts(x: nat, left: nat, right: nat)
    ensures AllMarks(Test(left, I64Mul, right) + [LocalSet(x)]) == [] && AllMarks(LeastByMinusOne(left, right)) == []
    ensures AllMarks(NeitherZero(left, right)) == [] && AllMarks([LocalGet(x)]) == []
  {
    hide AllMarks;
    FlatMarks(Test(left, I64Mul, right) + [LocalSet(x)]);
    FlatMarks(LeastByMinusOne(left, right));
    FlatMarks(NeitherZero(left, right));
    FlatMarks([LocalGet(x)]);
  }

  lemma BackMarks(x: nat, left: nat, right: nat, d: Draft)
    ensures AllMarks(DividesBack(x, left, right, ArithmeticFailure(d).code)) == [] && ArithmeticFailure(d).draft.sites == d.sites
  {
    var test := Test(x, I64DivS, left) + [LocalGet(right), Num(I64Ne)];
    FlatMarks(test);
    FailureMarks(d);
    MarksAppend(test, [TrapOnTrue(ArithmeticFailure(d).code)]);
    assert test + [TrapOnTrue(ArithmeticFailure(d).code)] == DividesBack(x, left, right, ArithmeticFailure(d).code);
  }

  // -- the induction ---------------------------------------------------------

  lemma {:induction false} ExprInOrder(cx: Cx, d: Draft, e: Ir.Expr)
    ensures InOrder(d, CompileExpr(cx, d, e))
    decreases e, 2
  {
    hide InOrder;
    if e.Unary? {
      UnaryInOrder(cx, d, e);
    } else if e.Binary? {
      BinaryInOrder(cx, d, e);
    } else if e.Call? {
      ArgsInOrder(cx, d, e.args);
      InOrderMarked(d, CompileArgs(cx, d, e.args), Ins.Call(e.func + cx.shift));
    } else if e.If? {
      IfInOrder(cx, d, e);
    } else if e.Nested? {
      BlockInOrder(cx, d, e.block);
    } else {
      FlatMarks(CompileExpr(cx, d, e).code);
      NoMarks(d, CompileExpr(cx, d, e).code);
    }
  }

  /** Handing out locals and literals hands out no sites. */
  lemma SameSites(d: Draft, held: Draft, r: Emitted, after: Draft)
    requires InOrder(held, r) && held.sites == d.sites && after.sites == r.draft.sites
    ensures InOrder(d, Emitted(r.code, after))
  {
  }

  lemma {:induction false} UnaryInOrder(cx: Cx, d: Draft, e: Ir.Expr)
    requires e.Unary?
    ensures InOrder(d, CompileExpr(cx, d, e))
    decreases e, 1
  {
    if e.uop.Not? {
      var inner := CompileExpr(cx, d, e.operand);
      ExprInOrder(cx, d, e.operand);
      FlatMarks([Num(I32Eqz)]);
      InOrderEnded(d, inner, [Num(I32Eqz)]);
    } else {
      ExprInOrder(cx, Took(d, I64), e.operand);
      NegateInOrder(d, CompileExpr(cx, Took(d, I64), e.operand), Fresh(cx, d));
    }
  }

  lemma NegateInOrder(d: Draft, inner: Emitted, x: nat)
    requires InOrder(Took(d, I64), inner)
    ensures InOrder(d, CheckedNegate(inner, x))
  {
    hide AllMarks, ArithmeticFailure;
    var trap := [TrapOnTrue(ArithmeticFailure(inner.draft).code)];
    var before, last := [LocalSet(x)] + TestConst(x, I64Eq, MIN_64), [I64Const(0), LocalGet(x), Num(I64Sub)];
    FlatMarks(before);
    FailureMarks(inner.draft);
    FlatMarks(last);
    ThreeMarks(before, trap, last);
    InOrderEnded(Took(d, I64), inner, before + trap + last);
    assert inner.code + (before + trap + last) == CheckedNegate(inner, x).code;
  }

  lemma InOrderEnded(d: Draft, r: Emitted, after: seq<Ins>)
    requires InOrder(d, r) && AllMarks(after) == []
    ensures InOrder(d, Emitted(r.code + after, r.draft))
  {
    MarksAppend(r.code, after);
  }

  lemma {:induction false} BinaryInOrder(cx: Cx, d: Draft, e: Ir.Expr)
    requires e.Binary?
    ensures InOrder(d, CompileExpr(cx, d, e))
    decreases e, 1
  {
    hide InOrder;
    var held := if Ir.Arithmetic(e.op) then Took(Took(d, I64), I64) else d;
    var one := CompileExpr(cx, held, e.left);
    var two := CompileExpr(cx, one.draft, e.right);
    ExprInOrder(cx, held, e.left);
    ExprInOrder(cx, one.draft, e.right);
    if Ir.Arithmetic(e.op) {
      CheckedInOrder(cx, d, e.op, one, two, Fresh(cx, d));
    } else {
      InOrderThen(d, one, two);
      InOrderMarked(d, Emitted(one.code + two.code, two.draft), BinaryIns(e.op, Ir.TyOf(cx.p, cx.f, e.left)));
    }
  }

  lemma CheckedInOrder(cx: Cx, d: Draft, op: Ir.BinaryOp, one: Emitted, two: Emitted, x: nat)
    requires Ir.Arithmetic(op) && InOrder(Took(Took(d, I64), I64), one) && InOrder(one.draft, two)
    ensures InOrder(d, CheckedBinary(cx, op, x, one, two))
  {
    hide InOrder, CheckedOp;
    var held := Took(Took(d, I64), I64);
    var three := CheckedOp(cx, two.draft, op, x, x + 1);
    CheckedMarks(cx, two.draft, op, x, x + 1);
    FlatMarks([LocalSet(x)]);
    FlatMarks([LocalSet(x + 1)]);
    InOrderEnded(held, one, [LocalSet(x)]);
    InOrderEnded(one.draft, two, [LocalSet(x + 1)]);
    InOrderThen(held, Emitted(one.code + [LocalSet(x)], one.draft), Emitted(two.code + [LocalSet(x + 1)], two.draft));
    var both := Emitted(one.code + [LocalSet(x)] + (two.code + [LocalSet(x + 1)]), two.draft);
    InOrderEnded(held, both, three.code);
    SameSites(d, held, Emitted(both.code + three.code, two.draft), three.draft);
  }

  lemma {:induction false} ArgsInOrder(cx: Cx, d: Draft, args: seq<Ir.Expr>)
    ensures InOrder(d, CompileArgs(cx, d, args))
    decreases args, 0
  {
    if args != [] {
      ExprInOrder(cx, d, args[0]);
      ArgsInOrder(cx, CompileExpr(cx, d, args[0]).draft, args[1..]);
      InOrderThen(d, CompileExpr(cx, d, args[0]), CompileArgs(cx, CompileExpr(cx, d, args[0]).draft, args[1..]));
    }
  }

  lemma {:induction false} IfInOrder(cx: Cx, d: Draft, e: Ir.Expr)
    requires e.If?
    ensures InOrder(d, CompileExpr(cx, d, e))
    decreases e, 1
  {
    var test := CompileExpr(cx, d, e.condition);
    var one := CompileBlock(cx, test.draft, e.taken);
    var two := CompileBlock(cx, one.draft, e.otherwise);
    ExprInOrder(cx, d, e.condition);
    BlockInOrder(cx, test.draft, e.taken);
    BlockInOrder(cx, one.draft, e.otherwise);
    OneMark(Ins.If(ValTypeOf(e.ty), one.code, two.code));
    InOrderThen(d, test, Emitted([Ins.If(ValTypeOf(e.ty), one.code, two.code)], two.draft));
  }

  lemma {:induction false} BlockInOrder(cx: Cx, d: Draft, block: Ir.Block)
    ensures InOrder(d, CompileBlock(cx, d, block))
    decreases block, 0
  {
    hide InOrder;
    var stmts := CompileStmts(cx, d, block.stmts);
    StmtsInOrder(cx, d, block.stmts);
    ExprInOrder(cx, stmts.draft, block.value);
    InOrderThen(d, stmts, CompileExpr(cx, stmts.draft, block.value));
  }

  lemma {:induction false} StmtsInOrder(cx: Cx, d: Draft, stmts: seq<Ir.Stmt>)
    ensures InOrder(d, CompileStmts(cx, d, stmts))
    decreases stmts, 0
  {
    if stmts != [] {
      var one := CompileStmt(cx, d, stmts[0]);
      StmtInOrder(cx, d, stmts[0]);
      StmtsInOrder(cx, one.draft, stmts[1..]);
      InOrderThen(d, one, CompileStmts(cx, one.draft, stmts[1..]));
    }
  }

  lemma {:induction false} StmtInOrder(cx: Cx, d: Draft, stmt: Ir.Stmt)
    ensures InOrder(d, CompileStmt(cx, d, stmt))
    decreases stmt, 1
  {
    hide InOrder;
    if stmt.Fail? {
      var words := Failure(d, stmt.code, stmt.message);
      FlatMarks(words.code);
      NoMarks(d, words.code);
      SameSites(d, d, Emitted(words.code, d), words.draft);
      InOrderMarked(d, words, Ins.Unreachable);
    } else if stmt.While? {
      WalkInOrder(cx, d, stmt);
    } else {
      var value := CompileExpr(cx, d, stmt.value);
      ExprInOrder(cx, d, stmt.value);
      var ending := CompileStmt(cx, d, stmt).code[|value.code|..];
      FlatMarks(ending);
      InOrderEnded(d, value, ending);
      assert value.code + ending == CompileStmt(cx, d, stmt).code;
    }
  }

  lemma {:induction false} WalkInOrder(cx: Cx, d: Draft, stmt: Ir.Stmt)
    requires stmt.While?
    ensures InOrder(d, CompileStmt(cx, d, stmt))
    decreases stmt, 0
  {
    hide InOrder, Turn;
    var test := CompileExpr(cx, d, stmt.condition);
    var turn := CompileStmts(cx, test.draft, stmt.body);
    ExprInOrder(cx, d, stmt.condition);
    StmtsInOrder(cx, test.draft, stmt.body);
    TurnInOrder(d, test, turn);
    NestedInOrder(d, Emitted(Turn(test.code, turn.code), turn.draft));
  }

  lemma TurnInOrder(d: Draft, test: Emitted, turn: Emitted)
    requires InOrder(d, test) && InOrder(test.draft, turn)
    ensures InOrder(d, Emitted(Turn(test.code, turn.code), turn.draft))
  {
    FlatMarks([Num(I32Eqz), BrIf(1)]);
    FlatMarks([Br(0)]);
    hide InOrder, AllMarks;
    InOrderEnded(d, test, [Num(I32Eqz), BrIf(1)]);
    InOrderEnded(test.draft, turn, [Br(0)]);
    InOrderThen(d, Emitted(test.code + [Num(I32Eqz), BrIf(1)], test.draft), Emitted(turn.code + [Br(0)], turn.draft));
  }

  lemma NestedInOrder(d: Draft, r: Emitted)
    requires InOrder(d, r)
    ensures InOrder(d, Emitted([Ins.Block(None, [Ins.Loop(None, r.code)])], r.draft))
  {
    OneMark(Ins.Loop(None, r.code));
    OneMark(Ins.Block(None, [Ins.Loop(None, r.code)]));
  }

  // -- the table -------------------------------------------------------------

  lemma {:induction false} WalkMarks(ins: Ins, at: nat)
    ensures Names(Walked(ins, at).0) == Marks(ins)
    decreases ins, 0
  {
    if ins.Marked? {
      WalkMarks(ins.inner, at);
      assert Names(Walked(ins, at).0) == [ins.site] + Names(Walked(ins.inner, at).0);
    } else if ins.Block? || ins.Loop? {
      AllWalkMarks(ins.body, at + 2);
    } else if ins.If? {
      AllWalkMarks(ins.taken, at + 2);
      AllWalkMarks(ins.otherwise, AllWalked(ins.taken, at + 2).1 + 1);
    }
  }

  lemma {:induction false} AllWalkMarks(body: seq<Ins>, at: nat)
    ensures Names(AllWalked(body, at).0) == AllMarks(body)
    decreases body, 0
  {
    if body != [] {
      WalkMarks(body[0], at);
      AllWalkMarks(body[1..], Walked(body[0], at).1);
    }
  }

  function Names(sites: seq<(nat, nat)>): (r: seq<nat>)
    ensures |r| == |sites|
  {
    seq(|sites|, k requires 0 <= k < |sites| => sites[k].0)
  }

  /** Recording sites that count up from `from` fills the table from there on. */
  lemma {:induction false} RecordedInOrder(table: seq<Option<nat>>, sites: seq<(nat, nat)>, from: nat)
    requires from + |sites| <= |table| && forall k | 0 <= k < |sites| :: sites[k].0 == from + k
    ensures forall k | 0 <= k < |sites| :: Recorded(table, sites)[from + k] == Some(sites[k].1)
    ensures forall k | 0 <= k < from :: Recorded(table, sites)[k] == table[k]
    decreases |sites|
  {
    if sites != [] {
      var next := table[from := Some(sites[0].1)];
      RecordedInOrder(next, sites[1..], from + 1);
      forall k | 0 <= k < |sites| ensures Recorded(table, sites)[from + k] == Some(sites[k].1) {
        if k > 0 {
          assert Recorded(next, sites[1..])[from + 1 + (k - 1)] == Some(sites[1..][k - 1].1);
        }
      }
    }
  }

  /** How many bytes come before the instruction marked with this site, in a body that marks sites in order. */
  function OffsetOf(body: seq<Ins>, site: nat): nat
    requires site < |SitesOf(AllTokens(body), 0)|
  {
    SitesOf(AllTokens(body), 0)[site].1
  }

  /**
   * The table of a compiled body: no site is missing, and each offset is the number of
   * bytes encoded before the instruction it is for.
   */
  method FinishSites(cx: Cx, strings: Strings, body: seq<Ins>, count: nat) returns (offsets: seq<nat>)
    requires body == CompileBody(cx, strings).code && count == CompileBody(cx, strings).draft.sites
    ensures |offsets| == count == |SitesOf(AllTokens(body), 0)|
    ensures forall k | 0 <= k < count :: offsets[k] == OffsetOf(body, k) && SitesOf(AllTokens(body), 0)[k].0 == k
    ensures WrittenOf(AllTokens(body)) == AllBytes(body)
  {
    ghost var sites := AllWalked(body, 0).0;
    BodyTable(cx, strings, body, count);
    var table := new Option<nat>[count](_ => None);
    ghost var empty := table[..];
    var end := WalkSites(table, body, 0);
    RecordedInOrder(empty, sites, 0);
    offsets := [];
    var k := 0;
    while k < count
      invariant k <= count && |offsets| == k
      invariant forall i | 0 <= i < k :: offsets[i] == sites[i].1
      invariant table[..] == Recorded(empty, sites)
    {
      assert Recorded(empty, sites)[0 + k] == Some(sites[k].1);
      assert table[k] == table[..][k];
      offsets := offsets + [table[k].value];
      k := k + 1;
    }
  }

  lemma BodyTable(cx: Cx, strings: Strings, body: seq<Ins>, count: nat)
    requires body == CompileBody(cx, strings).code && count == CompileBody(cx, strings).draft.sites
    ensures AllWalked(body, 0).0 == SitesOf(AllTokens(body), 0) && WrittenOf(AllTokens(body)) == AllBytes(body)
    ensures |AllWalked(body, 0).0| == count && Within(AllWalked(body, 0).0, count)
    ensures forall k | 0 <= k < count :: AllWalked(body, 0).0[k].0 == k
  {
    var sites := AllWalked(body, 0).0;
    AllWalkCounts(body, 0);
    AllWalkMarks(body, 0);
    BodyInOrder(cx, strings);
    forall k | 0 <= k < count ensures sites[k].0 == k {
      assert Names(sites)[k] == Range(0, count)[k];
    }
  }

  lemma BodyInOrder(cx: Cx, strings: Strings)
    ensures AllMarks(CompileBody(cx, strings).code) == Range(0, CompileBody(cx, strings).draft.sites)
  {
    var start := Begin(cx.f, strings);
    var block := CompileBlock(cx, start, cx.f.body);
    BlockInOrder(cx, start, cx.f.body);
    FlatMarks([Ins.Return]);
    InOrderEnded(start, block, [Ins.Return]);
  }
}
