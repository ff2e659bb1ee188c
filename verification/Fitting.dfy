/** Programs that state no failures of their own place two literals at most, so they always fit. */
module Fitting {
  import opened Ints
  import opened Wasm
  import opened Types
  import opened Compile
  import opened Program
  import opened CompileTheorem
  import Ir
  import Run
  import Simulation
  import L = Layout

  // -- no failures of its own ------------------------------------------------

  predicate QuietExpr(e: Ir.Expr) {
    match e
    case Unary(_, operand) => QuietExpr(operand)
    case Binary(_, left, right) => QuietExpr(left) && QuietExpr(right)
    case Call(_, args) => QuietArgs(args)
    case If(condition, taken, otherwise, _) => QuietExpr(condition) && QuietBlock(taken) && QuietBlock(otherwise)
    case Nested(block) => QuietBlock(block)
    case _ => true
  }

  predicate QuietArgs(args: seq<Ir.Expr>) { args == [] || (QuietExpr(args[0]) && QuietArgs(args[1..])) }

  predicate QuietBlock(block: Ir.Block) { QuietStmts(block.stmts) && QuietExpr(block.value) }

  predicate QuietStmts(stmts: seq<Ir.Stmt>) { stmts == [] || (QuietStmt(stmts[0]) && QuietStmts(stmts[1..])) }

  predicate QuietStmt(stmt: Ir.Stmt) {
    match stmt
    case Assign(_, e) => QuietExpr(e)
    case Discard(e) => QuietExpr(e)
    case Return(e) => QuietExpr(e)
    case Fail(_, _) => false
    case While(condition, body) => QuietExpr(condition) && QuietStmts(body)
  }

  predicate QuietProgram(p: Ir.Program) { forall f | f in p :: QuietBlock(f.body) }

  // -- at most two literals --------------------------------------------------

  /** The literals once the failure of arithmetic has been placed and nothing else. */
  function Two(): Strings {
    Place(Place(NO_STRINGS, Ir.ARITHMETIC_CODE).0, Ir.ARITHMETIC_MESSAGE).0
  }

  predicate Few(strings: Strings) { strings == NO_STRINGS || strings == Two() }

  lemma LaidSize(text: Text)
    ensures |Laid(text)| == 16 + |text| + (8 - |text| % 8) % 8
  {
    hide Characters;
  }

  lemma FirstFound(text: Text, at: nat, rest: seq<(Text, nat)>)
    ensures Where([(text, at)] + rest, text) == Some(at)
  {
  }

  lemma SecondFound(one: Text, two: Text, at: nat, later: nat)
    requires one != two
    ensures Where([(one, at)], two) == None && Where([(one, at), (two, later)], two) == Some(later)
  {
    assert [(one, at), (two, later)][1..] == [(two, later)] && [(one, at)][1..] == [];
  }

  lemma TwoHold()
    ensures Two().next == 8304
    ensures Where(Two().placed, Ir.ARITHMETIC_CODE).Some? && Where(Two().placed, Ir.ARITHMETIC_MESSAGE).Some?
  {
    hide Laid, Where;
    var code, message := Ir.ARITHMETIC_CODE, Ir.ARITHMETIC_MESSAGE;
    assert |code| == 8 && |message| == 29;
    LaidSize(code);
    LaidSize(message);
    NoneFound(code);
    SecondFound(code, message, 8232, 8256);
    FirstFound(code, 8232, [(message, 8256)]);
    FirstFound(code, 8232, []);
    assert [(code, 8232 as nat)] + [] == [(code, 8232)];
    assert Place(NO_STRINGS, code).0.placed == [(code, 8232)];
    assert Two().placed == [(code, 8232), (message, 8256)] == [(code, 8232)] + [(message, 8256)];
  }

  lemma NoneFound(text: Text)
    ensures Where([], text) == None
  {
  }

  lemma ArithmeticFew(d: Draft)
    requires Few(d.strings)
    ensures ArithmeticFailure(d).draft.strings == Two()
  {
    hide Laid, Where, Two;
    TwoHold();
    if d.strings == NO_STRINGS {
      FromNothing(d);
    }
  }

  lemma FromNothing(d: Draft)
    requires d.strings == NO_STRINGS
    ensures ArithmeticFailure(d).draft.strings == Two()
  {
    hide Laid, Where;
  }

  lemma OpFew(cx: Cx, d: Draft, op: Ir.BinaryOp, left: nat, right: nat)
    requires Ir.Arithmetic(op) && Few(d.strings)
    ensures CheckedOp(cx, d, op, left, right).draft.strings == Two()
  {
    hide ArithmeticFailure, Two;
    ArithmeticFew(d);
    ArithmeticFew(Took(d, I64));
    ArithmeticFew(ArithmeticFailure(Took(d, I64)).draft);
  }

  lemma {:induction false} ExprFew(cx: Cx, d: Draft, e: Ir.Expr)
    requires QuietExpr(e) && Few(d.strings)
    ensures Few(CompileExpr(cx, d, e).draft.strings)
    decreases e, 1
  {
    hide Few, CheckedOp, Two;
    match e
    case Unary(op, operand) =>
      if op.Not? {
        ExprFew(cx, d, operand);
      } else {
        ExprFew(cx, Took(d, I64), operand);
        NegateFew(CompileExpr(cx, Took(d, I64), operand), Fresh(cx, d));
      }
    case Binary(op, left, right) =>
      if Ir.Arithmetic(op) {
        var start := Took(Took(d, I64), I64);
        ExprFew(cx, start, left);
        var one := CompileExpr(cx, start, left);
        ExprFew(cx, one.draft, right);
        BinaryFew(cx, op, Fresh(cx, d), one, CompileExpr(cx, one.draft, right));
      } else {
        ExprFew(cx, d, left);
        ExprFew(cx, CompileExpr(cx, d, left).draft, right);
      }
    case Call(_, args) => ArgsFew(cx, d, args);
    case If(condition, taken, otherwise, _) =>
      ExprFew(cx, d, condition);
      var test := CompileExpr(cx, d, condition);
      BlockFew(cx, test.draft, taken);
      BlockFew(cx, CompileBlock(cx, test.draft, taken).draft, otherwise);
    case Nested(block) => BlockFew(cx, d, block);
    case _ =>
  }

  lemma NegateFew(inner: Emitted, x: nat)
    requires Few(inner.draft.strings)
    ensures Few(CheckedNegate(inner, x).draft.strings)
  {
    hide ArithmeticFailure;
    ArithmeticFew(inner.draft);
  }

  lemma BinaryFew(cx: Cx, op: Ir.BinaryOp, x: nat, one: Emitted, two: Emitted)
    requires Ir.Arithmetic(op) && Few(two.draft.strings)
    ensures Few(CheckedBinary(cx, op, x, one, two).draft.strings)
  {
    hide CheckedOp;
    OpFew(cx, two.draft, op, x, x + 1);
  }

  lemma {:induction false} ArgsFew(cx: Cx, d: Draft, args: seq<Ir.Expr>)
    requires QuietArgs(args) && Few(d.strings)
    ensures Few(CompileArgs(cx, d, args).draft.strings)
    decreases args, 0
  {
    hide Few, CompileExpr;
    if args != [] {
      ExprFew(cx, d, args[0]);
      ArgsFew(cx, CompileExpr(cx, d, args[0]).draft, args[1..]);
    }
  }

  lemma {:induction false} BlockFew(cx: Cx, d: Draft, block: Ir.Block)
    requires QuietBlock(block) && Few(d.strings)
    ensures Few(CompileBlock(cx, d, block).draft.strings)
    decreases block, 0
  {
    hide Few, CompileExpr, CompileStmts;
    StmtsFew(cx, d, block.stmts);
    ExprFew(cx, CompileStmts(cx, d, block.stmts).draft, block.value);
  }

  lemma {:induction false} StmtsFew(cx: Cx, d: Draft, stmts: seq<Ir.Stmt>)
    requires QuietStmts(stmts) && Few(d.strings)
    ensures Few(CompileStmts(cx, d, stmts).draft.strings)
    decreases stmts, 0
  {
    hide Few, CompileStmt;
    if stmts != [] {
      StmtFew(cx, d, stmts[0]);
      StmtsFew(cx, CompileStmt(cx, d, stmts[0]).draft, stmts[1..]);
    }
  }

  lemma {:induction false} StmtFew(cx: Cx, d: Draft, stmt: Ir.Stmt)
    requires QuietStmt(stmt) && Few(d.strings)
    ensures Few(CompileStmt(cx, d, stmt).draft.strings)
    decreases stmt, 1
  {
    hide Few, CompileExpr, CompileStmts;
    match stmt
    case Assign(_, e) => ExprFew(cx, d, e);
    case Discard(e) => ExprFew(cx, d, e);
    case Return(e) => ExprFew(cx, d, e);
    case While(condition, body) =>
      ExprFew(cx, d, condition);
      StmtsFew(cx, CompileExpr(cx, d, condition).draft, body);
  }

  lemma NoneFew()
    ensures Few(NO_STRINGS)
  {
  }

  lemma {:induction false} ProgramFew(p: Ir.Program, k: nat)
    requires QuietProgram(p) && k <= |p|
    ensures Few(StringsAt(p, k))
    decreases k
  {
    hide Few, CompileBlock, QuietBlock;
    if k == 0 {
      NoneFew();
    } else {
      ProgramFew(p, k - 1);
      assert p[k - 1] in p;
      BlockFew(Cx(p, p[k - 1], 0), Begin(p[k - 1], StringsAt(p, k - 1)), p[k - 1].body);
    }
  }

  /** So whatever such a program is, its literals end inside the starting memory. */
  lemma QuietFits(p: Ir.Program)
    requires QuietProgram(p)
    ensures LiteralsFit(p)
  {
    hide StringsAt, Laid;
    ProgramFew(p, |p|);
    TwoHold();
  }

  /** Compiling such a program keeps its meaning with nothing more asked of it than that it is well typed. */
  lemma QuietSameMeaning(p: Ir.Program, g: nat, vs: seq<Ir.Val>, answer: Option<Run.Value>, code: Text, message: Text)
    requires Ir.ProgramOk(p) && QuietProgram(p) && g < |p| && Simulation.HasTypes(vs, p[g].params)
    ensures RunAnswers(p, g, vs, answer) <==> IrAnswers(p, g, vs, answer)
    ensures RunFails(p, g, vs, code, message) <==> IrFails(p, g, vs, code, message)
  {
    hide Ir.ProgramOk, QuietProgram, LiteralsFit, RunAnswers, IrAnswers, RunFails, IrFails;
    QuietFits(p);
    SameMeaning(p, g, vs, answer, code, message);
  }
}
