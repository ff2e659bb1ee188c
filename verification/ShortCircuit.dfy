/**
 * `and` and `or`: the interpreter leaves the right side alone once the left has decided, and
 * the backend evaluates both. They part ways exactly where the right side does not simply
 * give a value, and never in a program whose right sides cannot fail, call or assign.
 */
module ShortCircuit {
  import opened Wasm
  import opened Types
  import opened Ir
  import opened Compile
  import Whole = Program
  import Run
  import Simulation
  import CallsAndWalks
  import CompileTheorem

  /** Evaluating this gives a value and does nothing else. */
  predicate Quiet(e: Expr) {
    match e
    case Unary(op, operand) => op.Not? && Quiet(operand)
    case Binary(op, left, right) => !Arithmetic(op) && Quiet(left) && Quiet(right)
    case Call(_, _) => false
    case If(condition, taken, otherwise, _) =>
      Quiet(condition) && taken.stmts == [] && Quiet(taken.value) && otherwise.stmts == [] && Quiet(otherwise.value)
    case Nested(block) => block.stmts == [] && Quiet(block.value)
    case _ => true
  }

  /** Every `and` and `or` in this has a quiet right side. */
  predicate Guarded(e: Expr) {
    match e
    case Unary(_, operand) => Guarded(operand)
    case Binary(op, left, right) => Guarded(left) && Guarded(right) && (op.And? || op.Or? ==> Quiet(right))
    case Call(_, args) => ArgsGuarded(args)
    case If(condition, taken, otherwise, _) => Guarded(condition) && BlockGuarded(taken) && BlockGuarded(otherwise)
    case Nested(block) => BlockGuarded(block)
    case _ => true
  }

  predicate ArgsGuarded(args: seq<Expr>) { args == [] || (Guarded(args[0]) && ArgsGuarded(args[1..])) }

  predicate BlockGuarded(block: Block) { StmtsGuarded(block.stmts) && Guarded(block.value) }

  predicate StmtsGuarded(stmts: seq<Stmt>) { stmts == [] || (StmtGuarded(stmts[0]) && StmtsGuarded(stmts[1..])) }

  predicate StmtGuarded(stmt: Stmt) {
    match stmt
    case Fail(_, _) => true
    case While(condition, body) => Guarded(condition) && StmtsGuarded(body)
    case _ => Guarded(stmt.value)
  }

  predicate ProgramGuarded(p: Program) { forall f | f in p :: BlockGuarded(f.body) }

  lemma {:induction false} QuietGives(p: Program, mode: Mode, depth: nat, env: seq<Val>, e: Expr)
    requires Quiet(e)
    ensures EvalExpr(p, mode, depth, env, e).Gives? && EvalExpr(p, mode, depth, env, e).env == env
    decreases e
  {
    if e.Unary? {
      QuietGives(p, mode, depth, env, e.operand);
    } else if e.Binary? {
      QuietGives(p, mode, depth, env, e.left);
      QuietGives(p, mode, depth, env, e.right);
    } else if e.If? {
      QuietGives(p, mode, depth, env, e.condition);
      QuietGives(p, mode, depth, env, e.taken.value);
      QuietGives(p, mode, depth, env, e.otherwise.value);
      OnlyValue(p, mode, depth, env, e.taken);
      OnlyValue(p, mode, depth, env, e.otherwise);
    } else if e.Nested? {
      QuietGives(p, mode, depth, env, e.block.value);
      OnlyValue(p, mode, depth, env, e.block);
    }
  }

  lemma OnlyValue(p: Program, mode: Mode, depth: nat, env: seq<Val>, block: Block)
    requires block.stmts == []
    ensures EvalBlock(p, mode, depth, env, block) == EvalExpr(p, mode, depth, env, block.value)
  {
  }

  // -- where a run parts ways ------------------------------------------------

  /** A place a run reaches: this `and` or `or`, with slots holding this. */
  datatype Spot = Spot(depth: nat, env: seq<Val>, e: Expr)

  predicate Logical(op: BinaryOp) { op.And? || op.Or? }

  /** Evaluating the right side after all would have changed nothing. */
  predicate Harmless(r: Eval<Val>, env: seq<Val>) { r.Gives? && r.env == env }

  /** The two engines make different things of this spot. */
  ghost predicate Parts(p: Program, spot: Spot) {
    && spot.e.Binary? && Logical(spot.e.op)
    && EvalExpr(p, Strict, spot.depth, spot.env, spot.e) != EvalExpr(p, Lazy, spot.depth, spot.env, spot.e)
  }

  /**
   * The first `and` or `or` an interpreted run reaches whose left side decides and whose right
   * side, evaluated all the same, fails, returns, does not end or assigns.
   */
  function FirstExpr(p: Program, depth: nat, env: seq<Val>, e: Expr): Option<Spot>
    decreases depth, e, 0
  {
    match e
    case Unary(_, operand) => FirstExpr(p, depth, env, operand)
    case Binary(op, left, right) =>
      var first := FirstExpr(p, depth, env, left);
      var x := EvalExpr(p, Lazy, depth, env, left);
      if first.Some? || !x.Gives? then first
      else if !Decided(op, x.value) then FirstExpr(p, depth, x.env, right)
      else if Harmless(EvalExpr(p, Strict, depth, x.env, right), x.env) then None
      else Some(Spot(depth, env, e))
    case Call(g, args) =>
      var first := FirstArg(p, depth, env, args);
      var vs := EvalArgs(p, Lazy, depth, env, args);
      if first.Some? || !vs.Gives? || depth == 0 || g >= |p| then first
      else FirstFunction(p, depth - 1, p[g], vs.value)
    case If(condition, taken, otherwise, _) =>
      var first := FirstExpr(p, depth, env, condition);
      var x := EvalExpr(p, Lazy, depth, env, condition);
      if first.Some? || !x.Gives? then first
      else FirstBlock(p, depth, x.env, if AsBool(x.value) then taken else otherwise)
    case Nested(block) => FirstBlock(p, depth, env, block)
    case _ => None
  }

  function FirstArg(p: Program, depth: nat, env: seq<Val>, args: seq<Expr>): Option<Spot>
    decreases depth, args, 0
  {
    if args == [] then None else
      var first := FirstExpr(p, depth, env, args[0]);
      var x := EvalExpr(p, Lazy, depth, env, args[0]);
      if first.Some? || !x.Gives? then first else FirstArg(p, depth, x.env, args[1..])
  }

  function FirstBlock(p: Program, depth: nat, env: seq<Val>, block: Block): Option<Spot>
    decreases depth, block, 0
  {
    var first := FirstStmt(p, depth, env, block.stmts);
    var x := EvalStmts(p, Lazy, depth, env, block.stmts);
    if first.Some? || !x.Gives? then first else FirstExpr(p, depth, x.env, block.value)
  }

  function FirstStmt(p: Program, depth: nat, env: seq<Val>, stmts: seq<Stmt>): Option<Spot>
    decreases depth, stmts, 0
  {
    if stmts == [] then None else
      var first := FirstIn(p, depth, env, stmts[0]);
      var x := EvalStmt(p, Lazy, depth, env, stmts[0]);
      if first.Some? || !x.Gives? then first else FirstStmt(p, depth, x.env, stmts[1..])
  }

  function FirstIn(p: Program, depth: nat, env: seq<Val>, stmt: Stmt): Option<Spot>
    decreases depth, stmt, 1
  {
    match stmt
    case Fail(_, _) => None
    case While(_, _) => FirstTurn(p, depth, env, stmt)
    case _ => FirstExpr(p, depth, env, stmt.value)
  }

  function FirstTurn(p: Program, depth: nat, env: seq<Val>, walk: Stmt): Option<Spot>
    requires walk.While?
    decreases depth, walk, 0
  {
    if depth == 0 then None else
      var first := FirstExpr(p, depth, env, walk.condition);
      var x := EvalExpr(p, Lazy, depth, env, walk.condition);
      if first.Some? || !x.Gives? || !AsBool(x.value) then first else
        var second := FirstStmt(p, depth, x.env, walk.body);
        var y := EvalStmts(p, Lazy, depth, x.env, walk.body);
        if second.Some? || !y.Gives? then second else FirstTurn(p, depth - 1, y.env, walk)
  }

  function FirstFunction(p: Program, depth: nat, f: Function, args: seq<Val>): Option<Spot>
    decreases depth, f, 1
  {
    FirstBlock(p, depth, Slots(f, args), f.body)
  }

  /** Up to the first place nothing differs, and there something does. */
  ghost predicate Settled<T(!new)>(p: Program, first: Option<Spot>, one: Eval<T>, two: Eval<T>) {
    match first
    case None => one == two
    case Some(spot) => Parts(p, spot)
  }

  lemma {:induction false} ExprSettled(p: Program, depth: nat, env: seq<Val>, e: Expr)
    ensures Settled(p, FirstExpr(p, depth, env, e), EvalExpr(p, Strict, depth, env, e), EvalExpr(p, Lazy, depth, env, e))
    decreases depth, e, 1
  {
    match e
    case Unary(_, operand) => ExprSettled(p, depth, env, operand);
    case Binary(_, _, _) => BinarySettled(p, depth, env, e);
    case Call(_, _) => CallSettled(p, depth, env, e);
    case If(condition, taken, otherwise, _) =>
      ExprSettled(p, depth, env, condition);
      var x := EvalExpr(p, Lazy, depth, env, condition);
      if x.Gives? {
        BlockSettled(p, depth, x.env, if AsBool(x.value) then taken else otherwise);
      }
    case Nested(block) => BlockSettled(p, depth, env, block);
    case _ =>
  }

  lemma {:induction false} BinarySettled(p: Program, depth: nat, env: seq<Val>, e: Expr)
    requires e.Binary?
    ensures Settled(p, FirstExpr(p, depth, env, e), EvalExpr(p, Strict, depth, env, e), EvalExpr(p, Lazy, depth, env, e))
    decreases depth, e, 0
  {
    ExprSettled(p, depth, env, e.left);
    var x := EvalExpr(p, Lazy, depth, env, e.left);
    if x.Gives? && !Decided(e.op, x.value) {
      ExprSettled(p, depth, x.env, e.right);
    }
  }

  lemma {:induction false} CallSettled(p: Program, depth: nat, env: seq<Val>, e: Expr)
    requires e.Call?
    ensures Settled(p, FirstExpr(p, depth, env, e), EvalExpr(p, Strict, depth, env, e), EvalExpr(p, Lazy, depth, env, e))
    decreases depth, e, 0
  {
    ArgsSettled(p, depth, env, e.args);
    var vs := EvalArgs(p, Lazy, depth, env, e.args);
    if vs.Gives? && depth > 0 && e.func < |p| {
      FunctionSettled(p, depth - 1, p[e.func], vs.value);
    }
  }

  lemma {:induction false} ArgsSettled(p: Program, depth: nat, env: seq<Val>, args: seq<Expr>)
    ensures Settled(p, FirstArg(p, depth, env, args), EvalArgs(p, Strict, depth, env, args), EvalArgs(p, Lazy, depth, env, args))
    decreases depth, args, 0
  {
    if args != [] {
      ExprSettled(p, depth, env, args[0]);
      var x := EvalExpr(p, Lazy, depth, env, args[0]);
      if x.Gives? {
        ArgsSettled(p, depth, x.env, args[1..]);
      }
    }
  }

  lemma {:induction false} BlockSettled(p: Program, depth: nat, env: seq<Val>, block: Block)
    ensures Settled(p, FirstBlock(p, depth, env, block), EvalBlock(p, Strict, depth, env, block), EvalBlock(p, Lazy, depth, env, block))
    decreases depth, block, 0
  {
    StmtsSettled(p, depth, env, block.stmts);
    var x := EvalStmts(p, Lazy, depth, env, block.stmts);
    if x.Gives? {
      ExprSettled(p, depth, x.env, block.value);
    }
  }

  lemma {:induction false} StmtsSettled(p: Program, depth: nat, env: seq<Val>, stmts: seq<Stmt>)
    ensures Settled(p, FirstStmt(p, depth, env, stmts), EvalStmts(p, Strict, depth, env, stmts), EvalStmts(p, Lazy, depth, env, stmts))
    decreases depth, stmts, 0
  {
    if stmts != [] {
      StmtSettled(p, depth, env, stmts[0]);
      var x := EvalStmt(p, Lazy, depth, env, stmts[0]);
      if x.Gives? {
        StmtsSettled(p, depth, x.env, stmts[1..]);
      }
    }
  }

  lemma {:induction false} StmtSettled(p: Program, depth: nat, env: seq<Val>, stmt: Stmt)
    ensures Settled(p, FirstIn(p, depth, env, stmt), EvalStmt(p, Strict, depth, env, stmt), EvalStmt(p, Lazy, depth, env, stmt))
    decreases depth, stmt, 1
  {
    if stmt.While? {
      WalkSettled(p, depth, env, stmt);
    } else if !stmt.Fail? {
      ExprSettled(p, depth, env, stmt.value);
    }
  }

  lemma {:induction false} WalkSettled(p: Program, depth: nat, env: seq<Val>, walk: Stmt)
    requires walk.While?
    ensures Settled(p, FirstTurn(p, depth, env, walk), EvalWhile(p, Strict, depth, env, walk), EvalWhile(p, Lazy, depth, env, walk))
    decreases depth, walk, 0
  {
    if depth > 0 {
      ExprSettled(p, depth, env, walk.condition);
      var x := EvalExpr(p, Lazy, depth, env, walk.condition);
      if x.Gives? && AsBool(x.value) {
        StmtsSettled(p, depth, x.env, walk.body);
        var y := EvalStmts(p, Lazy, depth, x.env, walk.body);
        if y.Gives? {
          WalkSettled(p, depth - 1, y.env, walk);
        }
      }
    }
  }

  lemma {:induction false} FunctionSettled(p: Program, depth: nat, f: Function, args: seq<Val>)
    ensures Settled(p, FirstFunction(p, depth, f, args), EvalFunction(p, Strict, depth, f, args), EvalFunction(p, Lazy, depth, f, args))
    decreases depth, f, 1
  {
    BlockSettled(p, depth, Slots(f, args), f.body);
  }

  /**
   * A whole run: when no place on the way would have gone otherwise, evaluating both sides
   * everywhere means what leaving the right one alone does; and otherwise there is a first
   * spot, and the engines make different things of it.
   */
  lemma FirstPlaceDecides(p: Program, depth: nat, f: Function, args: seq<Val>)
    ensures FirstFunction(p, depth, f, args) == None ==>
              EvalFunction(p, Strict, depth, f, args) == EvalFunction(p, Lazy, depth, f, args)
    ensures FirstFunction(p, depth, f, args).Some? ==> Parts(p, FirstFunction(p, depth, f, args).value)
  {
    FunctionSettled(p, depth, f, args);
  }

  /** A run of the compiled program that parts with the interpreter nowhere is the interpreter's. */
  lemma RunsAsInterpreted(p: Program, g: nat, vs: seq<Val>, budget: nat)
    requires CompileTheorem.Callable(p, g, vs) && g < |p| && FirstFunction(p, budget, p[g], vs) == None
    ensures var r := EvalFunction(p, Lazy, budget, p[g], vs);
      match CompileTheorem.Ran(p, g, vs, budget)
      case Ok(outcome) => r.Gives? && outcome.value == CallsAndWalks.Reply(r.value)
      case Stops(trap) => trap == Run.TooLong || (r.Fails? && trap == Run.Failed(r.code, r.message))
      case Panic => false
  {
    hide CompileTheorem.Ran, CompileTheorem.Callable, EvalFunction, FirstFunction;
    CompileTheorem.RunIsMeant(p, g, vs, budget);
    FirstPlaceDecides(p, budget, p[g], vs);
  }

  // -- guarded programs ------------------------------------------------------

  lemma {:induction false} GuardedExpr(p: Program, depth: nat, env: seq<Val>, e: Expr)
    requires Guarded(e) && ProgramGuarded(p)
    ensures FirstExpr(p, depth, env, e) == None
    decreases depth, e, 0
  {
    match e
    case Unary(_, operand) => GuardedExpr(p, depth, env, operand);
    case Binary(op, left, right) =>
      GuardedExpr(p, depth, env, left);
      var x := EvalExpr(p, Lazy, depth, env, left);
      if x.Gives? {
        GuardedExpr(p, depth, x.env, right);
        if Logical(op) {
          QuietGives(p, Strict, depth, x.env, right);
        }
      }
    case Call(g, args) =>
      GuardedArgs(p, depth, env, args);
      var vs := EvalArgs(p, Lazy, depth, env, args);
      if vs.Gives? && depth > 0 && g < |p| {
        GuardedBlock(p, depth - 1, Slots(p[g], vs.value), p[g].body);
      }
    case If(condition, taken, otherwise, _) =>
      GuardedExpr(p, depth, env, condition);
      var x := EvalExpr(p, Lazy, depth, env, condition);
      if x.Gives? {
        GuardedBlock(p, depth, x.env, if AsBool(x.value) then taken else otherwise);
      }
    case Nested(block) => GuardedBlock(p, depth, env, block);
    case _ =>
  }

  lemma {:induction false} GuardedArgs(p: Program, depth: nat, env: seq<Val>, args: seq<Expr>)
    requires ArgsGuarded(args) && ProgramGuarded(p)
    ensures FirstArg(p, depth, env, args) == None
    decreases depth, args, 0
  {
    if args != [] {
      GuardedExpr(p, depth, env, args[0]);
      var x := EvalExpr(p, Lazy, depth, env, args[0]);
      if x.Gives? {
        GuardedArgs(p, depth, x.env, args[1..]);
      }
    }
  }

  lemma {:induction false} GuardedBlock(p: Program, depth: nat, env: seq<Val>, block: Block)
    requires BlockGuarded(block) && ProgramGuarded(p)
    ensures FirstBlock(p, depth, env, block) == None
    decreases depth, block, 0
  {
    GuardedStmts(p, depth, env, block.stmts);
    var x := EvalStmts(p, Lazy, depth, env, block.stmts);
    if x.Gives? {
      GuardedExpr(p, depth, x.env, block.value);
    }
  }

  lemma {:induction false} GuardedStmts(p: Program, depth: nat, env: seq<Val>, stmts: seq<Stmt>)
    requires StmtsGuarded(stmts) && ProgramGuarded(p)
    ensures FirstStmt(p, depth, env, stmts) == None
    decreases depth, stmts, 0
  {
    if stmts != [] {
      var stmt := stmts[0];
      if stmt.While? {
        GuardedWalk(p, depth, env, stmt);
      } else if !stmt.Fail? {
        GuardedExpr(p, depth, env, stmt.value);
      }
      var x := EvalStmt(p, Lazy, depth, env, stmt);
      if x.Gives? {
        GuardedStmts(p, depth, x.env, stmts[1..]);
      }
    }
  }

  lemma {:induction false} GuardedWalk(p: Program, depth: nat, env: seq<Val>, walk: Stmt)
    requires walk.While? && StmtGuarded(walk) && ProgramGuarded(p)
    ensures FirstTurn(p, depth, env, walk) == None
    decreases depth, walk, 0
  {
    if depth > 0 {
      GuardedExpr(p, depth, env, walk.condition);
      var x := EvalExpr(p, Lazy, depth, env, walk.condition);
      if x.Gives? && AsBool(x.value) {
        GuardedStmts(p, depth, x.env, walk.body);
        var y := EvalStmts(p, Lazy, depth, x.env, walk.body);
        if y.Gives? {
          GuardedWalk(p, depth - 1, y.env, walk);
        }
      }
    }
  }

  /** A guarded program has no such spot, whatever it is run on. */
  lemma GuardedNeverParts(p: Program, depth: nat, f: Function, args: seq<Val>)
    requires ProgramGuarded(p) && f in p
    ensures FirstFunction(p, depth, f, args) == None
  {
    GuardedBlock(p, depth, Slots(f, args), f.body);
  }

  // -- a program that parts --------------------------------------------------

  /** `false and 1 / 0 == 0`. */
  const BEHIND_AND: Expr := Binary(And, BoolLit(false), Binary(Eq, Binary(DivInt, IntLit(1), IntLit(0)), IntLit(0)))

  /** One function that answers that. */
  const DIVIDES: Program := [Function([], Ty.Bool, [], Block.Block([], BEHIND_AND))]

  lemma DivisionBehindAnd(p: Program, depth: nat, env: seq<Val>)
    ensures EvalExpr(p, Lazy, depth, env, BEHIND_AND) == Gives(BoolV(false), env)
    ensures EvalExpr(p, Strict, depth, env, BEHIND_AND) == Fails(ARITHMETIC_CODE, ARITHMETIC_MESSAGE)
  {
    var quotient := Binary(DivInt, IntLit(1), IntLit(0));
    var test := Binary(Eq, quotient, IntLit(0));
    assert EvalExpr(p, Strict, depth, env, quotient) == Arith(DivInt, 1, 0, env);
    assert EvalExpr(p, Strict, depth, env, test) == Fails(ARITHMETIC_CODE, ARITHMETIC_MESSAGE);
    assert EvalExpr(p, Lazy, depth, env, BoolLit(false)) == Gives(BoolV(false), env);
    assert EvalExpr(p, Strict, depth, env, BoolLit(false)) == Gives(BoolV(false), env);
  }

  const QUOTIENT: Expr := Binary(DivInt, IntLit(1), IntLit(0))

  lemma DividesCallable()
    ensures CompileTheorem.Callable(DIVIDES, 0, [])
  {
    var f := DIVIDES[0];
    assert ExprOk(DIVIDES, f, IntLit(1)) && ExprOk(DIVIDES, f, IntLit(0)) && ExprOk(DIVIDES, f, BoolLit(false));
    assert ExprOk(DIVIDES, f, QUOTIENT);
    var test := Binary(Eq, QUOTIENT, IntLit(0));
    assert ExprOk(DIVIDES, f, test);
    assert ExprOk(DIVIDES, f, f.body.value);
    assert StmtsOk(DIVIDES, f, f.body.stmts) && BlockOk(DIVIDES, f, f.body);
    assert FunctionOk(DIVIDES, f);
    DividesFits();
  }

  lemma PlaceRoom(strings: Strings, text: Text)
    ensures Place(strings, text).0.next <= strings.next + |text| + 24
  {
  }

  lemma DividesFits()
    ensures CompileTheorem.LiteralsFit(DIVIDES)
  {
    var cx, d := Cx(DIVIDES, DIVIDES[0], 0), Begin(DIVIDES[0], NO_STRINGS);
    QuotientStrings(cx, d);
    var test := Binary(Eq, QUOTIENT, IntLit(0));
    hide CheckedBinary, Place, SlotsFrom, BinaryIns;
    assert CompileExpr(cx, d, test) == CompileBinary(cx, d, test);
    assert CompileBinary(cx, d, test).draft.strings == CompileExpr(cx, d, QUOTIENT).draft.strings;
    assert CompileExpr(cx, d, BEHIND_AND) == CompileBinary(cx, d, BEHIND_AND);
    assert CompileExpr(cx, d, BoolLit(false)).draft == d;
    assert CompileBinary(cx, d, BEHIND_AND).draft.strings == CompileExpr(cx, d, test).draft.strings;
    assert CompileStmts(cx, d, []).draft == d;
    assert CompileBody(cx, NO_STRINGS).draft.strings == CompileExpr(cx, d, BEHIND_AND).draft.strings;
    assert Whole.StringsAt(DIVIDES, 0) == NO_STRINGS;
    assert Whole.StringsAt(DIVIDES, 1) == CompileBody(cx, NO_STRINGS).draft.strings;
  }

  lemma QuotientStrings(cx: Cx, d: Draft)
    ensures CompileExpr(cx, d, QUOTIENT).draft.strings.next <= d.strings.next + 100
  {
    hide Place;
    var one := CompileExpr(cx, Took(Took(d, I64), I64), IntLit(1));
    var two := CompileExpr(cx, one.draft, IntLit(0));
    assert one.draft.strings == d.strings && two.draft.strings == d.strings;
    assert CompileExpr(cx, d, QUOTIENT) == CompileBinary(cx, d, QUOTIENT);
    assert CompileBinary(cx, d, QUOTIENT).draft == ArithmeticFailure(two.draft).draft;
    PlaceRoom(d.strings, ARITHMETIC_CODE);
    PlaceRoom(Place(d.strings, ARITHMETIC_CODE).0, ARITHMETIC_MESSAGE);
  }

  lemma DividesMeans(depth: nat)
    ensures EvalFunction(DIVIDES, Lazy, depth, DIVIDES[0], []) == Gives(BoolV(false), [])
    ensures EvalFunction(DIVIDES, Strict, depth, DIVIDES[0], []) == Fails(ARITHMETIC_CODE, ARITHMETIC_MESSAGE)
  {
    var f := DIVIDES[0];
    assert Slots(f, []) == [];
    DivisionBehindAnd(DIVIDES, depth, []);
    OnlyValue(DIVIDES, Lazy, depth, [], f.body);
    OnlyValue(DIVIDES, Strict, depth, [], f.body);
    hide EvalExpr, EvalBlock;
  }

  /** Compiled, that program fails; interpreted, it answers false. */
  lemma CompiledDivides()
    ensures CompileTheorem.RunFails(DIVIDES, 0, [], ARITHMETIC_CODE, ARITHMETIC_MESSAGE)
    ensures forall depth: nat :: EvalFunction(DIVIDES, Lazy, depth, DIVIDES[0], []) == Gives(BoolV(false), [])
  {
    hide CompileTheorem.RunFails, CompileTheorem.Callable, EvalFunction;
    DividesCallable();
    forall depth: nat
      ensures EvalFunction(DIVIDES, Lazy, depth, DIVIDES[0], []) == Gives(BoolV(false), [])
    {
      DividesMeans(depth);
    }
    DividesMeans(0);
    assert CompileTheorem.Meant(DIVIDES, 0, [], 0) == Fails(ARITHMETIC_CODE, ARITHMETIC_MESSAGE);
    CompileTheorem.SameMeaning(DIVIDES, 0, [], None, ARITHMETIC_CODE, ARITHMETIC_MESSAGE);
  }
}
