/**
 * The scalar part of the mid-level IR, and what it means: numbers, booleans, unit, slots,
 * calls, blocks, branches, walks, early returns and contract failures.
 */
module Ir {
  import opened Ints
  import opened Types
  import Exact

  datatype UnaryOp = Not | Negate

  datatype BinaryOp =
    | AddInt | SubInt | MulInt | DivInt | RemInt
    | Eq | Ne | LtInt | LeInt | GtInt | GeInt | And | Or

  datatype Expr =
    | UnitLit
    | BoolLit(b: bool)
    | IntLit(n: i64)
    | Local(local: nat)
    | Unary(uop: UnaryOp, operand: Expr)
    | Binary(op: BinaryOp, left: Expr, right: Expr)
    | Call(func: nat, args: seq<Expr>)
    | If(condition: Expr, taken: Block, otherwise: Block, ty: Ty)
    | Nested(block: Block)

  datatype Block = Block(stmts: seq<Stmt>, value: Expr)

  datatype Stmt =
    | Assign(slot: nat, value: Expr)
    | Discard(value: Expr)
    | Return(value: Expr)
    | Fail(code: Text, message: Text)
    | While(condition: Expr, body: seq<Stmt>)

  datatype Function = Function(params: seq<Ty>, ret: Ty, locals: seq<Ty>, body: Block)

  type Program = seq<Function>

  predicate Arithmetic(op: BinaryOp) {
    op.AddInt? || op.SubInt? || op.MulInt? || op.DivInt? || op.RemInt?
  }

  // -- types -----------------------------------------------------------------

  predicate Scalar(ty: Ty) { ty.Unit? || ty.Bool? || ty.Int? }

  function ResultTy(op: BinaryOp): Ty { if Arithmetic(op) then Ty.Int else Ty.Bool }

  /** What an expression produces. */
  function TyOf(p: Program, f: Function, e: Expr): Ty {
    match e
    case UnitLit => Ty.Unit
    case BoolLit(_) => Ty.Bool
    case IntLit(_) => Ty.Int
    case Local(i) => if i < |f.locals| then f.locals[i] else Ty.Unit
    case Unary(op, _) => if op.Not? then Ty.Bool else Ty.Int
    case Binary(op, _, _) => ResultTy(op)
    case Call(g, _) => if g < |p| then p[g].ret else Ty.Unit
    case If(_, _, _, ty) => ty
    case Nested(block) => TyOf(p, f, block.value)
  }

  /** What the operands of an operator have to be, given the left one's type. */
  predicate Operands(op: BinaryOp, left: Ty, right: Ty) {
    && left == right
    && (op.And? || op.Or? ==> left == Ty.Bool)
    && (!(op.And? || op.Or? || op.Eq? || op.Ne?) ==> left == Ty.Int)
  }

  predicate ExprOk(p: Program, f: Function, e: Expr) {
    Scalar(TyOf(p, f, e)) &&
    match e
    case Local(i) => i < |f.locals|
    case Unary(op, operand) =>
      ExprOk(p, f, operand) && TyOf(p, f, operand) == if op.Not? then Ty.Bool else Ty.Int
    case Binary(op, left, right) =>
      ExprOk(p, f, left) && ExprOk(p, f, right) && Operands(op, TyOf(p, f, left), TyOf(p, f, right))
    case Call(g, args) =>
      g < |p| && ArgsOk(p, f, args) && |args| == |p[g].params| &&
      forall i | 0 <= i < |args| :: TyOf(p, f, args[i]) == p[g].params[i]
    case If(condition, taken, otherwise, ty) =>
      && ExprOk(p, f, condition) && TyOf(p, f, condition) == Ty.Bool
      && BlockOk(p, f, taken) && TyOf(p, f, taken.value) == ty
      && BlockOk(p, f, otherwise) && TyOf(p, f, otherwise.value) == ty
    case Nested(block) => BlockOk(p, f, block)
    case _ => true
  }

  predicate ArgsOk(p: Program, f: Function, args: seq<Expr>) {
    args == [] || (ExprOk(p, f, args[0]) && ArgsOk(p, f, args[1..]))
  }

  predicate BlockOk(p: Program, f: Function, block: Block) {
    StmtsOk(p, f, block.stmts) && ExprOk(p, f, block.value)
  }

  predicate StmtsOk(p: Program, f: Function, stmts: seq<Stmt>) {
    stmts == [] || (StmtOk(p, f, stmts[0]) && StmtsOk(p, f, stmts[1..]))
  }

  predicate StmtOk(p: Program, f: Function, stmt: Stmt) {
    match stmt
    case Assign(i, e) => ExprOk(p, f, e) && i < |f.locals| && TyOf(p, f, e) == f.locals[i]
    case Discard(e) => ExprOk(p, f, e)
    case Return(e) => ExprOk(p, f, e) && TyOf(p, f, e) == f.ret
    case Fail(_, _) => true
    case While(condition, body) => ExprOk(p, f, condition) && TyOf(p, f, condition) == Ty.Bool && StmtsOk(p, f, body)
  }

  predicate FunctionOk(p: Program, f: Function) {
    && f.params <= f.locals && Scalar(f.ret)
    && (forall ty | ty in f.locals :: Scalar(ty))
    && BlockOk(p, f, f.body) && TyOf(p, f, f.body.value) == f.ret
  }

  predicate ProgramOk(p: Program) { forall f | f in p :: FunctionOk(p, f) }

  // -- meaning ---------------------------------------------------------------

  datatype Val = UnitV | BoolV(b: bool) | IntV(n: i64)

  function ValTy(v: Val): Ty {
    match v case UnitV => Ty.Unit case BoolV(_) => Ty.Bool case IntV(_) => Ty.Int
  }

  function Default(ty: Ty): Val {
    match ty case Bool => BoolV(false) case Int => IntV(0) case _ => UnitV
  }

  function AsInt(v: Val): i64 { if v.IntV? then v.n else 0 }

  function AsBool(v: Val): bool { v.BoolV? && v.b }

  /** `Deep` is a meaning that was not reached within the depth asked for. */
  datatype Eval<+T> = Gives(value: T, env: seq<Val>) | Returns(answer: Val) | Fails(code: Text, message: Text) | Deep

  /**
   * What `and` and `or` do with their right side. `Strict` is how the backend compiles
   * them; `Lazy` is how the interpreter runs them, which leaves it alone when the left side
   * has decided.
   */
  datatype Mode = Strict | Lazy

  // "DEED6007" and "this arithmetic has no answer"
  const ARITHMETIC_CODE: Text := [68, 69, 69, 68, 54, 48, 48, 55]
  const ARITHMETIC_MESSAGE: Text :=
    [116, 104, 105, 115, 32, 97, 114, 105, 116, 104, 109, 101, 116, 105, 99, 32,
     104, 97, 115, 32, 110, 111, 32, 97, 110, 115, 119, 101, 114]

  predicate Fits64(n: int) { Exact.Fits(n) }

  function Checked(n: int, env: seq<Val>): Eval<Val> {
    if Fits64(n) then Gives(IntV(n), env) else Fails(ARITHMETIC_CODE, ARITHMETIC_MESSAGE)
  }

  /**
   * The five arithmetic operators. Division rounds towards zero, and a remainder is refused
   * along with the quotient it goes with.
   */
  function Arith(op: BinaryOp, x: i64, y: i64, env: seq<Val>): Eval<Val>
    requires Arithmetic(op)
  {
    if op.AddInt? then Checked(x + y, env)
    else if op.SubInt? then Checked(x - y, env)
    else if op.MulInt? then Checked(x * y, env)
    else if y == 0 || !Fits64(TruncDiv(x, y)) then Fails(ARITHMETIC_CODE, ARITHMETIC_MESSAGE)
    else Gives(IntV(if op.DivInt? then TruncDiv(x, y) else Wrap64(TruncRem(x, y))), env)
  }

  function Compare(op: BinaryOp, x: Val, y: Val): bool
    requires !Arithmetic(op)
  {
    match op
    case Eq => x == y
    case Ne => x != y
    case LtInt => AsInt(x) < AsInt(y)
    case LeInt => AsInt(x) <= AsInt(y)
    case GtInt => AsInt(x) > AsInt(y)
    case GeInt => AsInt(x) >= AsInt(y)
    case And => AsBool(x) && AsBool(y)
    case Or => AsBool(x) || AsBool(y)
  }

  /** Whether the left side of `and` or `or` is the answer. */
  predicate Decided(op: BinaryOp, x: Val) {
    (op.And? && !AsBool(x)) || (op.Or? && AsBool(x))
  }

  function EvalExpr(p: Program, mode: Mode, depth: nat, env: seq<Val>, e: Expr): Eval<Val>
    decreases depth, e, 0
  {
    match e
    case UnitLit => Gives(UnitV, env)
    case BoolLit(b) => Gives(BoolV(b), env)
    case IntLit(n) => Gives(IntV(n), env)
    case Local(i) => Gives(if i < |env| then env[i] else UnitV, env)
    case Unary(op, operand) =>
      (match EvalExpr(p, mode, depth, env, operand)
       case Gives(v, after) =>
         if op.Not? then Gives(BoolV(!AsBool(v)), after) else Checked(0 - AsInt(v), after)
       case other => other)
    case Binary(op, left, right) =>
      (match EvalExpr(p, mode, depth, env, left)
       case Gives(x, between) =>
         if mode.Lazy? && Decided(op, x) then Gives(BoolV(AsBool(x)), between)
         else
           (match EvalExpr(p, mode, depth, between, right)
            case Gives(y, after) =>
              if Arithmetic(op) then Arith(op, AsInt(x), AsInt(y), after)
              else Gives(BoolV(Compare(op, x, y)), after)
            case other => other)
       case other => other)
    case Call(g, args) =>
      (match EvalArgs(p, mode, depth, env, args)
       case Gives(vs, after) =>
         if depth == 0 || g >= |p| then Deep
         else
           (match EvalFunction(p, mode, depth - 1, p[g], vs)
            case Gives(v, _) => Gives(v, after)
            case other => other)
       case Returns(v) => Returns(v)
       case Fails(code, message) => Fails(code, message)
       case Deep => Deep)
    case If(condition, taken, otherwise, _) =>
      (match EvalExpr(p, mode, depth, env, condition)
       case Gives(v, after) =>
         if AsBool(v) then EvalBlock(p, mode, depth, after, taken)
         else EvalBlock(p, mode, depth, after, otherwise)
       case other => other)
    case Nested(block) => EvalBlock(p, mode, depth, env, block)
  }

  /** Arguments, left to right. */
  function EvalArgs(p: Program, mode: Mode, depth: nat, env: seq<Val>, args: seq<Expr>): Eval<seq<Val>>
    decreases depth, args, 0
  {
    if args == [] then Gives([], env)
    else
      match EvalExpr(p, mode, depth, env, args[0])
      case Gives(v, after) =>
        (match EvalArgs(p, mode, depth, after, args[1..])
         case Gives(vs, last) => Gives([v] + vs, last)
         case other => other)
      case Returns(v) => Returns(v)
      case Fails(code, message) => Fails(code, message)
      case Deep => Deep
  }

  function EvalBlock(p: Program, mode: Mode, depth: nat, env: seq<Val>, block: Block): Eval<Val>
    decreases depth, block, 0
  {
    match EvalStmts(p, mode, depth, env, block.stmts)
    case Gives(_, after) => EvalExpr(p, mode, depth, after, block.value)
    case Returns(v) => Returns(v)
    case Fails(code, message) => Fails(code, message)
    case Deep => Deep
  }

  function EvalStmts(p: Program, mode: Mode, depth: nat, env: seq<Val>, stmts: seq<Stmt>): Eval<()>
    decreases depth, stmts, 0
  {
    if stmts == [] then Gives((), env)
    else
      match EvalStmt(p, mode, depth, env, stmts[0])
      case Gives(_, after) => EvalStmts(p, mode, depth, after, stmts[1..])
      case other => other
  }

  function EvalStmt(p: Program, mode: Mode, depth: nat, env: seq<Val>, stmt: Stmt): Eval<()>
    decreases depth, stmt, 1
  {
    match stmt
    case Assign(i, e) =>
      (match EvalExpr(p, mode, depth, env, e)
       case Gives(v, after) => Gives((), if i < |after| then after[i := v] else after)
       case Returns(v) => Returns(v)
       case Fails(code, message) => Fails(code, message)
       case Deep => Deep)
    case Discard(e) =>
      (match EvalExpr(p, mode, depth, env, e)
       case Gives(_, after) => Gives((), after)
       case Returns(v) => Returns(v)
       case Fails(code, message) => Fails(code, message)
       case Deep => Deep)
    case Return(e) =>
      (match EvalExpr(p, mode, depth, env, e)
       case Gives(v, _) => Returns(v)
       case Returns(v) => Returns(v)
       case Fails(code, message) => Fails(code, message)
       case Deep => Deep)
    case Fail(code, message) => Fails(code, message)
    case While(_, _) => EvalWhile(p, mode, depth, env, stmt)
  }

  /** A walk: every turn is one deeper. */
  function EvalWhile(p: Program, mode: Mode, depth: nat, env: seq<Val>, walk: Stmt): Eval<()>
    requires walk.While?
    decreases depth, walk, 0
  {
    if depth == 0 then Deep
    else
      match EvalExpr(p, mode, depth, env, walk.condition)
      case Gives(v, between) =>
        if !AsBool(v) then Gives((), between)
        else
          (match EvalStmts(p, mode, depth, between, walk.body)
           case Gives(_, after) => EvalWhile(p, mode, depth - 1, after, walk)
           case other => other)
      case Returns(v) => Returns(v)
      case Fails(code, message) => Fails(code, message)
      case Deep => Deep
  }

  /** A call: the arguments fill the first slots, and returning early is still an answer. */
  function EvalFunction(p: Program, mode: Mode, depth: nat, f: Function, args: seq<Val>): Eval<Val>
    decreases depth, f, 1
  {
    match EvalBlock(p, mode, depth, Slots(f, args), f.body)
    case Returns(v) => Gives(v, [])
    case other => other
  }

  function Slots(f: Function, args: seq<Val>): (env: seq<Val>)
    ensures |args| <= |f.locals| ==> |env| == |f.locals|
  {
    args + seq(if |args| <= |f.locals| then |f.locals| - |args| else 0,
               i requires 0 <= i && |args| + i < |f.locals| => Default(f.locals[|args| + i]))
  }
}
