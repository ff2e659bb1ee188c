/**
 * One program all the way through: Euclid's algorithm over a walk, a distance with an early
 * return, and a function that calls both. Compiled and run, it answers with a number that is
 * divided by exactly what divides its two arguments.
 */
module Euclid {
  import opened Ints
  import opened Wasm
  import opened Types
  import opened Run
  import CompileTheorem
  import Exact
  import Fitting
  import Ir

  // -- the program -----------------------------------------------------------

  const DIVIDE: Ir.Stmt := Ir.Assign(2, Ir.Binary(Ir.RemInt, Ir.Local(0), Ir.Local(1)))
  const SHIFT: Ir.Stmt := Ir.Assign(0, Ir.Local(1))
  const KEEP: Ir.Stmt := Ir.Assign(1, Ir.Local(2))

  const WALK: Ir.Stmt := Ir.While(Ir.Binary(Ir.Ne, Ir.Local(1), Ir.IntLit(0)), [DIVIDE, SHIFT, KEEP])

  /** While the second number is not zero, it and the remainder by it take the place of both. */
  const GCD: Ir.Function :=
    Ir.Function([Ty.Int, Ty.Int], Ty.Int, [Ty.Int, Ty.Int, Ty.Int], Ir.Block.Block([WALK], Ir.Local(0)))

  const SWAPPED: Ir.Stmt :=
    Ir.Discard(Ir.Expr.If(Ir.Binary(Ir.LtInt, Ir.Local(0), Ir.Local(1)),
                          Ir.Block.Block([Ir.Stmt.Return(Ir.Binary(Ir.SubInt, Ir.Local(1), Ir.Local(0)))], Ir.UnitLit),
                          Ir.Block.Block([], Ir.UnitLit), Ty.Unit))

  /** How far apart two numbers are, returning early when the first is smaller. */
  const APART: Ir.Function :=
    Ir.Function([Ty.Int, Ty.Int], Ty.Int, [Ty.Int, Ty.Int],
                Ir.Block.Block([SWAPPED], Ir.Binary(Ir.SubInt, Ir.Local(0), Ir.Local(1))))

  /** The first of how far apart they are and the second of them. */
  const BOTH: Ir.Function :=
    Ir.Function([Ty.Int, Ty.Int], Ty.Int, [Ty.Int, Ty.Int],
                Ir.Block.Block([], Ir.Expr.Call(0, [Ir.Expr.Call(1, [Ir.Local(0), Ir.Local(1)]), Ir.Local(1)])))

  const PROGRAM: Ir.Program := [GCD, APART, BOTH]

  // -- what it is for --------------------------------------------------------

  function Gcd(a: nat, b: nat): nat
    decreases b
  {
    if b == 0 then a else Gcd(b, a % b)
  }

  predicate Into(k: nat, n: int)
    requires k > 0
  {
    n % k == 0
  }

  lemma IntoMultiple(k: nat, n: int, q: int)
    requires k > 0 && n == k * q
    ensures Into(k, n)
  {
    assert n == k * (n / k) + n % k;
    assert k * (q - n / k) == n % k;
    Exact.NoSmallMultiple(q - n / k, k);
  }

  /** What divides two numbers divides the first with any number of the second taken away. */
  lemma IntoLess(k: nat, a: int, b: int, m: int)
    requires k > 0 && Into(k, a) && Into(k, b)
    ensures Into(k, a - m * b)
  {
    var i, j := a / k, b / k;
    assert a == k * i && b == k * j;
    assert a - m * b == k * (i - m * j);
    IntoMultiple(k, a - m * b, i - m * j);
  }

  lemma IntoNothing(k: nat)
    requires k > 0
    ensures Into(k, 0)
  {
  }

  /** A number divides the answer exactly when it divides both arguments. */
  lemma {:induction false} GcdMeans(a: nat, b: nat, k: nat)
    requires k > 0
    ensures Into(k, Gcd(a, b)) <==> Into(k, a) && Into(k, b)
    decreases b
  {
    hide Into;
    if b == 0 {
      IntoNothing(k);
    } else {
      GcdMeans(b, a % b, k);
      var q := a / b;
      assert a - q * b == a % b && a % b - -q * b == a;
      if Into(k, a) && Into(k, b) {
        IntoLess(k, a, b, q);
      }
      if Into(k, a % b) && Into(k, b) {
        IntoLess(k, a % b, b, -q);
      }
    }
  }

  function Distance(x: nat, y: nat): nat { if x < y then y - x else x - y }

  lemma DistanceMeans(x: nat, y: nat, k: nat)
    requires k > 0
    ensures Into(k, Gcd(Distance(x, y), y)) <==> Into(k, x) && Into(k, y)
  {
    var d := Distance(x, y);
    GcdMeans(d, y, k);
    if Into(k, x) && Into(k, y) {
      IntoLess(k, x, y, 1);
      IntoLess(k, y, x, 1);
    }
    if Into(k, d) && Into(k, y) {
      IntoLess(k, y, d, 1);
      IntoLess(k, d, y, -1);
    }
  }

  // -- what the IR says of it ------------------------------------------------

  lemma RemainderIs(a: nat, b: nat, env: seq<Ir.Val>)
    requires 0 < b && a <= MAX_64 && b <= MAX_64
    ensures Ir.Arith(Ir.RemInt, a, b, env) == Ir.Gives(Ir.IntV(a % b), env)
  {
    Exact.QuotientTest(a, b);
    assert a == a / b * b + a % b;
  }

  /** A walk that has room for every turn ends with the answer in the first slot. */
  lemma {:induction false} WalkMeans(a: nat, b: nat, rest: i64, depth: nat) returns (env: seq<Ir.Val>)
    requires a <= MAX_64 && b <= MAX_64 && depth > b
    ensures Ir.EvalWhile(PROGRAM, Ir.Strict, depth, [Ir.IntV(a), Ir.IntV(b), Ir.IntV(rest)], WALK) == Ir.Gives((), env)
    ensures |env| == 3 && Gcd(a, b) <= MAX_64 && env[0] == Ir.IntV(Gcd(a, b))
    decreases b
  {
    env := [Ir.IntV(a), Ir.IntV(b), Ir.IntV(rest)];
    TestMeans(a, b, rest, depth);
    if b != 0 {
      TurnMeans(a, b, rest, depth);
      env := WalkMeans(b, a % b, a % b, depth - 1);
    }
  }

  lemma TestMeans(a: i64, b: i64, rest: i64, depth: nat)
    ensures
      var env := [Ir.IntV(a), Ir.IntV(b), Ir.IntV(rest)];
      Ir.EvalExpr(PROGRAM, Ir.Strict, depth, env, WALK.condition) == Ir.Gives(Ir.BoolV(b != 0), env)
  {
  }

  lemma LocalsRead(depth: nat, env: seq<Ir.Val>, i: nat, j: nat)
    requires i < |env| && j < |env|
    ensures Ir.EvalExpr(PROGRAM, Ir.Strict, depth, env, Ir.Local(i)) == Ir.Gives(env[i], env)
    ensures Ir.EvalExpr(PROGRAM, Ir.Strict, depth, env, Ir.Local(j)) == Ir.Gives(env[j], env)
  {
  }

  lemma TurnMeans(a: nat, b: nat, rest: i64, depth: nat)
    requires 0 < b && a <= MAX_64 && b <= MAX_64
    ensures
      Ir.EvalStmts(PROGRAM, Ir.Strict, depth, [Ir.IntV(a), Ir.IntV(b), Ir.IntV(rest)], WALK.body)
        == Ir.Gives((), [Ir.IntV(b), Ir.IntV(a % b), Ir.IntV(a % b)])
  {
    var n: i64 := a % b;
    var one, two, three, four :=
      [Ir.IntV(a), Ir.IntV(b), Ir.IntV(rest)], [Ir.IntV(a), Ir.IntV(b), Ir.IntV(n)],
      [Ir.IntV(b), Ir.IntV(b), Ir.IntV(n)], [Ir.IntV(b), Ir.IntV(n), Ir.IntV(n)];
    assert one[2 := Ir.IntV(n)] == two && two[0 := Ir.IntV(b)] == three && three[1 := Ir.IntV(n)] == four;
    RemainderIs(a, b, one);
    LocalsRead(depth, one, 0, 1);
    assert Ir.EvalExpr(PROGRAM, Ir.Strict, depth, one, DIVIDE.value) == Ir.Gives(Ir.IntV(n), one);
    assert Ir.EvalStmt(PROGRAM, Ir.Strict, depth, one, DIVIDE) == Ir.Gives((), two);
    assert Ir.EvalStmt(PROGRAM, Ir.Strict, depth, two, SHIFT) == Ir.Gives((), three);
    assert Ir.EvalStmt(PROGRAM, Ir.Strict, depth, three, KEEP) == Ir.Gives((), four);
    OneStmt(depth, three, KEEP, [], four, four);
    assert Ir.EvalStmts(PROGRAM, Ir.Strict, depth, four, []) == Ir.Gives((), four);
    OneStmt(depth, two, SHIFT, [KEEP], three, four);
    OneStmt(depth, one, DIVIDE, [SHIFT, KEEP], two, four);
    assert [DIVIDE] + [SHIFT, KEEP] == WALK.body && [SHIFT] + [KEEP] == [SHIFT, KEEP] && [KEEP] + [] == [KEEP];
  }

  /** One statement and then the rest. */
  lemma OneStmt(depth: nat, env: seq<Ir.Val>, stmt: Ir.Stmt, rest: seq<Ir.Stmt>, between: seq<Ir.Val>, after: seq<Ir.Val>)
    requires Ir.EvalStmt(PROGRAM, Ir.Strict, depth, env, stmt) == Ir.Gives((), between)
    ensures Ir.EvalStmts(PROGRAM, Ir.Strict, depth, between, rest) == Ir.Gives((), after) ==>
              Ir.EvalStmts(PROGRAM, Ir.Strict, depth, env, [stmt] + rest) == Ir.Gives((), after)
  {
    hide Ir.EvalStmt;
    assert ([stmt] + rest)[1..] == rest;
  }

  // -- calls -----------------------------------------------------------------

  lemma NothingAfter(depth: nat, env: seq<Ir.Val>)
    ensures Ir.EvalStmts(PROGRAM, Ir.Strict, depth, env, []) == Ir.Gives((), env)
  {
  }

  /** The slots beyond the arguments start at zero. */
  lemma SlotsFilled(args: seq<Ir.Val>)
    requires |args| == 2
    ensures Ir.Slots(GCD, args) == args + [Ir.IntV(0)]
  {
    var slots := Ir.Slots(GCD, args);
    assert |GCD.locals| == 3 && GCD.locals[2] == Ty.Int;
    assert |slots| == 3 && slots[2] == Ir.Default(GCD.locals[2]) == Ir.IntV(0);
    assert forall i | 0 <= i < 2 :: slots[i] == args[i];
  }

  /** The first function answers with the greatest common divisor, however often its walk turns. */
  lemma GcdAnswers(a: nat, b: nat, depth: nat)
    requires a <= MAX_64 && b <= MAX_64 && depth > b
    ensures Gcd(a, b) <= MAX_64
    ensures Ir.EvalFunction(PROGRAM, Ir.Strict, depth, GCD, [Ir.IntV(a), Ir.IntV(b)]).Gives?
    ensures Ir.EvalFunction(PROGRAM, Ir.Strict, depth, GCD, [Ir.IntV(a), Ir.IntV(b)]).value == Ir.IntV(Gcd(a, b))
  {
    hide Ir.EvalWhile;
    var start := [Ir.IntV(a), Ir.IntV(b), Ir.IntV(0)];
    var env := WalkMeans(a, b, 0, depth);
    assert Ir.Slots(GCD, [Ir.IntV(a), Ir.IntV(b)]) == start by { SlotsFilled([Ir.IntV(a), Ir.IntV(b)]); }
    assert Ir.EvalStmt(PROGRAM, Ir.Strict, depth, start, WALK) == Ir.Gives((), env);
    OneStmt(depth, start, WALK, [], env, env);
    NothingAfter(depth, env);
    assert [WALK] + [] == GCD.body.stmts;
    assert Ir.EvalBlock(PROGRAM, Ir.Strict, depth, start, GCD.body) == Ir.Gives(Ir.IntV(Gcd(a, b)), env);
  }

  /** The second answers with the distance, by an early return or at its end. */
  lemma ApartAnswers(x: nat, y: nat, depth: nat)
    requires x <= MAX_64 && y <= MAX_64
    ensures Ir.EvalFunction(PROGRAM, Ir.Strict, depth, APART, [Ir.IntV(x), Ir.IntV(y)]).Gives?
    ensures Ir.EvalFunction(PROGRAM, Ir.Strict, depth, APART, [Ir.IntV(x), Ir.IntV(y)]).value == Ir.IntV(Distance(x, y))
  {
    var env := [Ir.IntV(x), Ir.IntV(y)];
    assert Ir.Slots(APART, env) == env;
    SwappedMeans(x, y, depth);
    assert [SWAPPED] + [] == APART.body.stmts;
    NothingAfter(depth, env);
    hide Ir.EvalStmt;
    if x < y {
      assert Ir.EvalStmts(PROGRAM, Ir.Strict, depth, env, APART.body.stmts) == Ir.Returns(Ir.IntV(y - x));
    } else {
      OneStmt(depth, env, SWAPPED, [], env, env);
      assert Ir.EvalExpr(PROGRAM, Ir.Strict, depth, env, APART.body.value) == Ir.Gives(Ir.IntV(x - y), env);
    }
  }

  lemma SwappedMeans(x: nat, y: nat, depth: nat)
    requires x <= MAX_64 && y <= MAX_64
    ensures
      var env := [Ir.IntV(x), Ir.IntV(y)];
      Ir.EvalStmt(PROGRAM, Ir.Strict, depth, env, SWAPPED) == if x < y then Ir.Returns(Ir.IntV(y - x)) else Ir.Gives((), env)
  {
    var env := [Ir.IntV(x), Ir.IntV(y)];
    NothingAfter(depth, env);
    var test := Ir.Binary(Ir.LtInt, Ir.Local(0), Ir.Local(1));
    assert Ir.EvalExpr(PROGRAM, Ir.Strict, depth, env, test) == Ir.Gives(Ir.BoolV(x < y), env);
    var leave := Ir.Stmt.Return(Ir.Binary(Ir.SubInt, Ir.Local(1), Ir.Local(0)));
    if x < y {
      assert Ir.EvalExpr(PROGRAM, Ir.Strict, depth, env, leave.value) == Ir.Gives(Ir.IntV(y - x), env);
      assert Ir.EvalStmt(PROGRAM, Ir.Strict, depth, env, leave) == Ir.Returns(Ir.IntV(y - x));
      assert Ir.EvalStmts(PROGRAM, Ir.Strict, depth, env, [leave]) == Ir.Returns(Ir.IntV(y - x));
      assert Ir.EvalBlock(PROGRAM, Ir.Strict, depth, env, Ir.Block.Block([leave], Ir.UnitLit)) == Ir.Returns(Ir.IntV(y - x));
    } else {
      assert Ir.EvalBlock(PROGRAM, Ir.Strict, depth, env, Ir.Block.Block([], Ir.UnitLit)) == Ir.Gives(Ir.UnitV, env);
    }
  }

  /** The third calls the second and then the first. */
  lemma BothAnswers(x: nat, y: nat, depth: nat)
    requires x <= MAX_64 && y <= MAX_64 && depth > y + 1
    ensures Gcd(Distance(x, y), y) <= MAX_64
    ensures Ir.EvalFunction(PROGRAM, Ir.Strict, depth, BOTH, [Ir.IntV(x), Ir.IntV(y)]).Gives?
    ensures Ir.EvalFunction(PROGRAM, Ir.Strict, depth, BOTH, [Ir.IntV(x), Ir.IntV(y)]).value == Ir.IntV(Gcd(Distance(x, y), y))
  {
    hide Ir.EvalFunction;
    var env := [Ir.IntV(x), Ir.IntV(y)];
    assert Ir.Slots(BOTH, env) == env;
    ApartAnswers(x, y, depth - 1);
    GcdAnswers(Distance(x, y), y, depth - 1);
    var inner := Ir.Expr.Call(1, [Ir.Local(0), Ir.Local(1)]);
    TwoArgs(depth, env, Ir.Local(0), Ir.Local(1), Ir.IntV(x), Ir.IntV(y));
    assert Ir.EvalExpr(PROGRAM, Ir.Strict, depth, env, inner) == Ir.Gives(Ir.IntV(Distance(x, y)), env);
    TwoArgs(depth, env, inner, Ir.Local(1), Ir.IntV(Distance(x, y)), Ir.IntV(y));
    assert Ir.EvalExpr(PROGRAM, Ir.Strict, depth, env, BOTH.body.value) == Ir.Gives(Ir.IntV(Gcd(Distance(x, y), y)), env);
    NothingAfter(depth, env);
    BodyAnswers(env, depth, Ir.IntV(Gcd(Distance(x, y), y)));
  }

  lemma BodyAnswers(env: seq<Ir.Val>, depth: nat, v: Ir.Val)
    requires Ir.Slots(BOTH, env) == env && Ir.EvalExpr(PROGRAM, Ir.Strict, depth, env, BOTH.body.value) == Ir.Gives(v, env)
    ensures Ir.EvalFunction(PROGRAM, Ir.Strict, depth, BOTH, env) == Ir.Gives(v, env)
  {
    hide Ir.EvalExpr;
    NothingAfter(depth, env);
  }

  lemma TwoArgs(depth: nat, env: seq<Ir.Val>, one: Ir.Expr, two: Ir.Expr, v: Ir.Val, u: Ir.Val)
    requires Ir.EvalExpr(PROGRAM, Ir.Strict, depth, env, one) == Ir.Gives(v, env)
    requires Ir.EvalExpr(PROGRAM, Ir.Strict, depth, env, two) == Ir.Gives(u, env)
    ensures Ir.EvalArgs(PROGRAM, Ir.Strict, depth, env, [one, two]) == Ir.Gives([v, u], env)
  {
    hide Ir.EvalExpr;
    assert [one, two][1..] == [two] && [two][1..] == [];
    var none: seq<Ir.Val> := [];
    assert [u] + none == [u] && [v] + [u] == [v, u];
    assert Ir.EvalArgs(PROGRAM, Ir.Strict, depth, env, []) == Ir.Gives(none, env);
    assert Ir.EvalArgs(PROGRAM, Ir.Strict, depth, env, [two]) == Ir.Gives([u], env);
  }

  // -- compiled --------------------------------------------------------------

  lemma ProgramTyped()
    ensures Ir.ProgramOk(PROGRAM) && Fitting.QuietProgram(PROGRAM)
  {
    GcdTyped();
    ApartTyped();
    BothTyped();
    forall f | f in PROGRAM ensures Ir.FunctionOk(PROGRAM, f) && Fitting.QuietBlock(f.body) {
      assert f == GCD || f == APART || f == BOTH;
    }
  }

  ghost predicate IntAt(f: Ir.Function, i: nat) { i < |f.locals| && f.locals[i] == Ty.Int }

  lemma LocalTyped(f: Ir.Function, i: nat)
    requires IntAt(f, i)
    ensures Ir.ExprOk(PROGRAM, f, Ir.Local(i)) && Ir.TyOf(PROGRAM, f, Ir.Local(i)) == Ty.Int && Fitting.QuietExpr(Ir.Local(i))
  {
  }

  lemma BinaryTyped(f: Ir.Function, op: Ir.BinaryOp, i: nat, j: nat)
    requires IntAt(f, i) && IntAt(f, j) && !op.And? && !op.Or?
    ensures
      var e := Ir.Binary(op, Ir.Local(i), Ir.Local(j));
      Ir.ExprOk(PROGRAM, f, e) && Ir.TyOf(PROGRAM, f, e) == Ir.ResultTy(op) && Fitting.QuietExpr(e)
  {
    LocalTyped(f, i);
    LocalTyped(f, j);
  }

  lemma AssignTyped(f: Ir.Function, i: nat, e: Ir.Expr)
    requires IntAt(f, i) && Ir.ExprOk(PROGRAM, f, e) && Ir.TyOf(PROGRAM, f, e) == Ty.Int && Fitting.QuietExpr(e)
    ensures Ir.StmtOk(PROGRAM, f, Ir.Assign(i, e)) && Fitting.QuietStmt(Ir.Assign(i, e))
  {
  }

  lemma NoneTyped(f: Ir.Function)
    ensures Ir.StmtsOk(PROGRAM, f, []) && Fitting.QuietStmts([]) && Ir.ArgsOk(PROGRAM, f, []) && Fitting.QuietArgs([])
  {
  }

  lemma StmtTyped(f: Ir.Function, stmt: Ir.Stmt, rest: seq<Ir.Stmt>)
    requires Ir.StmtOk(PROGRAM, f, stmt) && Ir.StmtsOk(PROGRAM, f, rest) && Fitting.QuietStmt(stmt) && Fitting.QuietStmts(rest)
    ensures Ir.StmtsOk(PROGRAM, f, [stmt] + rest) && Fitting.QuietStmts([stmt] + rest)
  {
    assert ([stmt] + rest)[1..] == rest;
  }

  lemma ArgTyped(f: Ir.Function, e: Ir.Expr, rest: seq<Ir.Expr>)
    requires Ir.ExprOk(PROGRAM, f, e) && Ir.ArgsOk(PROGRAM, f, rest) && Fitting.QuietExpr(e) && Fitting.QuietArgs(rest)
    ensures Ir.ArgsOk(PROGRAM, f, [e] + rest) && Fitting.QuietArgs([e] + rest)
  {
    assert ([e] + rest)[1..] == rest;
  }

  lemma GcdTyped()
    ensures Ir.FunctionOk(PROGRAM, GCD) && Fitting.QuietBlock(GCD.body)
  {
    assert |GCD.locals| == 3 && IntAt(GCD, 0) && IntAt(GCD, 1) && IntAt(GCD, 2);
    BinaryTyped(GCD, Ir.RemInt, 0, 1);
    LocalTyped(GCD, 0);
    LocalTyped(GCD, 1);
    LocalTyped(GCD, 2);
    AssignTyped(GCD, 2, DIVIDE.value);
    AssignTyped(GCD, 0, Ir.Local(1));
    AssignTyped(GCD, 1, Ir.Local(2));
    NoneTyped(GCD);
    StmtTyped(GCD, KEEP, []);
    StmtTyped(GCD, SHIFT, [KEEP] + []);
    StmtTyped(GCD, DIVIDE, [SHIFT] + ([KEEP] + []));
    assert [DIVIDE] + ([SHIFT] + ([KEEP] + [])) == WALK.body;
    WalkTyped();
    StmtTyped(GCD, WALK, []);
    assert [WALK] + [] == GCD.body.stmts;
    assert GCD.locals[..2] == GCD.params;
  }

  lemma WalkTyped()
    requires Ir.StmtsOk(PROGRAM, GCD, WALK.body) && Fitting.QuietStmts(WALK.body)
    ensures Ir.StmtOk(PROGRAM, GCD, WALK) && Fitting.QuietStmt(WALK)
  {
    assert |GCD.locals| == 3 && IntAt(GCD, 1);
    LocalTyped(GCD, 1);
    assert Ir.ExprOk(PROGRAM, GCD, Ir.IntLit(0));
  }

  lemma ApartTyped()
    ensures Ir.FunctionOk(PROGRAM, APART) && Fitting.QuietBlock(APART.body)
  {
    assert |APART.locals| == 2 && IntAt(APART, 0) && IntAt(APART, 1);
    BinaryTyped(APART, Ir.SubInt, 0, 1);
    SwappedTyped();
    NoneTyped(APART);
    StmtTyped(APART, SWAPPED, []);
    assert [SWAPPED] + [] == APART.body.stmts;
  }

  lemma SwappedTyped()
    ensures Ir.StmtOk(PROGRAM, APART, SWAPPED) && Fitting.QuietStmt(SWAPPED)
  {
    assert |APART.locals| == 2 && IntAt(APART, 0) && IntAt(APART, 1);
    var leave := Ir.Stmt.Return(Ir.Binary(Ir.SubInt, Ir.Local(1), Ir.Local(0)));
    var e := SWAPPED.value;
    BinaryTyped(APART, Ir.LtInt, 0, 1);
    BinaryTyped(APART, Ir.SubInt, 1, 0);
    NoneTyped(APART);
    StmtTyped(APART, leave, []);
    assert [leave] + [] == [leave];
    assert Ir.ExprOk(PROGRAM, APART, Ir.UnitLit) && Fitting.QuietExpr(Ir.UnitLit);
    assert Ir.BlockOk(PROGRAM, APART, e.taken) && Fitting.QuietBlock(e.taken);
    assert Ir.BlockOk(PROGRAM, APART, e.otherwise) && Fitting.QuietBlock(e.otherwise);
    assert Ir.ExprOk(PROGRAM, APART, e) && Fitting.QuietExpr(e);
  }

  lemma BothTyped()
    ensures Ir.FunctionOk(PROGRAM, BOTH) && Fitting.QuietBlock(BOTH.body)
  {
    assert |BOTH.locals| == 2 && IntAt(BOTH, 0) && IntAt(BOTH, 1);
    var inner := Ir.Expr.Call(1, [Ir.Local(0), Ir.Local(1)]);
    LocalTyped(BOTH, 0);
    LocalTyped(BOTH, 1);
    NoneTyped(BOTH);
    ArgTyped(BOTH, Ir.Local(1), []);
    ArgTyped(BOTH, Ir.Local(0), [Ir.Local(1)] + []);
    assert [Ir.Local(0)] + ([Ir.Local(1)] + []) == [Ir.Local(0), Ir.Local(1)];
    CallTyped(1, Ir.Local(0), Ir.Local(1));
    ArgTyped(BOTH, inner, [Ir.Local(1)] + []);
    assert [inner] + ([Ir.Local(1)] + []) == [inner, Ir.Local(1)];
    CallTyped(0, inner, Ir.Local(1));
    NoneTyped(BOTH);
  }

  lemma CallTyped(g: nat, one: Ir.Expr, two: Ir.Expr)
    requires g < 2 && Ir.ArgsOk(PROGRAM, BOTH, [one, two]) && Fitting.QuietArgs([one, two])
    requires Ir.TyOf(PROGRAM, BOTH, one) == Ty.Int && Ir.TyOf(PROGRAM, BOTH, two) == Ty.Int
    ensures
      var e := Ir.Expr.Call(g, [one, two]);
      Ir.ExprOk(PROGRAM, BOTH, e) && Ir.TyOf(PROGRAM, BOTH, e) == Ty.Int && Fitting.QuietExpr(e)
  {
    assert PROGRAM[g].params == [Ty.Int, Ty.Int] && PROGRAM[g].ret == Ty.Int;
  }

  /**
   * The compiled module, run on any two numbers that are not negative, answers within every large
   * enough budget and leaves memory alone; and what it answers is divided by exactly what divides
   * both of them.
   */
  lemma CompiledDivisor(x: i64, y: i64) returns (cost: nat, answer: i64)
    requires x >= 0 && y >= 0
    ensures forall budget: nat | cost <= budget ::
              CompileTheorem.Ran(PROGRAM, 2, [Ir.IntV(x), Ir.IntV(y)], budget).Ok?
              && CompileTheorem.Ran(PROGRAM, 2, [Ir.IntV(x), Ir.IntV(y)], budget).value.value == Some(V64(answer))
    ensures answer >= 0 && forall k: nat | k > 0 :: Into(k, answer) <==> Into(k, x) && Into(k, y)
  {
    hide CompileTheorem.Ran, CompileTheorem.Meant, CompileTheorem.Callable, Ir.EvalFunction, Into, Gcd, Distance;
    var vs := [Ir.IntV(x), Ir.IntV(y)];
    BothCallable(vs);
    BothAnswers(x, y, y + 2);
    answer := Gcd(Distance(x, y), y);
    assert CompileTheorem.Meant(PROGRAM, 2, vs, y + 2) == Ir.EvalFunction(PROGRAM, Ir.Strict, y + 2, BOTH, vs) by {
      MeantIs(vs, y + 2);
    }
    cost := CompileTheorem.MeantIsRun(PROGRAM, 2, vs, y + 2);
    forall k: nat | k > 0 ensures Into(k, answer) <==> Into(k, x) && Into(k, y) {
      DistanceMeans(x, y, k);
    }
  }

  lemma BothCallable(vs: seq<Ir.Val>)
    requires |vs| == 2 && vs[0].IntV? && vs[1].IntV?
    ensures CompileTheorem.Callable(PROGRAM, 2, vs)
  {
    ProgramTyped();
    Fitting.QuietFits(PROGRAM);
  }

  lemma MeantIs(vs: seq<Ir.Val>, depth: nat)
    ensures CompileTheorem.Meant(PROGRAM, 2, vs, depth) == Ir.EvalFunction(PROGRAM, Ir.Strict, depth, BOTH, vs)
  {
  }
}
