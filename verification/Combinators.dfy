/**
 * The loops the runtime helpers are built from: each one validates, with tight branches,
 * around any body that does.
 */
module Combinators {
  import opened Ints
  import opened Wasm
  import opened Validate
  import opened CompileChecks
  import L = Layout

  /** A counted loop: the body once for each number below a limit, the number in a local. */
  function CountTo(counter: nat, limit: nat, body: seq<Ins>): seq<Ins> {
    [I32Const(0), LocalSet(counter)] +
      [Ins.Block(None, [Ins.Loop(None, [LocalGet(counter), LocalGet(limit), Num(I32GeS)] + [BrIf(1)] + body + Next(counter) + [Br(0)])])]
  }

  /** Walks a counter while a condition holds. */
  function WalkWhile(counter: nat, keep: seq<Ins>, body: seq<Ins>): seq<Ins> {
    [Ins.Block(None, [Ins.Loop(None, keep + [Num(I32Eqz)] + [BrIf(1)] + body + Next(counter) + [Br(0)])])]
  }

  function Next(counter: nat): seq<Ins> {
    [LocalGet(counter), I32Const(1), Num(I32Add), LocalSet(counter)]
  }

  /** Whether the bump pointer is past the end of memory. */
  function PastTheEnd(): seq<Ins> {
    [I32Const(L.BUMP), I64Load(0)] + [MemorySize, Num(I64ExtendI32S), I64Const(L.PAGE), Num(I64Mul)] + [Num(I64GtS)]
  }

  function Refused(): seq<Ins> { [I32Const(1), MemoryGrow] + [I32Const(-1)] + [Num(I32Eq)] }

  /** Asks for one page after another while the bump pointer is past the end, and traps when refused. */
  function GrowToFit(): seq<Ins> {
    PastTheEnd() + [Ins.If(None, [Ins.Loop(None, PastTheEnd() + [Num(I32Eqz)] + [BrIf(1)]
                                                    + (Refused() + [Ins.If(None, [Ins.Unreachable], [])]) + [Br(0)])], [])]
  }

  /** The two frames a loop's body is inside. */
  function InWalk(c: Control): (r: Control)
    ensures Sound(r)
  {
    PushFrame(PushFrame(c, [], []), [], [])
  }

  /** A local that holds a narrow number. */
  ghost predicate Narrow(env: Env, a: nat) { a < |env.locals| && env.locals[a] == I32 }

  lemma NextTurns(env: Env, c: Control, counter: nat)
    requires Sound(c) && Narrow(env, counter)
    ensures Turns(env, c, Next(counter), [], [])
  {
    hide CheckIns;
    TwoThen(env, c, LocalGet(counter), I32Const(1), Num(I32Add), I32, I32, [I32]);
    PlainTurns(env, c, LocalSet(counter));
    TurnsThen(env, c, [LocalGet(counter), I32Const(1), Num(I32Add)], [LocalSet(counter)], [], [I32], []);
    assert [LocalGet(counter), I32Const(1), Num(I32Add)] + [LocalSet(counter)] == Next(counter);
  }

  /** A condition that leaves the walk, a body, and a jump back: the inside of every walk. */
  lemma InsideChecks(env: Env, c: Control, test: seq<Ins>, x: Control, body: seq<Ins>, y: Control)
    requires Sound(c) && env.rules.Tight? && Sound(x) && Through(InWalk(c), x) && Through(x, y)
    requires CheckBody(env, InWalk(c), test) == Some(PushAll(x, [I32])) && CheckBody(env, x, body) == Some(y)
    ensures CheckBody(env, InWalk(c), test + [BrIf(1)] + body + [Br(0)]) == Some(Cut(InWalk(c)))
  {
    hide CheckIns, CheckBody, PushFrame;
    LeavesWalk(env, c, x);
    CheckOne(env, PushAll(x, [I32]), BrIf(1));
    CheckAppend(env, InWalk(c), test, [BrIf(1)]);
    CheckAppend(env, InWalk(c), test + [BrIf(1)], body);
    CutAgain(InWalk(c), []);
    StartsAgain(env, c, y);
    CheckOne(env, y, Br(0));
    CheckAppend(env, InWalk(c), test + [BrIf(1)] + body, [Br(0)]);
  }

  /** The state after a body and the step of the counter. */
  lemma BodyThenNext(env: Env, x: Control, body: seq<Ins>, y: Control, counter: nat)
    requires Sound(x) && Sound(y) && Narrow(env, counter) && CheckBody(env, x, body) == Some(y)
    ensures CheckBody(env, x, body + Next(counter)) == Some(y)
  {
    hide CheckIns, CheckBody;
    PushAllNone(y);
    NextTurns(env, y, counter);
    ThenTurns(env, x, y, body, Next(counter), [], []);
  }

  /** A walk validates around a condition and a body that do, wherever the body leaves off. */
  lemma WalkWhileTurns(env: Env, c: Control, counter: nat, keep: seq<Ins>, x: Control, body: seq<Ins>, y: Control)
    requires Sound(c) && env.rules.Tight? && Narrow(env, counter) && Sound(x) && Through(InWalk(c), x) && Through(x, y)
    requires CheckBody(env, InWalk(c), keep) == Some(PushAll(x, [I32])) && CheckBody(env, x, body) == Some(y)
    ensures Turns(env, c, WalkWhile(counter, keep, body), [], [])
  {
    hide CheckIns, CheckBody, InWalk;
    PlainTurns(env, x, Num(I32Eqz));
    ThenTurns(env, InWalk(c), x, keep, [Num(I32Eqz)], [I32], [I32]);
    BodyThenNext(env, x, body, y, counter);
    InsideChecks(env, c, keep + [Num(I32Eqz)], x, body + Next(counter), y);
    var turn := keep + [Num(I32Eqz)] + [BrIf(1)] + body + Next(counter) + [Br(0)];
    assert keep + [Num(I32Eqz)] + [BrIf(1)] + (body + Next(counter)) + [Br(0)] == turn;
    WalkTurns(env, c, turn);
  }

  lemma WalkTurns(env: Env, c: Control, turn: seq<Ins>)
    requires Sound(c) && CheckBody(env, InWalk(c), turn) == Some(Cut(InWalk(c)))
    ensures Turns(env, c, [Ins.Block(None, [Ins.Loop(None, turn)])], [], [])
  {
    WalkNests(env, c, turn);
    PushAllNone(c);
  }

  /** Counting validates around any body that does. */
  lemma CountToTurns(env: Env, c: Control, counter: nat, limit: nat, body: seq<Ins>, y: Control)
    requires Sound(c) && env.rules.Tight? && Narrow(env, counter) && Narrow(env, limit)
    requires CheckBody(env, InWalk(c), body) == Some(y) && Through(InWalk(c), y)
    ensures Turns(env, c, CountTo(counter, limit, body), [], [])
  {
    hide CheckIns, CheckBody, InWalk;
    var test := [LocalGet(counter), LocalGet(limit), Num(I32GeS)];
    TwoThen(env, InWalk(c), LocalGet(counter), LocalGet(limit), Num(I32GeS), I32, I32, [I32]);
    assert CheckBody(env, InWalk(c), test) == Some(PushAll(InWalk(c), [I32])) by { PushAllNone(InWalk(c)); }
    BodyThenNext(env, InWalk(c), body, y, counter);
    InsideChecks(env, c, test, InWalk(c), body + Next(counter), y);
    var turn := test + [BrIf(1)] + body + Next(counter) + [Br(0)];
    assert test + [BrIf(1)] + (body + Next(counter)) + [Br(0)] == turn;
    WalkTurns(env, c, turn);
    StartTurns(env, c, counter);
    TurnsThen(env, c, [I32Const(0), LocalSet(counter)], [Ins.Block(None, [Ins.Loop(None, turn)])], [], [], []);
  }

  lemma StartTurns(env: Env, c: Control, counter: nat)
    requires Sound(c) && Narrow(env, counter)
    ensures Turns(env, c, [I32Const(0), LocalSet(counter)], [], [])
  {
    hide CheckIns;
    PlainTurns(env, c, I32Const(0));
    PlainTurns(env, c, LocalSet(counter));
    TurnsThen(env, c, [I32Const(0)], [LocalSet(counter)], [], [I32], []);
    assert [I32Const(0)] + [LocalSet(counter)] == [I32Const(0), LocalSet(counter)];
  }

  // -- growing memory --------------------------------------------------------

  /** A push and then an instruction that replaces what it pushed. */
  lemma OneThen(env: Env, c: Control, a: Ins, op: Ins, t: ValType, u: ValType)
    requires Sound(c)
    requires PlainType(env, a) == Some(FuncType([], [t])) && PlainType(env, op) == Some(FuncType([t], [u]))
    ensures Turns(env, c, [a, op], [], [u])
  {
    hide CheckIns;
    PlainTurns(env, c, a);
    PlainTurns(env, c, op);
    TurnsThen(env, c, [a], [op], [], [t], [u]);
    assert [a] + [op] == [a, op];
  }

  /** Two values by any code, and then an instruction that takes both. */
  lemma BothThen(env: Env, c: Control, one: seq<Ins>, two: seq<Ins>, op: Ins, t: ValType, u: ValType, v: ValType)
    requires Sound(c) && Sound(PushAll(c, [t]))
    requires Turns(env, c, one, [], [t]) && Turns(env, PushAll(c, [t]), two, [], [u])
    requires PlainType(env, op) == Some(FuncType([t, u], [v]))
    ensures Turns(env, c, one + two + [op], [], [v])
  {
    hide CheckIns;
    TurnsOver(env, c, two, [t], [u]);
    assert [t] + [u] == [t, u];
    TurnsThen(env, c, one, two, [], [t], [t, u]);
    PlainTurns(env, c, op);
    TurnsThen(env, c, one + two, [op], [], [t, u], [v]);
  }

  lemma SizeTurns(env: Env, c: Control)
    requires Sound(c) && env.m.memoryPages.Some?
    ensures Turns(env, c, [MemorySize, Num(I64ExtendI32S), I64Const(L.PAGE), Num(I64Mul)], [], [I64])
  {
    hide CheckIns;
    PopPushed(c, [I64]);
    PushAllNone(PushAll(c, [I64]));
    OneThen(env, c, MemorySize, Num(I64ExtendI32S), I32, I64);
    PlainTurns(env, PushAll(c, [I64]), I64Const(L.PAGE));
    BothThen(env, c, [MemorySize, Num(I64ExtendI32S)], [I64Const(L.PAGE)], Num(I64Mul), I64, I64, I64);
    assert [MemorySize, Num(I64ExtendI32S)] + [I64Const(L.PAGE)] + [Num(I64Mul)]
        == [MemorySize, Num(I64ExtendI32S), I64Const(L.PAGE), Num(I64Mul)];
  }

  lemma PastTheEndTurns(env: Env, c: Control)
    requires Sound(c) && env.m.memoryPages.Some?
    ensures Turns(env, c, PastTheEnd(), [], [I32])
  {
    hide CheckIns;
    PopPushed(c, [I64]);
    OneThen(env, c, I32Const(L.BUMP), I64Load(0), I32, I64);
    SizeTurns(env, PushAll(c, [I64]));
    BothThen(env, c, [I32Const(L.BUMP), I64Load(0)], [MemorySize, Num(I64ExtendI32S), I64Const(L.PAGE), Num(I64Mul)],
             Num(I64GtS), I64, I64, I32);
  }

  lemma RefusedTurns(env: Env, c: Control)
    requires Sound(c) && env.m.memoryPages.Some?
    ensures Turns(env, c, Refused() + [Ins.If(None, [Ins.Unreachable], [])], [], [])
  {
    hide CheckIns;
    PopPushed(c, [I32]);
    PushAllNone(PushAll(c, [I32]));
    OneThen(env, c, I32Const(1), MemoryGrow, I32, I32);
    PlainTurns(env, PushAll(c, [I32]), I32Const(-1));
    BothThen(env, c, [I32Const(1), MemoryGrow], [I32Const(-1)], Num(I32Eq), I32, I32, I32);
    StopsAtOnce(env, c);
    TurnsThen(env, c, Refused(), [Ins.If(None, [Ins.Unreachable], [])], [], [I32], []);
  }

  lemma StopsAtOnce(env: Env, c: Control)
    requires Sound(c)
    ensures Turns(env, c, [Ins.If(None, [Ins.Unreachable], [])], [I32], [])
  {
    CheckOne(env, PushFrame(c, [], []), Ins.Unreachable);
    GuardTurns(env, c, [Ins.Unreachable]);
  }

  /** Growing memory validates. */
  lemma GrowToFitTurns(env: Env, c: Control)
    requires Sound(c) && env.rules.Tight? && env.m.memoryPages.Some?
    ensures Turns(env, c, GrowToFit(), [], [])
  {
    hide CheckIns, CheckBody;
    var x := InWalk(c);
    PastTheEndTurns(env, x);
    PushAllNone(x);
    PlainTurns(env, x, Num(I32Eqz));
    ThenTurns(env, x, x, PastTheEnd(), [Num(I32Eqz)], [I32], [I32]);
    RefusedTurns(env, x);
    var turn := PastTheEnd() + [Num(I32Eqz)] + [BrIf(1)] + (Refused() + [Ins.If(None, [Ins.Unreachable], [])]) + [Br(0)];
    InsideChecks(env, c, PastTheEnd() + [Num(I32Eqz)], x, Refused() + [Ins.If(None, [Ins.Unreachable], [])], x);
    LoopNests(env, PushFrame(c, [], []), turn);
    GuardTurns(env, c, [Ins.Loop(None, turn)]);
    PastTheEndTurns(env, c);
    TurnsThen(env, c, PastTheEnd(), [Ins.If(None, [Ins.Loop(None, turn)], [])], [], [I32], []);
  }
}
