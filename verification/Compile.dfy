/**
 * What the backend emits for the scalar part of the IR: unit takes no space, temporaries are
 * handed out fresh, arithmetic is checked, and a walk is a loop inside a block.
 */
module Compile {
  import opened Ints
  import opened Wasm
  import opened Types
  import Ir
  import L = Layout

  /** How a type is represented: unit not at all, a boolean narrow, everything else as a word. */
  function ValTypeOf(ty: Ty): Option<ValType> {
    match ty
    case Unit => None
    case Bool => Some(I32)
    case _ => Some(I64)
  }

  /** The representations of those that have one, in order. */
  function Represented(types: seq<Ty>): seq<ValType> {
    if types == [] then [] else Results(ValTypeOf(types[0])) + Represented(types[1..])
  }

  // -- string literals -------------------------------------------------------

  /** Every literal placed so far, and where the next one goes. */
  datatype Strings = Strings(next: nat, placed: seq<(Text, nat)>, data: seq<(nat, seq<byte>)>)

  const NO_STRINGS: Strings := Strings(L.HEAP_START, [], [])

  /** How many characters UTF-8 bytes spell: every byte that does not continue one. */
  function Characters(text: Text): nat {
    if text == [] then 0 else (if 128 <= text[0] < 192 then 0 else 1) + Characters(text[1..])
  }

  /** A literal as bytes: two counts of a word each, its text, and zeros to the next word. */
  function Laid(text: Text): seq<byte> {
    WordBytes(AsWord(Characters(text))) + WordBytes(AsWord(|text|)) + text
      + seq((8 - |text| % 8) % 8, _ => 0)
  }

  function Where(placed: seq<(Text, nat)>, text: Text): Option<nat> {
    if placed == [] then None
    else if placed[0].0 == text then Some(placed[0].1)
    else Where(placed[1..], text)
  }

  /** The address of this text among the literals, which take it in at the end when they lack it. */
  function Place(strings: Strings, text: Text): (r: (Strings, nat))
    ensures strings.placed <= r.0.placed
  {
    match Where(strings.placed, text)
    case Some(at) => (strings, at)
    case None =>
      (Strings(strings.next + |Laid(text)|,
               strings.placed + [(text, strings.next)],
               strings.data + [(strings.next, Laid(text))]),
       strings.next)
  }

  // -- one function ----------------------------------------------------------

  /** What stays fixed while one body is compiled. `shift` is how many imports there are. */
  datatype Cx = Cx(p: Ir.Program, f: Ir.Function, shift: nat)

  /** The local of each slot. Unit slots have none and do not count. */
  function SlotsFrom(locals: seq<Ty>, next: nat): (slots: seq<Option<nat>>)
    ensures |slots| == |locals|
    decreases |locals|
  {
    if locals == [] then []
    else if ValTypeOf(locals[0]).None? then [None] + SlotsFrom(locals[1..], next)
    else [Some(next)] + SlotsFrom(locals[1..], next + 1)
  }

  function SlotOf(cx: Cx, local: nat): Option<nat> {
    if local < |cx.f.locals| then SlotsFrom(cx.f.locals, 0)[local] else None
  }

  /** The number of locals the parameters are given. */
  function Params(f: Ir.Function): nat { |Represented(f.params)| }

  /** What compiling adds to: locals beyond the parameters, literals, and source sites. */
  datatype Draft = Draft(extra: seq<ValType>, strings: Strings, sites: nat)

  function Begin(f: Ir.Function, strings: Strings): Draft {
    Draft(Represented(if |f.params| <= |f.locals| then f.locals[|f.params|..] else []), strings, 0)
  }

  datatype Emitted = Emitted(code: seq<Ins>, draft: Draft)

  /** Compiling only ever adds: no local, literal or site is taken back. */
  predicate Grows(d: Draft, after: Draft) {
    d.extra <= after.extra && d.strings.placed <= after.strings.placed && d.sites <= after.sites
  }

  /** The first local beyond all those handed out. */
  function Fresh(cx: Cx, d: Draft): nat { Params(cx.f) + |d.extra| }

  function Took(d: Draft, ty: ValType): Draft { d.(extra := d.extra + [ty]) }

  /** The two words a contract failure leaves, written before the trap. */
  function FailWords(code: nat, message: nat): seq<Ins> {
    [I32Const(L.FAILURE_CODE), I64Const(AsWord(code)), I64Store(0),
     I32Const(L.FAILURE_MESSAGE), I64Const(AsWord(message)), I64Store(0)]
  }

  function Failure(d: Draft, code: Text, message: Text): (r: Emitted)
    ensures Grows(d, r.draft) && r.draft.extra == d.extra
  {
    var (one, atCode) := Place(d.strings, code);
    var (two, atMessage) := Place(one, message);
    Emitted(FailWords(atCode, atMessage), d.(strings := two))
  }

  function ArithmeticFailure(d: Draft): (r: Emitted)
    ensures Grows(d, r.draft) && r.draft.extra == d.extra
  {
    var words := Failure(d, Ir.ARITHMETIC_CODE, Ir.ARITHMETIC_MESSAGE);
    Emitted(words.code + [Ins.Unreachable], words.draft)
  }

  function TrapOnTrue(failure: seq<Ins>): Ins { Ins.If(None, failure, []) }

  function Test(a: nat, op: NumOp, b: nat): seq<Ins> { [LocalGet(a), LocalGet(b), Num(op)] }

  function TestConst(a: nat, op: NumOp, n: i64): seq<Ins> { [LocalGet(a), I64Const(n), Num(op)] }

  /** Whether `x`, the sum or difference, went past `left` the wrong way for the sign of `right`. */
  function WentPast(right: nat, x: nat, left: nat, up: NumOp, down: NumOp): seq<Ins> {
    TestConst(right, I64GtS, 0) + Test(x, up, left) + [Num(I32And)]
      + (TestConst(right, I64LtS, 0) + Test(x, down, left) + [Num(I32And)]) + [Num(I32Or)]
  }

  /** Whether a multiplication is -1 by the least integer, which division could not check. */
  function LeastByMinusOne(left: nat, right: nat): seq<Ins> {
    TestConst(left, I64Eq, -1) + TestConst(right, I64Eq, MIN_64) + [Num(I32And)]
  }

  function NeitherZero(left: nat, right: nat): seq<Ins> {
    [LocalGet(left), Num(I64Eqz), LocalGet(right), Num(I64Eqz), Num(I32Or), Num(I32Eqz)]
  }

  function DividesBack(product: nat, left: nat, right: nat, failure: seq<Ins>): seq<Ins> {
    Test(product, I64DivS, left) + [LocalGet(right), Num(I64Ne), TrapOnTrue(failure)]
  }

  function NoQuotient(left: nat, right: nat): seq<Ins> {
    [LocalGet(right), Num(I64Eqz)]
      + (TestConst(left, I64Eq, MIN_64) + TestConst(right, I64Eq, -1) + [Num(I32And)]) + [Num(I32Or)]
  }

  /** The operator itself, on two slots, once both sides are in them. */
  function CheckedOp(cx: Cx, d: Draft, op: Ir.BinaryOp, left: nat, right: nat): (r: Emitted)
    requires Ir.Arithmetic(op)
    ensures Grows(d, r.draft)
  {
    if op.AddInt? || op.SubInt? then
      var x := Fresh(cx, d);
      var failure := ArithmeticFailure(Took(d, I64));
      var test :=
        if op.AddInt? then WentPast(right, x, left, I64LtS, I64GtS) else WentPast(right, x, left, I64GtS, I64LtS);
      Emitted(Test(left, if op.AddInt? then I64Add else I64Sub, right) + [LocalSet(x)]
                + test + [TrapOnTrue(failure.code), LocalGet(x)],
              failure.draft)
    else if op.MulInt? then
      var x := Fresh(cx, d);
      var failure := ArithmeticFailure(Took(d, I64));
      var again := ArithmeticFailure(failure.draft);
      Emitted(Test(left, I64Mul, right) + [LocalSet(x)]
                + LeastByMinusOne(left, right) + [TrapOnTrue(failure.code)]
                + NeitherZero(left, right) + [Ins.If(None, DividesBack(x, left, right, again.code), []), LocalGet(x)],
              again.draft)
    else
      var failure := ArithmeticFailure(d);
      Emitted(NoQuotient(left, right) + [TrapOnTrue(failure.code)]
                + Test(left, if op.DivInt? then I64DivS else I64RemS, right),
              failure.draft)
  }

  /** Both sides into slots of their own, left first, and then the operator. */
  function CheckedBinary(cx: Cx, op: Ir.BinaryOp, x: nat, one: Emitted, two: Emitted): (r: Emitted)
    requires Ir.Arithmetic(op)
    ensures Grows(two.draft, r.draft)
  {
    var three := CheckedOp(cx, two.draft, op, x, x + 1);
    Emitted(one.code + [LocalSet(x)] + (two.code + [LocalSet(x + 1)]) + three.code, three.draft)
  }

  /** Zero less the operand, unless it is the least integer. */
  function CheckedNegate(inner: Emitted, x: nat): (r: Emitted)
    ensures Grows(inner.draft, r.draft)
  {
    var failure := ArithmeticFailure(inner.draft);
    Emitted(inner.code + [LocalSet(x)] + TestConst(x, I64Eq, MIN_64) + [TrapOnTrue(failure.code)]
              + [I64Const(0), LocalGet(x), Num(I64Sub)],
            failure.draft)
  }

  /** The instruction of an operator that needs no checking, by what it compares. */
  function BinaryIns(op: Ir.BinaryOp, operand: Ty): Ins
    requires !Ir.Arithmetic(op)
  {
    match op
    case LtInt => Num(I64LtS)
    case LeInt => Num(I64LeS)
    case GtInt => Num(I64GtS)
    case GeInt => Num(I64GeS)
    case And => Num(I32And)
    case Or => Num(I32Or)
    case Eq =>
      (match ValTypeOf(operand) case Some(I64) => Num(I64Eq) case Some(I32) => Num(I32Eq) case None => I32Const(1))
    case Ne =>
      (match ValTypeOf(operand) case Some(I64) => Num(I64Ne) case Some(I32) => Num(I32Ne) case None => I32Const(0))
  }

  function CompileExpr(cx: Cx, d: Draft, e: Ir.Expr): (r: Emitted)
    ensures Grows(d, r.draft)
    decreases e, 1
  {
    match e
    case UnitLit => Emitted([], d)
    case BoolLit(b) => Emitted([I32Const(if b then 1 else 0)], d)
    case IntLit(n) => Emitted([I64Const(n)], d)
    case Local(i) => Emitted(if SlotOf(cx, i).Some? then [LocalGet(SlotOf(cx, i).value)] else [], d)
    case Unary(_, _) => CompileUnary(cx, d, e)
    case Binary(_, _, _) => CompileBinary(cx, d, e)
    case Call(g, args) =>
      var pushed := CompileArgs(cx, d, args);
      Emitted(pushed.code + [Marked(pushed.draft.sites, Ins.Call(g + cx.shift))],
              pushed.draft.(sites := pushed.draft.sites + 1))
    case If(condition, taken, otherwise, ty) =>
      var test := CompileExpr(cx, d, condition);
      var one := CompileBlock(cx, test.draft, taken);
      var two := CompileBlock(cx, one.draft, otherwise);
      Emitted(test.code + [Ins.If(ValTypeOf(ty), one.code, two.code)], two.draft)
    case Nested(block) => CompileBlock(cx, d, block)
  }

  function CompileUnary(cx: Cx, d: Draft, e: Ir.Expr): (r: Emitted)
    requires e.Unary?
    ensures Grows(d, r.draft)
    decreases e, 0
  {
    if e.uop.Not? then
      var inner := CompileExpr(cx, d, e.operand);
      Emitted(inner.code + [Num(I32Eqz)], inner.draft)
    else
      var x := Fresh(cx, d);
      var inner := CompileExpr(cx, Took(d, I64), e.operand);
      CheckedNegate(inner, x)
  }

  /** Checked arithmetic takes two temporaries before either side; a comparison leaves both sides on the stack. */
  function CompileBinary(cx: Cx, d: Draft, e: Ir.Expr): (r: Emitted)
    requires e.Binary?
    ensures Grows(d, r.draft)
    decreases e, 0
  {
    if Ir.Arithmetic(e.op) then
      var x := Fresh(cx, d);
      var one := CompileExpr(cx, Took(Took(d, I64), I64), e.left);
      var two := CompileExpr(cx, one.draft, e.right);
      CheckedBinary(cx, e.op, x, one, two)
    else
      var one := CompileExpr(cx, d, e.left);
      var two := CompileExpr(cx, one.draft, e.right);
      var ins := Marked(two.draft.sites, BinaryIns(e.op, Ir.TyOf(cx.p, cx.f, e.left)));
      Emitted(one.code + two.code + [ins], two.draft.(sites := two.draft.sites + 1))
  }

  function CompileArgs(cx: Cx, d: Draft, args: seq<Ir.Expr>): (r: Emitted)
    ensures Grows(d, r.draft)
    decreases args, 0
  {
    if args == [] then Emitted([], d)
    else
      var one := CompileExpr(cx, d, args[0]);
      var rest := CompileArgs(cx, one.draft, args[1..]);
      Emitted(one.code + rest.code, rest.draft)
  }

  function CompileBlock(cx: Cx, d: Draft, block: Ir.Block): (r: Emitted)
    ensures Grows(d, r.draft)
    decreases block, 0
  {
    var stmts := CompileStmts(cx, d, block.stmts);
    var value := CompileExpr(cx, stmts.draft, block.value);
    Emitted(stmts.code + value.code, value.draft)
  }

  function CompileStmts(cx: Cx, d: Draft, stmts: seq<Ir.Stmt>): (r: Emitted)
    ensures Grows(d, r.draft)
    decreases stmts, 0
  {
    if stmts == [] then Emitted([], d)
    else
      var one := CompileStmt(cx, d, stmts[0]);
      var rest := CompileStmts(cx, one.draft, stmts[1..]);
      Emitted(one.code + rest.code, rest.draft)
  }

  /** The inside of a walk: leave when the condition does not hold, and start again after a turn. */
  function Turn(condition: seq<Ins>, body: seq<Ins>): seq<Ins> {
    condition + [Num(I32Eqz), BrIf(1)] + (body + [Br(0)])
  }

  function CompileStmt(cx: Cx, d: Draft, stmt: Ir.Stmt): (r: Emitted)
    ensures Grows(d, r.draft)
    decreases stmt, 1
  {
    match stmt
    case Assign(i, e) =>
      var value := CompileExpr(cx, d, e);
      Emitted(value.code + (if SlotOf(cx, i).Some? then [LocalSet(SlotOf(cx, i).value)] else []), value.draft)
    case Discard(e) =>
      var value := CompileExpr(cx, d, e);
      Emitted(value.code + (if ValTypeOf(Ir.TyOf(cx.p, cx.f, e)).Some? then [Drop] else []), value.draft)
    case Return(e) =>
      var value := CompileExpr(cx, d, e);
      Emitted(value.code + [Ins.Return], value.draft)
    case Fail(code, message) =>
      var words := Failure(d, code, message);
      Emitted(words.code + [Marked(words.draft.sites, Ins.Unreachable)],
              words.draft.(sites := words.draft.sites + 1))
    case While(condition, body) =>
      var test := CompileExpr(cx, d, condition);
      var turn := CompileStmts(cx, test.draft, body);
      Emitted([Ins.Block(None, [Ins.Loop(None, Turn(test.code, turn.code))])], turn.draft)
  }

  /** A function's body, and the return it always ends with. */
  function CompileBody(cx: Cx, strings: Strings): Emitted {
    var block := CompileBlock(cx, Begin(cx.f, strings), cx.f.body);
    Emitted(block.code + [Ins.Return], block.draft)
  }
}
