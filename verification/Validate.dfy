/**
 * The typing rules of a body as functions over two stacks, operand types and open blocks.
 * In code no run reaches, popping past a block's height succeeds with an unknown type.
 */
module Validate {
  import opened Ints
  import opened Wasm

  /** The type of an operand, when it is known. */
  datatype Slot = Val(ty: ValType) | Unknown

  /** One block, loop, if-arm or function body. */
  datatype Frame = Frame(labelTypes: seq<ValType>, endTypes: seq<ValType>, height: nat, unreachable: bool)

  datatype Control = Control(stack: seq<Slot>, frames: seq<Frame>)

  /**
   * Which rules a body is held to. `Specified` is the validation algorithm. `Tight` adds
   * what the runner needs of a branch and of a marker: above the target's height a branch
   * finds exactly the label's types, and a marker does not wrap a marker.
   */
  datatype Rules = Specified | Tight

  /** What stays fixed while one body is checked. */
  datatype Env = Env(m: Module, locals: seq<ValType>, rules: Rules)

  function Top(c: Control): Frame
    requires c.frames != []
  {
    c.frames[|c.frames| - 1]
  }

  /** There is a frame, and the stack reaches its height. */
  predicate Sound(c: Control) {
    c.frames != [] && Top(c).height <= |c.stack|
  }

  // -- the stack -------------------------------------------------------------

  function Push(c: Control, ty: ValType): Control {
    c.(stack := c.stack + [Val(ty)])
  }

  function Vals(types: seq<ValType>): (r: seq<Slot>)
    ensures |r| == |types|
    ensures forall i | 0 <= i < |types| :: r[i] == Val(types[i])
  {
    seq(|types|, i requires 0 <= i < |types| => Val(types[i]))
  }

  function PushAll(c: Control, types: seq<ValType>): (r: Control)
    ensures r.frames == c.frames && |r.stack| == |c.stack| + |types|
  {
    c.(stack := c.stack + Vals(types))
  }

  function Pop(c: Control): (r: Option<(Slot, Control)>)
    requires Sound(c)
    ensures r.Some? ==> Sound(r.value.1) && r.value.1.frames == c.frames
  {
    if |c.stack| == Top(c).height then
      if Top(c).unreachable then Some((Unknown, c)) else None
    else
      Some((c.stack[|c.stack| - 1], c.(stack := c.stack[..|c.stack| - 1])))
  }

  function PopExpect(c: Control, expected: ValType): (r: Option<Control>)
    requires Sound(c)
    ensures r.Some? ==> Sound(r.value) && r.value.frames == c.frames
  {
    match Pop(c)
    case Some((found, rest)) => if found == Unknown || found == Val(expected) then Some(rest) else None
    case None => None
  }

  /** Takes the given types off the stack, the last of them first. */
  function PopAll(c: Control, types: seq<ValType>): (r: Option<Control>)
    requires Sound(c)
    ensures r.Some? ==> Sound(r.value) && r.value.frames == c.frames
    decreases |types|
  {
    if types == [] then Some(c)
    else
      match PopExpect(c, types[|types| - 1])
      case Some(rest) => PopAll(rest, types[..|types| - 1])
      case None => None
  }

  // -- frames ----------------------------------------------------------------

  function PushFrame(c: Control, labelTypes: seq<ValType>, endTypes: seq<ValType>): (r: Control)
    ensures Sound(r)
  {
    c.(frames := c.frames + [Frame(labelTypes, endTypes, |c.stack|, false)])
  }

  /** Ends the innermost block: exactly its end types must be above its height, and its frame goes. */
  function PopFrame(c: Control): Option<Control>
    requires Sound(c)
  {
    match PopAll(c, Top(c).endTypes)
    case Some(rest) =>
      if |rest.stack| == Top(c).height then Some(rest.(frames := c.frames[..|c.frames| - 1])) else None
    case None => None
  }

  /** After an instruction that never falls through: operands dropped to the height, the frame marked. */
  function Cut(c: Control): (r: Control)
    requires Sound(c)
    ensures Sound(r)
  {
    Control(c.stack[..Top(c).height], c.frames[|c.frames| - 1 := Top(c).(unreachable := true)])
  }

  function BranchTarget(c: Control, depth: nat): Option<Frame> {
    if depth < |c.frames| then Some(c.frames[|c.frames| - 1 - depth]) else None
  }

  /** The values a branch would leave under the label's are none of this target's own. */
  predicate TightAt(c: Control, depth: nat)
    requires depth < |c.frames|
  {
    |c.stack| == c.frames[|c.frames| - 1 - depth].height
  }

  // -- instructions ----------------------------------------------------------

  /** The static type of every instruction that neither branches nor opens a block. */
  function PlainType(env: Env, ins: Ins): Option<FuncType> {
    match ins
    case Nop => Some(FuncType([], []))
    case Call(index) => FuncTypeOf(env.m, index)
    case CallIndirect(at) =>
      if at < |env.m.types| then
        Some(FuncType(env.m.types[at].params + [I32], env.m.types[at].results))
      else None
    case LocalGet(i) => if i < |env.locals| then Some(FuncType([], [env.locals[i]])) else None
    case LocalSet(i) => if i < |env.locals| then Some(FuncType([env.locals[i]], [])) else None
    case LocalTee(i) => if i < |env.locals| then Some(FuncType([env.locals[i]], [env.locals[i]])) else None
    case I32Const(_) => Some(FuncType([], [I32]))
    case I64Const(_) => Some(FuncType([], [I64]))
    case Num(op) => Some(FuncType(NumParams(op), [NumResult(op)]))
    case I32Load(_) | I32Load8U(_) | MemoryGrow => WithMemory(env, FuncType([I32], [I32]))
    case I64Load(_) => WithMemory(env, FuncType([I32], [I64]))
    case I32Store(_) | I32Store8(_) => WithMemory(env, FuncType([I32, I32], []))
    case I64Store(_) => WithMemory(env, FuncType([I32, I64], []))
    case MemorySize => WithMemory(env, FuncType([], [I32]))
    case _ => None
  }

  function WithMemory(env: Env, ty: FuncType): Option<FuncType> {
    if env.m.memoryPages.Some? then Some(ty) else None
  }

  /** What checking may do to the state outside the innermost frame: nothing. */
  predicate Keeps(c: Control, after: Control) {
    && Sound(c)
    && Sound(after)
    && |after.frames| == |c.frames|
    && after.frames[..|c.frames| - 1] == c.frames[..|c.frames| - 1]
    && Top(after) == Top(c).(unreachable := Top(after).unreachable)
    && (Top(c).unreachable ==> Top(after).unreachable)
    && after.stack[..Top(c).height] == c.stack[..Top(c).height]
  }

  lemma PopAllKeeps(c: Control, types: seq<ValType>)
    requires Sound(c) && PopAll(c, types).Some?
    ensures Keeps(c, PopAll(c, types).value)
    decreases |types|
  {
    if types != [] {
      PopAllKeeps(PopExpect(c, types[|types| - 1]).value, types[..|types| - 1]);
    }
  }

  lemma PushAllKeeps(c: Control, after: Control, types: seq<ValType>)
    requires Keeps(c, after)
    ensures Keeps(c, PushAll(after, types))
  {
    var pushed := PushAll(after, types);
    assert pushed.stack[..Top(c).height] == after.stack[..Top(c).height];
  }

  lemma CutKeeps(c: Control, after: Control)
    requires Keeps(c, after)
    ensures Keeps(c, Cut(after))
  {
    var cut := Cut(after);
    assert cut.frames[..|c.frames| - 1] == after.frames[..|c.frames| - 1];
    assert cut.stack[..Top(c).height] == after.stack[..Top(c).height];
  }

  lemma KeepsTrans(a: Control, b: Control, c: Control)
    requires Keeps(a, b) && Keeps(b, c)
    ensures Keeps(a, c)
  {
  }

  function CheckPlain(c: Control, ty: FuncType): (r: Option<Control>)
    requires Sound(c)
    ensures r.Some? ==> Keeps(c, r.value)
  {
    match PopAll(c, ty.params)
    case Some(rest) =>
      PopAllKeeps(c, ty.params);
      PushAllKeeps(c, rest, ty.results);
      Some(PushAll(rest, ty.results))
    case None => None
  }

  function CheckBr(rules: Rules, c: Control, depth: nat): (r: Option<Control>)
    requires Sound(c)
    ensures r.Some? ==> Keeps(c, r.value)
  {
    match BranchTarget(c, depth)
    case Some(target) =>
      (match PopAll(c, target.labelTypes)
       case Some(rest) =>
         PopAllKeeps(c, target.labelTypes);
         CutKeeps(c, rest);
         if rules.Tight? && !TightAt(rest, depth) then None else Some(Cut(rest))
       case None => None)
    case None => None
  }

  function CheckBrIf(rules: Rules, c: Control, depth: nat): (r: Option<Control>)
    requires Sound(c)
    ensures r.Some? ==> Keeps(c, r.value)
  {
    match PopAll(c, [I32])
    case Some(rest) =>
      (match BranchTarget(rest, depth)
       case Some(target) =>
         (match PopAll(rest, target.labelTypes)
          case Some(under) =>
            PopAllKeeps(c, [I32]);
            PopAllKeeps(rest, target.labelTypes);
            KeepsTrans(c, rest, under);
            PushAllKeeps(c, under, target.labelTypes);
            if rules.Tight? && !TightAt(under, depth) then None
            else Some(PushAll(under, target.labelTypes))
          case None => None)
       case None => None)
    case None => None
  }

  function CheckReturn(c: Control): (r: Option<Control>)
    requires Sound(c)
    ensures r.Some? ==> Keeps(c, r.value)
  {
    match PopAll(c, c.frames[0].endTypes)
    case Some(rest) =>
      PopAllKeeps(c, c.frames[0].endTypes);
      CutKeeps(c, rest);
      Some(Cut(rest))
    case None => None
  }

  /** One instruction. The result is absent when it does not validate. */
  function CheckIns(env: Env, c: Control, ins: Ins): (r: Option<Control>)
    requires Sound(c)
    ensures r.Some? ==> Keeps(c, r.value)
    decreases ins, 0
  {
    match ins
    case Marked(_, inner) =>
      if env.rules.Tight? && inner.Marked? then None else CheckIns(env, c, inner)
    case Unreachable => CutKeeps(c, c); Some(Cut(c))
    case Block(result, body) => CheckNested(env, c, Results(result), Results(result), body)
    case Loop(result, body) => CheckNested(env, c, [], Results(result), body)
    case If(result, taken, otherwise) =>
      (match PopAll(c, [I32])
       case Some(rest) =>
         PopAllKeeps(c, [I32]);
         if result.Some? && otherwise == [] then None
         else
           (match CheckNested(env, rest, Results(result), Results(result), taken)
            case Some(_) =>
              PushAllKeeps(c, rest, Results(result));
              CheckNested(env, rest, Results(result), Results(result), otherwise)
            case None => None)
       case None => None)
    case Br(depth) => CheckBr(env.rules, c, depth)
    case BrIf(depth) => CheckBrIf(env.rules, c, depth)
    case Return => CheckReturn(c)
    case Drop => (match Pop(c) case Some((_, rest)) => Some(rest) case None => None)
    case _ => (match PlainType(env, ins) case Some(ty) => CheckPlain(c, ty) case None => None)
  }

  /** Checks a body inside a new frame and then has the end types pushed where the block stood. */
  function CheckNested(env: Env, c: Control, labelTypes: seq<ValType>, endTypes: seq<ValType>, body: seq<Ins>)
    : (r: Option<Control>)
    requires Sound(c)
    ensures r.Some? ==> r.value == PushAll(c, endTypes) && Keeps(c, r.value)
    decreases body, 1
  {
    match CheckBody(env, PushFrame(c, labelTypes, endTypes), body)
    case Some(inner) =>
      (match PopFrame(inner)
       case Some(rest) =>
         NestedLeavesOuter(PushFrame(c, labelTypes, endTypes), inner, c);
         PushAllKeeps(c, c, endTypes);
         Some(PushAll(rest, endTypes))
       case None => None)
    case None => None
  }

  lemma NestedLeavesOuter(entered: Control, inner: Control, c: Control)
    requires Sound(c) && Sound(inner) && Keeps(entered, inner) && PopFrame(inner).Some?
    requires |entered.frames| == |c.frames| + 1 && entered.frames[..|c.frames|] == c.frames
    requires entered.stack == c.stack && Top(entered).height == |c.stack|
    ensures PopFrame(inner).value == c
  {
    PopAllKeeps(inner, Top(inner).endTypes);
    var rest := PopAll(inner, Top(inner).endTypes).value;
    assert rest.stack == rest.stack[..Top(inner).height] == inner.stack[..|c.stack|] == c.stack[..|c.stack|] == c.stack;
  }

  /** A sequence of instructions. */
  function CheckBody(env: Env, c: Control, body: seq<Ins>): (r: Option<Control>)
    requires Sound(c)
    ensures r.Some? ==> Keeps(c, r.value)
    decreases body, 0
  {
    if body == [] then Some(c)
    else
      match CheckIns(env, c, body[0])
      case Some(next) =>
        (match CheckBody(env, next, body[1..])
         case Some(last) => KeepsTrans(c, next, last); Some(last)
         case None => None)
      case None => None
  }

  // -- modules ---------------------------------------------------------------

  /** The state a function body starts being checked in. */
  function Entry(results: seq<ValType>): Control {
    PushFrame(Control([], []), results, results)
  }

  predicate FuncChecks(m: Module, func: Func, rules: Rules) {
    func.typeIndex < |m.types| &&
    var ty := m.types[func.typeIndex];
    match CheckBody(Env(m, ty.params + func.locals, rules), Entry(ty.results), func.body)
    case Some(c) => PopFrame(c).Some?
    case None => false
  }

  predicate TableChecks(m: Module) {
    forall i | 0 <= i < |m.table| :: m.table[i] < |m.imports| + |m.funcs|
  }

  /** A module validates: all of its functions and its table do. */
  predicate Validates(m: Module, rules: Rules) {
    && (forall i | 0 <= i < |m.funcs| :: FuncChecks(m, m.funcs[i], rules))
    && TableChecks(m)
  }
}
