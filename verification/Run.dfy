/** What running a module means: a fuelled big-step interpreter over structured instructions. */
module Run {
  import opened Ints
  import opened Wasm
  import L = Layout

  datatype Value = V32(n: i32) | V64(m: i64)

  function AsI64(v: Value): i64 {
    match v case V32(n) => n case V64(m) => m
  }

  function AsBool(v: Value): bool { AsI64(v) != 0 }

  function TypeOf(v: Value): ValType {
    match v case V32(_) => I32 case V64(_) => I64
  }

  function Zero(ty: ValType): Value {
    match ty case I32 => V32(0) case I64 => V64(0)
  }

  /**
   * Why a run stopped. `EmptyStack` is the answer to a pop with nothing there, which the
   * runner reports as `Unreachable`: they are kept apart so that one of them can be ruled
   * out. `SignatureMismatch` is only raised in a world that checks.
   */
  datatype Trap =
    | Unreachable
    | EmptyStack
    | Failed(code: seq<byte>, message: seq<byte>)
    | DivideByZero
    | OutOfBounds
    | TooLong
    | NeedsAHost(func: nat)
    | SignatureMismatch

  datatype HostAnswer = Answer(value: Option<Value>, memory: seq<byte>) | Refuses(trap: Trap)

  /** A host: what it answers for an import's index, the arguments passed and the memory it sees. */
  type HostFn = (nat, seq<Value>, seq<byte>) -> HostAnswer

  /**
   * A module, who answers its imports, and whether two things the runner lets by are looked
   * for: a table call whose callee has another signature, and a drop of nothing.
   */
  datatype World = World(m: Module, host: Option<HostFn>, checks: bool)

  datatype State = State(memory: seq<byte>, locals: seq<Value>, stack: seq<Value>)

  /** How a body ended: at its last instruction, by a branch still to be taken by an outer block, or by returning. */
  datatype Flow = Normal | Break(depth: nat) | Returning

  /** `Panics` is an index the interpreter takes without looking, out of range. */
  datatype Step<+T> = Ok(value: T) | Stops(trap: Trap) | Panic

  datatype Result<+T> = Done(fuel: nat, value: T) | Trapped(trap: Trap) | Panics

  type Ran = Result<(State, Flow)>

  // -- memory ----------------------------------------------------------------

  const MEMORY_PAGES_CEILING: nat := 4096

  function LoadWord(memory: seq<byte>, at: int): Option<i64> {
    if 0 <= at && at + 8 <= |memory| then Some(BytesWord(memory[at..at + 8])) else None
  }

  function Splice(memory: seq<byte>, at: nat, bytes: seq<byte>): (r: seq<byte>)
    requires at + |bytes| <= |memory|
    ensures |r| == |memory|
  {
    memory[..at] + bytes + memory[at + |bytes|..]
  }

  function StoreWord(memory: seq<byte>, at: int, v: i64): (r: Option<seq<byte>>)
    ensures r.Some? ==> |r.value| == |memory|
  {
    if 0 <= at && at + 8 <= |memory| then Some(Splice(memory, at, WordBytes(v))) else None
  }

  /** Follows a stored address to a string and reads its text, if address and text are inside memory. */
  function StringAt(memory: seq<byte>, word: nat): Option<seq<byte>> {
    if word + 8 > |memory| then None
    else
      var address := LeValue(memory[word..word + 8]);
      if address == 0 || address + 16 > |memory| then None
      else
        var length := LeValue(memory[address + 8..address + 16]);
        if address + 16 + length > |memory| then None
        else Some(memory[address + 16..address + 16 + length])
  }

  /** The trap to report: a recorded failure when both of its strings can be read. */
  function Why(memory: seq<byte>): Trap {
    match (StringAt(memory, L.FAILURE_CODE), StringAt(memory, L.FAILURE_MESSAGE))
    case (Some(code), Some(message)) => Failed(code, message)
    case _ => Trap.Unreachable
  }

  /** The bytes a run starts from: zeroed pages under the data segments. */
  function MemoryOf(m: Module): seq<byte> {
    PlaceAll(seq((if m.memoryPages.Some? then m.memoryPages.value else 0) * L.PAGE, _ => 0), m.data)
  }

  function PlaceAll(memory: seq<byte>, data: seq<(nat, seq<byte>)>): (r: seq<byte>)
    ensures |r| == |memory|
    decreases |data|
  {
    if data == [] then memory
    else
      var (at, bytes) := data[0];
      PlaceAll(if at + |bytes| <= |memory| then Splice(memory, at, bytes) else memory, data[1..])
  }

  // -- instructions that only touch the state --------------------------------

  function Boolean(b: bool): Value { V32(if b then 1 else 0) }

  predicate Unary(op: NumOp) {
    op.I32Eqz? || op.I64Eqz? || op.I32WrapI64? || op.I64ExtendI32S?
  }

  function UnaryOn(op: NumOp, v: i64): Value
    requires Unary(op)
  {
    match op
    case I32Eqz | I64Eqz => Boolean(v == 0)
    case I32WrapI64 => V32(Wrap32(v))
    case _ => V64(v)
  }

  function BinaryOn(op: NumOp, left: i64, right: i64): Step<Value>
    requires !Unary(op)
  {
    match op
    case I64Add => Ok(V64(Wrap64(left + right)))
    case I64Sub => Ok(V64(Wrap64(left - right)))
    case I64Mul => Ok(V64(Wrap64(left * right)))
    case I64Xor => Ok(V64(Xor64(left, right)))
    case I32Add => Ok(V32(Wrap32(Wrap64(left + right))))
    case I32Sub => Ok(V32(Wrap32(Wrap64(left - right))))
    case I32Mul => Ok(V32(Wrap32(Wrap64(left * right))))
    case I64DivS => if right == 0 then Stops(DivideByZero) else Ok(V64(Wrap64(TruncDiv(left, right))))
    case I64RemS => if right == 0 then Stops(DivideByZero) else Ok(V64(Wrap64(TruncRem(left, right))))
    case I32Eq | I64Eq => Ok(Boolean(left == right))
    case I32Ne | I64Ne => Ok(Boolean(left != right))
    case I32LtS | I64LtS => Ok(Boolean(left < right))
    case I32LeS | I64LeS => Ok(Boolean(left <= right))
    case I32GtS | I64GtS => Ok(Boolean(left > right))
    case I32GeS | I64GeS => Ok(Boolean(left >= right))
    case I32And => Ok(Boolean(left != 0 && right != 0))
    case I32Or => Ok(Boolean(left != 0 || right != 0))
  }

  /** The top of the stack and what is under it. */
  function Popped(s: State): Step<(Value, State)> {
    if s.stack == [] then Stops(EmptyStack)
    else Ok((s.stack[|s.stack| - 1], s.(stack := s.stack[..|s.stack| - 1])))
  }

  function Pushed(s: State, v: Value): State { s.(stack := s.stack + [v]) }


  function ExecNum(op: NumOp, s: State): Step<State> {
    match Popped(s)
    case Ok((right, under)) =>
      if Unary(op) then Ok(Pushed(under, UnaryOn(op, AsI64(right))))
      else
        (match Popped(under)
         case Ok((left, rest)) =>
           (match BinaryOn(op, AsI64(left), AsI64(right))
            case Ok(v) => Ok(Pushed(rest, v))
            case Stops(trap) => Stops(trap)
            case Panic => Panic)
         case Stops(trap) => Stops(trap)
         case Panic => Panic)
    case Stops(trap) => Stops(trap)
    case Panic => Panic
  }

  function ExecLoad(ins: Ins, s: State): Step<State>
    requires ins.I32Load? || ins.I64Load? || ins.I32Load8U?
  {
    match Popped(s)
    case Ok((address, under)) =>
      var at := AsI64(address) + ins.offset;
      if AsI64(address) < 0 then Stops(OutOfBounds)
      else if ins.I32Load8U? then
        if at < |s.memory| then Ok(Pushed(under, V32(s.memory[at]))) else Stops(OutOfBounds)
      else
        (match LoadWord(s.memory, at)
         case Some(word) => Ok(Pushed(under, if ins.I64Load? then V64(word) else V32(Wrap32(word))))
         case None => Stops(OutOfBounds))
    case Stops(trap) => Stops(trap)
    case Panic => Panic
  }

  function ExecStore(ins: Ins, s: State): Step<State>
    requires ins.I32Store? || ins.I64Store? || ins.I32Store8?
  {
    match Popped(s)
    case Ok((v, under)) =>
      (match Popped(under)
       case Ok((address, rest)) =>
         var at := AsI64(address) + ins.offset;
         if AsI64(address) < 0 then Stops(OutOfBounds)
         else if ins.I32Store8? then
           if at < |s.memory| then Ok(rest.(memory := s.memory[at := AsI64(v) % 256])) else Stops(OutOfBounds)
         else
           (match StoreWord(s.memory, at, AsI64(v))
            case Some(memory) => Ok(rest.(memory := memory))
            case None => Stops(OutOfBounds))
       case Stops(trap) => Stops(trap)
       case Panic => Panic)
    case Stops(trap) => Stops(trap)
    case Panic => Panic
  }

  function Pages(memory: seq<byte>): i32 { Wrap32(|memory| / L.PAGE) }

  function ExecGrow(s: State): Step<State> {
    match Popped(s)
    case Ok((asked, under)) =>
      var wanted := Pages(s.memory) + AsI64(asked);
      if AsI64(asked) < 0 || wanted < 0 || wanted > MEMORY_PAGES_CEILING then Ok(Pushed(under, V32(-1)))
      else Ok(Pushed(under.(memory := Resized(s.memory, wanted * L.PAGE)), V32(Pages(s.memory))))
    case Stops(trap) => Stops(trap)
    case Panic => Panic
  }

  function Resized(memory: seq<byte>, size: nat): (r: seq<byte>)
    ensures |r| == size
  {
    if size <= |memory| then memory[..size] else memory + seq(size - |memory|, _ => 0)
  }

  /** Instructions that neither branch, open a block nor call. */
  predicate Simple(ins: Ins) {
    !(ins.Marked? || ins.Unreachable? || ins.Block? || ins.Loop? || ins.If? || ins.Br? || ins.BrIf?
      || ins.Return? || ins.Call? || ins.CallIndirect?)
  }

  function ExecSimple(ins: Ins, s: State): Step<State>
    requires Simple(ins)
  {
    match ins
    case Nop => Ok(s)
    case Drop => Ok(if s.stack == [] then s else s.(stack := s.stack[..|s.stack| - 1]))
    case LocalGet(i) => if i < |s.locals| then Ok(Pushed(s, s.locals[i])) else Panic
    case LocalSet(i) =>
      (match Popped(s)
       case Ok((v, under)) => if i < |s.locals| then Ok(under.(locals := s.locals[i := v])) else Panic
       case Stops(trap) => Stops(trap)
       case Panic => Panic)
    case LocalTee(i) =>
      if s.stack == [] then Stops(EmptyStack)
      else if i < |s.locals| then Ok(s.(locals := s.locals[i := s.stack[|s.stack| - 1]]))
      else Panic
    case I32Const(n) => Ok(Pushed(s, V32(n)))
    case I64Const(n) => Ok(Pushed(s, V64(n)))
    case Num(op) => ExecNum(op, s)
    case I32Load(_) | I64Load(_) | I32Load8U(_) => ExecLoad(ins, s)
    case I32Store(_) | I64Store(_) | I32Store8(_) => ExecStore(ins, s)
    case MemorySize => Ok(Pushed(s, V32(Pages(s.memory))))
    case MemoryGrow => ExecGrow(s)
  }

  // -- control ---------------------------------------------------------------

  /** A body: one unit of fuel an instruction, and nothing after a jump. */
  function Body(w: World, fuel: nat, body: seq<Ins>, s: State): (r: Ran)
    ensures r.Done? ==> r.fuel <= fuel && (r.value.1 != Normal ==> r.fuel < fuel)
    decreases fuel, 1, 0
  {
    if body == [] then Done(fuel, (s, Normal))
    else if fuel == 0 then Trapped(TooLong)
    else
      match Instr(w, fuel, body[0], s)
      case Done(left, (next, Normal)) => Body(w, left, body[1..], next)
      case other => other
  }

  /** One instruction, its own unit of fuel included. A marker is taken off first, once. */
  function Instr(w: World, fuel: nat, marked: Ins, s: State): (r: Ran)
    requires fuel > 0
    ensures r.Done? ==> r.fuel < fuel
    decreases fuel, 0, 2
  {
    var ins := if marked.Marked? then marked.inner else marked;
    if w.checks && ins.Drop? && s.stack == [] then Trapped(EmptyStack)
    else if Simple(ins) then Plainly(fuel - 1, ExecSimple(ins, s))
    else Structured(w, fuel, ins, s)
  }

  function Plainly(fuel: nat, step: Step<State>): Ran {
    match step
    case Ok(next) => Done(fuel, (next, Normal))
    case Stops(trap) => Trapped(trap)
    case Panic => Panics
  }

  function Structured(w: World, fuel: nat, ins: Ins, s: State): (r: Ran)
    requires fuel > 0 && !Simple(ins)
    ensures r.Done? ==> r.fuel < fuel
    decreases fuel, 0, 1
  {
    match ins
    case Marked(_, _) => Panics
    case Unreachable => Trapped(Why(s.memory))
    case Return => Done(fuel - 1, (s, Returning))
    case Br(depth) => Done(fuel - 1, (s, Break(depth)))
    case BrIf(depth) => BranchIf(fuel - 1, depth, s)
    case Block(_, body) => Leave(Body(w, fuel - 1, body, s))
    case Loop(_, body) => Iterate(w, fuel - 1, body, s)
    case If(_, taken, otherwise) => Choose(w, fuel, taken, otherwise, s)
    case Call(index) => Apply(w, fuel - 1, index, s)
    case CallIndirect(at) => ApplyTable(w, fuel, at, s)
  }

  function BranchIf(fuel: nat, depth: nat, s: State): Ran {
    match Popped(s)
    case Ok((condition, under)) => Done(fuel, (under, if AsBool(condition) then Break(depth) else Normal))
    case Stops(trap) => Trapped(trap)
    case Panic => Panics
  }

  function Choose(w: World, fuel: nat, taken: seq<Ins>, otherwise: seq<Ins>, s: State): (r: Ran)
    requires fuel > 0
    ensures r.Done? ==> r.fuel < fuel
    decreases fuel, 0, 0
  {
    match Popped(s)
    case Ok((condition, under)) =>
      Leave(Body(w, fuel - 1, if AsBool(condition) then taken else otherwise, under))
    case Stops(trap) => Trapped(trap)
    case Panic => Panics
  }

  /** A call through the table, by the slot on top of the stack. */
  function ApplyTable(w: World, fuel: nat, at: nat, s: State): (r: Ran)
    requires fuel > 0
    ensures r.Done? ==> r.fuel < fuel && r.value.1 == Normal
    decreases fuel, 0, 0
  {
    match Popped(s)
    case Ok((slot, under)) =>
      if !(0 <= AsI64(slot) < |w.m.table|) then Trapped(OutOfBounds)
      else if w.checks && !SignatureAgrees(w.m, w.m.table[AsI64(slot)], at) then
        Trapped(SignatureMismatch)
      else Apply(w, fuel - 1, w.m.table[AsI64(slot)], under)
    case Stops(trap) => Trapped(trap)
    case Panic => Panics
  }

  /** Whether the function at this index has the type a table call names. */
  predicate SignatureAgrees(m: Module, index: nat, at: nat) {
    at < |m.types| && FuncTypeOf(m, index) == Some(m.types[at])
  }

  /** What a jump out of a block or an arm means to what is around it. */
  function Leave(r: Ran): Ran {
    match r
    case Done(fuel, (s, Break(depth))) => Done(fuel, (s, if depth == 0 then Normal else Break(depth - 1)))
    case other => other
  }

  /** A loop: a jump to its own label starts it again. */
  function Iterate(w: World, fuel: nat, body: seq<Ins>, s: State): (r: Ran)
    ensures r.Done? ==> r.fuel <= fuel
    decreases fuel, 2, 0
  {
    match Body(w, fuel, body, s)
    case Done(left, (next, Break(depth))) =>
      if depth == 0 then Iterate(w, left, body, next) else Done(left, (next, Break(depth - 1)))
    case other => other
  }

  /** The number of parameters a call to this index pops, imports counted first. */
  function Arity(m: Module, index: nat): Step<nat> {
    if index < |m.imports| then
      if m.imports[index] < |m.types| then Ok(|m.types[m.imports[index]].params|) else Panic
    else if index - |m.imports| >= |m.funcs| then Stops(OutOfBounds)
    else
      var at := m.funcs[index - |m.imports|].typeIndex;
      if at < |m.types| then Ok(|m.types[at].params|) else Panic
  }

  /** A call from inside a body: arguments off the stack, the result onto it. */
  function Apply(w: World, fuel: nat, index: nat, s: State): (r: Ran)
    ensures r.Done? ==> r.fuel <= fuel && r.value.1 == Normal
    decreases fuel, 3, 0
  {
    match Arity(w.m, index)
    case Ok(count) =>
      if |s.stack| < count then Panics
      else
        var at := |s.stack| - count;
        (match Invoke(w, fuel, index, s.stack[at..], s.memory)
         case Done(left, (memory, value)) =>
           var under := State(memory, s.locals, s.stack[..at]);
           Done(left, (if value.Some? then Pushed(under, value.value) else under, Normal))
         case Trapped(trap) => Trapped(trap)
         case Panics => Panics)
    case Stops(trap) => Trapped(trap)
    case Panic => Panics
  }

  /** The arguments, then a zero for every other local, and nothing on the stack. */
  function Begun(func: Func, args: seq<Value>, memory: seq<byte>): State {
    State(memory, args + seq(|func.locals|, i requires 0 <= i < |func.locals| => Zero(func.locals[i])), [])
  }

  /** The function at this index, answered by the host or by its own body. */
  function Invoke(w: World, fuel: nat, index: nat, args: seq<Value>, memory: seq<byte>)
    : (r: Result<(seq<byte>, Option<Value>)>)
    ensures r.Done? ==> r.fuel <= fuel
    decreases fuel, 2, 0
  {
    if index < |w.m.imports| then
      if w.host.None? then Trapped(NeedsAHost(index))
      else
        (match w.host.value(index, args, memory)
         case Answer(value, after) => Done(fuel, (after, value))
         case Refuses(trap) => Trapped(trap))
    else if index - |w.m.imports| >= |w.m.funcs| then Panics
    else
      var func := w.m.funcs[index - |w.m.imports|];
      if func.typeIndex >= |w.m.types| then Panics
      else
        (match Body(w, fuel, func.body, Begun(func, args, memory))
         case Done(left, (s, _)) =>
           var answers := w.m.types[func.typeIndex].results != [] && s.stack != [];
           Done(left, (s.memory, if answers then Some(s.stack[|s.stack| - 1]) else None))
         case Trapped(trap) => Trapped(trap)
         case Panics => Panics)
  }

  // -- exports ---------------------------------------------------------------

  datatype Outcome = Outcome(value: Option<Value>, grown: nat, steps: nat, memory: seq<byte>)

  /** Where the bump pointer sits, or zero when there is no word for it. */
  function Bump(memory: seq<byte>): nat {
    if L.BUMP + 8 <= |memory| then LeValue(memory[L.BUMP..L.BUMP + 8]) else 0
  }

  function SaturatingSub(x: nat, y: nat): nat { if y <= x then x - y else 0 }

  /** A whole run of one function within a budget: what it allocated and how many instructions it took. */
  function RunExport(w: World, index: nat, args: seq<Value>, budget: nat, memory: seq<byte>): Step<Outcome> {
    match Invoke(w, budget, index, args, memory)
    case Done(left, (after, value)) => Ok(Outcome(value, SaturatingSub(Bump(after), Bump(memory)), budget - left, after))
    case Trapped(trap) => Stops(trap)
    case Panics => Panic
  }
}
