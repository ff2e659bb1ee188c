/** The instructions and modules the backend emits. */
module Wasm {
  import opened Ints

  datatype Option<+T> = None | Some(value: T)

  datatype ValType = I32 | I64

  /** The instructions without operands or immediates that only touch the stack. */
  datatype NumOp =
    | I32Add | I32Sub | I32Mul | I32Eq | I32Ne | I32LtS | I32LeS | I32GtS | I32GeS | I32And | I32Or | I32Eqz
    | I64Add | I64Sub | I64Mul | I64Xor | I64DivS | I64RemS | I64Eq | I64Ne | I64LtS | I64LeS | I64GtS | I64GeS
    | I64Eqz | I32WrapI64 | I64ExtendI32S

  datatype Ins =
    | Marked(site: nat, inner: Ins)
    | Unreachable
    | Nop
    | Block(result: Option<ValType>, body: seq<Ins>)
    | Loop(result: Option<ValType>, body: seq<Ins>)
    | If(result: Option<ValType>, taken: seq<Ins>, otherwise: seq<Ins>)
    | Br(depth: nat)
    | BrIf(depth: nat)
    | Return
    | Call(func: nat)
    | CallIndirect(typeIndex: nat)
    | Drop
    | LocalGet(index: nat)
    | LocalSet(index: nat)
    | LocalTee(index: nat)
    | I32Const(n: i32)
    | I64Const(m: i64)
    | Num(op: NumOp)
    | I32Load(offset: nat)
    | I64Load(offset: nat)
    | I32Store(offset: nat)
    | I64Store(offset: nat)
    | I32Load8U(offset: nat)
    | I32Store8(offset: nat)
    | MemorySize
    | MemoryGrow

  datatype FuncType = FuncType(params: seq<ValType>, results: seq<ValType>)

  datatype Func = Func(typeIndex: nat, locals: seq<ValType>, body: seq<Ins>)

  /**
   * What running and validating read of a module. An import is its signature: the names
   * it is published under only decide which host function answers.
   */
  datatype Module = Module(
    types: seq<FuncType>,
    imports: seq<nat>,
    funcs: seq<Func>,
    memoryPages: Option<nat>,
    table: seq<nat>,
    data: seq<(nat, seq<byte>)>)

  /** The zero or one types an optional block result stands for. */
  function Results(result: Option<ValType>): seq<ValType> {
    if result.Some? then [result.value] else []
  }

  /** The signature of a function by index, imports counted first. */
  function FuncTypeOf(m: Module, index: nat): Option<FuncType> {
    if index < |m.imports| then
      if m.imports[index] < |m.types| then Some(m.types[m.imports[index]]) else None
    else if index - |m.imports| < |m.funcs| then
      var at := m.funcs[index - |m.imports|].typeIndex;
      if at < |m.types| then Some(m.types[at]) else None
    else
      None
  }

  /** What a numeric instruction takes, deepest operand first. */
  function NumParams(op: NumOp): seq<ValType> {
    match op
    case I32Eqz | I64ExtendI32S => [I32]
    case I64Eqz | I32WrapI64 => [I64]
    case I32Add | I32Sub | I32Mul | I32Eq | I32Ne | I32LtS | I32LeS | I32GtS | I32GeS | I32And | I32Or => [I32, I32]
    case _ => [I64, I64]
  }

  /** What a numeric instruction leaves. */
  function NumResult(op: NumOp): ValType {
    match op
    case I64Add | I64Sub | I64Mul | I64Xor | I64DivS | I64RemS | I64ExtendI32S => I64
    case _ => I32
  }
}
