/**
 * The instructions of three loops over the bytes of strings, as they are emitted: comparing two
 * strings, folding one into a hash and copying one. In any module with memory they validate.
 */
module HelperCode {
  import opened Ints
  import opened Wasm
  import opened Validate
  import opened CompileChecks
  import opened Combinators
  import opened Hashing
  import L = Layout

  const TEXT_BYTES: i32 := 16

  /** How many bytes the string at the address in a local has. */
  function ByteLength(slot: nat): seq<Ins> {
    [LocalGet(slot), Num(I32WrapI64), I64Load(8), Num(I32WrapI64)]
  }

  /** The address of a byte of that string. */
  function ByteAddress(slot: nat, index: nat): seq<Ins> {
    [LocalGet(slot), Num(I32WrapI64), I32Const(TEXT_BYTES), Num(I32Add), LocalGet(index), Num(I32Add)]
  }

  /** The same when the address is already narrow. */
  function NarrowAddress(slot: nat, index: nat): seq<Ins> {
    [LocalGet(slot), I32Const(TEXT_BYTES), Num(I32Add), LocalGet(index), Num(I32Add)]
  }

  function ByteOf(slot: nat, index: nat): seq<Ins> { ByteAddress(slot, index) + [I32Load8U(0)] }

  function Giving(n: i32): seq<Ins> { [I32Const(n), Ins.Return] }

  /** An answer at once when two narrow numbers differ. */
  function UnlessSame(): seq<Ins> { [Num(I32Ne)] + [Ins.If(None, Giving(0), [])] }

  /** The whole of `str_eq`: lengths, and then bytes, and then the answer that nothing differed. */
  function SameTextCode(): seq<Ins> {
    ByteLength(0) + [LocalSet(2)] + (ByteLength(1) + [LocalGet(2)] + UnlessSame())
      + CountTo(3, 2, ByteOf(0, 3) + ByteOf(1, 3) + UnlessSame()) + Giving(1)
  }

  /** One step of a fold: what is pushed, taken into the running hash in a local. */
  function Absorbs(h: nat, what: seq<Ins>): seq<Ins> {
    [LocalGet(h)] + what + [Num(I64Xor), I64Const(PRIME), Num(I64Mul), LocalSet(h)]
  }

  /** The whole of `str_hash`: the character count, and then every byte. */
  function HashTextCode(): seq<Ins> {
    [LocalGet(0), LocalSet(2)] + Absorbs(2, [LocalGet(1), Num(I32WrapI64), I64Load(0)])
      + (ByteLength(1) + [LocalSet(3)])
      + CountTo(4, 3, Absorbs(2, ByteOf(1, 4) + [Num(I64ExtendI32S)])) + [LocalGet(2), Ins.Return]
  }

  /** The loop of `str_concat` that puts one string's bytes after the counts of another. */
  function CopyTextCode(out: nat, from: nat, index: nat, count: nat): seq<Ins> {
    CountTo(index, count, NarrowAddress(out, index) + ByteOf(from, index) + [I32Store8(0)])
  }

  // -- which instructions are accepted ---------------------------------------

  /** The operand types after one plain instruction, when those before it are these. */
  function After(env: Env, ins: Ins, before: seq<ValType>): Option<seq<ValType>> {
    match PlainType(env, ins)
    case Some(FuncType(params, results)) =>
      if |params| <= |before| && before[|before| - |params|..] == params
      then Some(before[..|before| - |params|] + results) else None
    case None => None
  }

  /** The operand types after plain instructions in a row. */
  function AfterAll(env: Env, code: seq<Ins>, before: seq<ValType>): Option<seq<ValType>>
    decreases |code|
  {
    if code == [] then Some(before)
    else match After(env, code[0], before) case Some(next) => AfterAll(env, code[1..], next) case None => None
  }

  lemma PushAllSound(c: Control, types: seq<ValType>)
    requires Sound(c)
    ensures Sound(PushAll(c, types))
  {
  }

  lemma OneAfter(env: Env, c: Control, ins: Ins, before: seq<ValType>)
    requires Sound(c) && After(env, ins, before).Some?
    ensures Turns(env, c, [ins], before, After(env, ins, before).value)
  {
    hide CheckIns, PlainType;
    var ty := PlainType(env, ins).value;
    var under := before[..|before| - |ty.params|];
    PushAllSound(c, under);
    PlainTurns(env, PushAll(c, under), ins);
    PushAllTwice(c, under, ty.params);
    PushAllTwice(c, under, ty.results);
    assert before == under + ty.params;
  }

  /** Code whose types work out validates. */
  lemma {:induction false} AllAfter(env: Env, c: Control, code: seq<Ins>, before: seq<ValType>)
    requires Sound(c) && AfterAll(env, code, before).Some?
    ensures Turns(env, c, code, before, AfterAll(env, code, before).value)
    decreases |code|
  {
    hide CheckIns, After;
    PushAllSound(c, before);
    if code != [] {
      var next := After(env, code[0], before).value;
      OneAfter(env, c, code[0], before);
      AllAfter(env, c, code[1..], next);
      TurnsThen(env, c, [code[0]], code[1..], before, next, AfterAll(env, code, before).value);
      assert [code[0]] + code[1..] == code;
    }
  }

  lemma {:induction false} AfterThen(env: Env, one: seq<Ins>, two: seq<Ins>, before: seq<ValType>, between: seq<ValType>)
    requires AfterAll(env, one, before) == Some(between)
    ensures AfterAll(env, one + two, before) == AfterAll(env, two, between)
    decreases |one|
  {
    hide After;
    if one == [] {
      assert one + two == two;
    } else {
      assert (one + two)[1..] == one[1..] + two;
      AfterThen(env, one[1..], two, After(env, one[0], before).value, between);
    }
  }

  lemma AfterOne(env: Env, ins: Ins, before: seq<ValType>)
    ensures AfterAll(env, [ins], before) == After(env, ins, before)
  {
    hide After;
    assert [ins][1..] == [];
  }

  // -- acceptance, instruction by instruction --------------------------------

  const NARROW: set<NumOp> := {I32Add, I32Sub, I32Mul, I32Eq, I32Ne, I32LtS, I32LeS, I32GtS, I32GeS, I32And, I32Or}
  const WIDE: set<NumOp> := {I64Add, I64Sub, I64Mul, I64Xor, I64DivS, I64RemS}
  const WIDE_TESTS: set<NumOp> := {I64Eq, I64Ne, I64LtS, I64LeS, I64GtS, I64GeS}

  /** An instruction goes from these operands on top to those, whatever is under them. */
  ghost predicate Goes(env: Env, c: Control, ins: Ins, params: seq<ValType>, results: seq<ValType>)
    requires Sound(c)
  {
    Sound(PushAll(c, params)) && CheckIns(env, PushAll(c, params), ins) == Some(PushAll(c, results))
  }

  lemma PlainGoes(env: Env, c: Control, ins: Ins, params: seq<ValType>, results: seq<ValType>)
    requires Sound(c) && PlainType(env, ins) == Some(FuncType(params, results))
    ensures Goes(env, c, ins, params, results)
  {
    hide CheckIns, CheckBody;
    PushAllSound(c, params);
    PlainTurns(env, c, ins);
    CheckOne(env, PushAll(c, params), ins);
  }

  /** Every numeric instruction is accepted on the operands its name gives it. */
  lemma NumericAccepted(env: Env, c: Control, op: NumOp)
    requires Sound(c)
    ensures op in NARROW ==> Goes(env, c, Num(op), [I32, I32], [I32])
    ensures op in WIDE ==> Goes(env, c, Num(op), [I64, I64], [I64])
    ensures op in WIDE_TESTS ==> Goes(env, c, Num(op), [I64, I64], [I32])
    ensures op == I32Eqz ==> Goes(env, c, Num(op), [I32], [I32])
    ensures op in {I64Eqz, I32WrapI64} ==> Goes(env, c, Num(op), [I64], [I32])
    ensures op == I64ExtendI32S ==> Goes(env, c, Num(op), [I32], [I64])
    ensures op in NARROW || op in WIDE || op in WIDE_TESTS || op in {I32Eqz, I64Eqz, I32WrapI64, I64ExtendI32S}
  {
    hide Goes, NumParams, NumResult;
    NumericTypes(op);
    PlainGoes(env, c, Num(op), NumParams(op), [NumResult(op)]);
  }

  lemma NumericTypes(op: NumOp)
    ensures op in NARROW ==> NumParams(op) == [I32, I32] && NumResult(op) == I32
    ensures op in WIDE ==> NumParams(op) == [I64, I64] && NumResult(op) == I64
    ensures op in WIDE_TESTS ==> NumParams(op) == [I64, I64] && NumResult(op) == I32
    ensures op == I32Eqz ==> NumParams(op) == [I32] && NumResult(op) == I32
    ensures op in {I64Eqz, I32WrapI64} ==> NumParams(op) == [I64] && NumResult(op) == I32
    ensures op == I64ExtendI32S ==> NumParams(op) == [I32] && NumResult(op) == I64
    ensures op in NARROW || op in WIDE || op in WIDE_TESTS || op in {I32Eqz, I64Eqz, I32WrapI64, I64ExtendI32S}
  {
  }

  /** Loads take a narrow address, stores an address and what they store, and a byte is stored from a narrow number. */
  lemma MemoryAccepted(env: Env, c: Control, offset: nat)
    requires Sound(c) && env.m.memoryPages.Some?
    ensures Goes(env, c, I32Load(offset), [I32], [I32]) && Goes(env, c, I64Load(offset), [I32], [I64])
    ensures Goes(env, c, I32Load8U(offset), [I32], [I32]) && Goes(env, c, I32Store8(offset), [I32, I32], [])
    ensures Goes(env, c, I32Store(offset), [I32, I32], []) && Goes(env, c, I64Store(offset), [I32, I64], [])
    ensures Goes(env, c, MemorySize, [], [I32]) && Goes(env, c, MemoryGrow, [I32], [I32])
  {
    hide Goes;
    PlainGoes(env, c, I32Load(offset), [I32], [I32]);
    PlainGoes(env, c, I64Load(offset), [I32], [I64]);
    PlainGoes(env, c, I32Load8U(offset), [I32], [I32]);
    PlainGoes(env, c, I32Store8(offset), [I32, I32], []);
    PlainGoes(env, c, I32Store(offset), [I32, I32], []);
    PlainGoes(env, c, I64Store(offset), [I32, I64], []);
    PlainGoes(env, c, MemorySize, [], [I32]);
    PlainGoes(env, c, MemoryGrow, [I32], [I32]);
  }

  /** Without a memory nothing that needs one is accepted. */
  lemma MemoryNeeded(env: Env, c: Control, ins: Ins)
    requires Sound(c) && env.m.memoryPages.None?
    requires ins.I32Load? || ins.I64Load? || ins.I32Load8U? || ins.I32Store? || ins.I64Store? || ins.I32Store8?
          || ins.MemorySize? || ins.MemoryGrow?
    ensures CheckIns(env, c, ins).None?
  {
  }

  /** An instruction does not go with these operands on top. */
  ghost predicate Refused(env: Env, c: Control, operands: seq<ValType>, ins: Ins)
    requires Sound(c)
  {
    Sound(PushAll(c, operands)) && CheckIns(env, PushAll(c, operands), ins).None?
  }

  /** An operand of the other width on top is refused by numeric instructions. */
  lemma WrongTop(env: Env, c: Control, op: NumOp)
    requires Sound(c)
    ensures op in NARROW || op in {I32Eqz, I64ExtendI32S} ==> Refused(env, c, [I64], Num(op))
    ensures op in WIDE || op in WIDE_TESTS || op in {I64Eqz, I32WrapI64} ==> Refused(env, c, [I32], Num(op))
  {
    hide Refused, NumParams;
    LastOperand(op);
    var last := NumParams(op)[|NumParams(op)| - 1];
    TopIsChecked(env, c, Num(op), if last == I32 then I64 else I32);
  }

  lemma LastOperand(op: NumOp)
    ensures NumParams(op) != []
    ensures op in NARROW || op in {I32Eqz, I64ExtendI32S} ==> NumParams(op)[|NumParams(op)| - 1] == I32
    ensures op in WIDE || op in WIDE_TESTS || op in {I64Eqz, I32WrapI64} ==> NumParams(op)[|NumParams(op)| - 1] == I64
  {
  }

  /** And by loads and stores: an address is narrow, and so is a byte. */
  lemma WrongWidth(env: Env, c: Control, offset: nat)
    requires Sound(c)
    ensures Refused(env, c, [I64], I32Store8(offset)) && Refused(env, c, [I64], I32Store(offset))
    ensures Refused(env, c, [I32], I64Store(offset))
    ensures Refused(env, c, [I64], I32Load8U(offset)) && Refused(env, c, [I64], I64Load(offset))
  {
    hide Refused;
    TopIsChecked(env, c, I32Store8(offset), I64);
    TopIsChecked(env, c, I32Store(offset), I64);
    TopIsChecked(env, c, I64Store(offset), I32);
    TopIsChecked(env, c, I32Load8U(offset), I64);
    TopIsChecked(env, c, I64Load(offset), I64);
  }

  /** The operand under it is checked as well. */
  lemma WrongUnder(env: Env, c: Control, op: NumOp, offset: nat)
    requires Sound(c)
    ensures op in NARROW ==> Refused(env, c, [I64, I32], Num(op))
    ensures op in WIDE || op in WIDE_TESTS ==> Refused(env, c, [I32, I64], Num(op))
    ensures Refused(env, c, [I64, I32], I32Store8(offset)) && Refused(env, c, [I64, I32], I32Store(offset))
    ensures Refused(env, c, [I64, I64], I64Store(offset))
  {
    hide Refused, NumParams, NumResult;
    NumericTypes(op);
    if op in NARROW {
      UnderIsChecked(env, c, Num(op), I32, I32, I64);
    } else if op in WIDE || op in WIDE_TESTS {
      UnderIsChecked(env, c, Num(op), I64, I64, I32);
    }
    UnderIsChecked(env, c, I32Store8(offset), I32, I32, I64);
    UnderIsChecked(env, c, I32Store(offset), I32, I32, I64);
    UnderIsChecked(env, c, I64Store(offset), I32, I64, I64);
  }

  lemma UnderIsChecked(env: Env, c: Control, ins: Ins, t: ValType, u: ValType, under: ValType)
    requires Sound(c) && (ins.Num? || ins.I32Store? || ins.I64Store? || ins.I32Store8?) && under != t
    requires PlainType(env, ins).Some? ==> PlainType(env, ins).value.params == [t, u]
    ensures Refused(env, c, [under, u], ins)
  {
    hide PlainType;
    PushAllSound(c, [under, u]);
    PopPushed(PushAll(c, [under]), [u]);
    PushAllTwice(c, [under], [u]);
    assert [under] + [u] == [under, u];
    TopRefused(c, under, t);
    if PlainType(env, ins).Some? {
      var full := PushAll(c, [under, u]);
      assert full.stack == PushAll(c, [under]).stack + [Val(u)];
      assert full.stack[..|full.stack| - 1] == PushAll(c, [under]).stack;
      assert PopExpect(full, u) == Some(PushAll(c, [under]));
      assert [t, u][..1] == [t];
      assert PopAll(PushAll(c, [under]), [t]).None?;
      assert PopAll(full, [t, u]).None?;
    }
  }

  lemma TopIsChecked(env: Env, c: Control, ins: Ins, top: ValType)
    requires Sound(c) && (ins.Num? || ins.I32Load? || ins.I64Load? || ins.I32Load8U? || ins.I32Store? || ins.I64Store? || ins.I32Store8?)
    requires PlainType(env, ins).Some? ==>
               PlainType(env, ins).value.params != [] && top != PlainType(env, ins).value.params[|PlainType(env, ins).value.params| - 1]
    ensures Refused(env, c, [top], ins)
  {
    hide PlainType, PushAll, PopExpect;
    PushAllSound(c, [top]);
    if PlainType(env, ins).Some? {
      var params := PlainType(env, ins).value.params;
      TopRefused(c, top, params[|params| - 1]);
    }
  }

  lemma TopRefused(c: Control, top: ValType, wanted: ValType)
    requires Sound(c) && top != wanted
    ensures PopExpect(PushAll(c, [top]), wanted).None?
  {
    assert PushAll(c, [top]).stack == c.stack + [Val(top)];
  }

  /** Constants, locals and calls, direct and through the table. */
  lemma OthersAccepted(env: Env, c: Control, n: i32, m: i64, i: nat, index: nat, at: nat)
    requires Sound(c) && i < |env.locals|
    ensures Goes(env, c, I32Const(n), [], [I32]) && Goes(env, c, I64Const(m), [], [I64])
    ensures Goes(env, c, LocalGet(i), [], [env.locals[i]]) && Goes(env, c, LocalSet(i), [env.locals[i]], [])
    ensures Goes(env, c, LocalTee(i), [env.locals[i]], [env.locals[i]]) && Goes(env, c, Nop, [], [])
    ensures FuncTypeOf(env.m, index).Some? ==>
      Goes(env, c, Ins.Call(index), FuncTypeOf(env.m, index).value.params, FuncTypeOf(env.m, index).value.results)
    ensures at < |env.m.types| ==> Goes(env, c, CallIndirect(at), env.m.types[at].params + [I32], env.m.types[at].results)
  {
    hide Goes;
    PlainGoes(env, c, I32Const(n), [], [I32]);
    PlainGoes(env, c, I64Const(m), [], [I64]);
    PlainGoes(env, c, LocalGet(i), [], [env.locals[i]]);
    PlainGoes(env, c, LocalSet(i), [env.locals[i]], []);
    PlainGoes(env, c, LocalTee(i), [env.locals[i]], [env.locals[i]]);
    PlainGoes(env, c, Nop, [], []);
    if FuncTypeOf(env.m, index).Some? {
      PlainGoes(env, c, Ins.Call(index), FuncTypeOf(env.m, index).value.params, FuncTypeOf(env.m, index).value.results);
    }
    if at < |env.m.types| {
      PlainGoes(env, c, CallIndirect(at), env.m.types[at].params + [I32], env.m.types[at].results);
    }
  }

  /** A block and a loop are accepted around a body that leaves what they are declared to. */
  lemma HoldersAccepted(env: Env, c: Control, result: Option<ValType>, body: seq<Ins>)
    requires Sound(c)
    ensures Leaves(env, PushFrame(c, Results(result), Results(result)), body, Results(result)) ==>
              Goes(env, c, Ins.Block(result, body), [], Results(result))
    ensures Leaves(env, PushFrame(c, [], Results(result)), body, Results(result)) ==>
              Goes(env, c, Ins.Loop(result, body), [], Results(result))
  {
    hide CheckBody, CheckNested, Leaves;
    PushAllNone(c);
    NestedAccepted(env, c, Results(result), Results(result), body);
    NestedAccepted(env, c, [], Results(result), body);
  }

  /** A choice is accepted around two arms that do, and refused when it has to leave something and has one arm. */
  lemma ArmsAccepted(env: Env, c: Control, result: Option<ValType>, taken: seq<Ins>, otherwise: seq<Ins>)
    requires Sound(c)
    requires Leaves(env, PushFrame(c, Results(result), Results(result)), taken, Results(result))
    requires Leaves(env, PushFrame(c, Results(result), Results(result)), otherwise, Results(result))
    ensures if result.Some? && otherwise == [] then Refused(env, c, [I32], Ins.If(result, taken, otherwise))
            else Goes(env, c, Ins.If(result, taken, otherwise), [I32], Results(result))
  {
    hide CheckBody, CheckNested, Leaves;
    PopPushed(c, [I32]);
    NestedAccepted(env, c, Results(result), Results(result), taken);
    NestedAccepted(env, c, Results(result), Results(result), otherwise);
  }

  /** Checking a body leaves these types. */
  ghost predicate Leaves(env: Env, c: Control, body: seq<Ins>, types: seq<ValType>)
    requires Sound(c)
  {
    CheckBody(env, c, body) == Some(PushAll(c, types))
  }

  lemma NestedAccepted(env: Env, c: Control, labels: seq<ValType>, types: seq<ValType>, body: seq<Ins>)
    requires Sound(c)
    ensures Leaves(env, PushFrame(c, labels, types), body, types) ==> CheckNested(env, c, labels, types, body) == Some(PushAll(c, types))
  {
    var entered := PushFrame(c, labels, types);
    PopPushed(entered, types);
    assert entered.frames[..|c.frames|] == c.frames;
  }

  // -- the three loops validate ----------------------------------------------

  ghost predicate Wide(env: Env, a: nat) { a < |env.locals| && env.locals[a] == I64 }

  /** Plain code leaves these operand types where those were. */
  predicate Flows(env: Env, code: seq<Ins>, before: seq<ValType>, after: seq<ValType>) {
    AfterAll(env, code, before) == Some(after)
  }

  lemma FlowsThen(env: Env, one: seq<Ins>, two: seq<Ins>, before: seq<ValType>, between: seq<ValType>, after: seq<ValType>)
    requires Flows(env, one, before, between) && Flows(env, two, between, after)
    ensures Flows(env, one + two, before, after)
  {
    AfterThen(env, one, two, before, between);
  }

  lemma Pushes(env: Env, ins: Ins, before: seq<ValType>, t: ValType)
    requires PlainType(env, ins) == Some(FuncType([], [t]))
    ensures Flows(env, [ins], before, before + [t])
  {
    AfterOne(env, ins, before);
    assert before[|before|..] == [] && before[..|before|] == before;
  }

  lemma Changes(env: Env, ins: Ins, before: seq<ValType>, t: ValType, u: ValType)
    requires PlainType(env, ins) == Some(FuncType([t], [u]))
    ensures Flows(env, [ins], before + [t], before + [u])
  {
    AfterOne(env, ins, before + [t]);
    assert (before + [t])[|before|..] == [t] && (before + [t])[..|before|] == before;
  }

  lemma Takes(env: Env, ins: Ins, before: seq<ValType>, t: ValType)
    requires PlainType(env, ins) == Some(FuncType([t], []))
    ensures Flows(env, [ins], before + [t], before)
  {
    AfterOne(env, ins, before + [t]);
    assert (before + [t])[|before|..] == [t] && (before + [t])[..|before|] == before && before + [] == before;
  }

  /** An instruction on two operands, the second of them pushed by code of its own. */
  lemma Joins(env: Env, code: seq<Ins>, ins: Ins, before: seq<ValType>, t: ValType, u: ValType, results: seq<ValType>)
    requires Flows(env, code, before + [t], before + [t] + [u]) && PlainType(env, ins) == Some(FuncType([t, u], results))
    ensures Flows(env, code + [ins], before + [t], before + results)
  {
    var both := before + [t] + [u];
    AfterOne(env, ins, both);
    assert both[|before|..] == [t, u] && both[..|before|] == before;
    FlowsThen(env, code, [ins], before + [t], both, before + results);
  }

  lemma LengthFlows(env: Env, slot: nat, before: seq<ValType>)
    requires Wide(env, slot) && env.m.memoryPages.Some?
    ensures Flows(env, ByteLength(slot), before, before + [I32])
  {
    hide Flows;
    Pushes(env, LocalGet(slot), before, I64);
    Changes(env, Num(I32WrapI64), before, I64, I32);
    Changes(env, I64Load(8), before, I32, I64);
    FlowsThen(env, [LocalGet(slot)], [Num(I32WrapI64)], before, before + [I64], before + [I32]);
    FlowsThen(env, [LocalGet(slot)] + [Num(I32WrapI64)], [I64Load(8)], before, before + [I32], before + [I64]);
    FlowsThen(env, [LocalGet(slot)] + [Num(I32WrapI64)] + [I64Load(8)], [Num(I32WrapI64)], before, before + [I64], before + [I32]);
    assert [LocalGet(slot)] + [Num(I32WrapI64)] + [I64Load(8)] + [Num(I32WrapI64)] == ByteLength(slot);
  }

  /** From a narrow address on top, the byte at an index past the two counts. */
  lemma OffsetFlows(env: Env, index: nat, before: seq<ValType>)
    requires Narrow(env, index)
    ensures Flows(env, [I32Const(TEXT_BYTES), Num(I32Add), LocalGet(index), Num(I32Add)], before + [I32], before + [I32])
  {
    hide Flows;
    Pushes(env, I32Const(TEXT_BYTES), before + [I32], I32);
    Joins(env, [I32Const(TEXT_BYTES)], Num(I32Add), before, I32, I32, [I32]);
    Pushes(env, LocalGet(index), before + [I32], I32);
    Joins(env, [LocalGet(index)], Num(I32Add), before, I32, I32, [I32]);
    FlowsThen(env, [I32Const(TEXT_BYTES)] + [Num(I32Add)], [LocalGet(index)] + [Num(I32Add)],
              before + [I32], before + [I32], before + [I32]);
    assert [I32Const(TEXT_BYTES)] + [Num(I32Add)] + ([LocalGet(index)] + [Num(I32Add)])
        == [I32Const(TEXT_BYTES), Num(I32Add), LocalGet(index), Num(I32Add)];
  }

  lemma NarrowFlows(env: Env, slot: nat, index: nat, before: seq<ValType>)
    requires Narrow(env, slot) && Narrow(env, index)
    ensures Flows(env, NarrowAddress(slot, index), before, before + [I32])
  {
    hide Flows;
    var offset := [I32Const(TEXT_BYTES), Num(I32Add), LocalGet(index), Num(I32Add)];
    Pushes(env, LocalGet(slot), before, I32);
    OffsetFlows(env, index, before);
    FlowsThen(env, [LocalGet(slot)], offset, before, before + [I32], before + [I32]);
    assert [LocalGet(slot)] + offset == NarrowAddress(slot, index);
  }

  lemma ByteFlows(env: Env, slot: nat, index: nat, before: seq<ValType>)
    requires Wide(env, slot) && Narrow(env, index) && env.m.memoryPages.Some?
    ensures Flows(env, ByteOf(slot, index), before, before + [I32])
  {
    hide Flows;
    var offset := [I32Const(TEXT_BYTES), Num(I32Add), LocalGet(index), Num(I32Add)];
    Pushes(env, LocalGet(slot), before, I64);
    Changes(env, Num(I32WrapI64), before, I64, I32);
    OffsetFlows(env, index, before);
    Changes(env, I32Load8U(0), before, I32, I32);
    FlowsThen(env, [LocalGet(slot)], [Num(I32WrapI64)], before, before + [I64], before + [I32]);
    FlowsThen(env, [LocalGet(slot)] + [Num(I32WrapI64)], offset, before, before + [I32], before + [I32]);
    assert [LocalGet(slot)] + [Num(I32WrapI64)] + offset == ByteAddress(slot, index);
    FlowsThen(env, ByteAddress(slot, index), [I32Load8U(0)], before, before + [I32], before + [I32]);
  }

  /** Plain code from nothing to these types. */
  lemma FlowTurns(env: Env, c: Control, code: seq<Ins>, before: seq<ValType>, after: seq<ValType>)
    requires Sound(c) && Flows(env, code, before, after)
    ensures Turns(env, c, code, before, after)
  {
    AllAfter(env, c, code, before);
  }

  /** Copying validates: the loop stores a byte for each it loads. */
  lemma CopyTurns(env: Env, c: Control, out: nat, from: nat, index: nat, count: nat)
    requires Sound(c) && env.rules.Tight? && env.m.memoryPages.Some?
    requires Narrow(env, out) && Wide(env, from) && Narrow(env, index) && Narrow(env, count)
    ensures Turns(env, c, CopyTextCode(out, from, index, count), [], [])
  {
    hide Flows, CheckIns, CheckBody;
    var none: seq<ValType> := [];
    var x := InWalk(c);
    NarrowFlows(env, out, index, none);
    ByteFlows(env, from, index, none + [I32]);
    Joins(env, ByteOf(from, index), I32Store8(0), none, I32, I32, []);
    FlowsThen(env, NarrowAddress(out, index), ByteOf(from, index) + [I32Store8(0)], none, none + [I32], none + []);
    var body := NarrowAddress(out, index) + ByteOf(from, index) + [I32Store8(0)];
    assert NarrowAddress(out, index) + (ByteOf(from, index) + [I32Store8(0)]) == body && none + [] == none;
    FlowTurns(env, x, body, [], []);
    PushAllNone(x);
    CountToTurns(env, c, index, count, body, x);
  }

  /** A step of a fold validates around what it takes in. */
  lemma AbsorbsFlows(env: Env, h: nat, what: seq<Ins>)
    requires Wide(env, h) && Flows(env, what, [I64], [I64, I64])
    ensures Flows(env, Absorbs(h, what), [], [])
  {
    hide Flows;
    var none: seq<ValType> := [];
    Pushes(env, LocalGet(h), none, I64);
    assert none + [I64] == [I64] && none + [I64] + [I64] == [I64, I64];
    Joins(env, what, Num(I64Xor), none, I64, I64, [I64]);
    Pushes(env, I64Const(PRIME), [I64], I64);
    Joins(env, [I64Const(PRIME)], Num(I64Mul), none, I64, I64, [I64]);
    Takes(env, LocalSet(h), none, I64);
    FlowsThen(env, [LocalGet(h)], what + [Num(I64Xor)], none, [I64], [I64]);
    FlowsThen(env, [LocalGet(h)] + (what + [Num(I64Xor)]), [I64Const(PRIME)] + [Num(I64Mul)], none, [I64], [I64]);
    FlowsThen(env, [LocalGet(h)] + (what + [Num(I64Xor)]) + ([I64Const(PRIME)] + [Num(I64Mul)]), [LocalSet(h)], none, [I64], none);
    assert [LocalGet(h)] + (what + [Num(I64Xor)]) + ([I64Const(PRIME)] + [Num(I64Mul)]) + [LocalSet(h)] == Absorbs(h, what);
  }

  /** What a fold of a string takes in: the character count, and a byte. */
  lemma TakenIn(env: Env, slot: nat, index: nat)
    requires Wide(env, slot) && Narrow(env, index) && env.m.memoryPages.Some?
    ensures Flows(env, [LocalGet(slot), Num(I32WrapI64), I64Load(0)], [I64], [I64, I64])
    ensures Flows(env, ByteOf(slot, index) + [Num(I64ExtendI32S)], [I64], [I64, I64])
  {
    hide Flows;
    var h: seq<ValType> := [I64];
    Pushes(env, LocalGet(slot), h, I64);
    Changes(env, Num(I32WrapI64), h, I64, I32);
    Changes(env, I64Load(0), h, I32, I64);
    FlowsThen(env, [LocalGet(slot)], [Num(I32WrapI64)], h, h + [I64], h + [I32]);
    FlowsThen(env, [LocalGet(slot)] + [Num(I32WrapI64)], [I64Load(0)], h, h + [I32], h + [I64]);
    assert [LocalGet(slot)] + [Num(I32WrapI64)] + [I64Load(0)] == [LocalGet(slot), Num(I32WrapI64), I64Load(0)];
    assert h + [I64] == [I64, I64];
    ByteFlows(env, slot, index, h);
    Changes(env, Num(I64ExtendI32S), h, I32, I64);
    FlowsThen(env, ByteOf(slot, index), [Num(I64ExtendI32S)], h, h + [I32], h + [I64]);
  }

  // -- whole helpers ---------------------------------------------------------

  /** Pushing what the function answers with and returning, from anywhere in it. */
  lemma AnswerChecks(env: Env, c: Control, push: Ins, ty: ValType)
    requires Sound(c) && c.frames[0].endTypes == [ty] && PlainType(env, push) == Some(FuncType([], [ty]))
    ensures CheckBody(env, c, [push, Ins.Return]) == Some(Cut(c))
  {
    hide CheckBody, CheckIns;
    PlainTurns(env, c, push);
    PushAllNone(c);
    ReturnsOne(env, c, ty);
    CheckOne(env, PushAll(c, [ty]), Ins.Return);
    CheckAppend(env, c, [push], [Ins.Return]);
    assert [push] + [Ins.Return] == [push, Ins.Return];
  }

  lemma ReturnsOne(env: Env, c: Control, ty: ValType)
    requires Sound(c) && c.frames[0].endTypes == [ty]
    ensures Sound(PushAll(c, [ty])) && CheckIns(env, PushAll(c, [ty]), Ins.Return) == Some(Cut(c))
  {
    PopPushed(c, [ty]);
  }

  lemma UnlessSameTurns(env: Env, c: Control)
    requires Sound(c) && c.frames[0].endTypes == [I32]
    ensures Turns(env, c, UnlessSame(), [I32, I32], [])
  {
    hide CheckBody, CheckIns;
    var entered := PushFrame(c, [], []);
    assert entered.frames[0] == c.frames[0];
    AnswerChecks(env, entered, I32Const(0), I32);
    GuardTurns(env, c, Giving(0));
    PlainTurns(env, c, Num(I32Ne));
    TurnsThen(env, c, [Num(I32Ne)], [Ins.If(None, Giving(0), [])], [I32, I32], [I32], []);
  }

  /** What is checked after an answer has been given is what is left of an unreachable block. */
  lemma EndsWithAnswer(env: Env, c: Control, code: seq<Ins>, push: Ins, ty: ValType)
    requires c == Entry([ty]) && Turns(env, c, code, [], []) && PlainType(env, push) == Some(FuncType([], [ty]))
    ensures CheckBody(env, c, code + [push, Ins.Return]) == Some(Cut(c)) && PopFrame(Cut(c)).Some?
  {
    hide CheckBody, CheckIns;
    PushAllNone(c);
    AnswerChecks(env, c, push, ty);
    CheckAppend(env, c, code, [push, Ins.Return]);
    PushAllNone(Cut(c));
    assert [ty][1..] == [];
    PopCut(Cut(c), [ty], 1);
  }

  /** The string comparison validates, with tight branches, in any module with memory. */
  lemma SameTextChecks(m: Module, at: nat)
    requires at < |m.types| && m.types[at] == FuncType([I64, I64], [I32]) && m.memoryPages.Some?
    ensures FuncChecks(m, Func(at, [I32, I32], SameTextCode()), Tight)
  {
    hide CheckBody, CheckIns, Flows, Turns, SameTextCode;
    var env := Env(m, [I64, I64] + [I32, I32], Tight);
    var c := Entry([I32]);
    assert Wide(env, 0) && Wide(env, 1) && Narrow(env, 2) && Narrow(env, 3);
    LengthsTurn(env, c);
    ComparesTurn(env, c);
    TurnsThen(env, c, Lengths(), Compares(), [], [], []);
    EndsWithAnswer(env, c, Lengths() + Compares(), I32Const(1), I32);
    assert SameTextCode() == Lengths() + Compares() + Giving(1) by { SameTextParts(); }
  }

  function Lengths(): seq<Ins> { ByteLength(0) + [LocalSet(2)] + (ByteLength(1) + [LocalGet(2)] + UnlessSame()) }

  function Compares(): seq<Ins> { CountTo(3, 2, ByteOf(0, 3) + ByteOf(1, 3) + UnlessSame()) }

  lemma SameTextParts()
    ensures SameTextCode() == Lengths() + Compares() + Giving(1)
  {
  }

  lemma LengthsTurn(env: Env, c: Control)
    requires Sound(c) && c.frames[0].endTypes == [I32] && env.m.memoryPages.Some?
    requires Wide(env, 0) && Wide(env, 1) && Narrow(env, 2)
    ensures Turns(env, c, Lengths(), [], [])
  {
    hide CheckBody, CheckIns, Flows, Turns, UnlessSame;
    var none: seq<ValType> := [];
    LengthFlows(env, 0, none);
    Takes(env, LocalSet(2), none, I32);
    FlowsThen(env, ByteLength(0), [LocalSet(2)], none, none + [I32], none);
    FlowTurns(env, c, ByteLength(0) + [LocalSet(2)], [], []);
    LengthFlows(env, 1, none);
    Pushes(env, LocalGet(2), none + [I32], I32);
    FlowsThen(env, ByteLength(1), [LocalGet(2)], none, none + [I32], none + [I32] + [I32]);
    assert none + [I32] + [I32] == [I32, I32];
    FlowTurns(env, c, ByteLength(1) + [LocalGet(2)], [], [I32, I32]);
    UnlessSameTurns(env, c);
    TurnsThen(env, c, ByteLength(1) + [LocalGet(2)], UnlessSame(), [], [I32, I32], []);
    TurnsThen(env, c, ByteLength(0) + [LocalSet(2)], ByteLength(1) + [LocalGet(2)] + UnlessSame(), [], [], []);
  }

  lemma ComparesTurn(env: Env, c: Control)
    requires Sound(c) && c.frames[0].endTypes == [I32] && env.m.memoryPages.Some? && env.rules.Tight?
    requires Wide(env, 0) && Wide(env, 1) && Narrow(env, 2) && Narrow(env, 3)
    ensures Turns(env, c, Compares(), [], [])
  {
    hide CheckBody, CheckIns, Flows, UnlessSame;
    var none: seq<ValType> := [];
    var x := InWalk(c);
    assert x.frames[0] == c.frames[0];
    ByteFlows(env, 0, 3, none);
    ByteFlows(env, 1, 3, none + [I32]);
    FlowsThen(env, ByteOf(0, 3), ByteOf(1, 3), none, none + [I32], none + [I32] + [I32]);
    assert none + [I32] + [I32] == [I32, I32];
    FlowTurns(env, x, ByteOf(0, 3) + ByteOf(1, 3), [], [I32, I32]);
    UnlessSameTurns(env, x);
    TurnsThen(env, x, ByteOf(0, 3) + ByteOf(1, 3), UnlessSame(), [], [I32, I32], []);
    PushAllNone(x);
    CountToTurns(env, c, 3, 2, ByteOf(0, 3) + ByteOf(1, 3) + UnlessSame(), x);
  }

  /** And so does the string hash. */
  lemma HashTextChecks(m: Module, at: nat)
    requires at < |m.types| && m.types[at] == FuncType([I64, I64], [I64]) && m.memoryPages.Some?
    ensures FuncChecks(m, Func(at, [I64, I32, I32], HashTextCode()), Tight)
  {
    hide CheckBody, CheckIns, Flows, Turns, HashTextCode;
    var env := Env(m, [I64, I64] + [I64, I32, I32], Tight);
    var c := Entry([I64]);
    assert Wide(env, 0) && Wide(env, 1) && Wide(env, 2) && Narrow(env, 3) && Narrow(env, 4);
    FoldStartTurns(env, c);
    FoldsTurn(env, c);
    TurnsThen(env, c, FoldStart(), Folds(), [], [], []);
    EndsWithAnswer(env, c, FoldStart() + Folds(), LocalGet(2), I64);
    assert HashTextCode() == FoldStart() + Folds() + [LocalGet(2), Ins.Return] by { HashTextParts(); }
  }

  function FoldStart(): seq<Ins> {
    [LocalGet(0), LocalSet(2)] + Absorbs(2, [LocalGet(1), Num(I32WrapI64), I64Load(0)]) + (ByteLength(1) + [LocalSet(3)])
  }

  function Folds(): seq<Ins> { CountTo(4, 3, Absorbs(2, ByteOf(1, 4) + [Num(I64ExtendI32S)])) }

  lemma HashTextParts()
    ensures HashTextCode() == FoldStart() + Folds() + [LocalGet(2), Ins.Return]
  {
  }

  lemma FoldStartTurns(env: Env, c: Control)
    requires Sound(c) && env.m.memoryPages.Some?
    requires Wide(env, 0) && Wide(env, 1) && Wide(env, 2) && Narrow(env, 3) && Narrow(env, 4)
    ensures Turns(env, c, FoldStart(), [], [])
  {
    hide CheckBody, CheckIns, Flows, Turns, Absorbs;
    var none: seq<ValType> := [];
    Pushes(env, LocalGet(0), none, I64);
    Takes(env, LocalSet(2), none, I64);
    FlowsThen(env, [LocalGet(0)], [LocalSet(2)], none, none + [I64], none);
    assert [LocalGet(0)] + [LocalSet(2)] == [LocalGet(0), LocalSet(2)];
    TakenIn(env, 1, 4);
    var first := Absorbs(2, [LocalGet(1), Num(I32WrapI64), I64Load(0)]);
    AbsorbsFlows(env, 2, [LocalGet(1), Num(I32WrapI64), I64Load(0)]);
    FlowsThen(env, [LocalGet(0), LocalSet(2)], first, none, none, none);
    LengthFlows(env, 1, none);
    Takes(env, LocalSet(3), none, I32);
    FlowsThen(env, ByteLength(1), [LocalSet(3)], none, none + [I32], none);
    FlowsThen(env, [LocalGet(0), LocalSet(2)] + first, ByteLength(1) + [LocalSet(3)], none, none, none);
    FlowTurns(env, c, FoldStart(), [], []);
  }

  lemma FoldsTurn(env: Env, c: Control)
    requires Sound(c) && env.m.memoryPages.Some? && env.rules.Tight?
    requires Wide(env, 1) && Wide(env, 2) && Narrow(env, 3) && Narrow(env, 4)
    ensures Turns(env, c, Folds(), [], [])
  {
    hide CheckBody, CheckIns, Flows, Absorbs;
    var x := InWalk(c);
    TakenIn(env, 1, 4);
    AbsorbsFlows(env, 2, ByteOf(1, 4) + [Num(I64ExtendI32S)]);
    FlowTurns(env, x, Absorbs(2, ByteOf(1, 4) + [Num(I64ExtendI32S)]), [], []);
    PushAllNone(x);
    CountToTurns(env, c, 4, 3, Absorbs(2, ByteOf(1, 4) + [Num(I64ExtendI32S)]), x);
  }
}
