/**
 * Instructions as bytes (WebAssembly Core Specification, section 5.4), a reader for those
 * bytes, and where in them each marked instruction starts.
 */
module Encode {
  import opened Ints
  import opened Wasm
  import opened Leb128

  // -- writing ---------------------------------------------------------------

  function TypeByte(ty: ValType): byte {
    match ty case I32 => 0x7f case I64 => 0x7e
  }

  function BlockType(result: Option<ValType>): byte {
    if result.Some? then TypeByte(result.value) else 0x40
  }

  function NumByte(op: NumOp): byte {
    match op
    case I32Eqz => 0x45 case I32Eq => 0x46 case I32Ne => 0x47 case I32LtS => 0x48
    case I32GtS => 0x4a case I32LeS => 0x4c case I32GeS => 0x4e
    case I64Eqz => 0x50 case I64Eq => 0x51 case I64Ne => 0x52 case I64LtS => 0x53
    case I64GtS => 0x55 case I64LeS => 0x57 case I64GeS => 0x59
    case I32Add => 0x6a case I32Sub => 0x6b case I32Mul => 0x6c case I32And => 0x71 case I32Or => 0x72
    case I64Add => 0x7c case I64Sub => 0x7d case I64Mul => 0x7e case I64DivS => 0x7f case I64RemS => 0x81
    case I64Xor => 0x85 case I32WrapI64 => 0xa7 case I64ExtendI32S => 0xac
  }

  /** Instructions that hold no others. */
  predicate Flat(ins: Ins) {
    !ins.Marked? && !ins.Block? && !ins.Loop? && !ins.If?
  }

  predicate Indexed(ins: Ins) {
    ins.Br? || ins.BrIf? || ins.Call? || ins.LocalGet? || ins.LocalSet? || ins.LocalTee?
  }

  function IndexedByte(ins: Ins): byte
    requires Indexed(ins)
  {
    match ins
    case Br(_) => 0x0c case BrIf(_) => 0x0d case Call(_) => 0x10
    case LocalGet(_) => 0x20 case LocalSet(_) => 0x21 case LocalTee(_) => 0x22
  }

  function IndexOf(ins: Ins): nat
    requires Indexed(ins)
  {
    match ins
    case Br(n) => n case BrIf(n) => n case Call(n) => n
    case LocalGet(n) => n case LocalSet(n) => n case LocalTee(n) => n
  }

  predicate Access(ins: Ins) {
    ins.I32Load? || ins.I64Load? || ins.I32Store? || ins.I64Store? || ins.I32Load8U? || ins.I32Store8?
  }

  function AccessByte(ins: Ins): byte
    requires Access(ins)
  {
    match ins
    case I32Load(_) => 0x28 case I64Load(_) => 0x29 case I32Store(_) => 0x36
    case I64Store(_) => 0x37 case I32Load8U(_) => 0x2d case I32Store8(_) => 0x3a
  }

  /** The alignment an access is written with, as a power of two. */
  function Alignment(opcode: byte): byte {
    if opcode == 0x28 || opcode == 0x36 then 2 else if opcode == 0x29 || opcode == 0x37 then 3 else 0
  }

  function FlatBytes(ins: Ins): (r: seq<byte>)
    requires Flat(ins)
    ensures r != []
  {
    if Indexed(ins) then [IndexedByte(ins)] + Unsigned(IndexOf(ins))
    else if Access(ins) then [AccessByte(ins), Alignment(AccessByte(ins))] + Unsigned(ins.offset)
    else
      match ins
      case Unreachable => [0x00]
      case Nop => [0x01]
      case Return => [0x0f]
      case CallIndirect(at) => [0x11] + Unsigned(at) + [0]
      case Drop => [0x1a]
      case MemorySize => [0x3f, 0x00]
      case MemoryGrow => [0x40, 0x00]
      case I32Const(n) => [0x41] + Signed(n)
      case I64Const(m) => [0x42] + Signed(m)
      case Num(op) => [NumByte(op)]
  }

  const ELSE: byte := 0x05
  const END: byte := 0x0b

  function Bytes(ins: Ins): (r: seq<byte>)
    ensures r != []
    decreases ins, 0
  {
    match ins
    case Marked(_, inner) => Bytes(inner)
    case Block(result, body) => [0x02, BlockType(result)] + AllBytes(body) + [END]
    case Loop(result, body) => [0x03, BlockType(result)] + AllBytes(body) + [END]
    case If(result, taken, otherwise) =>
      [0x04, BlockType(result)] + AllBytes(taken)
        + (if otherwise == [] then [] else [ELSE] + AllBytes(otherwise)) + [END]
    case _ => FlatBytes(ins)
  }

  function AllBytes(body: seq<Ins>): seq<byte>
    decreases body, 0
  {
    if body == [] then [] else Bytes(body[0]) + AllBytes(body[1..])
  }

  // -- reading ---------------------------------------------------------------

  function ReadNum(opcode: byte): Option<NumOp> {
    if opcode == 0x45 then Some(I32Eqz) else if opcode == 0x46 then Some(I32Eq) else if opcode == 0x47 then Some(I32Ne)
    else if opcode == 0x48 then Some(I32LtS) else if opcode == 0x4a then Some(I32GtS) else if opcode == 0x4c then Some(I32LeS)
    else if opcode == 0x4e then Some(I32GeS) else if opcode == 0x50 then Some(I64Eqz) else if opcode == 0x51 then Some(I64Eq)
    else if opcode == 0x52 then Some(I64Ne) else if opcode == 0x53 then Some(I64LtS) else if opcode == 0x55 then Some(I64GtS)
    else if opcode == 0x57 then Some(I64LeS) else if opcode == 0x59 then Some(I64GeS) else if opcode == 0x6a then Some(I32Add)
    else if opcode == 0x6b then Some(I32Sub) else if opcode == 0x6c then Some(I32Mul) else if opcode == 0x71 then Some(I32And)
    else if opcode == 0x72 then Some(I32Or) else if opcode == 0x7c then Some(I64Add) else if opcode == 0x7d then Some(I64Sub)
    else if opcode == 0x7e then Some(I64Mul) else if opcode == 0x7f then Some(I64DivS) else if opcode == 0x81 then Some(I64RemS)
    else if opcode == 0x85 then Some(I64Xor) else if opcode == 0xa7 then Some(I32WrapI64)
    else if opcode == 0xac then Some(I64ExtendI32S)
    else None
  }

  predicate TakesIndex(opcode: byte) {
    opcode == 0x0c || opcode == 0x0d || opcode == 0x10 || opcode == 0x20 || opcode == 0x21 || opcode == 0x22
  }

  function WithIndex(opcode: byte, n: nat): Ins {
    if opcode == 0x0c then Br(n) else if opcode == 0x0d then BrIf(n) else if opcode == 0x10 then Ins.Call(n)
    else if opcode == 0x20 then LocalGet(n) else if opcode == 0x21 then LocalSet(n) else LocalTee(n)
  }

  predicate TakesOffset(opcode: byte) {
    opcode == 0x28 || opcode == 0x29 || opcode == 0x36 || opcode == 0x37 || opcode == 0x2d || opcode == 0x3a
  }

  function WithOffset(opcode: byte, n: nat): Ins {
    if opcode == 0x28 then I32Load(n) else if opcode == 0x29 then I64Load(n) else if opcode == 0x36 then I32Store(n)
    else if opcode == 0x37 then I64Store(n) else if opcode == 0x2d then I32Load8U(n) else I32Store8(n)
  }

  function ReadIndexed(opcode: byte, bytes: seq<byte>): (r: Option<(Ins, seq<byte>)>)
    ensures r.Some? ==> |r.value.1| <= |bytes|
  {
    match ReadUnsigned(bytes)
    case Some((n, rest)) => Some((WithIndex(opcode, n), rest))
    case None => None
  }

  function ReadAccess(opcode: byte, bytes: seq<byte>): (r: Option<(Ins, seq<byte>)>)
    ensures r.Some? ==> |r.value.1| <= |bytes|
  {
    if bytes == [] || bytes[0] != Alignment(opcode) then None
    else
      match ReadUnsigned(bytes[1..])
      case Some((n, rest)) => Some((WithOffset(opcode, n), rest))
      case None => None
  }

  function ReadConst(wide: bool, bytes: seq<byte>): (r: Option<(Ins, seq<byte>)>)
    ensures r.Some? ==> |r.value.1| <= |bytes|
  {
    match ReadSigned(bytes)
    case Some((n, rest)) =>
      if wide && MIN_64 <= n <= MAX_64 then Some((I64Const(n), rest))
      else if !wide && -0x8000_0000 <= n < 0x8000_0000 then Some((I32Const(n), rest))
      else None
    case None => None
  }

  function ReadIndirect(bytes: seq<byte>): (r: Option<(Ins, seq<byte>)>)
    ensures r.Some? ==> |r.value.1| <= |bytes|
  {
    match ReadUnsigned(bytes)
    case Some((n, rest)) => if rest != [] && rest[0] == 0 then Some((CallIndirect(n), rest[1..])) else None
    case None => None
  }

  function ReadMemory(ins: Ins, bytes: seq<byte>): (r: Option<(Ins, seq<byte>)>)
    ensures r.Some? ==> |r.value.1| <= |bytes|
  {
    if bytes != [] && bytes[0] == 0 then Some((ins, bytes[1..])) else None
  }

  /** One instruction that holds no others, its opcode already read. */
  function ReadFlat(opcode: byte, bytes: seq<byte>): (r: Option<(Ins, seq<byte>)>)
    ensures r.Some? ==> |r.value.1| <= |bytes|
  {
    if TakesIndex(opcode) then ReadIndexed(opcode, bytes)
    else if TakesOffset(opcode) then ReadAccess(opcode, bytes)
    else if opcode == 0x00 then Some((Ins.Unreachable, bytes))
    else if opcode == 0x01 then Some((Nop, bytes))
    else if opcode == 0x0f then Some((Ins.Return, bytes))
    else if opcode == 0x11 then ReadIndirect(bytes)
    else if opcode == 0x1a then Some((Drop, bytes))
    else if opcode == 0x3f then ReadMemory(MemorySize, bytes)
    else if opcode == 0x40 then ReadMemory(MemoryGrow, bytes)
    else if opcode == 0x41 then ReadConst(false, bytes)
    else if opcode == 0x42 then ReadConst(true, bytes)
    else if ReadNum(opcode).Some? then Some((Num(ReadNum(opcode).value), bytes))
    else None
  }

  function ReadType(b: byte): Option<Option<ValType>> {
    if b == 0x40 then Some(None) else if b == 0x7f then Some(Some(I32)) else if b == 0x7e then Some(Some(I64)) else None
  }

  /** Instructions up to the byte that ends them, which is handed back with what follows it. */
  function ReadBody(bytes: seq<byte>): (r: Option<(seq<Ins>, byte, seq<byte>)>)
    ensures r.Some? ==> |r.value.2| < |bytes|
    decreases |bytes|, 1
  {
    if bytes == [] then None
    else if bytes[0] == END || bytes[0] == ELSE then Some(([], bytes[0], bytes[1..]))
    else
      match ReadIns(bytes)
      case Some((ins, rest)) =>
        (match ReadBody(rest)
         case Some((body, last, after)) => Some(([ins] + body, last, after))
         case None => None)
      case None => None
  }

  function ReadIns(bytes: seq<byte>): (r: Option<(Ins, seq<byte>)>)
    requires bytes != []
    ensures r.Some? ==> |r.value.1| < |bytes|
    decreases |bytes|, 0
  {
    if bytes[0] == 0x02 || bytes[0] == 0x03 || bytes[0] == 0x04 then
      if |bytes| < 2 || ReadType(bytes[1]).None? then None
      else
        var result := ReadType(bytes[1]).value;
        match ReadBody(bytes[2..])
        case Some((body, last, rest)) =>
          if bytes[0] == 0x04 then
            if last == END then Some((Ins.If(result, body, []), rest))
            else
              (match ReadBody(rest)
               case Some((otherwise, end, after)) =>
                 if end == END then Some((Ins.If(result, body, otherwise), after)) else None
               case None => None)
          else if last == END then
            Some((if bytes[0] == 0x02 then Ins.Block(result, body) else Ins.Loop(result, body), rest))
          else None
        case None => None
    else ReadFlat(bytes[0], bytes[1..])
  }

  // -- reading back what was written -----------------------------------------

  /** The instruction without its markers, which leave no trace in the bytes. */
  function Erase(ins: Ins): Ins
    decreases ins, 0
  {
    match ins
    case Marked(_, inner) => Erase(inner)
    case Block(result, body) => Ins.Block(result, EraseAll(body))
    case Loop(result, body) => Ins.Loop(result, EraseAll(body))
    case If(result, taken, otherwise) => Ins.If(result, EraseAll(taken), EraseAll(otherwise))
    case _ => ins
  }

  function EraseAll(body: seq<Ins>): (r: seq<Ins>)
    ensures |r| == |body|
    decreases body, 0
  {
    if body == [] then [] else [Erase(body[0])] + EraseAll(body[1..])
  }

  lemma NumReads(op: NumOp)
    ensures ReadNum(NumByte(op)) == Some(op) && NumByte(op) >= 0x45
  {
  }

  lemma IndexedReads(ins: Ins, rest: seq<byte>)
    requires Indexed(ins)
    ensures TakesIndex(IndexedByte(ins)) && ReadIndexed(IndexedByte(ins), Unsigned(IndexOf(ins)) + rest) == Some((ins, rest))
  {
    UnsignedReads(IndexOf(ins), rest);
  }

  lemma AccessReads(ins: Ins, rest: seq<byte>)
    requires Access(ins)
    ensures var opcode := AccessByte(ins);
      && TakesOffset(opcode) && !TakesIndex(opcode)
      && ReadAccess(opcode, [Alignment(opcode)] + Unsigned(ins.offset) + rest) == Some((ins, rest))
  {
    var opcode := AccessByte(ins);
    UnsignedReads(ins.offset, rest);
    assert ([Alignment(opcode)] + Unsigned(ins.offset) + rest)[1..] == Unsigned(ins.offset) + rest;
  }

  lemma IndirectReads(at: nat, rest: seq<byte>)
    ensures ReadIndirect(Unsigned(at) + [0] + rest) == Some((CallIndirect(at), rest))
  {
    UnsignedReads(at, [0] + rest);
    assert Unsigned(at) + [0] + rest == Unsigned(at) + ([0] + rest);
    assert ([0] + rest)[1..] == rest;
  }

  lemma ConstReads(n: i64, rest: seq<byte>)
    ensures ReadConst(true, Signed(n) + rest) == Some((I64Const(n), rest))
    ensures -0x8000_0000 <= n < 0x8000_0000 ==> ReadConst(false, Signed(n) + rest) == Some((I32Const(n), rest))
  {
    SignedReads(n, rest);
  }

  /** The opcodes of instructions that hold others, and the bytes that end them. */
  predicate Structural(opcode: byte) { 0x02 <= opcode <= 0x05 || opcode == END }

  lemma FlatReads(ins: Ins, rest: seq<byte>)
    requires Flat(ins)
    ensures ReadFlat(FlatBytes(ins)[0], FlatBytes(ins)[1..] + rest) == Some((ins, rest))
    ensures !Structural(FlatBytes(ins)[0])
  {
    hide ReadIndexed, ReadAccess, ReadConst, ReadIndirect, ReadNum, NumByte, Unsigned, Signed;
    var tail := FlatBytes(ins)[1..];
    if Indexed(ins) {
      assert tail == Unsigned(IndexOf(ins));
      IndexedReads(ins, rest);
    } else if Access(ins) {
      assert tail == [Alignment(AccessByte(ins))] + Unsigned(ins.offset);
      AccessReads(ins, rest);
    } else if ins.CallIndirect? || ins.I32Const? || ins.I64Const? {
      ImmediateReads(ins, rest);
    } else if ins.Num? {
      NumFlatReads(ins.op, rest);
    } else {
      BareReads(ins, rest);
    }
  }

  lemma NumFlatReads(op: NumOp, rest: seq<byte>)
    ensures ReadFlat(FlatBytes(Num(op))[0], FlatBytes(Num(op))[1..] + rest) == Some((Num(op), rest))
    ensures !Structural(FlatBytes(Num(op))[0])
  {
    NumReads(op);
    hide ReadNum, NumByte;
    assert FlatBytes(Num(op))[1..] + rest == rest;
  }

  lemma ImmediateReads(ins: Ins, rest: seq<byte>)
    requires ins.CallIndirect? || ins.I32Const? || ins.I64Const?
    ensures ReadFlat(FlatBytes(ins)[0], FlatBytes(ins)[1..] + rest) == Some((ins, rest)) && !Structural(FlatBytes(ins)[0])
  {
    var tail := FlatBytes(ins)[1..];
    if ins.CallIndirect? {
      assert tail == Unsigned(ins.typeIndex) + [0];
      IndirectReads(ins.typeIndex, rest);
    } else if ins.I32Const? {
      assert tail == Signed(ins.n);
      ConstReads(ins.n, rest);
    } else {
      assert tail == Signed(ins.m);
      ConstReads(ins.m, rest);
    }
  }

  lemma BareReads(ins: Ins, rest: seq<byte>)
    requires ins.Unreachable? || ins.Nop? || ins.Return? || ins.Drop? || ins.MemorySize? || ins.MemoryGrow?
    ensures ReadFlat(FlatBytes(ins)[0], FlatBytes(ins)[1..] + rest) == Some((ins, rest)) && !Structural(FlatBytes(ins)[0])
  {
    hide ReadIndexed, ReadAccess, ReadConst, ReadIndirect, ReadNum;
    var tail := FlatBytes(ins)[1..];
    if ins.MemorySize? || ins.MemoryGrow? {
      assert tail + rest == [0] + rest && ([0] + rest)[1..] == rest;
    } else {
      assert tail + rest == rest;
    }
  }

  lemma {:induction false} InsReads(ins: Ins, rest: seq<byte>)
    ensures Bytes(ins) + rest != [] && (Bytes(ins) + rest)[0] != END && (Bytes(ins) + rest)[0] != ELSE
    ensures ReadIns(Bytes(ins) + rest) == Some((Erase(ins), rest))
    decreases ins, 0
  {
    hide FlatBytes, ReadFlat, AllBytes, EraseAll, ReadBody;
    if ins.Marked? {
      InsReads(ins.inner, rest);
    } else if ins.Block? || ins.Loop? {
      var opcode := if ins.Block? then 0x02 else 0x03;
      var head := [opcode, BlockType(ins.result)];
      AllReads(ins.body, END, rest);
      Split(head, AllBytes(ins.body), [END], rest);
    } else if ins.If? {
      IfReads(ins, rest);
    } else {
      FlatReads(ins, rest);
      assert (Bytes(ins) + rest)[1..] == FlatBytes(ins)[1..] + rest;
    }
  }

  lemma Split(head: seq<byte>, body: seq<byte>, end: seq<byte>, rest: seq<byte>)
    requires |head| == 2
    ensures var all := head + body + end + rest; all[0] == head[0] && all[1] == head[1] && all[2..] == body + (end + rest)
  {
  }

  lemma {:induction false} IfReads(ins: Ins, rest: seq<byte>)
    requires ins.If?
    ensures ReadIns(Bytes(ins) + rest) == Some((Erase(ins), rest)) && (Bytes(ins) + rest)[0] == 0x04
    decreases ins, 0, 0
  {
    hide AllBytes, ReadBody, ReadFlat;
    var head := [0x04, BlockType(ins.result)];
    if ins.otherwise == [] {
      AllReads(ins.taken, END, rest);
      assert Bytes(ins) == head + AllBytes(ins.taken) + [END];
      Split(head, AllBytes(ins.taken), [END], rest);
    } else {
      var more := AllBytes(ins.otherwise) + ([END] + rest);
      AllReads(ins.taken, ELSE, more);
      AllReads(ins.otherwise, END, rest);
      assert Bytes(ins) + rest == head + AllBytes(ins.taken) + [ELSE] + more;
      Split(head, AllBytes(ins.taken), [ELSE], more);
      assert EraseAll(ins.otherwise) != [];
    }
  }

  /**
   * Reading the bytes of a body gives the body back, without its markers, and stops exactly
   * where it ends.
   */
  lemma {:induction false} AllReads(body: seq<Ins>, end: byte, rest: seq<byte>)
    requires end == END || end == ELSE
    ensures ReadBody(AllBytes(body) + ([end] + rest)) == Some((EraseAll(body), end, rest))
    decreases body, 0
  {
    var tail := [end] + rest;
    if body == [] {
      assert AllBytes(body) + tail == tail && tail[1..] == rest;
    } else {
      InsReads(body[0], AllBytes(body[1..]) + tail);
      AllReads(body[1..], end, rest);
      assert AllBytes(body) + tail == Bytes(body[0]) + (AllBytes(body[1..]) + tail);
    }
  }

  /** Two bodies with the same bytes differ at most in their markers. */
  lemma BytesDecideBody(one: seq<Ins>, two: seq<Ins>)
    requires AllBytes(one) == AllBytes(two)
    ensures EraseAll(one) == EraseAll(two)
  {
    AllReads(one, END, []);
    AllReads(two, END, []);
  }

  // -- where the marked instructions are -------------------------------------

  /** What is written, with the sites left in: a byte, or the start of a marked instruction. */
  datatype Token = Written(b: byte) | Site(site: nat)

  function Plain(bytes: seq<byte>): (r: seq<Token>)
    ensures |r| == |bytes|
  {
    seq(|bytes|, i requires 0 <= i < |bytes| => Written(bytes[i]))
  }

  function Tokens(ins: Ins): seq<Token>
    decreases ins, 0
  {
    match ins
    case Marked(site, inner) => [Site(site)] + Tokens(inner)
    case Block(result, body) => Plain([0x02, BlockType(result)]) + AllTokens(body) + Plain([END])
    case Loop(result, body) => Plain([0x03, BlockType(result)]) + AllTokens(body) + Plain([END])
    case If(result, taken, otherwise) =>
      Plain([0x04, BlockType(result)]) + AllTokens(taken)
        + (if otherwise == [] then [] else Plain([ELSE]) + AllTokens(otherwise)) + Plain([END])
    case _ => Plain(FlatBytes(ins))
  }

  function AllTokens(body: seq<Ins>): seq<Token>
    decreases body, 0
  {
    if body == [] then [] else Tokens(body[0]) + AllTokens(body[1..])
  }

  function WrittenOf(tokens: seq<Token>): seq<byte> {
    if tokens == [] then [] else (if tokens[0].Written? then [tokens[0].b] else []) + WrittenOf(tokens[1..])
  }

  /** Each site, with how many bytes are written before it. */
  function SitesOf(tokens: seq<Token>, at: nat): seq<(nat, nat)> {
    if tokens == [] then []
    else if tokens[0].Written? then SitesOf(tokens[1..], at + 1)
    else [(tokens[0].site, at)] + SitesOf(tokens[1..], at)
  }

  /** The walk the backend makes: the sites met from this offset on, and the offset reached. */
  function Walked(ins: Ins, at: nat): (seq<(nat, nat)>, nat)
    decreases ins, 0
  {
    match ins
    case Marked(site, inner) => var (sites, end) := Walked(inner, at); ([(site, at)] + sites, end)
    case Block(_, body) => var (sites, end) := AllWalked(body, at + 2); (sites, end + 1)
    case Loop(_, body) => var (sites, end) := AllWalked(body, at + 2); (sites, end + 1)
    case If(_, taken, otherwise) =>
      var (one, middle) := AllWalked(taken, at + 2);
      if otherwise == [] then (one, middle + 1)
      else var (two, end) := AllWalked(otherwise, middle + 1); (one + two, end + 1)
    case _ => ([], at + |FlatBytes(ins)|)
  }

  function AllWalked(body: seq<Ins>, at: nat): (seq<(nat, nat)>, nat)
    decreases body, 0
  {
    if body == [] then ([], at)
    else
      var (one, middle) := Walked(body[0], at);
      var (two, end) := AllWalked(body[1..], middle);
      (one + two, end)
  }

  lemma {:induction false} TokensAppend(one: seq<Token>, two: seq<Token>, at: nat)
    ensures WrittenOf(one + two) == WrittenOf(one) + WrittenOf(two)
    ensures SitesOf(one + two, at) == SitesOf(one, at) + SitesOf(two, at + |WrittenOf(one)|)
    decreases |one|
  {
    if one == [] {
      assert one + two == two;
    } else {
      assert (one + two)[1..] == one[1..] + two;
      TokensAppend(one[1..], two, if one[0].Written? then at + 1 else at);
    }
  }

  lemma {:induction false} PlainTokens(bytes: seq<byte>, at: nat)
    ensures WrittenOf(Plain(bytes)) == bytes && SitesOf(Plain(bytes), at) == []
    decreases |bytes|
  {
    if bytes != [] {
      assert Plain(bytes)[1..] == Plain(bytes[1..]);
      PlainTokens(bytes[1..], at + 1);
    }
  }

  /** Tokens for the bytes around a body, and for the body. */
  lemma AroundTokens(head: seq<byte>, inner: seq<Token>, end: seq<byte>, at: nat)
    ensures var tokens := Plain(head) + inner + Plain(end);
      && WrittenOf(tokens) == head + WrittenOf(inner) + end
      && SitesOf(tokens, at) == SitesOf(inner, at + |head|)
  {
    PlainTokens(head, at);
    TokensAppend(Plain(head), inner, at);
    PlainTokens(end, at + |head| + |WrittenOf(inner)|);
    TokensAppend(Plain(head) + inner, Plain(end), at);
  }

  /**
   * The tokens are the bytes with the sites left in, and the walk finds each site at the
   * number of bytes written before it.
   */
  lemma {:induction false} WalkCounts(ins: Ins, at: nat)
    ensures WrittenOf(Tokens(ins)) == Bytes(ins)
    ensures Walked(ins, at) == (SitesOf(Tokens(ins), at), at + |Bytes(ins)|)
    decreases ins, 1
  {
    hide AllTokens, AllBytes, AllWalked, FlatBytes;
    if ins.Marked? {
      WalkCounts(ins.inner, at);
      TokensAppend([Site(ins.site)], Tokens(ins.inner), at);
      assert [Site(ins.site)][1..] == [];
    } else if ins.Block? || ins.Loop? {
      AllWalkCounts(ins.body, at + 2);
      AroundTokens([if ins.Block? then 0x02 else 0x03, BlockType(ins.result)], AllTokens(ins.body), [END], at);
    } else if ins.If? {
      WalkCountsIf(ins, at);
    } else {
      PlainTokens(FlatBytes(ins), at);
    }
  }

  lemma {:induction false} WalkCountsIf(ins: Ins, at: nat)
    requires ins.If?
    ensures WrittenOf(Tokens(ins)) == Bytes(ins)
    ensures Walked(ins, at) == (SitesOf(Tokens(ins), at), at + |Bytes(ins)|)
    decreases ins, 0
  {
    AllWalkCounts(ins.taken, at + 2);
    if ins.otherwise == [] {
      AroundTokens([0x04, BlockType(ins.result)], AllTokens(ins.taken), [END], at);
      assert AllTokens(ins.taken) + [] == AllTokens(ins.taken);
      assert AllBytes(ins.taken) + [] == AllBytes(ins.taken);
      NoElse(ins);
    } else {
      AllWalkCounts(ins.otherwise, at + 2 + |AllBytes(ins.taken)| + 1);
      ElseTokens(ins, at);
    }
  }

  lemma NoElse(ins: Ins)
    requires ins.If? && ins.otherwise == []
    ensures Tokens(ins) == Plain([0x04, BlockType(ins.result)]) + AllTokens(ins.taken) + Plain([END])
    ensures Bytes(ins) == [0x04, BlockType(ins.result)] + AllBytes(ins.taken) + [END]
  {
    var head := Plain([0x04, BlockType(ins.result)]) + AllTokens(ins.taken);
    assert head + [] == head;
    var first := [0x04, BlockType(ins.result)] + AllBytes(ins.taken);
    assert first + [] == first;
  }

  lemma ElseTokens(ins: Ins, at: nat)
    requires ins.If? && ins.otherwise != []
    requires WrittenOf(AllTokens(ins.taken)) == AllBytes(ins.taken) && WrittenOf(AllTokens(ins.otherwise)) == AllBytes(ins.otherwise)
    ensures WrittenOf(Tokens(ins)) == Bytes(ins)
    ensures SitesOf(Tokens(ins), at)
         == SitesOf(AllTokens(ins.taken), at + 2) + SitesOf(AllTokens(ins.otherwise), at + 2 + |AllBytes(ins.taken)| + 1)
  {
    hide AllTokens, AllBytes, SitesOf, WrittenOf, Plain;
    var head := [0x04, BlockType(ins.result)];
    var middle := at + 2 + |AllBytes(ins.taken)|;
    var second := Plain([ELSE]) + AllTokens(ins.otherwise);
    PlainTokens([ELSE], middle);
    TokensAppend(Plain([ELSE]), AllTokens(ins.otherwise), middle);
    TokensAppend(AllTokens(ins.taken), second, at + 2);
    AroundTokens(head, AllTokens(ins.taken) + second, [END], at);
    assert Plain(head) + (AllTokens(ins.taken) + second) + Plain([END]) == Tokens(ins);
    assert Bytes(ins) == head + (AllBytes(ins.taken) + ([ELSE] + AllBytes(ins.otherwise))) + [END];
  }

  lemma {:induction false} AllWalkCounts(body: seq<Ins>, at: nat)
    ensures WrittenOf(AllTokens(body)) == AllBytes(body)
    ensures AllWalked(body, at) == (SitesOf(AllTokens(body), at), at + |AllBytes(body)|)
    decreases body, 0
  {
    if body != [] {
      WalkCounts(body[0], at);
      AllWalkCounts(body[1..], at + |Bytes(body[0])|);
      TokensAppend(Tokens(body[0]), AllTokens(body[1..]), at);
    }
  }

  // -- locals ----------------------------------------------------------------

  /** The locals that runs of one type stand for. */
  function Expanded(runs: seq<(nat, ValType)>): seq<ValType> {
    if runs == [] then [] else seq(runs[0].0, _ => runs[0].1) + Expanded(runs[1..])
  }

  /** No run is empty, and no two next to each other could have been one. */
  ghost predicate Shortest(runs: seq<(nat, ValType)>) {
    && (forall i | 0 <= i < |runs| :: runs[i].0 > 0)
    && (forall i | 0 < i < |runs| :: runs[i].1 != runs[i - 1].1)
  }

  lemma {:induction false} ExpandedLast(runs: seq<(nat, ValType)>, last: (nat, ValType))
    ensures Expanded(runs + [last]) == Expanded(runs) + seq(last.0, _ => last.1)
    decreases |runs|
  {
    if runs == [] {
      assert [last][1..] == [];
    } else {
      assert (runs + [last])[1..] == runs[1..] + [last];
      ExpandedLast(runs[1..], last);
    }
  }

  /** Groups equal neighbours: expanding the groups gives the locals back, and no two groups could be one. */
  method CompressLocals(locals: seq<ValType>) returns (runs: seq<(nat, ValType)>)
    ensures Expanded(runs) == locals && Shortest(runs)
  {
    runs := [];
    var i := 0;
    while i < |locals|
      invariant i <= |locals| && Expanded(runs) == locals[..i] && Shortest(runs)
    {
      var n := |runs| - 1;
      if runs != [] && runs[n].1 == locals[i] {
        ExpandedLast(runs[..n], runs[n]);
        ExpandedLast(runs[..n], (runs[n].0 + 1, runs[n].1));
        assert runs == runs[..n] + [runs[n]];
        runs := runs[..n] + [(runs[n].0 + 1, runs[n].1)];
      } else {
        ExpandedLast(runs, (1, locals[i]));
        runs := runs + [(1, locals[i])];
      }
      i := i + 1;
    }
  }
}
