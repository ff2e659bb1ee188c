/**
 * Answers worked out by hand or given by a standard, that the definitions have to come to: how
 * instructions are numbered and numbers written, and how texts are ordered, cased, counted, cut
 * and laid out.
 */
module Known {
  import opened Ints
  import opened Wasm
  import opened Types
  import Arriving
  import Compile
  import Encode
  import Leb128
  import Numbers
  import Pieces
  import Texts
  import L = Layout

  /** A text written out. */
  function Of(s: string): (text: Text)
    ensures |text| == |s|
  {
    seq(|s|, i requires 0 <= i < |s| => s[i] as int % 256)
  }

  // -- order -----------------------------------------------------------------

  /** Where two texts first part: what they share, and after it the first ends or has the smaller byte. */
  predicate ComesFirst(s: Text, t: Text, k: nat) {
    && k <= |s| && k < |t| && s[..k] == t[..k]
    && (k == |s| || s[k] < t[k])
  }

  /** A text is before another exactly when it is a shorter beginning of it or has the smaller byte where they first part. */
  lemma {:induction false} OrderMeans(s: Text, t: Text)
    ensures Texts.Order(s, t) < 0 <==> exists k: nat :: ComesFirst(s, t, k)
    decreases |s|
  {
    if s == [] || t == [] {
      assert s == [] && t != [] ==> ComesFirst(s, t, 0);
    } else if s[0] != t[0] {
      assert s[0] < t[0] ==> ComesFirst(s, t, 0);
      forall k: nat | ComesFirst(s, t, k) ensures s[0] < t[0] {
        if k > 0 {
          assert s[..k][0] == t[..k][0];
        }
      }
    } else {
      OrderMeans(s[1..], t[1..]);
      if Texts.Order(s[1..], t[1..]) < 0 {
        var k: nat :| ComesFirst(s[1..], t[1..], k);
        assert s[..k + 1] == [s[0]] + s[1..][..k] == t[..k + 1];
        assert ComesFirst(s, t, k + 1);
      }
      forall k: nat | ComesFirst(s, t, k) ensures exists j: nat :: ComesFirst(s[1..], t[1..], j) {
        assert s[1..][..k - 1] == s[..k][1..] && t[1..][..k - 1] == t[..k][1..];
        assert ComesFirst(s[1..], t[1..], k - 1);
      }
    }
  }

  // -- case and characters ---------------------------------------------------

  /** Byte by byte, a letter of the other case becomes the one thirty-two away and nothing else changes. */
  lemma {:induction false} CasedAt(text: Text, raise: bool, k: nat)
    requires k < |text|
    ensures
      var b: int, c: int := text[k], Arriving.Cased(text, raise)[k];
      if raise && 97 <= b <= 122 then c + 32 == b else if !raise && 65 <= b <= 90 then c == b + 32 else c == b
    decreases k
  {
    if k > 0 {
      CasedAt(text[1..], raise, k - 1);
    }
  }

  /** The places in a text where a character starts. */
  function Starts(text: Text): set<nat> { set i: nat | i < |text| && !(0x80 <= text[i] <= 0xbf) }

  lemma {:induction false} CharactersStart(text: Text)
    ensures Compile.Characters(text) == |Starts(text)|
    decreases |text|
  {
    if text != [] {
      var rest := text[..|text| - 1];
      var last := |text| - 1;
      CharactersStart(rest);
      assert text == rest + [text[last]] && [text[last]][1..] == [];
      Texts.CharactersAppend(rest, [text[last]]);
      if 0x80 <= text[last] <= 0xbf {
        assert Starts(text) == Starts(rest);
      } else {
        assert Starts(text) == Starts(rest) + {last};
      }
    }
  }

  // -- numbers ---------------------------------------------------------------

  lemma PrintedKnown()
    ensures Numbers.Printed(0) == Of("0") && Numbers.Printed(-1205) == Of("-1205") && Numbers.Printed(9) == Of("9")
  {
    assert Numbers.Digits(1) == [49];
    assert Numbers.Digits(12) == [49, 50];
    assert Numbers.Digits(120) == [49, 50, 48];
    assert Numbers.Digits(1205) == [49, 50, 48, 53];
  }

  // -- cutting and joining ---------------------------------------------------

  lemma SplitKnown()
    ensures Pieces.Split(Of("a-b-"), Of("-")) == [Of("a"), Of("b"), Of("")]
    ensures Pieces.Join([Of("a"), Of("b"), Of("")], Of("-")) == Of("a-b-")
    ensures Pieces.Split([0x61, 0xc3, 0xa9], []) == [[0x61], [0xc3, 0xa9]]
  {
    var s: Text, dash: Text := [97, 45, 98, 45], [45];
    Spelled();
    CutKnown(s, dash);
    JoinedKnown();
    CharactersKnown();
  }

  lemma Spelled()
    ensures Of("a-b-") == [97, 45, 98, 45] && Of("-") == [45] && Of("a") == [97] && Of("b") == [98] && Of("") == []
  {
  }

  lemma CutKnown(s: Text, dash: Text)
    requires s == [97, 45, 98, 45] && dash == [45]
    ensures Pieces.CutFrom(s, dash, 0) == [[97], [98], []]
  {
    assert s[0..1] == [97] && s[2..3] == [98] && s[4..] == [];
    FindKnown(s, dash);
    assert Pieces.CutFrom(s, dash, 4) == [[]];
    assert Pieces.CutFrom(s, dash, 2) == [[98]] + [[]];
    assert Pieces.CutFrom(s, dash, 0) == [[97]] + ([[98]] + [[]]);
  }

  lemma FindKnown(s: Text, dash: Text)
    requires s == [97, 45, 98, 45] && dash == [45]
    ensures Pieces.Find(s, dash, 0) == 1 && Pieces.Find(s, dash, 2) == 3 && Pieces.Find(s, dash, 4) == -1
  {
    assert s[0..1][0] != dash[0] && s[2..3][0] != dash[0] && s[1..2] == dash && s[3..4] == dash;
    assert Pieces.Find(s, dash, 1) == 1 && Pieces.Find(s, dash, 3) == 3;
  }

  lemma JoinedKnown()
    ensures Pieces.Join([Of("a"), Of("b"), Of("")], Of("-")) == Of("a-b-")
  {
    var a, b, none, dash := Of("a"), Of("b"), Of(""), Of("-");
    assert [a, b, none][1..] == [b, none] && [b, none][1..] == [none];
    assert Pieces.Join([b, none], dash) == b + dash + none;
    assert Pieces.Join([a, b, none], dash) == a + dash + (b + dash + none);
  }

  lemma CharactersKnown()
    ensures Pieces.Split([0x61, 0xc3, 0xa9], []) == [[0x61], [0xc3, 0xa9]]
  {
    var s: Text := [0x61, 0xc3, 0xa9];
    assert Pieces.CharacterEnd(s, 1) == 1 && Pieces.CharacterEnd(s, 2) == Pieces.CharacterEnd(s, 3) == 3;
    assert s[0..1] == [0x61] && s[1..3] == [0xc3, 0xa9];
    assert Pieces.CharactersFrom(s, 2) == Pieces.CharactersFrom(s, 3) == [];
    assert Pieces.CharactersFrom(s, 1) == [[0xc3, 0xa9]] + [];
  }

  // -- layout ----------------------------------------------------------------

  /** One character of two bytes: a count of one, a count of two, the bytes, and zeros to the next word. */
  lemma LaidKnown()
    ensures Compile.Laid([0xc3, 0xa9]) == [1, 0, 0, 0, 0, 0, 0, 0] + [2, 0, 0, 0, 0, 0, 0, 0] + [0xc3, 0xa9, 0, 0, 0, 0, 0, 0]
  {
    hide WordBytes;
    SmallWord(1);
    SmallWord(2);
    CountKnown();
    assert seq((8 - 2 % 8) % 8, _ => 0) == [0, 0, 0, 0, 0, 0];
  }

  lemma CountKnown()
    ensures Compile.Characters([0xc3, 0xa9]) == 1
  {
    var text: Text := [0xc3, 0xa9];
    assert text[1..] == [0xa9] && text[1..][1..] == [];
  }

  /** A small number's word has it in the first byte and nothing after. */
  lemma SmallWord(n: byte)
    ensures WordBytes(n) == [n, 0, 0, 0, 0, 0, 0, 0]
  {
    ZeroBytes(7);
    assert LeBytes(n, 8) == [n % 256] + LeBytes(n / 256, 7);
    assert n / 256 == 0 && n % 256 == n;
  }

  /** The words below the heap, one after another, and the sizes of what goes on it. */
  lemma PlacesKnown(n: nat)
    ensures L.BUMP == 0 && L.HANDLERS == 8 && L.FAILURE_CODE == 16 && L.FAILURE_MESSAGE == 24 && L.FRAME_BUMP == 32
    ensures L.FRAME_START == 40 && L.HEAP_START == 8232 && L.PAGE == 65536
    ensures L.ListSize(n) == 8 + 8 * n && L.ElementOffset(n) == 8 + 8 * n
    ensures L.AggregateSize(false, n) == 8 * n && L.AggregateSize(true, n) == 8 + 8 * n
    ensures L.FieldOffset(false, n) == 8 * n && L.FieldOffset(true, n) == 8 + 8 * n
    ensures L.FrameSize(n) == 24 + 8 * n && L.OperationOffset(n) == 24 + 8 * n
  {
  }

  // -- the variable-length numbers of WebAssembly ----------------------------

  /** 624485 and -123456, the usual examples of the two forms. */
  lemma LebKnown()
    ensures Leb128.Unsigned(624485) == [0xe5, 0x8e, 0x26] && Leb128.Signed(-123456) == [0xc0, 0xbb, 0x78]
    ensures Leb128.Unsigned(127) == [0x7f] && Leb128.Unsigned(128) == [0x80, 0x01] && Leb128.Signed(64) == [0xc0, 0x00]
  {
    assert Leb128.Unsigned(38) == [0x26];
    assert Leb128.Unsigned(4878) == [0x8e, 0x26];
    assert Leb128.Signed(-8) == [0x78];
    assert Leb128.Signed(-965) == [0xbb, 0x78];
  }

  // -- the numbering of instructions -----------------------------------------

  /** Tests in the order section 5.4 of the WebAssembly Core Specification numbers them, for either width. */
  const TESTS: seq<string> := ["eqz", "eq", "ne", "lt_s", "lt_u", "gt_s", "gt_u", "le_s", "le_u", "ge_s", "ge_u"]

  /** Arithmetic, numbered the same way. */
  const ARITHMETIC: seq<string> :=
    ["clz", "ctz", "popcnt", "add", "sub", "mul", "div_s", "div_u", "rem_s", "rem_u", "and", "or", "xor"]

  datatype Mnemonic = Test(wide: bool, name: string) | Arithmetic(wide: bool, name: string) | Conversion

  function MnemonicOf(op: NumOp): Mnemonic {
    match op
    case I32Eqz => Test(false, "eqz") case I32Eq => Test(false, "eq") case I32Ne => Test(false, "ne")
    case I32LtS => Test(false, "lt_s") case I32LeS => Test(false, "le_s") case I32GtS => Test(false, "gt_s") case I32GeS => Test(false, "ge_s")
    case I64Eqz => Test(true, "eqz") case I64Eq => Test(true, "eq") case I64Ne => Test(true, "ne")
    case I64LtS => Test(true, "lt_s") case I64LeS => Test(true, "le_s") case I64GtS => Test(true, "gt_s") case I64GeS => Test(true, "ge_s")
    case I32Add => Arithmetic(false, "add") case I32Sub => Arithmetic(false, "sub") case I32Mul => Arithmetic(false, "mul")
    case I32And => Arithmetic(false, "and") case I32Or => Arithmetic(false, "or")
    case I64Add => Arithmetic(true, "add") case I64Sub => Arithmetic(true, "sub") case I64Mul => Arithmetic(true, "mul")
    case I64DivS => Arithmetic(true, "div_s") case I64RemS => Arithmetic(true, "rem_s") case I64Xor => Arithmetic(true, "xor")
    case I32WrapI64 => Conversion case I64ExtendI32S => Conversion
  }

  /** Each numeric instruction has the number its place in its row gives it. */
  lemma NumbersInRows(op: NumOp)
    ensures
      var byte, name := Encode.NumByte(op), MnemonicOf(op);
      match name
      case Test(wide, test) =>
        var first := if wide then 0x50 else 0x45;
        first <= byte < first + 11 && TESTS[byte - first] == test
      case Arithmetic(wide, what) =>
        var first := if wide then 0x79 else 0x67;
        first <= byte < first + 13 && ARITHMETIC[byte - first] == what
      case Conversion => byte == if op == I32WrapI64 then 0xa7 else 0xac
  {
  }

  lemma Then(ins: Ins, rest: seq<Ins>)
    ensures Encode.AllBytes([ins] + rest) == Encode.Bytes(ins) + Encode.AllBytes(rest)
  {
    assert ([ins] + rest)[1..] == rest;
  }

  lemma Nothing()
    ensures Encode.AllBytes([]) == []
  {
  }

  lemma One(ins: Ins)
    ensures Encode.AllBytes([ins]) == Encode.Bytes(ins)
  {
    hide Encode.Bytes;
    Nothing();
    Then(ins, []);
    assert [ins] + [] == [ins];
  }

  /** What holds others starts with its number and its type, and ends with the byte for an end. */
  lemma HoldersKnown(body: seq<Ins>, other: seq<Ins>)
    ensures Encode.Bytes(Ins.Block(None, body)) == [0x02, 0x40] + Encode.AllBytes(body) + [0x0b]
    ensures Encode.Bytes(Ins.Loop(None, body)) == [0x03, 0x40] + Encode.AllBytes(body) + [0x0b]
    ensures Encode.Bytes(Ins.Block(Some(I64), body)) == [0x02, 0x7e] + Encode.AllBytes(body) + [0x0b]
    ensures Encode.Bytes(Ins.Loop(Some(I32), body)) == [0x03, 0x7f] + Encode.AllBytes(body) + [0x0b]
    ensures Encode.Bytes(Ins.If(Some(I64), body, [])) == [0x04, 0x7e] + Encode.AllBytes(body) + [0x0b]
    ensures other != [] ==>
      Encode.Bytes(Ins.If(None, body, other)) == [0x04, 0x40] + Encode.AllBytes(body) + ([0x05] + Encode.AllBytes(other)) + [0x0b]
  {
    hide Encode.AllBytes, Encode.FlatBytes;
  }

  /** An instruction with an index: its number, and then the index. */
  lemma IndexedKnown(index: byte)
    requires index < 128
    ensures Encode.Bytes(Br(index)) == [0x0c, index] && Encode.Bytes(BrIf(index)) == [0x0d, index]
    ensures Encode.Bytes(Ins.Call(index)) == [0x10, index] && Encode.Bytes(LocalGet(index)) == [0x20, index]
    ensures Encode.Bytes(LocalSet(index)) == [0x21, index] && Encode.Bytes(LocalTee(index)) == [0x22, index]
    ensures Encode.Bytes(CallIndirect(index)) == [0x11, index, 0x00]
  {
    hide Encode.AllBytes, Leb128.Signed, Encode.Alignment, Encode.NumByte;
  }

  /** The others that hold nothing, and the numbers of constants. */
  lemma SinglesKnown()
    ensures Encode.Bytes(Ins.Unreachable) == [0x00] && Encode.Bytes(Nop) == [0x01] && Encode.Bytes(Ins.Return) == [0x0f]
    ensures Encode.Bytes(Drop) == [0x1a] && Encode.Bytes(MemorySize) == [0x3f, 0x00] && Encode.Bytes(MemoryGrow) == [0x40, 0x00]
  {
    hide Encode.AllBytes, Leb128.Signed, Leb128.Unsigned, Encode.Alignment, Encode.NumByte;
  }

  lemma ConstantsKnown(n: i32, m: i64)
    ensures Encode.Bytes(I32Const(n)) == [0x41] + Leb128.Signed(n) && Encode.Bytes(I64Const(m)) == [0x42] + Leb128.Signed(m)
  {
    hide Encode.AllBytes, Leb128.Signed, Leb128.Unsigned;
  }

  /** Every load and store: its number, its alignment as a power of two, and its offset. */
  lemma AccessesKnown(offset: byte)
    requires offset < 128
    ensures Encode.Bytes(I32Load(offset)) == [0x28, 0x02, offset] && Encode.Bytes(I64Load(offset)) == [0x29, 0x03, offset]
    ensures Encode.Bytes(I32Store(offset)) == [0x36, 0x02, offset] && Encode.Bytes(I64Store(offset)) == [0x37, 0x03, offset]
    ensures Encode.Bytes(I32Load8U(offset)) == [0x2d, 0x00, offset] && Encode.Bytes(I32Store8(offset)) == [0x3a, 0x00, offset]
  {
    hide Encode.AllBytes, Leb128.Signed, Encode.NumByte;
  }

  /** A loop in a block that leaves when a local is not zero, byte for byte. */
  lemma LoopKnown()
    ensures Encode.AllBytes([Ins.Block(None, [Ins.Loop(None, [LocalGet(1), BrIf(1), Br(0)])])])
         == [0x02, 0x40, 0x03, 0x40, 0x20, 0x01, 0x0d, 0x01, 0x0c, 0x00, 0x0b, 0x0b]
  {
    hide Encode.Bytes, Encode.AllBytes;
    var inner := [LocalGet(1), BrIf(1), Br(0)];
    IndexedKnown(0);
    IndexedKnown(1);
    One(Br(0));
    Then(BrIf(1), [Br(0)]);
    Then(LocalGet(1), [BrIf(1)] + [Br(0)]);
    assert [LocalGet(1)] + ([BrIf(1)] + [Br(0)]) == inner;
    HoldersKnown(inner, []);
    One(Ins.Loop(None, inner));
    HoldersKnown([Ins.Loop(None, inner)], []);
    One(Ins.Block(None, [Ins.Loop(None, inner)]));
  }
}
