/**
 * What is lowered can be lifted back. Each lemma gives it for every later memory that keeps
 * the bytes the value was given, and says that lowering writes nowhere else.
 */
module AbiRoundTrip {
  import opened Ints
  import opened Wasm
  import opened Types
  import opened Abi
  import opened AbiLayout

  // -- values of a shape -----------------------------------------------------

  predicate HasShape(v: Val, s: Shape)
    decreases v, 1
  {
    match s
    case UnitS => v.UnitV?
    case BoolS => v.BoolV?
    case IntS => v.IntV?
    case StrS => v.StrV?
    case ListS(element) => v.ListV? && AllHave(v.elements, element)
    case RecordS(fields) => v.RecordV? && EachHas(v.fields, fields)
    case ChoiceS(variants) =>
      v.VariantV? && v.discriminant < |variants| && EachHas(v.payload, variants[v.discriminant].fields)
    case RefusedS(_) => false
  }

  predicate AllHave(vs: seq<Val>, element: Shape)
    decreases vs, 0
  {
    vs == [] || (HasShape(vs[0], element) && AllHave(vs[1..], element))
  }

  predicate EachHas(vs: seq<Val>, fields: seq<Shape>)
    decreases vs, 0
  {
    |vs| == |fields| && (vs == [] || (HasShape(vs[0], fields[0]) && EachHas(vs[1..], fields[1..])))
  }

  const LIMIT: nat := 0x8000_0000

  /** Lists and discriminants a signed 32-bit argument can carry. */
  predicate Narrow(v: Val) {
    match v
    case ListV(elements) => |elements| < LIMIT && AllNarrow(elements)
    case RecordV(fields) => AllNarrow(fields)
    case VariantV(discriminant, payload) => discriminant < LIMIT && AllNarrow(payload)
    case _ => true
  }

  predicate AllNarrow(vs: seq<Val>) { vs == [] || (Narrow(vs[0]) && AllNarrow(vs[1..])) }

  // -- what a write leaves alone ---------------------------------------------

  /** The same size, and the same bytes from here to there. */
  ghost predicate Agree(a: seq<byte>, b: seq<byte>, from: nat, to: nat) {
    |a| == |b| && forall i | from <= i < to && i < |a| :: a[i] == b[i]
  }

  /** Nothing already there changed but these bytes, and the rest is freshly allocated. */
  ghost predicate Kept(mem: Mem, after: Mem, at: nat, end: nat) {
    && |after.bytes| == |mem.bytes| && mem.next <= after.next <= |mem.bytes|
    && forall i | 0 <= i < mem.next && i < |mem.bytes| && !(at <= i < end) :: after.bytes[i] == mem.bytes[i]
  }

  lemma KeptNothing(mem: Mem, at: nat, end: nat)
    requires mem.next <= |mem.bytes|
    ensures Kept(mem, mem, at, end)
  {
  }

  /** One write and then another, within the same bytes. */
  lemma KeptThen(mem: Mem, between: Mem, after: Mem, a: nat, b: nat, c: nat, d: nat, at: nat, end: nat)
    requires Kept(mem, between, a, b) && Kept(between, after, c, d)
    requires (a >= b || (at <= a && b <= end)) && (c >= d || (at <= c && d <= end) || c >= mem.next)
    ensures Kept(mem, after, at, end)
  {
  }

  lemma AgreeSlice(a: seq<byte>, b: seq<byte>, from: nat, to: nat, x: nat, y: nat)
    requires Agree(a, b, from, to) && from <= x <= y <= to && y <= |a|
    ensures a[x..y] == b[x..y]
  {
  }

  lemma AgreeLess(a: seq<byte>, b: seq<byte>, from: nat, to: nat, x: nat, y: nat)
    requires Agree(a, b, from, to) && from <= x && y <= to
    ensures Agree(a, b, x, y)
  {
  }

  lemma WriteKept(mem: Mem, at: nat, data: seq<byte>)
    requires Write(mem, at, data).Ok? && mem.next <= |mem.bytes|
    ensures var after := Write(mem, at, data).value;
      && Kept(mem, after, at, at + |data|) && after.next == mem.next && |after.bytes| == |mem.bytes| && after.bytes[at..at + |data|] == data
      && forall i | 0 <= i < |mem.bytes| && !(at <= i < at + |data|) :: after.bytes[i] == mem.bytes[i]
  {
  }

  // -- texts and pairs -------------------------------------------------------

  lemma Word32Value(n: nat)
    requires n < TWO_32
    ensures LeValue(Word32(n)) == n
  {
    Pow256Values();
    LeRoundTrip(n, 4);
  }

  /** A pair is written in its eight bytes and nowhere else, and reads back. */
  lemma PairStored(mem: Mem, at: nat, pointer: nat, length: nat, later: seq<byte>)
    requires StorePair(mem, at, pointer, length).Ok? && mem.next <= |mem.bytes|
    requires pointer < TWO_32 && length < TWO_32
    requires Agree(StorePair(mem, at, pointer, length).value.bytes, later, at, at + 8)
    ensures Kept(mem, StorePair(mem, at, pointer, length).value, at, at + 8)
    ensures StorePair(mem, at, pointer, length).value.next == mem.next
    ensures forall i | 0 <= i < |mem.bytes| && !(at <= i < at + 8) ::
              StorePair(mem, at, pointer, length).value.bytes[i] == mem.bytes[i]
    ensures LoadPair(later, at) == Ok((pointer, length))
  {
    var between := Write(mem, at, Word32(pointer)).value;
    var after := Write(between, at + 4, Word32(length)).value;
    WriteKept(mem, at, Word32(pointer));
    WriteKept(between, at + 4, Word32(length));
    AgreeSlice(after.bytes, between.bytes, at, at + 4, at, at + 4);
    AgreeSlice(after.bytes, later, at, at + 8, at, at + 4);
    AgreeSlice(after.bytes, later, at, at + 8, at + 4, at + 8);
    Word32Value(pointer);
    Word32Value(length);
  }

  lemma TextStored(text: Text, mem: Mem, later: seq<byte>)
    requires StoreText(text, mem).Ok? && mem.next <= |mem.bytes| < LIMIT
    requires Agree(StoreText(text, mem).value.0.bytes, later, mem.next, StoreText(text, mem).value.0.next)
    ensures var (after, pointer) := StoreText(text, mem).value;
      Kept(mem, after, 0, 0) && pointer < LIMIT && |text| < LIMIT && LiftText(later, pointer, |text|) == Ok(StrV(text))
  {
    if text != [] {
      var (room, at) := Alloc(mem, |text|, 1).value;
      var after := Write(room, at, text).value;
      AlignsUp(mem.next, 1);
      WriteKept(room, at, text);
      AgreeSlice(after.bytes, later, mem.next, after.next, at, at + |text|);
    }
  }

  // -- memory ----------------------------------------------------------------

  /**
   * A value of any shape, lowered to an aligned address whose bytes are reserved, can be
   * lifted from there in any memory that keeps those bytes and what was allocated for it.
   */
  lemma {:induction false} MemoryRoundTrip(v: Val, s: Shape, mem: Mem, at: nat, later: seq<byte>)
    requires HasShape(v, s) && Narrow(v)
    requires Aligned(at, s) && at + Size(s) <= mem.next <= |mem.bytes| < LIMIT
    requires LowerToMemory(v, s, mem, at).Ok?
    requires var after := LowerToMemory(v, s, mem, at).value;
      Agree(after.bytes, later, at, at + Size(s)) && Agree(after.bytes, later, mem.next, after.next)
    ensures Kept(mem, LowerToMemory(v, s, mem, at).value, at, at + Size(s))
    ensures LiftFromMemory(s, later, at) == Ok(v)
    decreases v, 1
  {
    var after := LowerToMemory(v, s, mem, at).value;
    if s.UnitS? {
      KeptNothing(mem, at, at);
    } else if s.BoolS? {
      BoolStored(v.b, mem, at, later);
    } else if s.IntS? {
      WriteKept(mem, at, WordBytes(v.n));
      AgreeSlice(after.bytes, later, at, at + 8, at, at + 8);
      WordRoundTrip(v.n);
    } else if s.StrS? {
      StrStored(v.text, mem, at, later);
    } else if s.ListS? {
      ListRoundTrip(v, s, mem, at, later);
    } else if s.RecordS? {
      RecordFits(s.fields, at);
      FieldsRoundTrip(v.fields, s.fields, mem, at, later);
      KeptWider(mem, after, at, EndOf(s.fields, at), at + Size(s));
    } else {
      ChoiceRoundTrip(v, s, mem, at, later);
    }
  }

  lemma KeptWider(mem: Mem, after: Mem, at: nat, end: nat, wider: nat)
    requires Kept(mem, after, at, end) && end <= wider
    ensures Kept(mem, after, at, wider)
  {
  }

  lemma BoolStored(b: bool, mem: Mem, at: nat, later: seq<byte>)
    requires mem.next <= |mem.bytes|
    requires LowerToMemory(BoolV(b), BoolS, mem, at).Ok?
    requires Agree(LowerToMemory(BoolV(b), BoolS, mem, at).value.bytes, later, at, at + 1)
    ensures Kept(mem, LowerToMemory(BoolV(b), BoolS, mem, at).value, at, at + 1)
    ensures LiftFromMemory(BoolS, later, at) == Ok(BoolV(b))
  {
    var data: seq<byte> := [if b then 1 else 0];
    WriteKept(mem, at, data);
    AgreeSlice(Write(mem, at, data).value.bytes, later, at, at + 1, at, at + 1);
    assert LeValue(data) == data[0] by { assert LeValue(data[1..]) == 0; }
  }

  lemma StrStored(text: Text, mem: Mem, at: nat, later: seq<byte>)
    requires at + 8 <= mem.next <= |mem.bytes| < LIMIT
    requires LowerToMemory(StrV(text), StrS, mem, at).Ok?
    requires var after := LowerToMemory(StrV(text), StrS, mem, at).value;
      Agree(after.bytes, later, at, at + 8) && Agree(after.bytes, later, mem.next, after.next)
    ensures Kept(mem, LowerToMemory(StrV(text), StrS, mem, at).value, at, at + 8)
    ensures LiftFromMemory(StrS, later, at) == Ok(StrV(text))
  {
    var (between, pointer) := StoreText(text, mem).value;
    var after := StorePair(between, at, pointer, |text|).value;
    StoreTextSize(text, mem);
    PairKeeps(between, at, pointer, |text|);
    assert Agree(between.bytes, later, mem.next, between.next);
    TextStored(text, mem, later);
    PairStored(between, at, pointer, |text|, later);
    KeptThen(mem, between, after, 0, 0, at, at + 8, at, at + 8);
  }

  lemma StoreTextSize(text: Text, mem: Mem)
    requires StoreText(text, mem).Ok? && mem.next <= |mem.bytes|
    ensures var between := StoreText(text, mem).value.0; mem.next <= between.next <= |between.bytes| == |mem.bytes|
  {
  }

  lemma PairKeeps(mem: Mem, at: nat, pointer: nat, length: nat)
    requires StorePair(mem, at, pointer, length).Ok?
    ensures var after := StorePair(mem, at, pointer, length).value;
      && |after.bytes| == |mem.bytes| && after.next == mem.next
      && forall i | 0 <= i < |mem.bytes| && !(at <= i < at + 8) :: after.bytes[i] == mem.bytes[i]
  {
  }

  lemma {:induction false} ListRoundTrip(v: Val, s: Shape, mem: Mem, at: nat, later: seq<byte>)
    requires s.ListS? && HasShape(v, s) && Narrow(v) && at + 8 <= mem.next <= |mem.bytes| < LIMIT
    requires LowerToMemory(v, s, mem, at).Ok?
    requires var after := LowerToMemory(v, s, mem, at).value;
      Agree(after.bytes, later, at, at + 8) && Agree(after.bytes, later, mem.next, after.next)
    ensures Kept(mem, LowerToMemory(v, s, mem, at).value, at, at + 8)
    ensures LiftFromMemory(s, later, at) == Ok(v)
    decreases v, 0
  {
    var (between, pointer) := StoreList(v.elements, s.element, mem).value;
    var after := StorePair(between, at, pointer, |v.elements|).value;
    StoreListSize(v.elements, s.element, mem);
    PairKeeps(between, at, pointer, |v.elements|);
    assert Agree(between.bytes, later, mem.next, between.next);
    ListStored(v.elements, s.element, mem, later);
    PairStored(between, at, pointer, |v.elements|, later);
    KeptThen(mem, between, after, 0, 0, at, at + 8, at, at + 8);
  }

  lemma {:induction false} SizeStays(v: Val, s: Shape, mem: Mem, at: nat)
    requires LowerToMemory(v, s, mem, at).Ok? && mem.next <= |mem.bytes|
    ensures var after := LowerToMemory(v, s, mem, at).value; |after.bytes| == |mem.bytes| && mem.next <= after.next <= |mem.bytes|
    decreases v, 1
  {
    if s.StrS? {
      StoreTextSize(v.text, mem);
    } else if s.ListS? {
      StoreListSize(v.elements, s.element, mem);
    } else if s.RecordS? {
      FieldsSizeStays(v.fields, s.fields, mem, at);
    } else if s.ChoiceS? {
      var between := Write(mem, at, Word32(v.discriminant)[..DiscriminantSize(|s.variants|)]).value;
      FieldsSizeStays(v.payload, s.variants[v.discriminant].fields, between, at + PayloadAt(s.variants));
    }
  }

  lemma {:induction false} FieldsSizeStays(vs: seq<Val>, fields: seq<Shape>, mem: Mem, at: nat)
    requires LowerFields(vs, fields, mem, at).Ok? && mem.next <= |mem.bytes|
    ensures var after := LowerFields(vs, fields, mem, at).value; |after.bytes| == |mem.bytes| && mem.next <= after.next <= |mem.bytes|
    decreases vs, 0
  {
    if vs != [] && fields != [] {
      var here := AlignUp(at, Align(fields[0]));
      SizeStays(vs[0], fields[0], mem, here);
      FieldsSizeStays(vs[1..], fields[1..], LowerToMemory(vs[0], fields[0], mem, here).value, here + Size(fields[0]));
    }
  }

  lemma {:induction false} StoreListSize(elements: seq<Val>, element: Shape, mem: Mem)
    requires StoreList(elements, element, mem).Ok? && mem.next <= |mem.bytes|
    ensures var between := StoreList(elements, element, mem).value.0; mem.next <= between.next <= |between.bytes| == |mem.bytes|
    decreases elements, 1
  {
    hide Room, Stride, AlignUp, LowerElements;
    if elements != [] {
      var (room, at) := Alloc(mem, Room(element, |elements|), Align(element)).value;
      ElementsSizeStays(elements, element, room, at);
    }
  }

  lemma {:induction false} ElementsSizeStays(elements: seq<Val>, element: Shape, mem: Mem, at: nat)
    requires LowerElements(elements, element, mem, at).Ok? && mem.next <= |mem.bytes|
    ensures var after := LowerElements(elements, element, mem, at).value;
      |after.bytes| == |mem.bytes| && mem.next <= after.next <= |mem.bytes|
    decreases elements, 0
  {
    hide Stride, LowerToMemory;
    if elements != [] {
      SizeStays(elements[0], element, mem, at);
      ElementsSizeStays(elements[1..], element, LowerToMemory(elements[0], element, mem, at).value, at + Stride(element));
    }
  }

  /** Elements are written where they were given room, a stride apart, and can be lifted from there. */
  lemma {:induction false} ListStored(elements: seq<Val>, element: Shape, mem: Mem, later: seq<byte>)
    requires AllHave(elements, element) && AllNarrow(elements) && mem.next <= |mem.bytes| < LIMIT
    requires StoreList(elements, element, mem).Ok?
    requires Agree(StoreList(elements, element, mem).value.0.bytes, later, mem.next, StoreList(elements, element, mem).value.0.next)
    ensures var (after, pointer) := StoreList(elements, element, mem).value;
      Kept(mem, after, 0, 0) && pointer < LIMIT && LiftList(element, later, pointer, |elements|) == Ok(ListV(elements))
    decreases elements, 2
  {
    hide Room, Stride, AlignUp, Aligned, LowerElements, Span, AllHave, AllNarrow;
    if elements == [] {
      KeptNothing(mem, 0, 0);
      assert LiftElements(element, later, 0, 0) == Ok([]);
    } else {
      var (room, at) := Alloc(mem, Room(element, |elements|), Align(element)).value;
      var after := LowerElements(elements, element, room, at).value;
      ElementsSizeStays(elements, element, room, at);
      AlignsUpFor(mem.next, element);
      RoomIs(element, |elements|);
      ElementsRoundTrip(elements, element, room, at, later);
      assert Kept(mem, room, 0, 0);
      KeptThen(mem, room, after, 0, 0, at, at + Span(Stride(element), |elements|), 0, 0);
    }
  }

  function Span(stride: nat, n: nat): nat { if n == 0 then 0 else stride + Span(stride, n - 1) }

  lemma {:induction false} SpanIs(stride: nat, n: nat)
    ensures Span(stride, n) == stride * n
    decreases n
  {
    if n > 0 {
      SpanIs(stride, n - 1);
      assert stride * n == stride + stride * (n - 1);
    }
  }

  lemma RoomIs(element: Shape, n: nat)
    ensures Room(element, n) == Span(Stride(element), n)
  {
    SpanIs(Stride(element), n);
  }

  lemma LiftsElement(element: Shape, bytes: seq<byte>, at: nat, count: nat, v: Val, rest: seq<Val>)
    requires count > 0 && LiftFromMemory(element, bytes, at) == Ok(v)
    requires LiftElements(element, bytes, at + Stride(element), count - 1) == Ok(rest)
    ensures LiftElements(element, bytes, at, count) == Ok([v] + rest)
  {
    hide LiftFromMemory, Stride;
  }

  lemma {:induction false} ElementsRoundTrip(elements: seq<Val>, element: Shape, mem: Mem, at: nat, later: seq<byte>)
    requires AllHave(elements, element) && AllNarrow(elements) && Aligned(at, element)
    requires at + Span(Stride(element), |elements|) <= mem.next <= |mem.bytes| < LIMIT
    requires LowerElements(elements, element, mem, at).Ok?
    requires var after := LowerElements(elements, element, mem, at).value;
      Agree(after.bytes, later, at, at + Span(Stride(element), |elements|)) && Agree(after.bytes, later, mem.next, after.next)
    ensures Kept(mem, LowerElements(elements, element, mem, at).value, at, at + Span(Stride(element), |elements|))
    ensures LiftElements(element, later, at, |elements|) == Ok(elements)
    decreases elements, 0, 1
  {
    if elements == [] {
      KeptNothing(mem, at, at);
      assert LiftElements(element, later, at, 0) == Ok([]);
    } else {
      ElementsMore(elements, element, mem, at, later);
    }
  }

  lemma {:induction false} ElementsMore(elements: seq<Val>, element: Shape, mem: Mem, at: nat, later: seq<byte>)
    requires elements != []
    requires AllHave(elements, element) && AllNarrow(elements) && Aligned(at, element)
    requires at + Span(Stride(element), |elements|) <= mem.next <= |mem.bytes| < LIMIT
    requires LowerElements(elements, element, mem, at).Ok?
    requires var after := LowerElements(elements, element, mem, at).value;
      Agree(after.bytes, later, at, at + Span(Stride(element), |elements|)) && Agree(after.bytes, later, mem.next, after.next)
    ensures Kept(mem, LowerElements(elements, element, mem, at).value, at, at + Span(Stride(element), |elements|))
    ensures LiftElements(element, later, at, |elements|) == Ok(elements)
    decreases elements, 0, 0
  {
    hide Kept, Agree, LowerToMemory, LowerElements, LiftFromMemory, LiftElements, Stride, Align, Aligned, Span,
         HasShape, Narrow, AllHave, AllNarrow;
    var next := at + Stride(element);
    var end := at + Span(Stride(element), |elements|);
    var between, after := ElementsReady(elements, element, mem, at, later);
    ElementsRoundTrip(elements[1..], element, between, next, later);
    AgreeBefore(between, after, later, at, at + Size(element), next, end, mem.next);
    MemoryRoundTrip(elements[0], element, mem, at, later);
    KeptThen(mem, between, after, at, at + Size(element), next, end, at, end);
    LiftsElement(element, later, at, |elements|, elements[0], elements[1..]);
    Whole(elements);
  }

  /** What lowering the first element leaves for the others. */
  lemma ElementsReady(elements: seq<Val>, element: Shape, mem: Mem, at: nat, later: seq<byte>) returns (between: Mem, after: Mem)
    requires elements != [] && AllHave(elements, element) && AllNarrow(elements) && Aligned(at, element)
    requires at + Span(Stride(element), |elements|) <= mem.next <= |mem.bytes| && LowerElements(elements, element, mem, at).Ok?
    requires var last := LowerElements(elements, element, mem, at).value;
      Agree(last.bytes, later, at, at + Span(Stride(element), |elements|)) && Agree(last.bytes, later, mem.next, last.next)
    ensures HasShape(elements[0], element) && Narrow(elements[0]) && AllHave(elements[1..], element) && AllNarrow(elements[1..])
    ensures LowerToMemory(elements[0], element, mem, at) == Ok(between)
    ensures LowerElements(elements, element, mem, at) == LowerElements(elements[1..], element, between, at + Stride(element)) == Ok(after)
    ensures at + Span(Stride(element), |elements|) == at + Stride(element) + Span(Stride(element), |elements[1..]|)
    ensures Aligned(at + Stride(element), element) && Size(element) <= Stride(element)
    ensures |between.bytes| == |mem.bytes| && mem.next <= between.next <= |mem.bytes|
    ensures Agree(after.bytes, later, at + Stride(element), at + Span(Stride(element), |elements|))
    ensures Agree(after.bytes, later, between.next, after.next)
  {
    ElementsSplit(elements, element, mem, at);
    hide Agree, LowerToMemory, LowerElements, Stride, Align, Aligned, Span, HasShape, Narrow, AllHave, AllNarrow;
    between := LowerToMemory(elements[0], element, mem, at).value;
    after := LowerElements(elements, element, mem, at).value;
    StrideFits(element);
    StrideKeepsAligned(element, at);
    SizeStays(elements[0], element, mem, at);
    AgreeLess(after.bytes, later, at, at + Span(Stride(element), |elements|), at + Stride(element), at + Span(Stride(element), |elements|));
    AgreeLess(after.bytes, later, mem.next, after.next, between.next, after.next);
  }

  lemma Whole<T>(items: seq<T>)
    requires items != []
    ensures [items[0]] + items[1..] == items
  {
  }

  /** The first element, and then the others. */
  lemma ElementsSplit(elements: seq<Val>, element: Shape, mem: Mem, at: nat)
    requires elements != [] && AllHave(elements, element) && AllNarrow(elements) && LowerElements(elements, element, mem, at).Ok?
    ensures HasShape(elements[0], element) && Narrow(elements[0]) && AllHave(elements[1..], element) && AllNarrow(elements[1..])
    ensures LowerToMemory(elements[0], element, mem, at).Ok?
    ensures var between := LowerToMemory(elements[0], element, mem, at).value;
      LowerElements(elements, element, mem, at) == LowerElements(elements[1..], element, between, at + Stride(element))
    ensures Span(Stride(element), |elements|) == Stride(element) + Span(Stride(element), |elements[1..]|)
  {
    hide HasShape, Narrow, LowerToMemory, Stride;
  }

  lemma StrideKeepsAligned(element: Shape, at: nat)
    requires Aligned(at, element)
    ensures Aligned(at + Stride(element), element)
  {
    StrideFits(element);
    AlignedSum(at, Stride(element), Align(element));
  }

  lemma AlignedSum(a: nat, b: nat, c: nat)
    requires Multiple(a, c) && Multiple(b, c)
    ensures Multiple(a + b, c)
  {
  }

  /** What comes after leaves what came before, and what was allocated for it, as it was. */
  lemma AgreeBefore(between: Mem, after: Mem, later: seq<byte>, at: nat, end: nat, next: nat, last: nat, taken: nat)
    requires Kept(between, after, next, last) && at <= end <= next <= last <= taken <= between.next
    requires Agree(after.bytes, later, at, last) && Agree(after.bytes, later, taken, after.next)
    ensures Agree(between.bytes, later, at, end) && Agree(between.bytes, later, taken, between.next)
  {
  }

  lemma {:induction false} FieldsRoundTrip(vs: seq<Val>, fields: seq<Shape>, mem: Mem, at: nat, later: seq<byte>)
    requires EachHas(vs, fields) && AllNarrow(vs) && EndOf(fields, at) <= mem.next <= |mem.bytes| < LIMIT
    requires LowerFields(vs, fields, mem, at).Ok?
    requires var after := LowerFields(vs, fields, mem, at).value;
      Agree(after.bytes, later, at, EndOf(fields, at)) && Agree(after.bytes, later, mem.next, after.next)
    ensures Kept(mem, LowerFields(vs, fields, mem, at).value, at, EndOf(fields, at))
    ensures LiftFields(fields, later, at) == Ok(vs)
    decreases vs, 0
  {
    hide AlignUp, Aligned, Size, Align, LowerToMemory, LiftFromMemory, HasShape, Narrow;
    if vs == [] {
      KeptNothing(mem, at, at);
    } else {
      var here := AlignUp(at, Align(fields[0]));
      var next := here + Size(fields[0]);
      var end := EndOf(fields, at);
      var between := LowerToMemory(vs[0], fields[0], mem, here).value;
      var after := LowerFields(vs[1..], fields[1..], between, next).value;
      AlignsUpFor(at, fields[0]);
      SizeStays(vs[0], fields[0], mem, here);
      FieldsRoundTrip(vs[1..], fields[1..], between, next, later);
      AgreeBefore(between, after, later, here, next, next, end, mem.next);
      MemoryRoundTrip(vs[0], fields[0], mem, here, later);
      KeptThen(mem, between, after, here, next, next, end, at, end);
      assert [vs[0]] + vs[1..] == vs;
    }
  }

  lemma DiscriminantValue(d: nat, n: nat)
    requires d < n && d < LIMIT
    ensures LeValue(Word32(d)[..DiscriminantSize(n)]) == d
  {
    var width := DiscriminantSize(n);
    LeBytesPrefix(d, width, 4);
    Pow256Values();
    LeRoundTrip(d, width);
  }

  lemma {:induction false} LeBytesPrefix(n: nat, k: nat, width: nat)
    requires k <= width
    ensures LeBytes(n, width)[..k] == LeBytes(n, k)
    decreases width
  {
    if k > 0 {
      LeBytesPrefix(n / 256, k - 1, width - 1);
      assert LeBytes(n, width)[..k] == [n % 256] + LeBytes(n / 256, width - 1)[..k - 1];
    }
  }

  lemma {:induction false} ChoiceRoundTrip(v: Val, s: Shape, mem: Mem, at: nat, later: seq<byte>)
    requires s.ChoiceS? && HasShape(v, s) && Narrow(v)
    requires Aligned(at, s) && at + Size(s) <= mem.next <= |mem.bytes| < LIMIT
    requires LowerToMemory(v, s, mem, at).Ok?
    requires var after := LowerToMemory(v, s, mem, at).value;
      Agree(after.bytes, later, at, at + Size(s)) && Agree(after.bytes, later, mem.next, after.next)
    ensures Kept(mem, LowerToMemory(v, s, mem, at).value, at, at + Size(s))
    ensures LiftFromMemory(s, later, at) == Ok(v)
    decreases v, 0
  {
    hide Kept, Agree, EachHas, AllNarrow, PayloadAt, DiscriminantSize, Size, Align, EndOf, LowerFields, LiftFields, Word32;
    var d := v.discriminant;
    var width := DiscriminantSize(|s.variants|);
    var data := Word32(d)[..width];
    var fields := s.variants[d].fields;
    var start := at + PayloadAt(s.variants);
    var between := Write(mem, at, data).value;
    var after := LowerFields(v.payload, fields, between, start).value;
    ChoiceFits(s.variants, d, at);
    WriteKept(mem, at, data);
    AgreeLess(after.bytes, later, at, at + Size(s), start, EndOf(fields, start));
    AgreeLess(after.bytes, later, at, at + Size(s), at, EndOf(fields, start));
    FieldsRoundTrip(v.payload, fields, between, start, later);
    KeptThen(mem, between, after, at, at + width, start, EndOf(fields, start), at, at + Size(s));
    AgreeBefore(between, after, later, at, at + width, start, EndOf(fields, start), mem.next);
    AgreeSlice(between.bytes, later, at, at + width, at, at + width);
    DiscriminantValue(d, |s.variants|);
    assert LoadNumber(later, at, width) == Ok(d);
  }

  // -- flat ------------------------------------------------------------------

  lemma Casts(n: nat)
    requires n < LIMIT
    ensures As32(Arg32(n)) == n && TypeOfArg(Arg32(n)) == I32
  {
  }

  lemma PairSlots(pointer: nat, length: nat)
    requires pointer < LIMIT && length < LIMIT
    ensures Slot32(Pair(pointer, length), 0) == pointer && Slot32(Pair(pointer, length), 1) == length
    ensures TypesOf(Pair(pointer, length)) == [I32, I32]
  {
    Casts(pointer);
    Casts(length);
  }

  /** One slot, as the type wanted of it. */
  function CoerceOne(a: Arg, ty: ValType): Arg { if ty == I32 then A32(As32(a)) else A64(As64(a)) }

  /** From this slot on, the arguments come back when each slot is coerced to its argument's type. */
  ghost predicate Carries(flat: seq<Arg>, cursor: nat, args: seq<Arg>) {
    && cursor + |args| <= |flat|
    && forall k | 0 <= k < |args| :: CoerceOne(flat[cursor + k], TypeOfArg(args[k])) == args[k]
  }

  lemma SameCarries(args: seq<Arg>)
    ensures Carries(args, 0, args)
  {
    forall k | 0 <= k < |args| ensures CoerceOne(args[0 + k], TypeOfArg(args[k])) == args[k] {
      assert args[k].A32? ==> Wrap32(As64(args[k])) == As64(args[k]);
    }
  }

  lemma CarriesSlice(flat: seq<Arg>, cursor: nat, one: seq<Arg>, two: seq<Arg>)
    requires Carries(flat, cursor, one + two)
    ensures cursor + |one| <= |flat| && Coerced(flat[cursor..cursor + |one|], TypesOf(one)) == one
    ensures Carries(flat, cursor + |one|, two)
  {
    var slice := Coerced(flat[cursor..cursor + |one|], TypesOf(one));
    forall k | 0 <= k < |one| ensures slice[k] == one[k] {
      assert (one + two)[k] == one[k];
    }
    forall k | 0 <= k < |two| ensures CoerceOne(flat[cursor + |one| + k], TypeOfArg(two[k])) == two[k] {
      assert (one + two)[|one| + k] == two[k];
      assert flat[cursor + (|one| + k)] == flat[cursor + |one| + k];
    }
  }

  /** Whether every type here is at most as wide as the one in its place there. */
  ghost predicate FitsIn(narrow: seq<ValType>, wide: seq<ValType>) {
    |narrow| <= |wide| && forall i | 0 <= i < |narrow| :: narrow[i] == I64 ==> wide[i] == I64
  }

  lemma {:induction false} PayloadGrows(variants: seq<Case>, joined: seq<ValType>)
    ensures FitsIn(joined, Payload(variants, joined))
    decreases |variants|
  {
    if variants != [] {
      PayloadGrows(variants[1..], Join(joined, FlatAll(variants[0].fields)));
    }
  }

  /** Every variant's flat types fit in the joined payload. */
  lemma {:induction false} VariantFitsIn(variants: seq<Case>, joined: seq<ValType>, d: nat)
    requires d < |variants|
    ensures FitsIn(FlatAll(variants[d].fields), Payload(variants, joined))
    decreases |variants|
  {
    var next := Join(joined, FlatAll(variants[0].fields));
    if d > 0 {
      VariantFitsIn(variants[1..], next, d - 1);
    } else {
      PayloadGrows(variants[1..], next);
    }
  }

  lemma PaddedTypes(args: seq<Arg>, joined: seq<ValType>)
    requires FitsIn(TypesOf(args), joined)
    ensures TypesOf(Padded(args, joined)) == joined
  {
  }

  /** Widening and padding are undone by coercing back to the variant's own types. */
  lemma PaddedCarries(first: Arg, args: seq<Arg>, joined: seq<ValType>)
    requires FitsIn(TypesOf(args), joined)
    ensures Carries([first] + Padded(args, joined), 1, args)
  {
    var flat := [first] + Padded(args, joined);
    forall k | 0 <= k < |args| ensures CoerceOne(flat[1 + k], TypeOfArg(args[k])) == args[k] {
      assert flat[1 + k] == Padded(args, joined)[k];
      assert args[k].A32? ==> Wrap32(As64(args[k])) == As64(args[k]);
    }
  }

  lemma {:induction false} FlatTypes(v: Val, s: Shape, mem: Mem)
    requires HasShape(v, s) && LowerFlat(v, s, mem).Ok?
    ensures TypesOf(LowerFlat(v, s, mem).value.0) == Flat(s)
    decreases v, 1
  {
    if s.RecordS? {
      FlatFieldsTypes(v.fields, s.fields, mem);
    } else if s.ChoiceS? {
      var fields := s.variants[v.discriminant].fields;
      var args := LowerFlatFields(v.payload, fields, mem).value.0;
      FlatFieldsTypes(v.payload, fields, mem);
      VariantFitsIn(s.variants, [], v.discriminant);
      PaddedTypes(args, Payload(s.variants, []));
      TypesAppend([Arg32(v.discriminant)], Padded(args, Payload(s.variants, [])));
      assert TypesOf([Arg32(v.discriminant)]) == [I32];
    }
  }

  lemma TypesAppend(one: seq<Arg>, two: seq<Arg>)
    ensures TypesOf(one + two) == TypesOf(one) + TypesOf(two)
  {
  }

  lemma {:induction false} FlatFieldsTypes(vs: seq<Val>, fields: seq<Shape>, mem: Mem)
    requires EachHas(vs, fields) && LowerFlatFields(vs, fields, mem).Ok?
    ensures TypesOf(LowerFlatFields(vs, fields, mem).value.0) == FlatAll(fields)
    decreases vs, 0
  {
    if vs != [] {
      var (args, between) := LowerFlat(vs[0], fields[0], mem).value;
      FlatTypes(vs[0], fields[0], mem);
      FlatFieldsTypes(vs[1..], fields[1..], between);
      TypesAppend(args, LowerFlatFields(vs[1..], fields[1..], between).value.0);
    }
  }

  lemma {:induction false} FlatSizeStays(v: Val, s: Shape, mem: Mem)
    requires LowerFlat(v, s, mem).Ok? && mem.next <= |mem.bytes|
    ensures var after := LowerFlat(v, s, mem).value.1; |after.bytes| == |mem.bytes| && mem.next <= after.next <= |mem.bytes|
    decreases v, 1
  {
    if s.StrS? {
      StoreTextSize(v.text, mem);
    } else if s.ListS? {
      StoreListSize(v.elements, s.element, mem);
    } else if s.RecordS? {
      FlatFieldsSizeStays(v.fields, s.fields, mem);
    } else if s.ChoiceS? {
      FlatFieldsSizeStays(v.payload, s.variants[v.discriminant].fields, mem);
    }
  }

  lemma {:induction false} FlatFieldsSizeStays(vs: seq<Val>, fields: seq<Shape>, mem: Mem)
    requires LowerFlatFields(vs, fields, mem).Ok? && mem.next <= |mem.bytes|
    ensures var after := LowerFlatFields(vs, fields, mem).value.1;
      |after.bytes| == |mem.bytes| && mem.next <= after.next <= |mem.bytes|
    decreases vs, 0
  {
    if vs != [] && fields != [] {
      FlatSizeStays(vs[0], fields[0], mem);
      FlatFieldsSizeStays(vs[1..], fields[1..], LowerFlat(vs[0], fields[0], mem).value.1);
    }
  }

  /**
   * A value lowered flat gives arguments of exactly the flattened types, and they lift to
   * the value in any memory that keeps what was allocated for it.
   */
  lemma {:induction false} FlatRoundTrip(v: Val, s: Shape, mem: Mem, later: seq<byte>)
    requires HasShape(v, s) && Narrow(v) && mem.next <= |mem.bytes| < LIMIT
    requires LowerFlat(v, s, mem).Ok?
    requires Agree(LowerFlat(v, s, mem).value.1.bytes, later, mem.next, LowerFlat(v, s, mem).value.1.next)
    ensures Kept(mem, LowerFlat(v, s, mem).value.1, 0, 0)
    ensures TypesOf(LowerFlat(v, s, mem).value.0) == Flat(s)
    ensures Lift(LowerFlat(v, s, mem).value.0, s, later) == Some(Ok(v))
    decreases v, 1
  {
    FlatTypes(v, s, mem);
    if s.StrS? {
      var (after, pointer) := StoreText(v.text, mem).value;
      TextStored(v.text, mem, later);
      PairSlots(pointer, |v.text|);
    } else if s.ListS? {
      var (after, pointer) := StoreList(v.elements, s.element, mem).value;
      ListStored(v.elements, s.element, mem, later);
      PairSlots(pointer, |v.elements|);
    } else if s.RecordS? {
      var args := LowerFlatFields(v.fields, s.fields, mem).value.0;
      SameCarries(args);
      FlatFieldsRoundTrip(v.fields, s.fields, mem, later, args, 0);
    } else if s.ChoiceS? {
      FlatChoiceRoundTrip(v, s, mem, later);
    } else {
      KeptNothing(mem, 0, 0);
    }
  }

  lemma {:induction false} FlatChoiceRoundTrip(v: Val, s: Shape, mem: Mem, later: seq<byte>)
    requires s.ChoiceS? && HasShape(v, s) && Narrow(v) && mem.next <= |mem.bytes| < LIMIT
    requires LowerFlat(v, s, mem).Ok?
    requires Agree(LowerFlat(v, s, mem).value.1.bytes, later, mem.next, LowerFlat(v, s, mem).value.1.next)
    ensures Kept(mem, LowerFlat(v, s, mem).value.1, 0, 0)
    ensures Lift(LowerFlat(v, s, mem).value.0, s, later) == Some(Ok(v))
    decreases v, 0
  {
    var d := v.discriminant;
    var fields := s.variants[d].fields;
    var args := LowerFlatFields(v.payload, fields, mem).value.0;
    var joined := Payload(s.variants, []);
    var flat := [Arg32(d)] + Padded(args, joined);
    FlatFieldsTypes(v.payload, fields, mem);
    VariantFitsIn(s.variants, [], d);
    PaddedCarries(Arg32(d), args, joined);
    FlatFieldsRoundTrip(v.payload, fields, mem, later, flat, 1);
    Casts(d);
    assert Slot32(flat, 0) == d;
  }

  lemma {:induction false} FlatFieldsRoundTrip(
    vs: seq<Val>, fields: seq<Shape>, mem: Mem, later: seq<byte>, flat: seq<Arg>, cursor: nat)
    requires EachHas(vs, fields) && AllNarrow(vs) && mem.next <= |mem.bytes| < LIMIT
    requires LowerFlatFields(vs, fields, mem).Ok?
    requires Agree(LowerFlatFields(vs, fields, mem).value.1.bytes, later, mem.next, LowerFlatFields(vs, fields, mem).value.1.next)
    requires Carries(flat, cursor, LowerFlatFields(vs, fields, mem).value.0)
    ensures Kept(mem, LowerFlatFields(vs, fields, mem).value.1, 0, 0)
    ensures LiftFlatFields(flat, cursor, fields, later) == Some(Ok(vs))
    decreases vs, 0
  {
    hide LowerFlat, Lift, HasShape, Narrow, Coerced, Carries, Kept;
    if vs == [] {
      KeptNothing(mem, 0, 0);
      assert fields == [];
    } else {
      var (args, between) := LowerFlat(vs[0], fields[0], mem).value;
      var (more, after) := LowerFlatFields(vs[1..], fields[1..], between).value;
      FlatSizeStays(vs[0], fields[0], mem);
      FlatFieldsSizeStays(vs[1..], fields[1..], between);
      CarriesSlice(flat, cursor, args, more);
      AgreeLess(after.bytes, later, mem.next, after.next, between.next, after.next);
      FlatFieldsRoundTrip(vs[1..], fields[1..], between, later, flat, cursor + |args|);
      AgreeBefore(between, after, later, 0, 0, 0, 0, mem.next);
      FlatRoundTrip(vs[0], fields[0], mem, later);
      KeptThen(mem, between, after, 0, 0, 0, 0, 0, 0);
      LiftsField(flat, cursor, fields, later, args, vs);
    }
  }

  lemma LiftsField(flat: seq<Arg>, cursor: nat, fields: seq<Shape>, bytes: seq<byte>, args: seq<Arg>, vs: seq<Val>)
    requires vs != [] && |fields| == |vs| && |args| == |Flat(fields[0])| && cursor + |args| <= |flat|
    requires Coerced(flat[cursor..cursor + |args|], Flat(fields[0])) == args && Lift(args, fields[0], bytes) == Some(Ok(vs[0]))
    requires LiftFlatFields(flat, cursor + |args|, fields[1..], bytes) == Some(Ok(vs[1..]))
    ensures LiftFlatFields(flat, cursor, fields, bytes) == Some(Ok(vs))
  {
    hide Lift, Coerced, Flat;
    Whole(vs);
  }

  // -- what callers see ------------------------------------------------------

  /**
   * Whatever crosses, crosses back: short values as arguments of the flattened types, long
   * ones by the address of where they were laid out, with nothing already there disturbed.
   */
  lemma RoundTrip(v: Val, s: Shape, mem: Mem)
    requires HasShape(v, s) && Narrow(v) && mem.next <= |mem.bytes| < LIMIT
    requires Lower(v, s, mem).Ok?
    ensures var (args, after) := Lower(v, s, mem).value;
      && Kept(mem, after, 0, 0)
      && if |Flat(s)| <= MAX_FLAT then TypesOf(args) == Flat(s) && Lift(args, s, after.bytes) == Some(Ok(v))
         else |args| == 1 && args[0].A32? && args[0].n >= 0 && LiftFromMemory(s, after.bytes, args[0].n) == Ok(v)
  {
    if |Flat(s)| <= MAX_FLAT {
      FlatRoundTrip(v, s, mem, Lower(v, s, mem).value.1.bytes);
    } else {
      var (room, at) := Alloc(mem, Size(s), Align(s)).value;
      var after := LowerToMemory(v, s, room, at).value;
      AlignsUpFor(mem.next, s);
      SizeStays(v, s, room, at);
      MemoryRoundTrip(v, s, room, at, after.bytes);
      Casts(at);
    }
  }
}
