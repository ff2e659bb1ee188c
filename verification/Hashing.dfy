/**
 * The hash emitted for each shape: one running number that takes in a value a word at a time,
 * reading the value the way the comparison reads it. It depends only on the value.
 */
module Hashing {
  import opened Ints
  import opened Wasm
  import opened Types
  import opened Compile
  import opened Heap
  import opened Texts
  import opened Represented

  const BASIS: i64 := 0xcbf2_9ce4_8422_2325 - TWO_64
  const PRIME: int := 0x0000_0100_0000_01b3

  /** Takes in one word: exclusive or, then a wrapping multiplication. */
  function Absorbed(h: i64, word: i64): i64 { Wrap64(Xor64(h, word) * PRIME) }

  function FoldBytes(h: i64, bytes: seq<byte>): i64
    decreases |bytes|
  {
    if bytes == [] then h else FoldBytes(Absorbed(h, bytes[0]), bytes[1..])
  }

  /** How long a text is in characters, and then its bytes. */
  function FoldText(h: i64, text: Text): i64 { FoldBytes(Absorbed(h, AsWord(Characters(text))), text) }

  // -- the order of the fields -----------------------------------------------

  /** Fields of one variant have different names. */
  ghost predicate Distinct(fields: seq<Field>) {
    forall i, j | 0 <= i < j < |fields| :: fields[i].name != fields[j].name
  }

  predicate Below(order: seq<nat>, n: nat) { forall k | 0 <= k < |order| :: order[k] < n }

  /** The first positions of a variant's fields by name: a sort that keeps equal names in order. */
  function InNameOrder(fields: seq<Field>, n: nat): (order: seq<nat>)
    requires n <= |fields|
    ensures |order| == n && Below(order, n)
  {
    if n == 0 then [] else Placed(fields, InNameOrder(fields, n - 1), n - 1)
  }

  function Placed(fields: seq<Field>, order: seq<nat>, p: nat): (placed: seq<nat>)
    requires p < |fields| && Below(order, p)
    ensures |placed| == |order| + 1 && Below(placed, p + 1)
    decreases |order|
  {
    if order == [] || Order(fields[p].name, fields[order[0]].name) < 0 then [p] + order
    else [order[0]] + Placed(fields, order[1..], p)
  }

  // -- what the fold answers -------------------------------------------------

  /** The running hash once a value has been taken in. */
  function Folded(t: seq<Layout>, ty: Ty, h: i64, v: Val): i64
    decreases v, 1
  {
    match v
    case UnitV => Absorbed(h, 0)
    case BoolV(b) => Absorbed(h, if b then 1 else 0)
    case IntV(n) => Absorbed(h, n)
    case HandleV(handle) => Absorbed(h, handle)
    case TextV(text) => FoldText(h, text)
    case ListV(elements) => FoldedList(t, if ty.List? then ty.element else ty, Absorbed(h, AsWord(|elements|)), elements)
    case AggregateV(tag, values) =>
      if HasFields(t, ty, tag, |values|) then
        var variant := t[ty.layout].variants[tag];
        FoldedFields(t, variant.fields, InNameOrder(variant.fields, |values|), Named(t[ty.layout], tag, h), values)
      else h
  }

  predicate HasFields(t: seq<Layout>, ty: Ty, tag: nat, fields: nat) {
    ty.Aggregate? && ty.layout < |t| && tag < |t[ty.layout].variants| && |t[ty.layout].variants[tag].fields| == fields
  }

  /** A choice's variant is named in the hash and a record is not; both say how many fields there are. */
  function Named(layout: Layout, tag: nat, h: i64): i64
    requires tag < |layout.variants|
  {
    var variant := layout.variants[tag];
    Absorbed(if layout.choice then FoldBytes(h, variant.name) else h, AsWord(|variant.fields|))
  }

  function FoldedList(t: seq<Layout>, element: Ty, h: i64, elements: seq<Val>): i64
    decreases elements, 0
  {
    if elements == [] then h else FoldedList(t, element, Folded(t, element, h, elements[0]), elements[1..])
  }

  function FoldedFields(t: seq<Layout>, fields: seq<Field>, order: seq<nat>, h: i64, values: seq<Val>): i64
    requires |values| == |fields| && Below(order, |fields|)
    decreases values, |order|
  {
    if order == [] then h else
      var one := fields[order[0]];
      FoldedFields(t, fields, order[1..], Folded(t, one.ty, FoldBytes(h, one.name), values[order[0]]), values)
  }

  // -- the emitted walks -----------------------------------------------------

  /** A name known when the walk was written: its bytes, one after another. */
  method HashName(h: i64, name: Text) returns (r: i64)
    ensures r == FoldBytes(h, name)
  {
    r := h;
    var i := 0;
    while i < |name|
      invariant i <= |name| && FoldBytes(r, name[i..]) == FoldBytes(h, name)
    {
      assert name[i..][1..] == name[i + 1..];
      r := Absorbed(r, name[i]);
      i := i + 1;
    }
  }

  method HashText(memory: seq<byte>, h: i64, at: nat, ghost text: Text) returns (r: i64)
    requires TextAt(memory, at, text)
    ensures r == FoldText(h, text)
  {
    r := Absorbed(h, WordAt(memory, at));
    var n: nat := WordAt(memory, at + 8);
    var i := 0;
    while i < n
      invariant i <= n && FoldBytes(r, text[i..]) == FoldText(h, text)
    {
      assert text[i..][1..] == text[i + 1..] && memory[at + TEXT + i] == text[i];
      r := Absorbed(r, memory[at + TEXT + i]);
      i := i + 1;
    }
  }

  /** One word of this type taken in: by the text helper, by a walk, or as the word it is. */
  method HashWord(t: seq<Layout>, memory: seq<byte>, ty: Ty, h: i64, word: i64, ghost v: Val) returns (r: i64)
    requires Stands(t, memory, ty, word, v)
    ensures r == Folded(t, ty, h, v)
    decreases v, 2
  {
    if ty.Str? {
      r := HashText(memory, h, word, v.text);
    } else if ty.Aggregate? {
      r := HashAggregate(t, memory, ty.layout, h, word, v);
    } else if ty.List? {
      r := HashList(t, memory, ty.element, h, word, v);
    } else {
      r := Absorbed(h, word);
    }
  }

  /** Whichever variant it turns out to be: its name if it has one, how many fields, and the fields by name. */
  method HashAggregate(t: seq<Layout>, memory: seq<byte>, id: nat, h: i64, word: i64, ghost v: Val) returns (r: i64)
    requires Stands(t, memory, Ty.Aggregate(id), word, v)
    ensures r == Folded(t, Ty.Aggregate(id), h, v)
    decreases v, 1
  {
    hide FieldsStand, Folded, FoldedFields, InNameOrder, FoldBytes, Absorbed, WordAt;
    r := h;
    var layout := t[id];
    AggregateFolds(t, memory, id, h, word, v);
    var index := 0;
    while index < |layout.variants|
      invariant index <= |layout.variants| && r == if v.tag < index then Folded(t, Ty.Aggregate(id), h, v) else h
    {
      if !layout.Tagged() || WordAt(memory, word) == index {
        assert index == v.tag;
        var variant := layout.variants[index];
        if layout.choice {
          r := HashName(r, variant.name);
        }
        r := Absorbed(r, AsWord(|variant.fields|));
        r := HashFields(t, memory, variant.fields, r, word + FieldsAt(layout), v.fields);
      }
      index := index + 1;
    }
  }

  lemma AggregateFolds(t: seq<Layout>, memory: seq<byte>, id: nat, h: i64, word: i64, v: Val)
    requires Stands(t, memory, Ty.Aggregate(id), word, v)
    ensures |v.fields| == |t[id].variants[v.tag].fields|
    ensures
      var fields := t[id].variants[v.tag].fields;
      Folded(t, Ty.Aggregate(id), h, v) == FoldedFields(t, fields, InNameOrder(fields, |fields|), Named(t[id], v.tag, h), v.fields)
  {
    AsManyFields(t, memory, t[id].variants[v.tag].fields, word + FieldsAt(t[id]), v.fields);
  }

  method HashFields(t: seq<Layout>, memory: seq<byte>, fields: seq<Field>, h: i64, at: nat, ghost values: seq<Val>) returns (r: i64)
    requires |values| == |fields| && FieldsStand(t, memory, fields, at, values)
    ensures r == FoldedFields(t, fields, InNameOrder(fields, |fields|), h, values)
    decreases values, 0
  {
    hide Stands, FieldsStand, InNameOrder, FoldBytes, Absorbed, WordAt, Folded;
    r := h;
    var order := InNameOrder(fields, |fields|);
    var i := 0;
    while i < |order|
      invariant i <= |order|
      invariant FoldedFields(t, fields, order[i..], r, values) == FoldedFields(t, fields, order, h, values)
    {
      var p := order[i];
      assert order[i..][1..] == order[i + 1..];
      FieldStands(t, memory, fields, at, values, p);
      r := HashName(r, fields[p].name);
      r := HashWord(t, memory, fields[p].ty, r, WordAt(memory, at + 8 * p), values[p]);
      i := i + 1;
    }
  }

  /** How many elements, and then every element. */
  method HashList(t: seq<Layout>, memory: seq<byte>, element: Ty, h: i64, word: i64, ghost v: Val) returns (r: i64)
    requires Stands(t, memory, Ty.List(element), word, v)
    ensures r == Folded(t, Ty.List(element), h, v)
    decreases v, 1
  {
    hide AllStand, Folded, Absorbed, WordAt;
    r := Absorbed(h, WordAt(memory, word));
    var count: nat := WordAt(memory, word);
    ghost var elements := v.elements;
    ListFolds(t, element, h, v);
    var i := 0;
    while i < count
      invariant i <= count && FoldedList(t, element, r, elements[i..]) == Folded(t, Ty.List(element), h, v)
    {
      ElementStands(t, memory, element, word + 8, elements, i);
      assert elements[i..][1..] == elements[i + 1..];
      r := HashWord(t, memory, element, r, WordAt(memory, word + 8 + 8 * i), elements[i]);
      i := i + 1;
    }
  }

  lemma ListFolds(t: seq<Layout>, element: Ty, h: i64, v: Val)
    requires v.ListV?
    ensures Folded(t, Ty.List(element), h, v) == FoldedList(t, element, Absorbed(h, AsWord(|v.elements|)), v.elements)
  {
  }

  /** What a call of `hash` compiles to. A value with no representation leaves the fold where it starts. */
  method Hash(t: seq<Layout>, memory: seq<byte>, ty: Ty, word: i64, ghost v: Val) returns (r: i64)
    requires Stands(t, memory, ty, word, v)
    ensures r == if ty.Unit? then BASIS else Folded(t, ty, BASIS, v)
  {
    if ty.Unit? {
      return BASIS;
    }
    r := HashWord(t, memory, ty, BASIS, word, v);
  }

  // -- what it depends on ----------------------------------------------------

  /** A word stands for at most one value, so what it stands for is read off memory alone. */
  lemma {:induction false} StandsForOne(t: seq<Layout>, memory: seq<byte>, ty: Ty, word: i64, v: Val, w: Val)
    requires Stands(t, memory, ty, word, v) && Stands(t, memory, ty, word, w)
    ensures v == w
    decreases v, 1
  {
    if ty.List? {
      ElementsForOne(t, memory, ty.element, word + 8, v.elements, w.elements);
    } else if ty.Aggregate? {
      FieldsForOne(t, memory, t[ty.layout].variants[v.tag].fields, word + FieldsAt(t[ty.layout]), v.fields, w.fields);
    }
  }

  lemma {:induction false} ElementsForOne(t: seq<Layout>, memory: seq<byte>, element: Ty, at: nat, vs: seq<Val>, ws: seq<Val>)
    requires AllStand(t, memory, element, at, vs) && AllStand(t, memory, element, at, ws) && |vs| == |ws|
    ensures vs == ws
    decreases vs, 0
  {
    if vs != [] {
      StandsForOne(t, memory, element, WordAt(memory, at), vs[0], ws[0]);
      ElementsForOne(t, memory, element, at + 8, vs[1..], ws[1..]);
      assert vs == [vs[0]] + vs[1..] && ws == [ws[0]] + ws[1..];
    }
  }

  lemma {:induction false} FieldsForOne(t: seq<Layout>, memory: seq<byte>, fields: seq<Field>, at: nat, vs: seq<Val>, ws: seq<Val>)
    requires FieldsStand(t, memory, fields, at, vs) && FieldsStand(t, memory, fields, at, ws)
    ensures vs == ws
    decreases vs, 0
  {
    if vs != [] {
      StandsForOne(t, memory, fields[0].ty, WordAt(memory, at), vs[0], ws[0]);
      FieldsForOne(t, memory, fields[1..], at + 8, vs[1..], ws[1..]);
      assert vs == [vs[0]] + vs[1..] && ws == [ws[0]] + ws[1..];
    }
  }
}
