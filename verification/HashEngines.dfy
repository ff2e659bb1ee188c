/**
 * The same value hashed by the interpreter, which holds fields in a tree ordered by name and
 * keeps a result apart from every other choice. Where the two engines agree, and where not.
 */
module HashEngines {
  import opened Ints
  import opened Wasm
  import opened Types
  import opened Compile
  import opened Heap
  import opened Texts
  import opened Represented
  import opened Equality
  import opened Hashing

  /** A value as the interpreter holds it. */
  datatype Value =
    | Nothing
    | Number(n: i64)
    | Truth(b: bool)
    | Words(text: Text)
    | Listed(elements: seq<Value>)
    | Record(fields: seq<Entry>)
    | Variant(name: Text, fields: seq<Entry>)
    | Result(ok: bool, held: Value)
    | Authority

  /** A named field. A sequence of these sorted by name is what a tree of fields visits. */
  datatype Entry = Entry(name: Text, held: Value)

  /** Puts a field in its place by name, over one of the same name. */
  function Inserted(one: Entry, tree: seq<Entry>): seq<Entry>
    decreases |tree|
  {
    if tree == [] || Order(one.name, tree[0].name) < 0 then [one] + tree
    else if one.name == tree[0].name then [one] + tree[1..]
    else [tree[0]] + Inserted(one, tree[1..])
  }

  // -- the interpreter's hash ------------------------------------------------

  /** Takes a value in, or says there is nothing to read. */
  function Absorb(h: i64, value: Value): Option<i64>
    decreases value, 1
  {
    match value
    case Nothing => Some(Absorbed(h, 0))
    case Number(n) => Some(Absorbed(h, n))
    case Truth(b) => Some(Absorbed(h, if b then 1 else 0))
    case Words(text) => Some(FoldText(h, text))
    case Listed(elements) => AbsorbAll(Absorbed(h, AsWord(|elements|)), elements)
    case Record(fields) => AbsorbFields(Absorbed(h, AsWord(|fields|)), fields)
    case Variant(name, fields) => AbsorbFields(Absorbed(FoldBytes(h, name), AsWord(|fields|)), fields)
    case Result(ok, held) => Absorb(Absorbed(h, if ok then 1 else 0), held)
    case Authority => None
  }

  function AbsorbAll(h: i64, elements: seq<Value>): Option<i64>
    decreases elements, 0
  {
    if elements == [] then Some(h) else
      match Absorb(h, elements[0])
      case Some(g) => AbsorbAll(g, elements[1..])
      case None => None
  }

  function AbsorbFields(h: i64, fields: seq<Entry>): Option<i64>
    decreases fields, 0
  {
    if fields == [] then Some(h) else
      match Absorb(FoldBytes(h, fields[0].name), fields[0].held)
      case Some(g) => AbsorbFields(g, fields[1..])
      case None => None
  }

  // -- one value, both ways --------------------------------------------------

  const OK: Text := [111, 107]
  const ERR: Text := [101, 114, 114]
  const VALUE: Text := [118, 97, 108, 117, 101]

  /** The layout built for a result: `ok` and then `err`, each with one field called `value`. */
  predicate ResultLayout(layout: Layout) {
    && layout.choice && |layout.variants| == 2
    && layout.variants[0].name == OK && Single(layout.variants[0].fields)
    && layout.variants[1].name == ERR && Single(layout.variants[1].fields)
  }

  predicate Single(fields: seq<Field>) { |fields| == 1 && fields[0].name == VALUE }

  ghost predicate AllDistinct(t: seq<Layout>) {
    forall id, tag | 0 <= id < |t| && 0 <= tag < |t[id].variants| :: Distinct(t[id].variants[tag].fields)
  }

  /** A value of this type, every layout it goes through having what it uses. */
  ghost predicate Shaped(t: seq<Layout>, ty: Ty, v: Val)
    decreases v, 1
  {
    match v
    case ListV(elements) => ty.List? && AllShaped(t, ty.element, elements)
    case AggregateV(tag, values) => HasFields(t, ty, tag, |values|) && FieldsShaped(t, t[ty.layout].variants[tag].fields, values)
    case _ => true
  }

  ghost predicate AllShaped(t: seq<Layout>, element: Ty, vs: seq<Val>)
    decreases vs, 0
  {
    forall i | 0 <= i < |vs| :: Shaped(t, element, vs[i])
  }

  ghost predicate FieldsShaped(t: seq<Layout>, fields: seq<Field>, vs: seq<Val>)
    requires |vs| == |fields|
    decreases vs, 0
  {
    forall i | 0 <= i < |vs| :: Shaped(t, fields[i].ty, vs[i])
  }

  /** What a represented value is to the interpreter. */
  function Meaning(t: seq<Layout>, ty: Ty, v: Val): Value
    decreases v, 1
  {
    match v
    case UnitV => Nothing
    case BoolV(b) => Truth(b)
    case IntV(n) => Number(n)
    case HandleV(_) => Authority
    case TextV(text) => Words(text)
    case ListV(elements) => Listed(Meanings(t, if ty.List? then ty.element else ty, elements))
    case AggregateV(tag, values) =>
      if !HasFields(t, ty, tag, |values|) then Nothing else
        var layout := t[ty.layout];
        var fields := layout.variants[tag].fields;
        if ResultLayout(layout) then Result(tag == 0, Meaning(t, fields[0].ty, values[0]))
        else if layout.choice then Value.Variant(layout.variants[tag].name, Tree(t, fields, values, |fields|))
        else Record(Tree(t, fields, values, |fields|))
  }

  function Meanings(t: seq<Layout>, element: Ty, vs: seq<Val>): (values: seq<Value>)
    ensures |values| == |vs|
    decreases vs, 0
  {
    if vs == [] then [] else [Meaning(t, element, vs[0])] + Meanings(t, element, vs[1..])
  }

  /** The fields put in one at a time as they were declared. */
  function Tree(t: seq<Layout>, fields: seq<Field>, vs: seq<Val>, n: nat): seq<Entry>
    requires |fields| == |vs| && n <= |vs|
    decreases vs, n
  {
    if n == 0 then [] else
      Inserted(Entry(fields[n - 1].name, Meaning(t, fields[n - 1].ty, vs[n - 1])), Tree(t, fields, vs, n - 1))
  }

  /** How many results a value has in it. */
  function Results(value: Value): nat
    decreases value, 1
  {
    match value
    case Listed(elements) => ResultsAmong(elements)
    case Record(fields) => ResultsInFields(fields)
    case Variant(_, fields) => ResultsInFields(fields)
    case Result(_, held) => 1 + Results(held)
    case _ => 0
  }

  function ResultsAmong(elements: seq<Value>): nat
    decreases elements, 0
  {
    if elements == [] then 0 else Results(elements[0]) + ResultsAmong(elements[1..])
  }

  function ResultsInFields(fields: seq<Entry>): nat
    decreases fields, 0
  {
    if fields == [] then 0 else Results(fields[0].held) + ResultsInFields(fields[1..])
  }

  // -- the order of the fields -----------------------------------------------

  /** The fields at these positions, as the interpreter holds them. */
  function Lined(t: seq<Layout>, fields: seq<Field>, vs: seq<Val>, order: seq<nat>): (entries: seq<Entry>)
    requires |fields| == |vs| && Below(order, |fields|)
    ensures |entries| == |order|
    decreases |order|
  {
    if order == [] then [] else
      [Entry(fields[order[0]].name, Meaning(t, fields[order[0]].ty, vs[order[0]]))] + Lined(t, fields, vs, order[1..])
  }

  /** Sorting positions by name and keeping a tree by name put fields with different names in the same order. */
  lemma {:induction false} TreeIsSorted(t: seq<Layout>, fields: seq<Field>, vs: seq<Val>, n: nat)
    requires |fields| == |vs| && n <= |vs| && Distinct(fields)
    ensures Tree(t, fields, vs, n) == Lined(t, fields, vs, InNameOrder(fields, n))
    decreases n
  {
    if n > 0 {
      TreeIsSorted(t, fields, vs, n - 1);
      InsertedIsPlaced(t, fields, vs, InNameOrder(fields, n - 1), n - 1);
    }
  }

  lemma {:induction false} InsertedIsPlaced(t: seq<Layout>, fields: seq<Field>, vs: seq<Val>, order: seq<nat>, p: nat)
    requires |fields| == |vs| && p < |vs| && Below(order, p) && Distinct(fields)
    ensures
      Inserted(Entry(fields[p].name, Meaning(t, fields[p].ty, vs[p])), Lined(t, fields, vs, order))
        == Lined(t, fields, vs, Placed(fields, order, p))
    decreases |order|
  {
    hide Meaning;
    if order != [] {
      InsertedIsPlaced(t, fields, vs, order[1..], p);
    }
  }

  // -- parity ----------------------------------------------------------------

  /** The lowest bit. */
  predicate Odd(x: int) { x % 2 != 0 }

  lemma EvenAdded(x: int, k: int)
    ensures Odd(x + 2 * k) == Odd(x)
  {
  }

  /** The multiplier is odd, so a step adds the lowest bits. */
  lemma StepParity(h: i64, word: i64)
    ensures Odd(Absorbed(h, word)) <==> Odd(h) != Odd(word)
  {
    hide Odd, Wrap64, Xor64;
    var x := Xor64(h, word);
    XorParity(h, word);
    EvenAdded(x, x * 0x80_0000_00d9);
    WrapParity(x * PRIME);
  }

  lemma WrapParity(x: int)
    ensures Odd(Wrap64(x)) == Odd(x)
  {
    hide Odd;
    if !(MIN_64 <= x <= MAX_64) {
      AroundParity(x);
    }
  }

  lemma AroundParity(x: int)
    ensures Odd(Around64(x)) == Odd(x)
  {
    hide Odd;
    var turns := (x - MIN_64) / TWO_64;
    assert Around64(x) == x + 2 * (turns * -0x8000_0000_0000_0000);
    EvenAdded(x, turns * -0x8000_0000_0000_0000);
  }

  /** A word and its unsigned form have the same lowest bit. */
  function Unsigned(a: i64): (x: nat)
    ensures Odd(x) == Odd(a)
  {
    EvenAdded(a, 0x8000_0000_0000_0000);
    if a >= 0 then a else a + TWO_64
  }

  lemma XorParity(a: i64, b: i64)
    ensures Odd(Xor64(a, b)) <==> Odd(a) != Odd(b)
  {
    hide Wrap64;
    var bits := XorBits(Unsigned(a), Unsigned(b), 64);
    BitsParity(Unsigned(a), Unsigned(b), 63);
    WrapParity(bits);
  }

  lemma BitsParity(x: nat, y: nat, width: nat)
    ensures Odd(XorBits(x, y, width + 1)) <==> Odd(x) != Odd(y)
  {
    EvenAdded((x % 2 + y % 2) % 2, XorBits(x / 2, y / 2, width));
  }

  lemma {:induction false} BytesParity(h: i64, g: i64, bytes: seq<byte>)
    ensures (Odd(FoldBytes(h, bytes)) != Odd(FoldBytes(g, bytes))) == (Odd(h) != Odd(g))
    decreases |bytes|
  {
    hide Odd, Absorbed;
    if bytes != [] {
      StepParity(h, bytes[0]);
      StepParity(g, bytes[0]);
      BytesParity(Absorbed(h, bytes[0]), Absorbed(g, bytes[0]), bytes[1..]);
    }
  }

  // -- a step loses nothing --------------------------------------------------

  /** What undoes the multiplier, in 64 bits. */
  const UNDO: int := 0xce96_5057_aff6_957b

  /** How often a product went round. */
  function Rounds(x: int): (rounds: int)
    ensures x == Wrap64(x) + TWO_64 * rounds
  {
    if MIN_64 <= x <= MAX_64 then 0 else (x - MIN_64) / TWO_64
  }

  lemma MultiplyingApart(x: i64, y: i64)
    requires Wrap64(x * PRIME) == Wrap64(y * PRIME)
    ensures x == y
  {
    hide Wrap64;
    Undone(x - y, Rounds(x * PRIME) - Rounds(y * PRIME));
  }

  lemma Undone(d: int, rounds: int)
    requires d * PRIME == TWO_64 * rounds && -TWO_64 < d < TWO_64
    ensures d == 0
  {
    assert PRIME * UNDO == 1 + TWO_64 * 887285111055;
    assert d * PRIME * UNDO == TWO_64 * rounds * UNDO;
    assert d == TWO_64 * (rounds * UNDO - 887285111055 * d);
  }

  function Pow2(width: nat): nat { if width == 0 then 1 else 2 * Pow2(width - 1) }

  lemma {:induction false} BitsApart(x: nat, y: nat, z: nat, width: nat)
    requires XorBits(x, z, width) == XorBits(y, z, width) && x < Pow2(width) && y < Pow2(width)
    ensures x == y
    decreases width
  {
    if width > 0 {
      var one, two := XorBits(x / 2, z / 2, width - 1), XorBits(y / 2, z / 2, width - 1);
      assert (x % 2 + z % 2) % 2 + 2 * one == (y % 2 + z % 2) % 2 + 2 * two;
      assert one == two && x % 2 == y % 2;
      BitsApart(x / 2, y / 2, z / 2, width - 1);
    }
  }

  lemma {:induction false} BitsBelow(x: nat, z: nat, width: nat)
    ensures XorBits(x, z, width) < Pow2(width)
    decreases width
  {
    if width > 0 {
      BitsBelow(x / 2, z / 2, width - 1);
    }
  }

  lemma Pow64()
    ensures Pow2(64) == TWO_64
  {
    assert Pow2(16) == 0x1_0000 by {
      assert Pow2(8) == 0x100;
    }
    PowAdds(16, 16);
    PowAdds(32, 32);
  }

  lemma {:induction false} PowAdds(a: nat, b: nat)
    ensures Pow2(a + b) == Pow2(a) * Pow2(b)
    decreases a
  {
    if a > 0 {
      PowAdds(a - 1, b);
    }
  }

  lemma XorApart(h: i64, g: i64, word: i64)
    requires Xor64(h, word) == Xor64(g, word)
    ensures h == g
  {
    hide Wrap64, XorBits, Pow2;
    var x, y, z := Unsigned(h), Unsigned(g), Unsigned(word);
    Pow64();
    BitsBelow(x, z, 64);
    BitsBelow(y, z, 64);
    WrapsApart(XorBits(x, z, 64), XorBits(y, z, 64));
    BitsApart(x, y, z, 64);
  }

  lemma WrapsApart(a: nat, b: nat)
    requires a < TWO_64 && b < TWO_64 && Wrap64(a) == Wrap64(b)
    ensures a == b
  {
    hide Wrap64;
    assert a - b == TWO_64 * (Rounds(a) - Rounds(b));
  }

  /** Running hashes that differ still differ after the same word. */
  lemma AbsorbedApart(h: i64, g: i64, word: i64)
    ensures Absorbed(h, word) == Absorbed(g, word) <==> h == g
  {
    hide Xor64, Wrap64;
    if Absorbed(h, word) == Absorbed(g, word) {
      MultiplyingApart(Xor64(h, word), Xor64(g, word));
      XorApart(h, g, word);
    }
  }

  lemma {:induction false} BytesApart(h: i64, g: i64, bytes: seq<byte>)
    ensures FoldBytes(h, bytes) == FoldBytes(g, bytes) <==> h == g
    decreases |bytes|
  {
    hide Absorbed;
    if bytes != [] {
      AbsorbedApart(h, g, bytes[0]);
      BytesApart(Absorbed(h, bytes[0]), Absorbed(g, bytes[0]), bytes[1..]);
    }
  }

  // -- the last result -------------------------------------------------------

  /** Two running hashes, the compiled one and the interpreter's. */
  datatype Hashes = Hashes(compiled: i64, interpreted: i64)

  function Later(first: Option<Hashes>, second: Option<Hashes>): Option<Hashes> { if second.Some? then second else first }

  /** Both running hashes as the two engines go into the last result in a value, if it has one. */
  function LastResult(t: seq<Layout>, ty: Ty, v: Val, h: i64, g: i64): Option<Hashes>
    decreases v, 1
  {
    match v
    case ListV(elements) =>
      LastAmong(t, if ty.List? then ty.element else ty, elements, Absorbed(h, AsWord(|elements|)), Absorbed(g, AsWord(|elements|)))
    case AggregateV(tag, values) =>
      if !HasFields(t, ty, tag, |values|) then None
      else if ResultLayout(t[ty.layout]) then LastHeld(t, t[ty.layout].variants[tag].fields[0].ty, values[0], Into(tag == 0, h, g))
      else LastInFields(t, t[ty.layout].variants[tag].fields, InNameOrder(t[ty.layout].variants[tag].fields, |values|), values,
                        Named(t[ty.layout], tag, h), Named(t[ty.layout], tag, g))
    case _ => None
  }

  /** Both running hashes going into a result. */
  function Into(ok: bool, h: i64, g: i64): Hashes { Hashes(ResultStart(h, ok), Absorbed(g, if ok then 1 else 0)) }

  function LastHeld(t: seq<Layout>, ty: Ty, v: Val, here: Hashes): Option<Hashes>
    decreases v, 2
  {
    Later(Some(here), LastResult(t, ty, v, here.compiled, here.interpreted))
  }

  function LastAmong(t: seq<Layout>, element: Ty, vs: seq<Val>, h: i64, g: i64): Option<Hashes>
    decreases vs, 0
  {
    if vs == [] then None
    else
      match Absorb(g, Meaning(t, element, vs[0]))
      case Some(b) =>
        Later(LastResult(t, element, vs[0], h, g), LastAmong(t, element, vs[1..], Folded(t, element, h, vs[0]), b))
      case None => None
  }

  function LastInFields(t: seq<Layout>, fields: seq<Field>, order: seq<nat>, vs: seq<Val>, h: i64, g: i64): Option<Hashes>
    requires |vs| == |fields| && Below(order, |fields|)
    decreases vs, |order|
  {
    if order == [] then None
    else
      var one, v := fields[order[0]], vs[order[0]];
      var h1, g1 := FoldBytes(h, one.name), FoldBytes(g, one.name);
      match Absorb(g1, Meaning(t, one.ty, v))
      case Some(b) =>
        Later(LastResult(t, one.ty, v, h1, g1), LastInFields(t, fields, order[1..], vs, Folded(t, one.ty, h1, v), b))
      case None => None
  }

  // -- the two walks together ------------------------------------------------

  /**
   * From these two running hashes to these two: alike exactly when they were alike going into the
   * last result there was, or from the beginning when there was none; and apart in the lowest bit
   * once more for every result.
   */
  ghost predicate Apace(h: i64, g: i64, a: i64, r: Option<i64>, results: nat, last: Option<Hashes>) {
    r.Some? ==>
      && (a == r.value <==> if last.Some? then last.value.compiled == last.value.interpreted else h == g)
      && (results == 0 <==> last.None?)
      && ((Odd(a) != Odd(r.value)) <==> ((Odd(h) != Odd(g)) != Odd(results)))
  }

  lemma ApaceThen(
    h: i64, g: i64, a: i64, b: i64, c: i64, r: Option<i64>, m: nat, n: nat, one: Option<Hashes>, two: Option<Hashes>)
    requires Apace(h, g, a, Some(b), m, one) && Apace(a, b, c, r, n, two)
    ensures Apace(h, g, c, r, m + n, Later(one, two))
  {
    assert Odd(m + n) <==> Odd(m) != Odd(n);
    hide Odd;
  }

  lemma WordApace(h: i64, g: i64, word: i64)
    ensures Apace(h, g, Absorbed(h, word), Some(Absorbed(g, word)), 0, None)
  {
    assert !Odd(0);
    hide Odd, Absorbed;
    StepParity(h, word);
    StepParity(g, word);
    AbsorbedApart(h, g, word);
  }

  lemma BytesApace(h: i64, g: i64, bytes: seq<byte>)
    ensures Apace(h, g, FoldBytes(h, bytes), Some(FoldBytes(g, bytes)), 0, None)
  {
    assert !Odd(0);
    hide Odd, FoldBytes;
    BytesParity(h, g, bytes);
    BytesApart(h, g, bytes);
  }

  /** Both engines taking in one value: the emitted fold, and the interpreter's on what the value means to it. */
  lemma {:induction false} ValueApace(t: seq<Layout>, ty: Ty, v: Val, h: i64, g: i64)
    requires Shaped(t, ty, v) && AllDistinct(t)
    ensures Apace(h, g, Folded(t, ty, h, v), Absorb(g, Meaning(t, ty, v)), Results(Meaning(t, ty, v)), LastResult(t, ty, v, h, g))
    decreases v, 1
  {
    hide Apace, Absorbed, FoldBytes, Meanings, Tree, ResultLayout, LastAmong, LastInFields, ResultStart;
    match v
    case UnitV => WordApace(h, g, 0);
    case BoolV(b) => WordApace(h, g, if b then 1 else 0);
    case IntV(n) => WordApace(h, g, n);
    case HandleV(_) => NothingApace(h, g, Folded(t, ty, h, v), Results(Meaning(t, ty, v)), LastResult(t, ty, v, h, g));
    case TextV(text) =>
      var n := AsWord(Characters(text));
      WordApace(h, g, n);
      BytesApace(Absorbed(h, n), Absorbed(g, n), text);
      ApaceThen(h, g, Absorbed(h, n), Absorbed(g, n), FoldText(h, text), Some(FoldText(g, text)), 0, 0, None, None);
    case ListV(elements) =>
      var n := AsWord(|elements|);
      var h1, g1 := Absorbed(h, n), Absorbed(g, n);
      WordApace(h, g, n);
      ElementsApace(t, ty.element, elements, h1, g1);
      ApaceThen(h, g, h1, g1, FoldedList(t, ty.element, h1, elements), AbsorbAll(g1, Meanings(t, ty.element, elements)),
        0, ResultsAmong(Meanings(t, ty.element, elements)), None, LastAmong(t, ty.element, elements, h1, g1));
    case AggregateV(tag, values) =>
      if ResultLayout(t[ty.layout]) {
        ResultApace(t, ty, v, h, g);
      } else {
        AggregateApace(t, ty, v, h, g);
      }
  }

  lemma NothingApace(h: i64, g: i64, a: i64, results: nat, last: Option<Hashes>)
    ensures Apace(h, g, a, None, results, last)
  {
  }

  lemma {:induction false} ElementsApace(t: seq<Layout>, element: Ty, vs: seq<Val>, h: i64, g: i64)
    requires AllShaped(t, element, vs) && AllDistinct(t)
    ensures
      var held := Meanings(t, element, vs);
      Apace(h, g, FoldedList(t, element, h, vs), AbsorbAll(g, held), ResultsAmong(held), LastAmong(t, element, vs, h, g))
    decreases vs, 0
  {
    hide Apace, Folded, Meaning, Meanings, FoldedList, AbsorbAll, ResultsAmong, Absorb, Results, LastAmong, LastResult;
    ListsUnfold(t, element, vs, h, g);
    if vs == [] {
      HereApace(h);
    } else {
      var held, rest := Meaning(t, element, vs[0]), Meanings(t, element, vs[1..]);
      var a, b := Folded(t, element, h, vs[0]), Absorb(g, held);
      FirstShaped(t, element, vs);
      ValueApace(t, element, vs[0], h, g);
      if b.None? {
        NothingApace(h, g, FoldedList(t, element, h, vs), ResultsAmong(Meanings(t, element, vs)), LastAmong(t, element, vs, h, g));
      } else {
        ElementsApace(t, element, vs[1..], a, b.value);
        ApaceThen(h, g, a, b.value, FoldedList(t, element, a, vs[1..]), AbsorbAll(b.value, rest),
          Results(held), ResultsAmong(rest), LastResult(t, element, vs[0], h, g), LastAmong(t, element, vs[1..], a, b.value));
      }
    }
  }

  lemma HereApace(h: i64)
    ensures forall g :: Apace(h, g, h, Some(g), 0, None)
  {
  }

  lemma FirstShaped(t: seq<Layout>, element: Ty, vs: seq<Val>)
    requires AllShaped(t, element, vs) && vs != []
    ensures Shaped(t, element, vs[0]) && AllShaped(t, element, vs[1..])
  {
  }

  /** One turn of each walk over a list. */
  lemma ListsUnfold(t: seq<Layout>, element: Ty, vs: seq<Val>, h: i64, g: i64)
    ensures vs == [] ==>
      && FoldedList(t, element, h, vs) == h && AbsorbAll(g, Meanings(t, element, vs)) == Some(g)
      && ResultsAmong(Meanings(t, element, vs)) == 0 && LastAmong(t, element, vs, h, g) == None
    ensures vs != [] ==>
      var held := Meaning(t, element, vs[0]);
      && FoldedList(t, element, h, vs) == FoldedList(t, element, Folded(t, element, h, vs[0]), vs[1..])
      && ResultsAmong(Meanings(t, element, vs)) == Results(held) + ResultsAmong(Meanings(t, element, vs[1..]))
      && AbsorbAll(g, Meanings(t, element, vs)) ==
           (match Absorb(g, held) case Some(b) => AbsorbAll(b, Meanings(t, element, vs[1..])) case None => None)
      && (Absorb(g, held).Some? ==>
            LastAmong(t, element, vs, h, g) == Later(
              LastResult(t, element, vs[0], h, g),
              LastAmong(t, element, vs[1..], Folded(t, element, h, vs[0]), Absorb(g, held).value)))
  {
    hide Meaning, Folded, Absorb, Results, LastResult;
    if vs != [] {
      assert Meanings(t, element, vs)[1..] == Meanings(t, element, vs[1..]);
    }
  }

  /** Fields one at a time, each after its name. */
  lemma {:induction false} FieldsApace(t: seq<Layout>, fields: seq<Field>, order: seq<nat>, vs: seq<Val>, h: i64, g: i64)
    requires |vs| == |fields| && Below(order, |fields|) && FieldsShaped(t, fields, vs) && AllDistinct(t)
    ensures
      var entries := Lined(t, fields, vs, order);
      Apace(h, g, FoldedFields(t, fields, order, h, vs), AbsorbFields(g, entries), ResultsInFields(entries),
        LastInFields(t, fields, order, vs, h, g))
    decreases vs, |order|
  {
    hide Apace, Shaped, Folded, Meaning, FoldBytes, FoldedFields, AbsorbFields, ResultsInFields, Lined, Absorb, Results,
         LastInFields, LastResult;
    FieldsUnfold(t, fields, order, vs, h, g);
    if order == [] {
      HereApace(h);
    } else {
      var one, p := fields[order[0]], order[0];
      var h1, g1 := FoldBytes(h, one.name), FoldBytes(g, one.name);
      var held, rest := Meaning(t, one.ty, vs[p]), Lined(t, fields, vs, order[1..]);
      var a, b := Folded(t, one.ty, h1, vs[p]), Absorb(g1, held);
      BytesApace(h, g, one.name);
      ValueApace(t, one.ty, vs[p], h1, g1);
      if b.None? {
        NothingApace(h, g, FoldedFields(t, fields, order, h, vs), ResultsInFields(Lined(t, fields, vs, order)),
          LastInFields(t, fields, order, vs, h, g));
      } else {
        ApaceThen(h, g, h1, g1, a, b, 0, Results(held), None, LastResult(t, one.ty, vs[p], h1, g1));
        FieldsApace(t, fields, order[1..], vs, a, b.value);
        ApaceThen(h, g, a, b.value, FoldedFields(t, fields, order[1..], a, vs), AbsorbFields(b.value, rest),
          Results(held), ResultsInFields(rest),
          LastResult(t, one.ty, vs[p], h1, g1), LastInFields(t, fields, order[1..], vs, a, b.value));
      }
    }
  }

  /** One turn of each walk over fields. */
  lemma FieldsUnfold(t: seq<Layout>, fields: seq<Field>, order: seq<nat>, vs: seq<Val>, h: i64, g: i64)
    requires |vs| == |fields| && Below(order, |fields|)
    ensures order == [] ==>
      var entries := Lined(t, fields, vs, order);
      && FoldedFields(t, fields, order, h, vs) == h && AbsorbFields(g, entries) == Some(g)
      && ResultsInFields(entries) == 0 && LastInFields(t, fields, order, vs, h, g) == None
    ensures order != [] ==>
      var one, p := fields[order[0]], order[0];
      var held, rest := Meaning(t, one.ty, vs[p]), Lined(t, fields, vs, order[1..]);
      var h1, g1 := FoldBytes(h, one.name), FoldBytes(g, one.name);
      && FoldedFields(t, fields, order, h, vs) == FoldedFields(t, fields, order[1..], Folded(t, one.ty, h1, vs[p]), vs)
      && ResultsInFields(Lined(t, fields, vs, order)) == Results(held) + ResultsInFields(rest)
      && AbsorbFields(g, Lined(t, fields, vs, order)) ==
           (match Absorb(g1, held) case Some(b) => AbsorbFields(b, rest) case None => None)
      && (Absorb(g1, held).Some? ==>
            LastInFields(t, fields, order, vs, h, g) == Later(
              LastResult(t, one.ty, vs[p], h1, g1),
              LastInFields(t, fields, order[1..], vs, Folded(t, one.ty, h1, vs[p]), Absorb(g1, held).value)))
  {
    hide Meaning, Folded, Absorb, Results, FoldBytes, LastResult;
    if order != [] {
      assert Lined(t, fields, vs, order)[1..] == Lined(t, fields, vs, order[1..]);
    }
  }

  /** A record, or a choice that is not a result: its name, how many fields, and the fields. */
  lemma {:induction false} AggregateApace(t: seq<Layout>, ty: Ty, v: Val, h: i64, g: i64)
    requires v.AggregateV? && Shaped(t, ty, v) && AllDistinct(t) && !ResultLayout(t[ty.layout])
    ensures Apace(h, g, Folded(t, ty, h, v), Absorb(g, Meaning(t, ty, v)), Results(Meaning(t, ty, v)), LastResult(t, ty, v, h, g))
    decreases v, 0
  {
    hide Apace, Absorbed, FoldBytes, Shaped, FieldsShaped, FoldedFields, AbsorbFields, ResultsInFields, Lined, ResultLayout,
         Distinct, InNameOrder, LastInFields;
    FieldsOf(t, ty, v);
    var layout := t[ty.layout];
    var variant, values := layout.variants[v.tag], v.fields;
    var fields := variant.fields;
    var h1 := if layout.choice then FoldBytes(h, variant.name) else h;
    var g1 := if layout.choice then FoldBytes(g, variant.name) else g;
    assert Apace(h, g, h1, Some(g1), 0, None) by {
      BytesApace(h, g, if layout.choice then variant.name else []);
      NoBytes(h);
      NoBytes(g);
    }
    var n := AsWord(|fields|);
    var h2, g2 := Absorbed(h1, n), Absorbed(g1, n);
    WordApace(h1, g1, n);
    ApaceThen(h, g, h1, g1, h2, Some(g2), 0, 0, None, None);
    TreeIsSorted(t, fields, values, |fields|);
    var order := InNameOrder(fields, |fields|);
    FieldsApace(t, fields, order, values, h2, g2);
    var entries := Lined(t, fields, values, order);
    ApaceThen(h, g, h2, g2, FoldedFields(t, fields, order, h2, values),
      AbsorbFields(g2, entries), 0, ResultsInFields(entries), None, LastInFields(t, fields, order, values, h2, g2));
  }

  lemma FieldsOf(t: seq<Layout>, ty: Ty, v: Val)
    requires v.AggregateV? && Shaped(t, ty, v) && AllDistinct(t)
    ensures HasFields(t, ty, v.tag, |v.fields|)
    ensures FieldsShaped(t, t[ty.layout].variants[v.tag].fields, v.fields) && Distinct(t[ty.layout].variants[v.tag].fields)
  {
  }

  lemma NoBytes(h: i64)
    ensures FoldBytes(h, []) == h
  {
  }

  /** A result: the name of its variant, one field and that field's name, against a single word. */
  lemma {:induction false} ResultApace(t: seq<Layout>, ty: Ty, v: Val, h: i64, g: i64)
    requires v.AggregateV? && Shaped(t, ty, v) && AllDistinct(t) && ResultLayout(t[ty.layout])
    ensures Apace(h, g, Folded(t, ty, h, v), Absorb(g, Meaning(t, ty, v)), Results(Meaning(t, ty, v)), LastResult(t, ty, v, h, g))
    decreases v, 0
  {
    hide Absorbed, FoldBytes, Shaped, Folded, Apace, ResultStart;
    FieldsOf(t, ty, v);
    var fields := t[ty.layout].variants[v.tag].fields;
    var held := Meaning(t, fields[0].ty, v.fields[0]);
    var h1 := ResultStart(h, v.tag == 0);
    var g1 := Absorbed(g, if v.tag == 0 then 1 else 0);
    var here := Some(Hashes(h1, g1));
    ResultFolds(t, ty, v, h);
    ValueApace(t, fields[0].ty, v.fields[0], h1, g1);
    ResultStartApace(h, g, v.tag == 0);
    ApaceThen(h, g, h1, g1, Folded(t, fields[0].ty, h1, v.fields[0]), Absorb(g1, held), 1, Results(held),
      here, LastResult(t, fields[0].ty, v.fields[0], h1, g1));
  }

  /** What the emitted fold takes in before what a result holds. */
  function ResultStart(h: i64, ok: bool): i64 {
    FoldBytes(Absorbed(FoldBytes(h, if ok then OK else ERR), 1), VALUE)
  }

  lemma ResultFolds(t: seq<Layout>, ty: Ty, v: Val, h: i64)
    requires v.AggregateV? && HasFields(t, ty, v.tag, |v.fields|) && ResultLayout(t[ty.layout])
    ensures
      Folded(t, ty, h, v)
        == Folded(t, t[ty.layout].variants[v.tag].fields[0].ty, ResultStart(h, v.tag == 0), v.fields[0])
  {
    hide Absorbed, FoldBytes;
    var fields := t[ty.layout].variants[v.tag].fields;
    assert InNameOrder(fields, 1) == [0] by {
      assert InNameOrder(fields, 0) == [];
    }
    var start := Named(t[ty.layout], v.tag, h);
    assert FoldedFields(t, fields, [0], start, v.fields) == Folded(t, fields[0].ty, FoldBytes(start, VALUE), v.fields[0]);
  }

  lemma ResultStartApace(h: i64, g: i64, ok: bool)
    ensures
      var h1, g1 := ResultStart(h, ok), Absorbed(g, if ok then 1 else 0);
      Apace(h, g, h1, Some(g1), 1, Some(Hashes(h1, g1)))
  {
    hide Absorbed, FoldBytes, Odd;
    var name := if ok then OK else ERR;
    NameParity(h, ok);
    StepParity(FoldBytes(h, name), 1);
    ValueParity(Absorbed(FoldBytes(h, name), 1));
    StepParity(g, if ok then 1 else 0);
    assert Odd(1) && !Odd(0) by {
      OneIsOdd();
    }
  }

  lemma OneIsOdd()
    ensures Odd(1) && !Odd(0)
  {
  }

  /** The bytes of `ok` add up to an even number, and those of `err` to an odd one. */
  lemma NameParity(h: i64, ok: bool)
    ensures Odd(FoldBytes(h, if ok then OK else ERR)) == (Odd(h) != !ok)
  {
    hide Absorbed;
    if ok {
      StepParity(h, 111);
      StepParity(Absorbed(h, 111), 107);
      assert OK[1..] == [107];
    } else {
      StepParity(h, 101);
      StepParity(Absorbed(h, 101), 114);
      StepParity(Absorbed(Absorbed(h, 101), 114), 114);
      assert ERR[1..] == [114, 114] && ERR[1..][1..] == [114];
    }
  }

  /** The bytes of `value` add up to an odd number. */
  lemma ValueParity(h: i64)
    ensures Odd(FoldBytes(h, VALUE)) != Odd(h)
  {
    hide Absorbed;
    var one := Absorbed(h, 118);
    var two := Absorbed(one, 97);
    var three := Absorbed(two, 108);
    var four := Absorbed(three, 117);
    StepParity(h, 118);
    StepParity(one, 97);
    StepParity(two, 108);
    StepParity(three, 117);
    StepParity(four, 101);
    assert VALUE[1..] == [97, 108, 117, 101] && VALUE[2..] == [108, 117, 101] && VALUE[3..] == [117, 101] && VALUE[4..] == [101];
    assert VALUE[1..][1..] == VALUE[2..] && VALUE[2..][1..] == VALUE[3..] && VALUE[3..][1..] == VALUE[4..];
  }

  /** Whatever stands in memory is shaped as its type says. */
  lemma {:induction false} StandsShaped(t: seq<Layout>, memory: seq<byte>, ty: Ty, word: i64, v: Val)
    requires Stands(t, memory, ty, word, v)
    ensures Shaped(t, ty, v)
    decreases v
  {
    if ty.List? {
      forall i | 0 <= i < |v.elements| ensures Shaped(t, ty.element, v.elements[i]) {
        ElementStands(t, memory, ty.element, word + 8, v.elements, i);
        StandsShaped(t, memory, ty.element, ElementWord(memory, word, i), v.elements[i]);
      }
    } else if ty.Aggregate? {
      var fields, at := t[ty.layout].variants[v.tag].fields, word + FieldsAt(t[ty.layout]);
      AsManyFields(t, memory, fields, at, v.fields);
      forall i | 0 <= i < |v.fields| ensures Shaped(t, fields[i].ty, v.fields[i]) {
        FieldStands(t, memory, fields, at, v.fields, i);
        StandsShaped(t, memory, fields[i].ty, ElementWord(memory, at - 8, i), v.fields[i]);
      }
    }
  }

  function ElementWord(memory: seq<byte>, at: int, i: nat): i64
    requires 0 <= at + 8 + 8 * i && at + 8 + 8 * i + 8 <= |memory|
  {
    WordAt(memory, at + 8 + 8 * i)
  }

  // -- the results -----------------------------------------------------------

  /** What a call of `hash` answers once compiled. */
  function CompiledHash(t: seq<Layout>, ty: Ty, v: Val): i64 { if ty.Unit? then BASIS else Folded(t, ty, BASIS, v) }

  /**
   * For any value standing in memory that the interpreter hashes, the two engines agree exactly
   * when it is not the bare unit and their running hashes agree going into its last result, if it
   * has one.
   */
  lemma EnginesAgreeWhen(t: seq<Layout>, memory: seq<byte>, ty: Ty, word: i64, v: Val)
    requires Stands(t, memory, ty, word, v) && AllDistinct(t)
    ensures
      var answer, last := Absorb(BASIS, Meaning(t, ty, v)), LastResult(t, ty, v, BASIS, BASIS);
      answer.Some? ==>
        (answer.value == CompiledHash(t, ty, v) <==> !ty.Unit? && (last.Some? ==> last.value.compiled == last.value.interpreted))
  {
    hide Folded, Absorb, Results, LastResult, Shaped;
    StandsShaped(t, memory, ty, word, v);
    ValueApace(t, ty, v, BASIS, BASIS);
    if ty.Unit? {
      assert Meaning(t, ty, v) == Nothing;
      NothingDiffers();
    }
  }

  /** With no result in it, a value that is not the bare unit hashes to the same number in both engines. */
  lemma EnginesAgree(t: seq<Layout>, memory: seq<byte>, ty: Ty, word: i64, v: Val)
    requires Stands(t, memory, ty, word, v) && AllDistinct(t) && !ty.Unit? && Results(Meaning(t, ty, v)) == 0
    ensures var answer := Absorb(BASIS, Meaning(t, ty, v)); answer.Some? ==> answer.value == CompiledHash(t, ty, v)
  {
    hide Shaped, Folded, Absorb, Meaning, Results, LastResult, Stands;
    StandsShaped(t, memory, ty, word, v);
    ValueApace(t, ty, v, BASIS, BASIS);
  }

  /** A result never does as long as no other is inside, whatever it holds, nor does anything with an odd number of them. */
  lemma EnginesDiffer(t: seq<Layout>, memory: seq<byte>, ty: Ty, word: i64, v: Val)
    requires Stands(t, memory, ty, word, v) && AllDistinct(t) && Odd(Results(Meaning(t, ty, v)))
    ensures var answer := Absorb(BASIS, Meaning(t, ty, v)); answer.Some? ==> answer.value != CompiledHash(t, ty, v)
  {
    hide Shaped, Folded, Absorb, LastResult;
    StandsShaped(t, memory, ty, word, v);
    ValueApace(t, ty, v, BASIS, BASIS);
  }

  /** Hashing nothing at all differs too: the emitted fold stays where it starts, and the interpreter takes in a zero. */
  lemma NothingDiffers()
    ensures Absorb(BASIS, Nothing) != Some(BASIS)
  {
    hide Xor64, Wrap64;
    var x := Xor64(BASIS, 0);
    XorNothing(BASIS);
    var q := x / 4;
    assert x == 4 * q + 1;
    FoursAdded(3, q * PRIME + 0x40_0000_006c);
    LowBits(x * PRIME);
  }

  lemma XorNothing(a: i64)
    ensures Xor64(a, 0) % 4 == a % 4
  {
    hide Wrap64;
    var bits := XorBits(Unsigned(a), 0, 64);
    LowOfXor(Unsigned(a), 62);
    LowBits(bits);
    LowOfUnsigned(a);
  }

  lemma LowOfXor(x: nat, width: nat)
    ensures XorBits(x, 0, width + 2) % 4 == x % 4
  {
    var high := XorBits(x / 2 / 2, 0, width);
    assert XorBits(x / 2, 0, width + 1) == x / 2 % 2 + 2 * high;
    assert XorBits(x, 0, width + 2) == x % 2 + 2 * (x / 2 % 2) + 4 * high;
  }

  lemma LowOfUnsigned(a: i64)
    ensures Unsigned(a) % 4 == a % 4
  {
    assert a + TWO_64 == a + 4 * 0x4000_0000_0000_0000;
  }

  lemma LowBits(x: int)
    ensures Wrap64(x) % 4 == x % 4
  {
    var turns := (x - MIN_64) / TWO_64;
    assert Around64(x) == x - 4 * (turns * 0x4000_0000_0000_0000);
    FoursAdded(x, turns * -0x4000_0000_0000_0000);
  }

  lemma FoursAdded(x: int, k: int)
    ensures (x + 4 * k) % 4 == x % 4
  {
  }

  /** The law hashing is for: what the comparison calls equal, the hash cannot tell apart. */
  method CompareAndHash(t: seq<Layout>, memory: seq<byte>, ty: Ty, left: i64, right: i64, ghost v: Val, ghost w: Val)
    returns (same: bool, one: i64, other: i64)
    requires Stands(t, memory, ty, left, v) && Stands(t, memory, ty, right, w)
    ensures same ==> one == other
  {
    same := SameWordsAs(t, memory, ty, left, right, v, w);
    one := Hash(t, memory, ty, left, v);
    other := Hash(t, memory, ty, right, w);
  }
}
