/**
 * What a hash depends on: values of one type that differ in a single number, truth value or byte
 * of text, however deep, never hash alike.
 */
module HashApart {
  import opened Ints
  import opened Wasm
  import opened Types
  import opened Compile
  import opened Heap
  import opened Represented
  import opened Hashing
  import opened HashEngines

  // -- one word or one byte --------------------------------------------------

  lemma {:induction false} BitsSwap(x: nat, y: nat, width: nat)
    ensures XorBits(x, y, width) == XorBits(y, x, width)
    decreases width
  {
    if width > 0 {
      BitsSwap(x / 2, y / 2, width - 1);
    }
  }

  /** From one running hash, two words lead to two hashes. */
  lemma WordsApart(h: i64, one: i64, two: i64)
    ensures Absorbed(h, one) == Absorbed(h, two) <==> one == two
  {
    hide Wrap64, XorBits;
    if Absorbed(h, one) == Absorbed(h, two) {
      MultiplyingApart(Xor64(h, one), Xor64(h, two));
      BitsSwap(Unsigned(h), Unsigned(one), 64);
      BitsSwap(Unsigned(h), Unsigned(two), 64);
      XorApart(one, two, h);
    }
  }

  lemma {:induction false} FoldAppend(h: i64, one: seq<byte>, two: seq<byte>)
    ensures FoldBytes(h, one + two) == FoldBytes(FoldBytes(h, one), two)
    decreases |one|
  {
    hide Absorbed;
    if one == [] {
      assert one + two == two;
    } else {
      assert (one + two)[1..] == one[1..] + two;
      FoldAppend(Absorbed(h, one[0]), one[1..], two);
    }
  }

  /** The same but for the one item at this place. */
  ghost predicate DifferAt<T>(one: seq<T>, two: seq<T>, k: nat) {
    k < |one| == |two| && one[k] != two[k] && one[..k] == two[..k] && one[k + 1..] == two[k + 1..]
  }

  lemma BytesDiffer(h: i64, one: seq<byte>, two: seq<byte>, k: nat)
    requires DifferAt(one, two, k)
    ensures FoldBytes(h, one) != FoldBytes(h, two)
  {
    hide Absorbed;
    var g := FoldBytes(h, one[..k]);
    FoldsThrough(h, one, k);
    FoldsThrough(h, two, k);
    WordsApart(g, one[k], two[k]);
    BytesApart(Absorbed(g, one[k]), Absorbed(g, two[k]), one[k + 1..]);
  }

  lemma FoldsThrough(h: i64, bytes: seq<byte>, k: nat)
    requires k < |bytes|
    ensures FoldBytes(h, bytes) == FoldBytes(Absorbed(FoldBytes(h, bytes[..k]), bytes[k]), bytes[k + 1..])
  {
    hide Absorbed;
    assert bytes == bytes[..k] + bytes[k..];
    FoldAppend(h, bytes[..k], bytes[k..]);
    assert bytes[k..][1..] == bytes[k + 1..];
  }

  /** Texts of as many characters that differ in one byte do not hash alike, whatever was hashed before them. */
  lemma TextsDiffer(h: i64, one: Text, two: Text, k: nat)
    requires DifferAt(one, two, k) && Characters(one) == Characters(two)
    ensures FoldText(h, one) != FoldText(h, two)
  {
    BytesDiffer(Absorbed(h, AsWord(Characters(one))), one, two, k);
  }

  // -- the running hash is never lost ----------------------------------------

  /** Taking in the same value keeps two running hashes apart. */
  lemma {:induction false} FoldedApart(t: seq<Layout>, ty: Ty, v: Val, h: i64, g: i64)
    ensures Folded(t, ty, h, v) == Folded(t, ty, g, v) <==> h == g
    decreases v, 1
  {
    hide Absorbed, FoldBytes, FoldedList, FoldedFields, InNameOrder;
    match v
    case UnitV => AbsorbedApart(h, g, 0);
    case BoolV(b) => AbsorbedApart(h, g, if b then 1 else 0);
    case IntV(n) => AbsorbedApart(h, g, n);
    case HandleV(handle) => AbsorbedApart(h, g, handle);
    case TextV(text) =>
      var n := AsWord(Characters(text));
      AbsorbedApart(h, g, n);
      BytesApart(Absorbed(h, n), Absorbed(g, n), text);
    case ListV(elements) =>
      var n := AsWord(|elements|);
      AbsorbedApart(h, g, n);
      ListApart(t, if ty.List? then ty.element else ty, elements, Absorbed(h, n), Absorbed(g, n));
    case AggregateV(tag, values) =>
      if HasFields(t, ty, tag, |values|) {
        var fields := t[ty.layout].variants[tag].fields;
        NamedApart(t[ty.layout], tag, h, g);
        FieldsApart(t, fields, InNameOrder(fields, |values|), values, Named(t[ty.layout], tag, h), Named(t[ty.layout], tag, g));
      }
  }

  lemma NamedApart(layout: Layout, tag: nat, h: i64, g: i64)
    requires tag < |layout.variants|
    ensures Named(layout, tag, h) == Named(layout, tag, g) <==> h == g
  {
    hide Absorbed, FoldBytes;
    var variant := layout.variants[tag];
    BytesApart(h, g, variant.name);
    var a, b := FoldBytes(h, variant.name), FoldBytes(g, variant.name);
    AbsorbedApart(if layout.choice then a else h, if layout.choice then b else g, AsWord(|variant.fields|));
  }

  lemma {:induction false} ListApart(t: seq<Layout>, element: Ty, vs: seq<Val>, h: i64, g: i64)
    ensures FoldedList(t, element, h, vs) == FoldedList(t, element, g, vs) <==> h == g
    decreases vs, 0
  {
    hide Folded;
    if vs != [] {
      FoldedApart(t, element, vs[0], h, g);
      ListApart(t, element, vs[1..], Folded(t, element, h, vs[0]), Folded(t, element, g, vs[0]));
    }
  }

  lemma {:induction false} FieldsApart(t: seq<Layout>, fields: seq<Field>, order: seq<nat>, vs: seq<Val>, h: i64, g: i64)
    requires |vs| == |fields| && Below(order, |fields|)
    ensures FoldedFields(t, fields, order, h, vs) == FoldedFields(t, fields, order, g, vs) <==> h == g
    decreases vs, |order|
  {
    hide Folded, FoldBytes;
    if order != [] {
      var one, v := fields[order[0]], vs[order[0]];
      var a, b := FoldBytes(h, one.name), FoldBytes(g, one.name);
      BytesApart(h, g, one.name);
      FoldedApart(t, one.ty, v, a, b);
      FieldsApart(t, fields, order[1..], vs, Folded(t, one.ty, a, v), Folded(t, one.ty, b, v));
    }
  }

  // -- one difference anywhere in a value ------------------------------------

  /**
   * Values alike but for one number, handle, truth value or byte of text, which may be anywhere
   * in them. Texts that differ have as many characters.
   */
  ghost predicate OneApart(v: Val, w: Val)
    decreases v
  {
    match (v, w)
    case (BoolV(a), BoolV(b)) => a != b
    case (IntV(a), IntV(b)) => a != b
    case (HandleV(a), HandleV(b)) => a != b
    case (TextV(a), TextV(b)) => Characters(a) == Characters(b) && exists k: nat :: DifferAt(a, b, k)
    case (ListV(xs), ListV(ys)) => exists k: nat :: DifferAt(xs, ys, k) && OneApart(xs[k], ys[k])
    case (AggregateV(i, xs), AggregateV(j, ys)) => i == j && exists k: nat :: DifferAt(xs, ys, k) && OneApart(xs[k], ys[k])
    case _ => false
  }

  /** Such values never hash alike, from any running hash. */
  lemma {:induction false} OneApartHashesApart(t: seq<Layout>, ty: Ty, v: Val, w: Val, h: i64)
    requires OneApart(v, w) && Shaped(t, ty, v)
    ensures Folded(t, ty, h, v) != Folded(t, ty, h, w)
    decreases v, 1
  {
    hide Absorbed, FoldBytes, FoldedList, FoldedFields, InNameOrder, Named;
    match v
    case BoolV(b) => WordsApart(h, 0, 1);
    case IntV(n) => WordsApart(h, n, w.n);
    case HandleV(handle) => WordsApart(h, handle, w.handle);
    case TextV(text) =>
      var k: nat :| DifferAt(text, w.text, k);
      TextsDiffer(h, text, w.text, k);
    case ListV(xs) =>
      var k: nat :| DifferAt(xs, w.elements, k) && OneApart(xs[k], w.elements[k]);
      ListDiffers(t, ty.element, xs, w.elements, k, Absorbed(h, AsWord(|xs|)));
    case AggregateV(tag, xs) =>
      var k: nat :| DifferAt(xs, w.fields, k) && OneApart(xs[k], w.fields[k]);
      var fields := t[ty.layout].variants[tag].fields;
      VisitedOnce(fields, |xs|, k);
      FieldsDiffer(t, fields, InNameOrder(fields, |xs|), xs, w.fields, k, Named(t[ty.layout], tag, h));
    case _ =>
  }

  lemma {:induction false} ListDiffers(t: seq<Layout>, element: Ty, xs: seq<Val>, ys: seq<Val>, k: nat, h: i64)
    requires DifferAt(xs, ys, k) && OneApart(xs[k], ys[k]) && AllShaped(t, element, xs)
    ensures FoldedList(t, element, h, xs) != FoldedList(t, element, h, ys)
    decreases xs, 0
  {
    hide Folded, Shaped, OneApart;
    if k == 0 {
      assert xs[1..] == ys[1..];
      assert Shaped(t, element, xs[0]);
      OneApartHashesApart(t, element, xs[0], ys[0], h);
      ListApart(t, element, xs[1..], Folded(t, element, h, xs[0]), Folded(t, element, h, ys[0]));
    } else {
      assert xs[0] == xs[..k][0] == ys[..k][0] == ys[0];
      assert xs[1..][..k - 1] == xs[..k][1..] && ys[1..][..k - 1] == ys[..k][1..];
      assert xs[1..][k..] == xs[k + 1..] && ys[1..][k..] == ys[k + 1..];
      ListDiffers(t, element, xs[1..], ys[1..], k - 1, Folded(t, element, h, xs[0]));
    }
  }

  /** How often a position is in an order. */
  function Times(order: seq<nat>, k: nat): nat {
    if order == [] then 0 else (if order[0] == k then 1 else 0) + Times(order[1..], k)
  }

  lemma {:induction false} PlacedTimes(fields: seq<Field>, order: seq<nat>, p: nat, k: nat)
    requires p < |fields| && Below(order, p)
    ensures Times(Placed(fields, order, p), k) == Times(order, k) + if k == p then 1 else 0
    decreases |order|
  {
    var placed := Placed(fields, order, p);
    if placed == [p] + order {
      assert placed[1..] == order;
    } else {
      assert placed[1..] == Placed(fields, order[1..], p);
      PlacedTimes(fields, order[1..], p, k);
    }
  }

  /** Fields are visited once each. */
  lemma {:induction false} VisitedOnce(fields: seq<Field>, n: nat, k: nat)
    requires n <= |fields|
    ensures Times(InNameOrder(fields, n), k) == if k < n then 1 else 0
    decreases n
  {
    if n > 0 {
      VisitedOnce(fields, n - 1, k);
      PlacedTimes(fields, InNameOrder(fields, n - 1), n - 1, k);
    }
  }

  /** One turn of the walk over fields. */
  lemma FieldsStep(t: seq<Layout>, fields: seq<Field>, order: seq<nat>, vs: seq<Val>, h: i64)
    requires |vs| == |fields| && Below(order, |fields|) && order != []
    ensures
      var p := order[0];
      FoldedFields(t, fields, order, h, vs)
        == FoldedFields(t, fields, order[1..], Folded(t, fields[p].ty, FoldBytes(h, fields[p].name), vs[p]), vs)
  {
  }

  /** A field that is not visited again makes no difference. */
  lemma {:induction false} FieldsSame(
    t: seq<Layout>, fields: seq<Field>, order: seq<nat>, xs: seq<Val>, ys: seq<Val>, k: nat, h: i64)
    requires |xs| == |fields| && Below(order, |fields|) && Times(order, k) == 0 && DifferAt(xs, ys, k)
    ensures FoldedFields(t, fields, order, h, xs) == FoldedFields(t, fields, order, h, ys)
    decreases |order|
  {
    hide Folded, FoldBytes, DifferAt;
    SameLength(xs, ys, k);
    if order == [] {
      NoFieldsLeft(t, fields, h, xs);
      NoFieldsLeft(t, fields, h, ys);
    } else {
      var p := order[0];
      Elsewhere(xs, ys, k, p);
      FieldsStep(t, fields, order, xs, h);
      FieldsStep(t, fields, order, ys, h);
      FieldsSame(t, fields, order[1..], xs, ys, k, Folded(t, fields[p].ty, FoldBytes(h, fields[p].name), xs[p]));
    }
  }

  lemma NoFieldsLeft(t: seq<Layout>, fields: seq<Field>, h: i64, vs: seq<Val>)
    requires |vs| == |fields|
    ensures FoldedFields(t, fields, [], h, vs) == h
  {
  }

  lemma SameLength(xs: seq<Val>, ys: seq<Val>, k: nat)
    requires DifferAt(xs, ys, k)
    ensures k < |xs| == |ys|
  {
  }

  lemma Elsewhere(xs: seq<Val>, ys: seq<Val>, k: nat, p: nat)
    requires DifferAt(xs, ys, k) && p < |xs| && p != k
    ensures p < |ys| && xs[p] == ys[p]
  {
    if p < k {
      assert xs[p] == xs[..k][p] == ys[..k][p] == ys[p];
    } else {
      assert xs[p] == xs[k + 1..][p - k - 1] == ys[k + 1..][p - k - 1] == ys[p];
    }
  }

  lemma {:induction false} FieldsDiffer(
    t: seq<Layout>, fields: seq<Field>, order: seq<nat>, xs: seq<Val>, ys: seq<Val>, k: nat, h: i64)
    requires |xs| == |fields| && Below(order, |fields|) && Times(order, k) == 1 && FieldsShaped(t, fields, xs)
    requires DifferAt(xs, ys, k) && OneApart(xs[k], ys[k])
    ensures FoldedFields(t, fields, order, h, xs) != FoldedFields(t, fields, order, h, ys)
    decreases xs, |order|
  {
    hide Folded, FoldBytes, DifferAt, OneApart, Shaped, FoldedFields;
    SameLength(xs, ys, k);
    var p := order[0];
    var g := FoldBytes(h, fields[p].name);
    FieldsStep(t, fields, order, xs, h);
    FieldsStep(t, fields, order, ys, h);
    var a, b := Folded(t, fields[p].ty, g, xs[p]), Folded(t, fields[p].ty, g, ys[p]);
    if p == k {
      assert Shaped(t, fields[k].ty, xs[k]);
      OneApartHashesApart(t, fields[k].ty, xs[k], ys[k], g);
      FieldsSame(t, fields, order[1..], xs, ys, k, b);
      FieldsApart(t, fields, order[1..], xs, a, b);
    } else {
      Elsewhere(xs, ys, k, p);
      FieldsDiffer(t, fields, order[1..], xs, ys, k, a);
    }
  }

  // -- what a caller of the emitted code sees --------------------------------

  /** Two texts in memory that differ in one byte, hashed from one running hash by the text helper. */
  method TextsHashed(memory: seq<byte>, h: i64, a: nat, b: nat, ghost one: Text, ghost two: Text, ghost k: nat)
    returns (r: i64, q: i64)
    requires TextAt(memory, a, one) && TextAt(memory, b, two) && DifferAt(one, two, k) && Characters(one) == Characters(two)
    ensures r != q
  {
    r := HashText(memory, h, a, one);
    q := HashText(memory, h, b, two);
    TextsDiffer(h, one, two, k);
  }

  /** Two words that stand for values of which one leaf differs: a call of `hash` on each answers two numbers. */
  method ValuesHashed(t: seq<Layout>, memory: seq<byte>, ty: Ty, a: i64, b: i64, ghost v: Val, ghost w: Val)
    returns (r: i64, q: i64)
    requires Stands(t, memory, ty, a, v) && Stands(t, memory, ty, b, w) && OneApart(v, w)
    ensures r != q
  {
    hide Folded;
    r := Hash(t, memory, ty, a, v);
    q := Hash(t, memory, ty, b, w);
    StandsShaped(t, memory, ty, a, v);
    OneApartHashesApart(t, ty, v, w, BASIS);
  }

  /** Variants without fields whose names differ in one byte do not hash alike. */
  lemma NamesDiffer(t: seq<Layout>, id: nat, i: nat, j: nat, k: nat, h: i64)
    requires id < |t| && t[id].choice && i < |t[id].variants| && j < |t[id].variants|
    requires t[id].variants[i].fields == [] && t[id].variants[j].fields == []
    requires DifferAt(t[id].variants[i].name, t[id].variants[j].name, k)
    ensures Folded(t, Ty.Aggregate(id), h, AggregateV(i, [])) != Folded(t, Ty.Aggregate(id), h, AggregateV(j, []))
  {
    hide Absorbed, FoldBytes;
    var one, two := t[id].variants[i].name, t[id].variants[j].name;
    BytesDiffer(h, one, two, k);
    AbsorbedApart(FoldBytes(h, one), FoldBytes(h, two), AsWord(0));
  }

  // -- published answers -----------------------------------------------------

  lemma {:induction false} XorWithNothing(x: nat, width: nat)
    requires x < Pow2(width)
    ensures XorBits(x, 0, width) == x
    decreases width
  {
    if width > 0 {
      XorWithNothing(x / 2, width - 1);
    }
  }

  /** The hashes of "a" and of nothing that are published for FNV-1a in 64 bits. */
  lemma Published()
    ensures FoldBytes(BASIS, []) == 0xcbf2_9ce4_8422_2325 - TWO_64
    ensures FoldBytes(BASIS, [0x61]) == 0xaf63_dc4c_8601_ec8c - TWO_64
  {
    hide XorBits;
    BasisXor();
    var a: seq<byte> := [0x61];
    assert a[1..] == [];
    assert Xor64(BASIS, 0x61) == 0xcbf2_9ce4_8422_2344 - TWO_64;
  }

  lemma OneBit(x: nat, y: nat, width: nat)
    requires width > 0
    ensures XorBits(x, y, width) == (if x % 2 == y % 2 then 0 else 1) + 2 * XorBits(x / 2, y / 2, width - 1)
  {
  }

  lemma BasisXor()
    ensures XorBits(0xcbf2_9ce4_8422_2325, 0x61, 64) == 0xcbf2_9ce4_8422_2344
  {
    hide Pow2, XorBits;
    Pow64();
    PowAdds(7, 57);
    SevenBits();
    XorWithNothing(0x0197_e539_c908_4446, 57);
    OneBit(0x032f_ca73_9210_888c, 0x1, 58);
    OneBit(0x065f_94e7_2421_1119, 0x3, 59);
    OneBit(0x0cbf_29ce_4842_2232, 0x6, 60);
    OneBit(0x197e_539c_9084_4464, 0xc, 61);
    OneBit(0x32fc_a739_2108_88c9, 0x18, 62);
    OneBit(0x65f9_4e72_4211_1192, 0x30, 63);
    OneBit(0xcbf2_9ce4_8422_2325, 0x61, 64);
  }

  lemma SevenBits()
    ensures Pow2(7) == 128
  {
    assert Pow2(4) == 16;
  }
}
