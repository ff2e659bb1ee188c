/** Where things go in memory: alignment, sizes that leave room, and where the standard differs. */
module AbiLayout {
  import opened Ints
  import opened Abi

  predicate Multiple(n: nat, a: nat) {
    if a == 8 then n % 8 == 0 else if a == 4 then n % 4 == 0 else true
  }

  predicate Aligned(at: nat, s: Shape) { Multiple(at, Align(s)) }

  lemma AlignsUpFor(n: nat, s: Shape)
    ensures Aligned(AlignUp(n, Align(s)), s) && n <= AlignUp(n, Align(s))
  {
    AlignsUp(n, Align(s));
  }

  lemma AlignsUp(n: nat, a: nat)
    requires Power(a)
    ensures Multiple(AlignUp(n, a), a) && n <= AlignUp(n, a) < n + a
    ensures Multiple(n, a) ==> AlignUp(n, a) == n
  {
  }

  /** From an aligned address, aligning is aligning the offset. */
  lemma AlignsFrom(at: nat, n: nat, a: nat, wide: nat)
    requires Power(a) && Power(wide) && a <= wide && Multiple(at, wide)
    ensures AlignUp(at + n, a) == at + AlignUp(n, a)
    ensures Multiple(at, a)
  {
    if a == 4 {
      FromFour(at, n);
    } else if a == 8 {
      FromEight(at, n);
    }
  }

  lemma FromEight(at: nat, n: nat)
    requires at % 8 == 0
    ensures AlignUp(at + n, 8) == at + AlignUp(n, 8)
  {
    assert (at + n) % 8 == n % 8;
  }

  lemma FromFour(at: nat, n: nat)
    requires at % 4 == 0 || at % 8 == 0
    ensures AlignUp(at + n, 4) == at + AlignUp(n, 4) && at % 4 == 0
  {
    assert at % 4 == 0;
    assert (at + n) % 4 == n % 4;
  }

  /** Fields laid out from an aligned address end as far from it as they do from zero. */
  lemma {:induction false} EndsFrom(fields: seq<Shape>, at: nat, n: nat, wide: nat)
    requires Power(wide) && Multiple(at, wide)
    requires forall i | 0 <= i < |fields| :: Align(fields[i]) <= wide
    ensures EndOf(fields, at + n) == at + EndOf(fields, n)
    decreases |fields|
  {
    if fields != [] {
      var a := Align(fields[0]);
      AlignsFrom(at, n, a, wide);
      EndsFrom(fields[1..], at, AlignUp(n, a) + Size(fields[0]), wide);
    }
  }

  /** A record's fields fit in its size. */
  lemma RecordFits(fields: seq<Shape>, at: nat)
    requires Aligned(at, RecordS(fields))
    ensures EndOf(fields, at) <= at + Size(RecordS(fields))
  {
    EndsFrom(fields, at, 0, Align(RecordS(fields)));
    AlignsUp(EndOf(fields, 0), Align(RecordS(fields)));
  }

  lemma {:induction false} VariantAligned(variants: seq<Case>, least: nat, d: nat)
    requires Power(least) && d < |variants|
    ensures forall i | 0 <= i < |variants[d].fields| :: Align(variants[d].fields[i]) <= VariantsAlign(variants, least)
    decreases |variants|
  {
    var first := FieldsAlign(variants[0].fields, least);
    if d > 0 {
      VariantAligned(variants[1..], first, d - 1);
    } else {
      assert first <= VariantsAlign(variants[1..], first);
    }
  }

  lemma {:induction false} PayloadFits(variants: seq<Case>, largest: nat, d: nat)
    requires d < |variants|
    ensures EndOf(variants[d].fields, 0) <= LargestPayload(variants, largest)
    ensures largest <= LargestPayload(variants, largest)
    decreases |variants|
  {
    var next := Max(largest, EndOf(variants[0].fields, 0));
    if |variants| > 1 {
      PayloadFits(variants[1..], next, if d > 0 then d - 1 else 0);
    }
  }

  /** The discriminant is before the payload, and every variant's payload fits in the size. */
  lemma ChoiceFits(variants: seq<Case>, d: nat, at: nat)
    requires d < |variants| && Aligned(at, ChoiceS(variants))
    ensures DiscriminantSize(|variants|) <= PayloadAt(variants)
    ensures EndOf(variants[d].fields, at + PayloadAt(variants)) <= at + Size(ChoiceS(variants))
  {
    hide AlignUp, EndOf, VariantsAlign, LargestPayload, DiscriminantSize;
    var wide := VariantsAlign(variants, 1);
    VariantAligned(variants, 1, d);
    AlignsUp(DiscriminantSize(|variants|), wide);
    EndsFrom(variants[d].fields, PayloadAt(variants), 0, wide);
    EndsFrom(variants[d].fields, at, PayloadAt(variants), wide);
    PayloadFits(variants, 0, d);
    AlignsUp(PayloadAt(variants) + LargestPayload(variants, 0), wide);
  }

  lemma StrideFits(s: Shape)
    ensures Size(s) <= Stride(s) && Aligned(Stride(s), s)
  {
    hide AlignUp, Size, Aligned;
    AlignsUpFor(Size(s), s);
  }

  // -- the standard's alignment ----------------------------------------------

  /** What anything is aligned to: the standard can ask for two, which is never asked for here. */
  predicate Width(a: nat) { Power(a) || a == 2 }

  /** CanonicalABI.md, "Alignment": a variant is also aligned as its discriminant is. */
  function StandardAlign(s: Shape): (a: nat)
    ensures Width(a)
  {
    match s
    case IntS => 8
    case StrS => 4
    case ListS(_) => 4
    case RecordS(fields) => StandardFieldsAlign(fields, 1)
    case ChoiceS(variants) => Max(DiscriminantSize(|variants|), StandardVariantsAlign(variants, 1))
    case _ => 1
  }

  function StandardFieldsAlign(fields: seq<Shape>, least: nat): (a: nat)
    requires Width(least)
    ensures Width(a)
    decreases fields
  {
    if fields == [] then least else StandardFieldsAlign(fields[1..], Max(least, StandardAlign(fields[0])))
  }

  function StandardVariantsAlign(variants: seq<Case>, least: nat): (a: nat)
    requires Width(least)
    ensures Width(a)
    decreases variants
  {
    if variants == [] then least
    else StandardVariantsAlign(variants[1..], StandardFieldsAlign(variants[0].fields, least))
  }

  /** The widest discriminant of any choice that is part of a type, not counting what its lists hold. */
  function Widest(s: Shape): (w: nat)
    ensures Width(w)
  {
    match s
    case RecordS(fields) => WidestField(fields, 1)
    case ChoiceS(variants) => Max(DiscriminantSize(|variants|), WidestVariant(variants, 1))
    case _ => 1
  }

  function WidestField(fields: seq<Shape>, least: nat): (w: nat)
    requires Width(least)
    ensures Width(w) && least <= w
    decreases fields
  {
    if fields == [] then least else WidestField(fields[1..], Max(least, Widest(fields[0])))
  }

  function WidestVariant(variants: seq<Case>, least: nat): (w: nat)
    requires Width(least)
    ensures Width(w) && least <= w
    decreases variants
  {
    if variants == [] then least else WidestVariant(variants[1..], WidestField(variants[0].fields, least))
  }

  /** What the standard aligns a type to: as it is aligned here, or as the widest discriminant in it. */
  lemma {:induction false} StandardIsWidest(s: Shape)
    ensures StandardAlign(s) == Max(Align(s), Widest(s))
    decreases s
  {
    if s.RecordS? {
      StandardFieldsWidest(s.fields, 1, 1);
    } else if s.ChoiceS? {
      StandardVariantsWidest(s.variants, 1, 1);
    }
  }

  lemma {:induction false} StandardFieldsWidest(fields: seq<Shape>, least: nat, w: nat)
    requires Power(least) && Width(w)
    ensures StandardFieldsAlign(fields, Max(least, w)) == Max(FieldsAlign(fields, least), WidestField(fields, w))
    decreases fields
  {
    if fields != [] {
      StandardIsWidest(fields[0]);
      StandardFieldsWidest(fields[1..], Max(least, Align(fields[0])), Max(w, Widest(fields[0])));
    }
  }

  lemma {:induction false} StandardVariantsWidest(variants: seq<Case>, least: nat, w: nat)
    requires Power(least) && Width(w)
    ensures StandardVariantsAlign(variants, Max(least, w)) == Max(VariantsAlign(variants, least), WidestVariant(variants, w))
    decreases variants
  {
    if variants != [] {
      StandardFieldsWidest(variants[0].fields, least, w);
      StandardVariantsWidest(variants[1..], FieldsAlign(variants[0].fields, least), WidestField(variants[0].fields, w));
    }
  }

  /** A type is aligned as the standard says exactly when no discriminant in it is wider than that. */
  lemma AlignmentAgrees(s: Shape)
    ensures Align(s) == StandardAlign(s) <==> Widest(s) <= Align(s)
  {
    StandardIsWidest(s);
  }

  // -- the standard's size ---------------------------------------------------

  function StandardUp(n: nat, a: nat): nat
    requires Width(a)
  {
    if a == 2 then n + n % 2 else AlignUp(n, a)
  }

  /** CanonicalABI.md, "Element Size": the payload is past the discriminant, and the whole is padded. */
  function StandardSize(s: Shape): nat {
    match s
    case BoolS => 1
    case IntS => 8
    case StrS => 8
    case ListS(_) => 8
    case RecordS(fields) => StandardUp(StandardEndOf(fields, 0), StandardFieldsAlign(fields, 1))
    case ChoiceS(variants) =>
      var payload := StandardUp(DiscriminantSize(|variants|), StandardVariantsAlign(variants, 1));
      StandardUp(payload + StandardPayload(variants, 0), StandardAlign(s))
    case _ => 0
  }

  function StandardEndOf(fields: seq<Shape>, at: nat): nat
    decreases fields
  {
    if fields == [] then at
    else StandardEndOf(fields[1..], StandardUp(at, StandardAlign(fields[0])) + StandardSize(fields[0]))
  }

  /** The largest payload, each variant's fields padded as the record they would be. */
  function StandardPayload(variants: seq<Case>, largest: nat): nat
    decreases variants
  {
    if variants == [] then largest
    else
      var fields := variants[0].fields;
      StandardPayload(variants[1..], Max(largest, StandardUp(StandardEndOf(fields, 0), StandardFieldsAlign(fields, 1))))
  }

  /** A type, and everything in it, is aligned as the standard says and takes as much room. */
  ghost predicate AsStandard(s: Shape) {
    && Align(s) == StandardAlign(s) && Size(s) == StandardSize(s)
    && match s
       case ListS(element) => AsStandard(element)
       case RecordS(fields) => FieldsAsStandard(fields)
       case ChoiceS(variants) => VariantsAsStandard(variants)
       case _ => true
  }

  ghost predicate FieldsAsStandard(fields: seq<Shape>) {
    fields == [] || (AsStandard(fields[0]) && FieldsAsStandard(fields[1..]))
  }

  ghost predicate VariantsAsStandard(variants: seq<Case>) {
    variants == [] || (FieldsAsStandard(variants[0].fields) && VariantsAsStandard(variants[1..]))
  }

  /** No choice in a type has a discriminant wider than what it carries. */
  predicate NarrowTags(s: Shape) {
    match s
    case ListS(element) => NarrowTags(element)
    case RecordS(fields) => FieldsNarrow(fields)
    case ChoiceS(variants) => DiscriminantSize(|variants|) <= VariantsAlign(variants, 1) && VariantsNarrow(variants)
    case _ => true
  }

  predicate FieldsNarrow(fields: seq<Shape>) { fields == [] || (NarrowTags(fields[0]) && FieldsNarrow(fields[1..])) }

  predicate VariantsNarrow(variants: seq<Case>) {
    variants == [] || (FieldsNarrow(variants[0].fields) && VariantsNarrow(variants[1..]))
  }

  /** Everything in a type is where the standard puts it exactly when every discriminant is narrow enough. */
  lemma {:induction false} LayoutAgrees(s: Shape)
    ensures AsStandard(s) <==> NarrowTags(s)
    decreases s
  {
    match s
    case ListS(element) => LayoutAgrees(element);
    case RecordS(fields) =>
      FieldsAgree(fields, 1, 0);
    case ChoiceS(variants) =>
      VariantsAgree(variants, 1);
      if VariantsNarrow(variants) {
        ChoiceSize(variants);
      }
      StandardVariantsWidest(variants, 1, 1);
    case _ =>
  }

  lemma {:induction false} FieldsAgree(fields: seq<Shape>, least: nat, at: nat)
    requires Power(least)
    ensures FieldsAsStandard(fields) <==> FieldsNarrow(fields)
    ensures FieldsNarrow(fields) ==>
              StandardFieldsAlign(fields, least) == FieldsAlign(fields, least) && StandardEndOf(fields, at) == EndOf(fields, at)
    decreases fields, 0
  {
    if fields != [] {
      LayoutAgrees(fields[0]);
      FieldsAgree(fields[1..], Max(least, Align(fields[0])), AlignUp(at, Align(fields[0])) + Size(fields[0]));
    }
  }

  lemma {:induction false} VariantsAgree(variants: seq<Case>, least: nat)
    requires Power(least)
    ensures VariantsAsStandard(variants) <==> VariantsNarrow(variants)
    ensures VariantsNarrow(variants) ==> StandardVariantsAlign(variants, least) == VariantsAlign(variants, least)
    decreases variants, 0
  {
    if variants != [] {
      FieldsAgree(variants[0].fields, least, 0);
      VariantsAgree(variants[1..], FieldsAlign(variants[0].fields, least));
    }
  }

  /** The standard's payload is the one here, padded no further than the widest field. */
  lemma {:induction false} PayloadsAgree(variants: seq<Case>, largest: nat, padded: nat, least: nat, a: nat)
    requires VariantsNarrow(variants) && Power(a) && Power(least) && VariantsAlign(variants, least) <= a
    requires largest <= padded <= AlignUp(largest, a)
    ensures LargestPayload(variants, largest) <= StandardPayload(variants, padded) <= AlignUp(LargestPayload(variants, largest), a)
    decreases variants, 0
  {
    if variants != [] {
      var fields := variants[0].fields;
      var end := EndOf(fields, 0);
      FieldsAgree(fields, 1, 0);
      LeastFirst(fields, 1, least);
      assert FieldsAlign(fields, least) <= VariantsAlign(variants[1..], FieldsAlign(fields, least));
      UpWider(end, FieldsAlign(fields, 1), a);
      UpMore(largest, Max(largest, end), a);
      UpMore(end, Max(largest, end), a);
      PayloadsAgree(variants[1..], Max(largest, end), Max(padded, AlignUp(end, FieldsAlign(fields, 1))), FieldsAlign(fields, least), a);
    }
  }

  lemma {:induction false} LeastFirst(fields: seq<Shape>, one: nat, two: nat)
    requires Power(one) && Power(two) && one <= two
    ensures FieldsAlign(fields, one) <= FieldsAlign(fields, two)
    decreases |fields|
  {
    if fields != [] {
      LeastFirst(fields[1..], Max(one, Align(fields[0])), Max(two, Align(fields[0])));
    }
  }

  lemma UpWider(n: nat, a: nat, b: nat)
    requires Power(a) && Power(b) && a <= b
    ensures n <= AlignUp(n, a) <= AlignUp(n, b)
  {
  }

  lemma UpMore(n: nat, m: nat, a: nat)
    requires Power(a) && n <= m
    ensures AlignUp(n, a) <= AlignUp(m, a)
  {
    hide AlignUp, Multiple;
    AlignsUp(n, a);
    AlignsUp(m, a);
    NextMultiple(AlignUp(n, a), AlignUp(m, a), a);
  }

  /** Less than a step past a multiple, a multiple is no further. */
  lemma NextMultiple(x: nat, y: nat, a: nat)
    requires Power(a) && Multiple(x, a) && Multiple(y, a) && x < y + a
    ensures x <= y
  {
  }

  /** A multiple and some more, padded, is the multiple and the rest padded. */
  lemma UpFrom(at: nat, n: nat, a: nat)
    requires Power(a)
    ensures AlignUp(AlignUp(at, a) + n, a) == AlignUp(at, a) + AlignUp(n, a)
  {
    AlignsUp(at, a);
    AlignsFrom(AlignUp(at, a), n, a, a);
  }

  /** Padding twice is padding once. */
  lemma UpTwice(n: nat, m: nat, a: nat)
    requires Power(a) && n <= m <= AlignUp(n, a)
    ensures AlignUp(m, a) == AlignUp(n, a)
  {
    hide AlignUp, Multiple;
    UpMore(n, m, a);
    AlignsUp(n, a);
    AlignsUp(m, a);
    NextMultiple(AlignUp(m, a), AlignUp(n, a), a);
  }

  /**
   * Of a choice whose variants are laid out as the standard says, the size is the standard's
   * exactly when its discriminant is no wider than what it carries or divides the largest of it.
   */
  lemma ChoiceSize(variants: seq<Case>)
    requires VariantsNarrow(variants)
    ensures var width := DiscriminantSize(|variants|);
            Size(ChoiceS(variants)) == StandardSize(ChoiceS(variants)) <==>
            width <= VariantsAlign(variants, 1) || LargestPayload(variants, 0) % width == 0
    decreases variants, 1
  {
    hide VariantsNarrow, LargestPayload, StandardPayload, VariantsAlign, StandardVariantsAlign;
    var width, a := DiscriminantSize(|variants|), VariantsAlign(variants, 1);
    var here, there := LargestPayload(variants, 0), StandardPayload(variants, 0);
    VariantsAgree(variants, 1);
    PayloadsAgree(variants, 0, 0, 1, a);
    if width <= a {
      PaddedAlike(width, here, there, a);
    } else {
      assert a == 1 && there == here;
      Divides(width, here);
    }
  }

  lemma PaddedAlike(width: nat, here: nat, there: nat, a: nat)
    requires Power(a) && here <= there <= AlignUp(here, a)
    ensures AlignUp(AlignUp(width, a) + here, a) == AlignUp(AlignUp(width, a) + there, a)
  {
    hide AlignUp;
    UpFrom(width, here, a);
    UpFrom(width, there, a);
    UpTwice(here, there, a);
  }

  lemma Divides(width: nat, n: nat)
    requires width == 2 || width == 4
    ensures StandardUp(width + n, width) == width + n <==> n % width == 0
  {
  }

  /** A type whose choices have no more than 256 variants each is laid out as the standard says. */
  predicate FewVariants(s: Shape) {
    match s
    case ListS(element) => FewVariants(element)
    case RecordS(fields) => FieldsFew(fields)
    case ChoiceS(variants) => |variants| <= 0x100 && VariantsFew(variants)
    case _ => true
  }

  predicate FieldsFew(fields: seq<Shape>) { fields == [] || (FewVariants(fields[0]) && FieldsFew(fields[1..])) }

  predicate VariantsFew(variants: seq<Case>) {
    variants == [] || (FieldsFew(variants[0].fields) && VariantsFew(variants[1..]))
  }

  lemma {:induction false} FewAgree(s: Shape)
    requires FewVariants(s)
    ensures AsStandard(s)
    decreases s
  {
    FewAreNarrow(s);
    LayoutAgrees(s);
  }

  lemma {:induction false} FewAreNarrow(s: Shape)
    requires FewVariants(s)
    ensures NarrowTags(s)
    decreases s
  {
    match s
    case ListS(element) => FewAreNarrow(element);
    case RecordS(fields) => FewFieldsNarrow(fields);
    case ChoiceS(variants) => FewVariantsNarrow(variants);
    case _ =>
  }

  lemma {:induction false} FewFieldsNarrow(fields: seq<Shape>)
    requires FieldsFew(fields)
    ensures FieldsNarrow(fields)
    decreases fields
  {
    if fields != [] {
      FewAreNarrow(fields[0]);
      FewFieldsNarrow(fields[1..]);
    }
  }

  lemma {:induction false} FewVariantsNarrow(variants: seq<Case>)
    requires VariantsFew(variants)
    ensures VariantsNarrow(variants)
    decreases variants
  {
    if variants != [] {
      FewFieldsNarrow(variants[0].fields);
      FewVariantsNarrow(variants[1..]);
    }
  }

  /** A choice of so many variants that carry this each. */
  function Alike(n: nat, fields: seq<Shape>): (r: seq<Case>)
    ensures |r| == n
  {
    seq(n, _ => Case(fields))
  }

  lemma {:induction false} BareAlign(n: nat)
    ensures VariantsAlign(Alike(n, []), 1) == 1
    decreases n
  {
    if n > 0 {
      assert Alike(n, [])[1..] == Alike(n - 1, []);
      BareAlign(n - 1);
    }
  }

  lemma {:induction false} BooleansLayout(n: nat, largest: nat)
    requires largest <= 1
    ensures VariantsAlign(Alike(n, [BoolS]), 1) == 1 && VariantsNarrow(Alike(n, [BoolS]))
    ensures LargestPayload(Alike(n, [BoolS]), largest) == if n > 0 then 1 else largest
    decreases n
  {
    if n > 0 {
      assert Alike(n, [BoolS])[1..] == Alike(n - 1, [BoolS]);
      assert Alike(n, [BoolS])[0].fields == [BoolS];
      BooleansLayout(n - 1, 1);
      assert FieldsAlign([BoolS], 1) == 1 && EndOf([BoolS], 0) == 1 && FieldsNarrow([BoolS]);
    }
  }

  /** With 257 variants and nothing to carry, the standard wants an even address and this does not. */
  lemma TooManyVariants()
    ensures Align(ChoiceS(Alike(257, []))) == 1 && StandardAlign(ChoiceS(Alike(257, []))) == 2
  {
    BareAlign(257);
    StandardIsWidest(ChoiceS(Alike(257, [])));
    NothingWidest(257);
  }

  lemma {:induction false} NothingWidest(n: nat)
    ensures WidestVariant(Alike(n, []), 1) == 1
    decreases n
  {
    if n > 0 {
      assert Alike(n, [])[1..] == Alike(n - 1, []);
      NothingWidest(n - 1);
    }
  }

  /** With 257 variants that carry a boolean each, a value takes three bytes here and four to the standard. */
  lemma TooManyBooleans()
    ensures Size(ChoiceS(Alike(257, [BoolS]))) == 3 && StandardSize(ChoiceS(Alike(257, [BoolS]))) == 4
  {
    var variants := Alike(257, [BoolS]);
    BooleansLayout(257, 0);
    VariantsAgree(variants, 1);
    PayloadsAgree(variants, 0, 0, 1, 1);
    BooleansSize(variants);
  }

  lemma BooleansSize(variants: seq<Case>)
    requires |variants| == 257 && VariantsAlign(variants, 1) == 1 == StandardVariantsAlign(variants, 1)
    requires LargestPayload(variants, 0) == 1 == StandardPayload(variants, 0)
    ensures Size(ChoiceS(variants)) == 3 && StandardSize(ChoiceS(variants)) == 4
  {
    hide VariantsAlign, StandardVariantsAlign, LargestPayload, StandardPayload;
  }
}
