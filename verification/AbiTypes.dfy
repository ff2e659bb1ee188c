/**
 * What crosses is given by its type and a table of layouts: flattening a type, and the round
 * trips for every type whose layouts do not hold themselves.
 */
module AbiTypes {
  import opened Ints
  import opened Wasm
  import opened Types
  import opened Abi
  import opened AbiLayout
  import opened AbiRoundTrip

  // -- values of a type ------------------------------------------------------

  /** A value of this type, layouts looked up as it is followed. */
  predicate HasType(t: Table, v: Val, ty: Ty)
    decreases v, 1
  {
    match ty
    case Unit => v.UnitV?
    case Bool => v.BoolV?
    case Int => v.IntV?
    case Str => v.StrV?
    case List(element) => v.ListV? && AllTyped(t, v.elements, element)
    case Aggregate(id) =>
      id < |t.layouts| &&
      if t.layouts[id].Tagged() then
        v.VariantV? && v.discriminant < |t.layouts[id].variants|
        && EachTyped(t, v.payload, t.layouts[id].variants[v.discriminant].fields)
      else v.RecordV? && t.layouts[id].variants != [] && EachTyped(t, v.fields, t.layouts[id].variants[0].fields)
    case _ => false
  }

  predicate AllTyped(t: Table, vs: seq<Val>, element: Ty)
    decreases vs, 0
  {
    vs == [] || (HasType(t, vs[0], element) && AllTyped(t, vs[1..], element))
  }

  predicate EachTyped(t: Table, vs: seq<Val>, fields: seq<Field>)
    decreases vs, 0
  {
    |vs| == |fields| && (vs == [] || (HasType(t, vs[0], fields[0].ty) && EachTyped(t, vs[1..], fields[1..])))
  }

  /** The values of a type are those of its shape. */
  lemma {:induction false} TypeIsShape(t: Table, v: Val, ty: Ty)
    requires Acyclic(t) && Known(t, ty)
    ensures HasType(t, v, ty) <==> HasShape(v, ShapeOf(t, ty))
    decreases v, 1
  {
    match ty
    case List(element) =>
      if v.ListV? {
        ElementsAreShapes(t, v.elements, element);
      }
    case Aggregate(id) =>
      var layout := t.layouts[id];
      assert forall k | 0 <= k < |layout.variants| :: FieldsBelow(t, layout.variants[k].fields, t.rank[id]);
      if layout.Tagged() {
        if v.VariantV? && v.discriminant < |layout.variants| {
          FieldsAreShapes(t, v.payload, layout.variants[v.discriminant].fields, t.rank[id]);
        }
      } else if v.RecordV? {
        FieldsAreShapes(t, v.fields, layout.variants[0].fields, t.rank[id]);
      }
    case _ =>
  }

  lemma {:induction false} ElementsAreShapes(t: Table, vs: seq<Val>, element: Ty)
    requires Acyclic(t) && Known(t, element)
    ensures AllTyped(t, vs, element) <==> AllHave(vs, ShapeOf(t, element))
    decreases vs, 0
  {
    if vs != [] {
      TypeIsShape(t, vs[0], element);
      ElementsAreShapes(t, vs[1..], element);
    }
  }

  lemma {:induction false} FieldsAreShapes(t: Table, vs: seq<Val>, fields: seq<Field>, rank: nat)
    requires Acyclic(t) && FieldsBelow(t, fields, rank)
    ensures EachTyped(t, vs, fields) <==> EachHas(vs, FieldShapes(t, fields, rank))
    decreases vs, 0
  {
    if vs != [] && fields != [] {
      TypeIsShape(t, vs[0], fields[0].ty);
      FieldsAreShapes(t, vs[1..], fields[1..], rank);
    }
  }

  // -- flattening a type -----------------------------------------------------

  datatype Flattened = Flattens(types: seq<ValType>) | Refuses(kind: Unsupported)

  /** The flat types of a type: an element is flattened too, to see that it can cross. */
  function Flatten(t: Table, ty: Ty): Flattened
    requires Acyclic(t) && Known(t, ty)
    decreases RankOf(t, ty), 3, ty
  {
    match ty
    case Unit => Flattens([])
    case Bool => Flattens([I32])
    case Int => Flattens([I64])
    case Str => Flattens([I32, I32])
    case List(element) => (match Flatten(t, element) case Flattens(_) => Flattens([I32, I32]) case refused => refused)
    case Aggregate(id) =>
      var variants := t.layouts[id].variants;
      if !t.layouts[id].Tagged() then FlattenFields(t, variants[0].fields, t.rank[id])
      else
        (match FlattenVariants(t, variants, t.rank[id], [])
         case Flattens(payload) => Flattens([I32] + payload)
         case refused => refused)
    case Closure => Refuses(ClosureRefused)
    case Capability => Refuses(CapabilityRefused)
  }

  function FlattenFields(t: Table, fields: seq<Field>, rank: nat): Flattened
    requires Acyclic(t) && FieldsBelow(t, fields, rank)
    decreases rank + 1, 0, fields
  {
    if fields == [] then Flattens([])
    else
      match Flatten(t, fields[0].ty)
      case Flattens(one) =>
        (match FlattenFields(t, fields[1..], rank) case Flattens(rest) => Flattens(one + rest) case refused => refused)
      case refused => refused
  }

  function FlattenVariants(t: Table, variants: seq<Variant>, rank: nat, joined: seq<ValType>): Flattened
    requires Acyclic(t) && forall k | 0 <= k < |variants| :: FieldsBelow(t, variants[k].fields, rank)
    decreases rank + 1, 1, variants
  {
    if variants == [] then Flattens(joined)
    else
      match FlattenFields(t, variants[0].fields, rank)
      case Flattens(one) => FlattenVariants(t, variants[1..], rank, Join(joined, one))
      case refused => refused
  }

  /** What flattening a shape comes to. */
  function FlatOrRefused(s: Shape): Flattened {
    if Refusal(s).Some? then Refuses(Refusal(s).value) else Flattens(Flat(s))
  }

  /** Flattening a type is flattening its shape, and refuses what is refused in it first. */
  lemma {:induction false} FlattenIsFlat(t: Table, ty: Ty)
    requires Acyclic(t) && Known(t, ty)
    ensures Flatten(t, ty) == FlatOrRefused(ShapeOf(t, ty))
    decreases RankOf(t, ty), 3, ty
  {
    match ty
    case List(element) => FlattenIsFlat(t, element);
    case Aggregate(id) =>
      var layout := t.layouts[id];
      assert forall k | 0 <= k < |layout.variants| :: FieldsBelow(t, layout.variants[k].fields, t.rank[id]);
      if layout.Tagged() {
        VariantsAreFlat(t, layout.variants, t.rank[id], []);
        CasesAre(t, id);
      } else {
        FieldsAreFlat(t, layout.variants[0].fields, t.rank[id]);
      }
    case _ =>
  }

  lemma {:induction false} FieldsAreFlat(t: Table, fields: seq<Field>, rank: nat)
    requires Acyclic(t) && FieldsBelow(t, fields, rank)
    ensures
      var shapes := FieldShapes(t, fields, rank);
      FlattenFields(t, fields, rank)
        == if FieldsRefusal(shapes).Some? then Refuses(FieldsRefusal(shapes).value) else Flattens(FlatAll(shapes))
    decreases rank + 1, 0, fields
  {
    if fields != [] {
      FlattenIsFlat(t, fields[0].ty);
      FieldsAreFlat(t, fields[1..], rank);
      assert FieldShapes(t, fields, rank)[1..] == FieldShapes(t, fields[1..], rank);
    }
  }

  /** Each variant with its fields' shapes. */
  function Cases(t: Table, variants: seq<Variant>, rank: nat): (cases: seq<Case>)
    requires Acyclic(t) && forall k | 0 <= k < |variants| :: FieldsBelow(t, variants[k].fields, rank)
    ensures |cases| == |variants|
    ensures forall k | 0 <= k < |variants| :: cases[k] == Case(FieldShapes(t, variants[k].fields, rank))
  {
    if variants == [] then [] else [Case(FieldShapes(t, variants[0].fields, rank))] + Cases(t, variants[1..], rank)
  }

  lemma CasesAre(t: Table, id: nat)
    requires Acyclic(t) && id < |t.layouts| && t.layouts[id].Tagged()
    ensures forall k | 0 <= k < |t.layouts[id].variants| :: FieldsBelow(t, t.layouts[id].variants[k].fields, t.rank[id])
    ensures ShapeOf(t, Ty.Aggregate(id)) == ChoiceS(Cases(t, t.layouts[id].variants, t.rank[id]))
  {
  }

  lemma {:induction false} VariantsAreFlat(t: Table, variants: seq<Variant>, rank: nat, joined: seq<ValType>)
    requires Acyclic(t) && forall k | 0 <= k < |variants| :: FieldsBelow(t, variants[k].fields, rank)
    ensures
      var cases := Cases(t, variants, rank);
      FlattenVariants(t, variants, rank, joined)
        == if VariantsRefusal(cases).Some? then Refuses(VariantsRefusal(cases).value) else Flattens(Payload(cases, joined))
    decreases rank + 1, 1, variants
  {
    if variants != [] {
      FieldsAreFlat(t, variants[0].fields, rank);
      var cases, rest := Cases(t, variants, rank), Cases(t, variants[1..], rank);
      assert cases[1..] == rest;
      var shapes := FieldShapes(t, variants[0].fields, rank);
      VariantsAreFlat(t, variants[1..], rank, if FieldsRefusal(shapes).None? then Join(joined, FlatAll(shapes)) else joined);
    }
  }

  // -- the round trips -------------------------------------------------------

  /** A value of any type, laid out in reserved memory, reads back from there. */
  lemma TypeThroughMemory(t: Table, ty: Ty, v: Val, mem: Mem, at: nat, later: seq<byte>)
    requires Acyclic(t) && Known(t, ty) && HasType(t, v, ty) && Narrow(v)
    requires var s := ShapeOf(t, ty);
      && Aligned(at, s) && at + Size(s) <= mem.next <= |mem.bytes| < LIMIT && LowerToMemory(v, s, mem, at).Ok?
      && Agree(LowerToMemory(v, s, mem, at).value.bytes, later, at, at + Size(s))
      && Agree(LowerToMemory(v, s, mem, at).value.bytes, later, mem.next, LowerToMemory(v, s, mem, at).value.next)
    ensures var s := ShapeOf(t, ty);
      LiftFromMemory(s, later, at) == Ok(v) && Kept(mem, LowerToMemory(v, s, mem, at).value, at, at + Size(s))
  {
    hide HasType, HasShape, LowerToMemory, LiftFromMemory, ShapeOf;
    TypeIsShape(t, v, ty);
    MemoryRoundTrip(v, ShapeOf(t, ty), mem, at, later);
  }

  /**
   * A value of any type whose layouts do not hold themselves crosses and comes back: a type that
   * flattens to few enough types as arguments of those, and any other by its address.
   */
  lemma TypeRoundTrip(t: Table, ty: Ty, v: Val, mem: Mem)
    requires Acyclic(t) && Known(t, ty) && HasType(t, v, ty) && Narrow(v) && mem.next <= |mem.bytes| < LIMIT
    requires Lower(v, ShapeOf(t, ty), mem).Ok?
    ensures Flatten(t, ty).Flattens?
    ensures
      var s, flat := ShapeOf(t, ty), Flatten(t, ty).types;
      var (args, after) := Lower(v, s, mem).value;
      && Kept(mem, after, 0, 0)
      && if |flat| <= MAX_FLAT then TypesOf(args) == flat && Lift(args, s, after.bytes) == Some(Ok(v))
         else |args| == 1 && args[0].A32? && args[0].n >= 0 && LiftFromMemory(s, after.bytes, args[0].n) == Ok(v)
  {
    hide HasType, HasShape, LowerToMemory, LowerFlat, LiftFromMemory, Lift, ShapeOf, Flatten, Kept;
    TypeIsShape(t, v, ty);
    FlattenIsFlat(t, ty);
    RoundTrip(v, ShapeOf(t, ty), mem);
  }
}
