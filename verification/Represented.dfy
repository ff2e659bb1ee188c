/** Values and the words that represent them: scalars directly, everything else by address. */
module Represented {
  import opened Ints
  import opened Wasm
  import opened Types
  import opened Compile
  import opened Heap
  import L = Layout

  datatype Val =
    | UnitV
    | BoolV(b: bool)
    | IntV(n: i64)
    | HandleV(handle: i64)
    | TextV(text: Text)
    | ListV(elements: seq<Val>)
    | AggregateV(tag: nat, fields: seq<Val>)

  /**
   * The word stands for the value, at this type and in this memory. Layouts are looked up as
   * the value is followed, so they may mention one another however they like.
   */
  ghost predicate Stands(t: seq<Layout>, memory: seq<byte>, ty: Ty, word: i64, v: Val)
    decreases v, 1
  {
    match ty
    case Unit => v.UnitV? && word == 0
    case Bool => v.BoolV? && word == if v.b then 1 else 0
    case Int => v.IntV? && word == v.n
    case Capability => v.HandleV? && word == v.handle
    case Str => v.TextV? && word >= 0 && TextAt(memory, word, v.text)
    case List(element) =>
      && v.ListV? && word >= 0 && word + 8 <= |memory| && WordAt(memory, word) == |v.elements|
      && AllStand(t, memory, element, word + 8, v.elements)
    case Aggregate(id) =>
      && v.AggregateV? && id < |t| && v.tag < |t[id].variants| && word >= 0
      && (t[id].Tagged() ==> word + 8 <= |memory| && WordAt(memory, word) == v.tag)
      && FieldsStand(t, memory, t[id].variants[v.tag].fields, word + FieldsAt(t[id]), v.fields)
    case Closure => false
  }

  /** Where the fields start: past the tag, when there is one. */
  function FieldsAt(layout: Layout): nat { L.FieldOffset(layout.Tagged(), 0) }

  ghost predicate AllStand(t: seq<Layout>, memory: seq<byte>, element: Ty, at: nat, vs: seq<Val>)
    decreases vs, 0
  {
    vs == [] ||
    (at + 8 <= |memory| && Stands(t, memory, element, WordAt(memory, at), vs[0])
       && AllStand(t, memory, element, at + 8, vs[1..]))
  }

  ghost predicate FieldsStand(t: seq<Layout>, memory: seq<byte>, fields: seq<Field>, at: nat, vs: seq<Val>)
    decreases vs, 0
  {
    |vs| == |fields| &&
    (vs == [] ||
     (at + 8 <= |memory| && Stands(t, memory, fields[0].ty, WordAt(memory, at), vs[0])
        && FieldsStand(t, memory, fields[1..], at + 8, vs[1..])))
  }

  lemma {:induction false} ElementStands(t: seq<Layout>, memory: seq<byte>, element: Ty, at: nat, vs: seq<Val>, i: nat)
    requires AllStand(t, memory, element, at, vs) && i < |vs|
    ensures at + 8 * i + 8 <= |memory| && Stands(t, memory, element, WordAt(memory, at + 8 * i), vs[i])
    decreases i
  {
    if i > 0 {
      ElementStands(t, memory, element, at + 8, vs[1..], i - 1);
    }
  }

  lemma {:induction false} FieldStands(t: seq<Layout>, memory: seq<byte>, fields: seq<Field>, at: nat, vs: seq<Val>, i: nat)
    requires FieldsStand(t, memory, fields, at, vs) && i < |vs|
    ensures |vs| == |fields| && at + 8 * i + 8 <= |memory|
    ensures Stands(t, memory, fields[i].ty, WordAt(memory, at + 8 * i), vs[i])
    decreases i
  {
    if i > 0 {
      FieldStands(t, memory, fields[1..], at + 8, vs[1..], i - 1);
    }
  }

  lemma {:induction false} AsManyFields(t: seq<Layout>, memory: seq<byte>, fields: seq<Field>, at: nat, vs: seq<Val>)
    requires FieldsStand(t, memory, fields, at, vs)
    ensures |vs| == |fields|
  {
  }
}
