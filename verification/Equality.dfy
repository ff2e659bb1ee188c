/**
 * The comparison emitted for each shape: it answers that two words are equal exactly when
 * they stand for the same value.
 */
module Equality {
  import opened Ints
  import opened Wasm
  import opened Types
  import opened Heap
  import opened Texts
  import opened Represented

  /** The types compared by a function made for them rather than word by word. */
  predicate Walked(ty: Ty) { ty.Aggregate? || ty.List? }

  /** Two words of this type: a walk, the text helper, or the words themselves. */
  method SameWordsAs(t: seq<Layout>, memory: seq<byte>, ty: Ty, left: i64, right: i64, ghost v: Val, ghost w: Val) returns (same: bool)
    requires Stands(t, memory, ty, left, v) && Stands(t, memory, ty, right, w)
    ensures same <==> v == w
    decreases v, 2
  {
    if ty.Str? {
      same := SameText(memory, left, right, v.text, w.text);
    } else if ty.Aggregate? {
      same := SameAggregate(t, memory, ty.layout, left, right, v, w);
    } else if ty.List? {
      same := SameList(t, memory, ty.element, left, right, v, w);
    } else {
      same := left == right;
    }
  }

  /** Two records or choices: unequal variants settle it, and otherwise all fields are compared in turn. */
  method SameAggregate(t: seq<Layout>, memory: seq<byte>, id: nat, left: i64, right: i64, ghost v: Val, ghost w: Val) returns (same: bool)
    requires Stands(t, memory, Ty.Aggregate(id), left, v) && Stands(t, memory, Ty.Aggregate(id), right, w)
    ensures same <==> v == w
    decreases v, 1
  {
    var layout := t[id];
    var tagged := layout.Tagged();
    if tagged && WordAt(memory, left) != WordAt(memory, right) {
      return false;
    }
    assert v.tag == w.tag;
    var index := 0;
    while index < |layout.variants|
      invariant index <= |layout.variants| && (v.tag < index ==> v.fields == w.fields)
    {
      if !tagged || WordAt(memory, left) == index {
        assert index == v.tag;
        same := SameFields(t, memory, layout.variants[index].fields, left + FieldsAt(layout), right + FieldsAt(layout), v.fields, w.fields);
        if !same {
          return;
        }
      }
      index := index + 1;
    }
    same := true;
  }

  method SameFields(
    t: seq<Layout>, memory: seq<byte>, fields: seq<Field>, a: nat, b: nat, ghost vs: seq<Val>, ghost ws: seq<Val>) returns (same: bool)
    requires FieldsStand(t, memory, fields, a, vs) && FieldsStand(t, memory, fields, b, ws)
    ensures same <==> vs == ws
    decreases vs, 0
  {
    AsManyFields(t, memory, fields, a, vs);
    AsManyFields(t, memory, fields, b, ws);
    var p := 0;
    while p < |fields|
      invariant p <= |fields| && vs[..p] == ws[..p]
    {
      FieldStands(t, memory, fields, a, vs, p);
      FieldStands(t, memory, fields, b, ws, p);
      same := SameWordsAs(t, memory, fields[p].ty, WordAt(memory, a + 8 * p), WordAt(memory, b + 8 * p), vs[p], ws[p]);
      if !same {
        return;
      }
      assert vs[..p + 1] == vs[..p] + [vs[p]] && ws[..p + 1] == ws[..p] + [ws[p]];
      p := p + 1;
    }
    assert vs[..|fields|] == vs && ws[..|fields|] == ws;
    same := true;
  }

  /** Two lists: unequal counts settle it, and otherwise each pair of elements. */
  method SameList(t: seq<Layout>, memory: seq<byte>, element: Ty, left: i64, right: i64, ghost v: Val, ghost w: Val) returns (same: bool)
    requires Stands(t, memory, Ty.List(element), left, v) && Stands(t, memory, Ty.List(element), right, w)
    ensures same <==> v == w
    decreases v, 1
  {
    ghost var vs, ws := v.elements, w.elements;
    if WordAt(memory, left) != WordAt(memory, right) {
      return false;
    }
    if element.Unit? {
      UnitsAlike(t, memory, left + 8, right + 8, vs, ws);
      return true;
    }
    var count: nat := WordAt(memory, left);
    var i := 0;
    while i < count
      invariant i <= count && vs[..i] == ws[..i]
    {
      ElementStands(t, memory, element, left + 8, vs, i);
      ElementStands(t, memory, element, right + 8, ws, i);
      same := SameWordsAs(t, memory, element, WordAt(memory, left + 8 + 8 * i), WordAt(memory, right + 8 + 8 * i), vs[i], ws[i]);
      if !same {
        return;
      }
      assert vs[..i + 1] == vs[..i] + [vs[i]] && ws[..i + 1] == ws[..i] + [ws[i]];
      i := i + 1;
    }
    assert vs[..count] == vs && ws[..count] == ws;
    same := true;
  }

  /** Two lists of nothing are as equal as their lengths say. */
  lemma {:induction false} UnitsAlike(t: seq<Layout>, memory: seq<byte>, a: nat, b: nat, vs: seq<Val>, ws: seq<Val>)
    requires AllStand(t, memory, Ty.Unit, a, vs) && AllStand(t, memory, Ty.Unit, b, ws) && |vs| == |ws|
    ensures vs == ws
    decreases |vs|
  {
    if vs != [] {
      UnitsAlike(t, memory, a + 8, b + 8, vs[1..], ws[1..]);
      assert vs == [vs[0]] + vs[1..] && ws == [ws[0]] + ws[1..];
    }
  }

  // -- which shapes have one -------------------------------------------------

  /** Every type a shape holds, variants and fields in order. */
  function HeldBy(t: seq<Layout>, ty: Ty): seq<Ty> {
    match ty
    case List(element) => [element]
    case Aggregate(id) => if id < |t| then VariantsHold(t[id].variants) else []
    case _ => []
  }

  function VariantsHold(variants: seq<Variant>): seq<Ty> {
    if variants == [] then [] else FieldsHold(variants[0].fields) + VariantsHold(variants[1..])
  }

  function FieldsHold(fields: seq<Field>): seq<Ty> {
    if fields == [] then [] else [fields[0].ty] + FieldsHold(fields[1..])
  }

  /** Every shape here has, here, every walked shape it holds. */
  ghost predicate Closed(t: seq<Layout>, shapes: set<Ty>) {
    forall ty, held | ty in shapes && held in HeldBy(t, ty) && Walked(held) :: held in shapes
  }

  function Elements<T>(items: seq<T>): set<T> { set x | x in items }

  /** A type and what it is a list of, all the way in. */
  function Parts(ty: Ty): set<Ty> {
    {ty} + match ty case List(element) => Parts(element) case _ => {}
  }

  function AllParts(types: seq<Ty>): set<Ty> {
    if types == [] then {} else Parts(types[0]) + AllParts(types[1..])
  }

  function LayoutTypes(t: seq<Layout>): seq<Ty> {
    if t == [] then [] else VariantsHold(t[0].variants) + LayoutTypes(t[1..])
  }

  /** Every type there could be anywhere in these. */
  function Universe(t: seq<Layout>, shapes: seq<Ty>): set<Ty> { AllParts(shapes + LayoutTypes(t)) }

  lemma {:induction false} PartsOf(types: seq<Ty>, ty: Ty)
    requires ty in types
    ensures Parts(ty) <= AllParts(types)
    decreases |types|
  {
    if types[0] != ty {
      PartsOf(types[1..], ty);
    }
  }

  lemma {:induction false} PartsNest(ty: Ty, element: Ty)
    requires Ty.List(element) in Parts(ty)
    ensures element in Parts(ty)
    decreases ty
  {
    if ty.List? && ty != Ty.List(element) {
      PartsNest(ty.element, element);
    }
  }

  lemma {:induction false} AllPartsNest(types: seq<Ty>, element: Ty)
    requires Ty.List(element) in AllParts(types)
    ensures element in AllParts(types)
    decreases |types|
  {
    if Ty.List(element) in Parts(types[0]) {
      PartsNest(types[0], element);
    } else {
      AllPartsNest(types[1..], element);
    }
  }

  lemma {:induction false} LayoutHeld(t: seq<Layout>, id: nat, held: Ty)
    requires id < |t| && held in VariantsHold(t[id].variants)
    ensures held in LayoutTypes(t)
    decreases id
  {
    if id > 0 {
      LayoutHeld(t[1..], id - 1, held);
    }
  }

  lemma HeldInside(t: seq<Layout>, shapes: seq<Ty>, ty: Ty, held: Ty)
    requires ty in Universe(t, shapes) && held in HeldBy(t, ty)
    ensures held in Universe(t, shapes)
  {
    if ty.List? {
      AllPartsNest(shapes + LayoutTypes(t), held);
    } else {
      LayoutHeld(t, ty.layout, held);
      PartsOf(shapes + LayoutTypes(t), held);
    }
  }

  /** Reached from the shapes asked for, and so in every closed set that has those. */
  ghost predicate Reached(t: seq<Layout>, asked: seq<Ty>, found: seq<Ty>) {
    && asked <= found && Elements(found) <= Universe(t, asked)
    && forall shapes: set<Ty> | Elements(asked) <= shapes && Closed(t, shapes) :: Elements(found) <= shapes
  }

  /** What every shape that is not waiting holds has been found, and so has the start of what this one holds. */
  ghost predicate Followed(t: seq<Layout>, found: seq<Ty>, waiting: seq<Ty>, ty: Ty, done: nat) {
    && Elements(waiting) <= Elements(found) && done <= |HeldBy(t, ty)|
    && (forall one, held | one in found && one !in waiting && one != ty && held in HeldBy(t, one) && Walked(held) :: held in found)
    && (forall k | 0 <= k < done && Walked(HeldBy(t, ty)[k]) :: HeldBy(t, ty)[k] in found)
  }

  /** How many shapes there are that have not been found. */
  ghost function Unfound(t: seq<Layout>, asked: seq<Ty>, found: seq<Ty>): nat {
    |Universe(t, asked) - Elements(found)|
  }

  lemma ReachedOneMore(t: seq<Layout>, asked: seq<Ty>, found: seq<Ty>, ty: Ty, held: Ty)
    requires Reached(t, asked, found) && ty in found && held in HeldBy(t, ty) && Walked(held) && held !in found
    ensures Reached(t, asked, found + [held]) && Unfound(t, asked, found + [held]) < Unfound(t, asked, found)
  {
    hide Universe;
    assert ty in Elements(found);
    HeldInside(t, asked, ty, held);
    assert Elements(found + [held]) == Elements(found) + {held};
    assert Universe(t, asked) - Elements(found) == (Universe(t, asked) - Elements(found + [held])) + {held};
  }

  lemma FollowedOneMore(t: seq<Layout>, found: seq<Ty>, waiting: seq<Ty>, ty: Ty, done: nat)
    requires Followed(t, found, waiting, ty, done) && done < |HeldBy(t, ty)|
    ensures Followed(t, found + [HeldBy(t, ty)[done]], waiting + [HeldBy(t, ty)[done]], ty, done + 1)
    ensures !Walked(HeldBy(t, ty)[done]) || HeldBy(t, ty)[done] in found ==> Followed(t, found, waiting, ty, done + 1)
  {
    hide HeldBy, Walked;
    var held := HeldBy(t, ty)[done];
    assert Elements(found + [held]) == Elements(found) + {held};
    assert Elements(waiting + [held]) == Elements(waiting) + {held};
  }

  /**
   * Everything a comparison could call: the shapes asked for, and every walked shape those
   * hold, collected from a worklist. Nothing reached is missing and nothing else is there.
   */
  method CloseOver(t: seq<Layout>, asked: seq<Ty>) returns (found: seq<Ty>)
    ensures asked <= found && Closed(t, Elements(found))
    ensures forall shapes: set<Ty> | Elements(asked) <= shapes && Closed(t, shapes) :: Elements(found) <= shapes
  {
    hide Universe, HeldBy;
    found := asked;
    var pending := asked;
    AskedInside(t, asked);
    while pending != []
      invariant Reached(t, asked, found) && Followed(t, found, pending, Ty.Unit, 0)
      decreases Unfound(t, asked, found), |pending|
    {
      var ty := pending[|pending| - 1];
      Taken(t, found, pending);
      pending := pending[..|pending| - 1];
      found, pending := AddHeld(t, asked, found, pending, ty);
    }
    NothingWaits(t, found);
  }

  lemma Taken(t: seq<Layout>, found: seq<Ty>, pending: seq<Ty>)
    requires Followed(t, found, pending, Ty.Unit, 0) && pending != []
    ensures pending[|pending| - 1] in found
    ensures Followed(t, found, pending[..|pending| - 1], pending[|pending| - 1], 0)
  {
    var ty := pending[|pending| - 1];
    assert ty in Elements(pending);
    assert HeldBy(t, Ty.Unit) == [];
  }

  lemma NothingWaits(t: seq<Layout>, found: seq<Ty>)
    requires Followed(t, found, [], Ty.Unit, 0)
    ensures Closed(t, Elements(found))
  {
    assert HeldBy(t, Ty.Unit) == [];
  }

  lemma AskedInside(t: seq<Layout>, asked: seq<Ty>)
    ensures Elements(asked) <= Universe(t, asked)
  {
    forall ty | ty in asked ensures ty in Universe(t, asked) {
      PartsOf(asked + LayoutTypes(t), ty);
    }
  }

  /** One shape taken off the worklist: what it holds that is new goes on. */
  method AddHeld(t: seq<Layout>, ghost asked: seq<Ty>, found: seq<Ty>, pending: seq<Ty>, ty: Ty) returns (after: seq<Ty>, waiting: seq<Ty>)
    requires Reached(t, asked, found) && ty in found && Followed(t, found, pending, ty, 0)
    ensures Reached(t, asked, after) && Followed(t, after, waiting, Ty.Unit, 0)
    ensures Unfound(t, asked, after) < Unfound(t, asked, found) || (after, waiting) == (found, pending)
  {
    hide Reached, Followed, Unfound, HeldBy;
    after, waiting := found, pending;
    var held := HeldBy(t, ty);
    var i := 0;
    while i < |held|
      invariant i <= |held| && ty in after && Reached(t, asked, after) && Followed(t, after, waiting, ty, i)
      invariant Unfound(t, asked, after) < Unfound(t, asked, found) || (after, waiting) == (found, pending)
    {
      FollowedOneMore(t, after, waiting, ty, i);
      if Walked(held[i]) && held[i] !in after {
        ReachedOneMore(t, asked, after, ty, held[i]);
        after, waiting := after + [held[i]], waiting + [held[i]];
      }
      i := i + 1;
    }
    AllFollowed(t, after, waiting, ty);
  }

  lemma AllFollowed(t: seq<Layout>, found: seq<Ty>, waiting: seq<Ty>, ty: Ty)
    requires Followed(t, found, waiting, ty, |HeldBy(t, ty)|)
    ensures Followed(t, found, waiting, Ty.Unit, 0)
  {
    hide Walked;
  }
}
