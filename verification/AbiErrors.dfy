/**
 * When lowering fails: for a value of its type, when the type cannot cross, and otherwise exactly
 * when what has to be allocated for it goes past the end of memory.
 */
module AbiErrors {
  import opened Ints
  import opened Wasm
  import opened Types
  import opened Abi
  import opened AbiLayout
  import opened AbiRoundTrip

  /** Where allocation has got to, once there is room for what a value points at. */
  function Past(v: Val, s: Shape, next: nat): (past: nat)
    ensures next <= past
    decreases v, 1
  {
    match v
    case StrV(text) => next + |text|
    case ListV(elements) =>
      if !s.ListS? || elements == [] then next
      else PastElements(elements, s.element, AlignUp(next, Align(s.element)) + Room(s.element, |elements|))
    case RecordV(fields) => if s.RecordS? then PastFields(fields, s.fields, next) else next
    case VariantV(d, payload) =>
      if s.ChoiceS? && d < |s.variants| then PastFields(payload, s.variants[d].fields, next) else next
    case _ => next
  }

  function PastElements(vs: seq<Val>, element: Shape, next: nat): (past: nat)
    ensures next <= past
    decreases vs, 0
  {
    if vs == [] then next else PastElements(vs[1..], element, Past(vs[0], element, next))
  }

  function PastFields(vs: seq<Val>, fields: seq<Shape>, next: nat): (past: nat)
    ensures next <= past
    decreases vs, 0
  {
    if vs == [] || fields == [] then next else PastFields(vs[1..], fields[1..], Past(vs[0], fields[0], next))
  }

  /** It works exactly when that is inside memory, and then that is where allocation has got to. */
  ghost predicate RoomDecides(r: Result<Mem>, mem: Mem, past: nat) {
    match r
    case Ok(after) => past <= |mem.bytes| && after.next == past && |after.bytes| == |mem.bytes|
    case Err(error) => past > |mem.bytes| && error == OutOfBounds
  }

  lemma {:induction false} MemoryNeedsRoom(v: Val, s: Shape, mem: Mem, at: nat)
    requires HasShape(v, s) && Aligned(at, s) && at + Size(s) <= mem.next <= |mem.bytes|
    ensures RoomDecides(LowerToMemory(v, s, mem, at), mem, Past(v, s, mem.next))
    decreases v, 1
  {
    if s.ListS? {
      ListNeedsRoom(v.elements, s.element, mem);
    } else if s.RecordS? {
      RecordFits(s.fields, at);
      FieldsNeedRoom(v.fields, s.fields, mem, at, at + Size(s));
    } else if s.ChoiceS? {
      ChoiceNeedsRoom(v, s, mem, at);
    }
  }

  lemma {:induction false} ChoiceNeedsRoom(v: Val, s: Shape, mem: Mem, at: nat)
    requires s.ChoiceS? && HasShape(v, s) && Aligned(at, s) && at + Size(s) <= mem.next <= |mem.bytes|
    ensures RoomDecides(LowerToMemory(v, s, mem, at), mem, Past(v, s, mem.next))
    decreases v, 0
  {
    hide Size, PayloadAt, AlignUp, EndOf, LeBytes, Aligned;
    var data := Word32(v.discriminant)[..DiscriminantSize(|s.variants|)];
    ChoiceFits(s.variants, v.discriminant, at);
    var fields := s.variants[v.discriminant].fields;
    assert at + PayloadAt(s.variants) <= EndOf(fields, at + PayloadAt(s.variants));
    FieldsNeedRoom(v.payload, fields, Write(mem, at, data).value, at + PayloadAt(s.variants), at + Size(s));
  }

  lemma {:induction false} ListNeedsRoom(elements: seq<Val>, element: Shape, mem: Mem)
    requires AllHave(elements, element) && mem.next <= |mem.bytes|
    ensures
      var past := Past(ListV(elements), ListS(element), mem.next);
      match StoreList(elements, element, mem)
      case Ok((after, _)) => past <= |mem.bytes| && after.next == past && |after.bytes| == |mem.bytes|
      case Err(error) => past > |mem.bytes| && error == OutOfBounds
    decreases elements, 1
  {
    if elements != [] {
      var at := AlignUp(mem.next, Align(element));
      AlignsUpFor(mem.next, element);
      RoomIs(element, |elements|);
      var room := Alloc(mem, Room(element, |elements|), Align(element));
      if room.Ok? {
        ElementsNeedRoom(elements, element, room.value.0, at);
      }
    }
  }

  lemma {:induction false} ElementsNeedRoom(vs: seq<Val>, element: Shape, mem: Mem, at: nat)
    requires AllHave(vs, element) && Aligned(at, element)
    requires at + Span(Stride(element), |vs|) <= mem.next <= |mem.bytes|
    ensures RoomDecides(LowerElements(vs, element, mem, at), mem, PastElements(vs, element, mem.next))
    decreases vs, 0
  {
    if vs != [] {
      hide Stride, Size, Aligned, Past, LowerToMemory, HasShape, AllHave, Align, AlignUp, LowerElements, PastElements, Span;
      ElementsUnfold(vs, element, mem, at);
      StrideFits(element);
      StrideKeepsAligned(element, at);
      MemoryNeedsRoom(vs[0], element, mem, at);
      var first := LowerToMemory(vs[0], element, mem, at);
      if first.Ok? {
        ElementsNeedRoom(vs[1..], element, first.value, at + Stride(element));
      }
    }
  }

  /** The first element, and then the others. */
  lemma ElementsUnfold(vs: seq<Val>, element: Shape, mem: Mem, at: nat)
    requires vs != [] && AllHave(vs, element)
    ensures HasShape(vs[0], element) && AllHave(vs[1..], element)
    ensures var first := LowerToMemory(vs[0], element, mem, at);
      LowerElements(vs, element, mem, at)
        == if first.Ok? then LowerElements(vs[1..], element, first.value, at + Stride(element)) else first
    ensures PastElements(vs, element, mem.next) == PastElements(vs[1..], element, Past(vs[0], element, mem.next))
    ensures Span(Stride(element), |vs|) == Stride(element) + Span(Stride(element), |vs[1..]|)
  {
    hide LowerToMemory, Past, HasShape, Stride;
  }

  lemma {:induction false} FieldsNeedRoom(vs: seq<Val>, fields: seq<Shape>, mem: Mem, at: nat, end: nat)
    requires EachHas(vs, fields) && EndOf(fields, at) <= end <= mem.next <= |mem.bytes|
    ensures RoomDecides(LowerFields(vs, fields, mem, at), mem, PastFields(vs, fields, mem.next))
    decreases vs, 0
  {
    if vs != [] {
      hide Size, Aligned, Past, LowerToMemory, HasShape, AlignUp;
      var here := AlignUp(at, Align(fields[0]));
      AlignsUpFor(at, fields[0]);
      assert here + Size(fields[0]) <= EndOf(fields, at);
      MemoryNeedsRoom(vs[0], fields[0], mem, here);
      var first := LowerToMemory(vs[0], fields[0], mem, here);
      if first.Ok? {
        FieldsNeedRoom(vs[1..], fields[1..], first.value, here + Size(fields[0]), end);
      }
    }
  }

  /** Lowering to arguments, decided by the same end of allocation as lowering into memory. */
  ghost predicate RoomDecidesFlat(r: Result<(seq<Arg>, Mem)>, mem: Mem, past: nat) {
    match r
    case Ok((_, after)) => past <= |mem.bytes| && after.next == past && |after.bytes| == |mem.bytes|
    case Err(error) => past > |mem.bytes| && error == OutOfBounds
  }

  lemma {:induction false} FlatNeedsRoom(v: Val, s: Shape, mem: Mem)
    requires HasShape(v, s) && mem.next <= |mem.bytes|
    ensures RoomDecidesFlat(LowerFlat(v, s, mem), mem, Past(v, s, mem.next))
    decreases v, 1
  {
    if s.ListS? {
      ListNeedsRoom(v.elements, s.element, mem);
    } else if s.RecordS? {
      FlatFieldsNeedRoom(v.fields, s.fields, mem);
    } else if s.ChoiceS? {
      FlatFieldsNeedRoom(v.payload, s.variants[v.discriminant].fields, mem);
    }
  }

  lemma {:induction false} FlatFieldsNeedRoom(vs: seq<Val>, fields: seq<Shape>, mem: Mem)
    requires EachHas(vs, fields) && mem.next <= |mem.bytes|
    ensures RoomDecidesFlat(LowerFlatFields(vs, fields, mem), mem, PastFields(vs, fields, mem.next))
    decreases vs, 0
  {
    if vs != [] {
      hide Past, LowerFlat, HasShape;
      FlatNeedsRoom(vs[0], fields[0], mem);
      var first := LowerFlat(vs[0], fields[0], mem);
      if first.Ok? {
        FlatFieldsNeedRoom(vs[1..], fields[1..], first.value.1);
      }
    }
  }

  /** Where allocation has got to once a value has been lowered: its own room first, when it is too long for arguments. */
  function PastLowered(v: Val, s: Shape, next: nat): nat {
    Past(v, s, if |Flat(s)| > MAX_FLAT then AlignUp(next, Align(s)) + Size(s) else next)
  }

  /**
   * A type that holds a closure or a capability is refused by the first of them; a value of any
   * other is lowered exactly when everything allocated for it ends inside memory.
   */
  lemma LowerNeedsRoom(v: Val, s: Shape, mem: Mem)
    requires HasShape(v, s) && mem.next <= |mem.bytes|
    ensures match Lower(v, s, mem)
      case Ok((_, after)) =>
        Refusal(s).None? && PastLowered(v, s, mem.next) <= |mem.bytes| && after.next == PastLowered(v, s, mem.next)
      case Err(error) =>
        if Refusal(s).Some? then error == NotSupported(Refusal(s).value)
        else error == OutOfBounds && PastLowered(v, s, mem.next) > |mem.bytes|
  {
    hide HasShape, Past, LowerToMemory, LowerFlat, AlignUp, Size, Align, Refusal, Flat;
    if Refusal(s).None? {
      if |Flat(s)| > MAX_FLAT {
        LongNeedsRoom(v, s, mem);
      } else {
        FlatNeedsRoom(v, s, mem);
      }
    }
  }

  lemma LongNeedsRoom(v: Val, s: Shape, mem: Mem)
    requires HasShape(v, s) && mem.next <= |mem.bytes|
    ensures
      var at, taken := AlignUp(mem.next, Align(s)), Alloc(mem, Size(s), Align(s));
      && (taken.Ok? ==> taken.value.1 == at && RoomDecides(LowerToMemory(v, s, taken.value.0, at), mem, Past(v, s, at + Size(s))))
      && (taken.Err? ==> taken.error == OutOfBounds && Past(v, s, at + Size(s)) > |mem.bytes|)
  {
    hide HasShape, LowerToMemory, AlignUp, Size, Aligned;
    AlignsUpFor(mem.next, s);
    if Alloc(mem, Size(s), Align(s)).Ok? {
      MemoryNeedsRoom(v, s, Alloc(mem, Size(s), Align(s)).value.0, AlignUp(mem.next, Align(s)));
    }
  }
}
