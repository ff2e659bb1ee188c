/**
 * What a component sees of a value that crosses to it: how many arguments it is given, and
 * which bytes of memory spell the value, told without lowering or lifting anything.
 */
module Crossing {
  import opened Ints
  import opened Wasm
  import opened Types
  import opened Abi
  import opened AbiLayout
  import opened AbiRoundTrip

  // -- how many arguments ----------------------------------------------------

  /** Up to sixteen arguments go one by one, of the flattened types; more than that go as one address. */
  lemma ArgumentsAre(v: Val, s: Shape, mem: Mem)
    requires HasShape(v, s) && Lower(v, s, mem).Ok?
    ensures
      var args := Lower(v, s, mem).value.0;
      if |Flat(s)| <= 16 then |args| == |Flat(s)| && TypesOf(args) == Flat(s) else |args| == 1 && args[0].A32?
  {
    if |Flat(s)| <= MAX_FLAT {
      FlatTypes(v, s, mem);
    }
  }

  function AllInts(n: nat): seq<Shape> { seq(n, _ => IntS) }

  function Numbers(n: nat, m: i64): seq<Val> { seq(n, _ => IntV(m)) }

  lemma {:induction false} IntsFlat(n: nat, m: i64, mem: Mem)
    ensures FlatAll(AllInts(n)) == seq(n, _ => I64) && EachHas(Numbers(n, m), AllInts(n)) && FieldsRefusal(AllInts(n)) == None
    ensures LowerFlatFields(Numbers(n, m), AllInts(n), mem) == Ok((seq(n, _ => A64(m)), mem))
    decreases n
  {
    if n == 0 {
      assert Numbers(0, m) == [] && AllInts(0) == [];
    } else {
      assert HasShape(Numbers(n, m)[0], AllInts(n)[0]);
      IntsFlat(n - 1, m, mem);
      assert AllInts(n)[1..] == AllInts(n - 1) && Numbers(n, m)[1..] == Numbers(n - 1, m);
      var one: seq<Arg> := [A64(m)];
      assert seq(n, _ => A64(m)) == one + seq(n - 1, _ => A64(m));
      assert LowerFlat(IntV(m), IntS, mem) == Ok((one, mem));
      var wide: seq<ValType> := [I64];
      assert seq(n, _ => I64) == wide + seq(n - 1, _ => I64);
    }
  }

  /** A record of sixteen numbers goes as sixteen arguments. */
  lemma SixteenNumbers(m: i64, mem: Mem)
    ensures Lower(RecordV(Numbers(16, m)), RecordS(AllInts(16)), mem) == Ok((seq(16, _ => A64(m)), mem))
  {
    IntsFlat(16, m, mem);
  }

  /** A record of seventeen goes as the address of where it was laid out. */
  lemma SeventeenNumbers(m: i64, mem: Mem)
    requires Lower(RecordV(Numbers(17, m)), RecordS(AllInts(17)), mem).Ok?
    ensures |Lower(RecordV(Numbers(17, m)), RecordS(AllInts(17)), mem).value.0| == 1
    ensures Lower(RecordV(Numbers(17, m)), RecordS(AllInts(17)), mem).value.0[0].A32?
  {
    IntsFlat(17, m, mem);
    ArgumentsAre(RecordV(Numbers(17, m)), RecordS(AllInts(17)), mem);
  }

  // -- which bytes spell a value ---------------------------------------------

  /** Where the field at this place in a record is, the record laid out from `at`. */
  function FieldPlace(fields: seq<Shape>, at: nat, k: nat): nat
    requires k < |fields|
  {
    AlignUp(EndOf(fields[..k], at), Align(fields[k]))
  }

  /** The little-endian number in this many bytes. */
  function NumberAt(bytes: seq<byte>, at: nat, width: nat): nat
    requires at + width <= |bytes|
  {
    LeValue(bytes[at..at + width])
  }

  /**
   * The bytes here spell this value: a boolean by one byte that is not zero; a number by eight;
   * a string or a list by where it is and how long it is, four bytes each; a record by its fields
   * in order; a choice by its number in as few bytes as it takes, and then the fields that go
   * with it.
   */
  ghost predicate Spells(bytes: seq<byte>, at: nat, s: Shape, v: Val)
    decreases v, 1
  {
    match s
    case UnitS => v.UnitV?
    case BoolS => v.BoolV? && at + 1 <= |bytes| && (v.b <==> bytes[at] != 0)
    case IntS => v.IntV? && at + 8 <= |bytes| && BytesWord(bytes[at..at + 8]) == v.n
    case StrS =>
      && v.StrV? && at + 8 <= |bytes| && NumberAt(bytes, at + 4, 4) == |v.text|
      && var pointer := NumberAt(bytes, at, 4);
         v.text != [] ==> pointer + |v.text| <= |bytes| && bytes[pointer..pointer + |v.text|] == v.text
    case ListS(element) =>
      && v.ListV? && at + 8 <= |bytes| && NumberAt(bytes, at + 4, 4) == |v.elements|
      && SpellsAll(bytes, NumberAt(bytes, at, 4), element, v.elements)
    case RecordS(fields) => v.RecordV? && SpellsFields(bytes, at, fields, v.fields)
    case ChoiceS(variants) =>
      var width := if |variants| <= 256 then 1 else if |variants| <= 65536 then 2 else 4;
      && v.VariantV? && at + width <= |bytes| && NumberAt(bytes, at, width) == v.discriminant < |variants|
      && SpellsFields(bytes, at + PayloadAt(variants), variants[v.discriminant].fields, v.payload)
    case RefusedS(_) => false
  }

  function ElementPlace(at: nat, stride: nat, k: nat): nat { at + k * stride }

  lemma NextPlace(at: nat, stride: nat, k: nat)
    ensures ElementPlace(at, stride, 0) == at && ElementPlace(at, stride, k + 1) == ElementPlace(at + stride, stride, k)
  {
  }

  /** Elements a stride apart. */
  ghost predicate SpellsAll(bytes: seq<byte>, at: nat, element: Shape, vs: seq<Val>)
    decreases vs, 0
  {
    forall k | 0 <= k < |vs| :: Spells(bytes, ElementPlace(at, Stride(element), k), element, vs[k])
  }

  ghost predicate SpellsFields(bytes: seq<byte>, at: nat, fields: seq<Shape>, vs: seq<Val>)
    decreases vs, 0
  {
    |vs| == |fields| && forall k | 0 <= k < |vs| :: Spells(bytes, FieldPlace(fields, at, k), fields[k], vs[k])
  }

  /** Lifting out of memory gives the value the bytes spell, and only that. */
  lemma {:induction false} LiftsWhatIsSpelled(bytes: seq<byte>, at: nat, s: Shape, v: Val)
    ensures LiftFromMemory(s, bytes, at) == Ok(v) <==> Spells(bytes, at, s, v)
    decreases s, 0
  {
    hide SpellsAll, SpellsFields, LiftFields, LiftElements, LeValue, BytesWord, PayloadAt;
    match s
    case BoolS => ByteLifts(bytes, at);
    case StrS => PairLifts(bytes, at);
    case ListS(element) =>
      PairLifts(bytes, at);
      if at + 8 <= |bytes| && v.ListV? {
        ListLifts(bytes, NumberAt(bytes, at, 4), element, NumberAt(bytes, at + 4, 4), v.elements);
      }
    case RecordS(fields) =>
      if v.RecordV? {
        FieldsLift(bytes, at, fields, v.fields);
      }
    case ChoiceS(variants) =>
      var width := DiscriminantSize(|variants|);
      if at + width <= |bytes| && v.VariantV? && NumberAt(bytes, at, width) < |variants| {
        FieldsLift(bytes, at + PayloadAt(variants), variants[NumberAt(bytes, at, width)].fields, v.payload);
      }
    case _ =>
  }

  lemma ByteLifts(bytes: seq<byte>, at: nat)
    ensures LoadNumber(bytes, at, 1) == if at + 1 <= |bytes| then Ok(bytes[at]) else Err(OutOfBounds)
  {
    if at + 1 <= |bytes| {
      var one := bytes[at..at + 1];
      assert one[1..] == [] && LeValue(one[1..]) == 0 && LeValue(one) == one[0];
    }
  }

  lemma PairLifts(bytes: seq<byte>, at: nat)
    ensures LoadPair(bytes, at)
         == if at + 8 <= |bytes| then Ok((NumberAt(bytes, at, 4), NumberAt(bytes, at + 4, 4))) else Err(OutOfBounds)
  {
    hide LeValue;
  }

  lemma {:induction false} ListLifts(bytes: seq<byte>, at: nat, element: Shape, count: nat, vs: seq<Val>)
    ensures LiftElements(element, bytes, at, count) == Ok(vs) <==> |vs| == count && SpellsAll(bytes, at, element, vs)
    decreases element, 1, count
  {
    hide LiftFromMemory, Spells, SpellsAll, Stride;
    if count > 0 && vs != [] {
      LiftsWhatIsSpelled(bytes, at, element, vs[0]);
      ListLifts(bytes, at + Stride(element), element, count - 1, vs[1..]);
      AllFromNext(bytes, at, element, vs);
      assert vs == [vs[0]] + vs[1..];
    } else if vs == [] {
      AllOfNone(bytes, at, element);
    }
  }

  lemma AllOfNone(bytes: seq<byte>, at: nat, element: Shape)
    ensures SpellsAll(bytes, at, element, [])
  {
  }

  lemma AllFromNext(bytes: seq<byte>, at: nat, element: Shape, vs: seq<Val>)
    requires vs != []
    ensures SpellsAll(bytes, at, element, vs) <==> Spells(bytes, at, element, vs[0]) && SpellsAll(bytes, at + Stride(element), element, vs[1..])
  {
    hide Spells, Stride, ElementPlace;
    var stride := Stride(element);
    NextPlace(at, stride, 0);
    forall k | 0 <= k < |vs[1..]| ensures ElementPlace(at + stride, stride, k) == ElementPlace(at, stride, k + 1) && vs[1..][k] == vs[k + 1] {
      NextPlace(at, stride, k);
    }
    if Spells(bytes, at, element, vs[0]) && SpellsAll(bytes, at + stride, element, vs[1..]) {
      forall k | 0 <= k < |vs| ensures Spells(bytes, ElementPlace(at, stride, k), element, vs[k]) {
        if k > 0 {
          NextPlace(at, stride, k - 1);
          assert Spells(bytes, ElementPlace(at + stride, stride, k - 1), element, vs[1..][k - 1]);
        }
      }
    }
    if SpellsAll(bytes, at, element, vs) {
      assert Spells(bytes, ElementPlace(at, stride, 0), element, vs[0]);
    }
  }

  lemma {:induction false} FieldsLift(bytes: seq<byte>, at: nat, fields: seq<Shape>, vs: seq<Val>)
    ensures LiftFields(fields, bytes, at) == Ok(vs) <==> SpellsFields(bytes, at, fields, vs)
    decreases fields, 0
  {
    hide LiftFromMemory, Spells, SpellsFields, AlignUp, Align, Size;
    FieldsAlike(bytes, at, fields, vs);
    if fields != [] && vs != [] {
      var here := AlignUp(at, Align(fields[0]));
      LiftsWhatIsSpelled(bytes, here, fields[0], vs[0]);
      FieldsLift(bytes, here + Size(fields[0]), fields[1..], vs[1..]);
      FieldsFromNext(bytes, at, fields, vs);
      assert vs == [vs[0]] + vs[1..];
    }
  }

  lemma FieldsAlike(bytes: seq<byte>, at: nat, fields: seq<Shape>, vs: seq<Val>)
    ensures SpellsFields(bytes, at, fields, vs) ==> |vs| == |fields|
    ensures fields == [] && vs == [] ==> SpellsFields(bytes, at, fields, vs)
  {
  }

  /** The fields after the first are laid out from where it ends. */
  lemma PlaceFromNext(fields: seq<Shape>, at: nat, k: nat)
    requires k < |fields|
    ensures
      var here := AlignUp(at, Align(fields[0]));
      FieldPlace(fields, at, k) == if k == 0 then here else FieldPlace(fields[1..], here + Size(fields[0]), k - 1)
  {
    hide Align, Size, AlignUp;
    if k > 0 {
      assert fields[..k][1..] == fields[1..][..k - 1];
    }
  }

  lemma FieldsFromNext(bytes: seq<byte>, at: nat, fields: seq<Shape>, vs: seq<Val>)
    requires fields != [] && vs != []
    ensures
      var here := AlignUp(at, Align(fields[0]));
      SpellsFields(bytes, at, fields, vs) <==>
        Spells(bytes, here, fields[0], vs[0]) && SpellsFields(bytes, here + Size(fields[0]), fields[1..], vs[1..])
  {
    hide Spells, Align, Size, AlignUp, FieldPlace;
    var here := AlignUp(at, Align(fields[0]));
    var next := here + Size(fields[0]);
    PlaceFromNext(fields, at, 0);
    forall k | 0 <= k < |fields[1..]| ensures FieldPlace(fields[1..], next, k) == FieldPlace(fields, at, k + 1) && fields[1..][k] == fields[k + 1] {
      PlaceFromNext(fields, at, k + 1);
    }
    if |vs| == |fields| {
      if SpellsFields(bytes, at, fields, vs) {
        assert Spells(bytes, FieldPlace(fields, at, 0), fields[0], vs[0]);
        forall k | 0 <= k < |vs[1..]| ensures Spells(bytes, FieldPlace(fields[1..], next, k), fields[1..][k], vs[1..][k]) {
          assert Spells(bytes, FieldPlace(fields, at, k + 1), fields[k + 1], vs[k + 1]);
        }
      }
      if Spells(bytes, here, fields[0], vs[0]) && SpellsFields(bytes, next, fields[1..], vs[1..]) {
        forall k | 0 <= k < |vs| ensures Spells(bytes, FieldPlace(fields, at, k), fields[k], vs[k]) {
          if k > 0 {
            assert Spells(bytes, FieldPlace(fields[1..], next, k - 1), fields[1..][k - 1], vs[1..][k - 1]);
          }
        }
      }
    }
  }

  /** Bytes spell at most one value of a shape, and what was lowered into memory is what they spell from then on. */
  lemma LoweredIsSpelled(v: Val, s: Shape, mem: Mem, at: nat, later: seq<byte>)
    requires HasShape(v, s) && Narrow(v)
    requires Aligned(at, s) && at + Size(s) <= mem.next <= |mem.bytes| < LIMIT && LowerToMemory(v, s, mem, at).Ok?
    requires
      var after := LowerToMemory(v, s, mem, at).value;
      Agree(after.bytes, later, at, at + Size(s)) && Agree(after.bytes, later, mem.next, after.next)
    ensures forall w :: Spells(later, at, s, w) <==> w == v
  {
    MemoryRoundTrip(v, s, mem, at, later);
    forall w ensures Spells(later, at, s, w) <==> w == v {
      LiftsWhatIsSpelled(later, at, s, w);
    }
  }

  /** A value that is too long to go one by one is spelled at the address that goes instead. */
  lemma AddressSpells(v: Val, s: Shape, mem: Mem)
    requires HasShape(v, s) && Narrow(v) && mem.next <= |mem.bytes| < LIMIT && Lower(v, s, mem).Ok? && |Flat(s)| > 16
    ensures
      var (args, after) := Lower(v, s, mem).value;
      |args| == 1 && args[0].A32? && args[0].n >= 0 && Spells(after.bytes, args[0].n, s, v)
  {
    RoundTrip(v, s, mem);
    var (args, after) := Lower(v, s, mem).value;
    LiftsWhatIsSpelled(after.bytes, args[0].n, s, v);
  }

  // -- arguments -------------------------------------------------------------

  /** A string goes as where its bytes are and how many, in that order. */
  lemma TextArguments(text: Text, mem: Mem)
    requires mem.next <= |mem.bytes| < LIMIT && Lower(StrV(text), StrS, mem).Ok?
    ensures
      var (args, after) := Lower(StrV(text), StrS, mem).value;
      && |args| == 2 && args[0].A32? && args[1] == A32(|text|)
      && (text != [] ==> 0 <= args[0].n && args[0].n + |text| <= |after.bytes| && after.bytes[args[0].n..args[0].n + |text|] == text)
  {
    if text != [] {
      Casts(AlignUp(mem.next, 1));
    }
    Casts(|text|);
  }

  /** A result of a number or a boolean: zero or one, and then a slot wide enough for either. */
  lemma ResultArguments(n: i64, b: bool, mem: Mem)
    ensures
      var s := ChoiceS([Case([IntS]), Case([BoolS])]);
      && Flat(s) == [I32, I64]
      && Lower(VariantV(0, [IntV(n)]), s, mem) == Ok(([A32(0), A64(n)], mem))
      && Lower(VariantV(1, [BoolV(b)]), s, mem) == Ok(([A32(1), A64(if b then 1 else 0)], mem))
  {
    var variants := [Case([IntS]), Case([BoolS])];
    assert FlatAll([IntS]) == [I64] && FlatAll([BoolS]) == [I32] by {
      assert [IntS][1..] == [] && [BoolS][1..] == [];
    }
    assert Join([], [I64]) == [I64] && Join([I64], [I32]) == [I64];
    assert variants[1..] == [Case([BoolS])] && variants[1..][1..] == [];
    assert Payload(variants, []) == Payload(variants[1..], [I64]) == Payload([], [I64]) == [I64];
    OneField(IntV(n), IntS, A64(n), mem);
    OneField(BoolV(b), BoolS, A32(if b then 1 else 0), mem);
    assert Padded([A64(n)], [I64]) == [A64(n)];
    assert Padded([A32(if b then 1 else 0)], [I64]) == [A64(if b then 1 else 0)];
    NothingRefused();
    Choices(variants, 0, IntV(n), A64(n), A64(n), mem);
    Choices(variants, 1, BoolV(b), A32(if b then 1 else 0), A64(if b then 1 else 0), mem);
  }

  lemma NothingRefused()
    ensures VariantsRefusal([Case([IntS]), Case([BoolS])]) == None
  {
    assert [IntS][1..] == [] && [BoolS][1..] == [];
    assert [Case([IntS]), Case([BoolS])][1..] == [Case([BoolS])] && [Case([BoolS])][1..] == [];
  }

  lemma Choices(variants: seq<Case>, k: nat, held: Val, arg: Arg, slot: Arg, mem: Mem)
    requires k < |variants| < LIMIT && Payload(variants, []) == [I64] && VariantsRefusal(variants) == None
    requires LowerFlatFields([held], variants[k].fields, mem) == Ok(([arg], mem)) && Padded([arg], [I64]) == [slot]
    ensures Lower(VariantV(k, [held]), ChoiceS(variants), mem) == Ok(([A32(k), slot], mem))
  {
    hide LowerFlatFields, Padded, Payload, VariantsRefusal;
    Casts(k);
    assert Flat(ChoiceS(variants)) == [I32, I64];
    assert [A32(k)] + [slot] == [A32(k), slot];
  }

  lemma OneField(v: Val, s: Shape, arg: Arg, mem: Mem)
    requires LowerFlat(v, s, mem) == Ok(([arg], mem))
    ensures LowerFlatFields([v], [s], mem) == Ok(([arg], mem))
  {
    assert [v][1..] == [] && [s][1..] == [];
    var none: seq<Arg> := [];
    assert LowerFlatFields([], [], mem) == Ok((none, mem)) && [arg] + none == [arg];
  }

  /** A boolean and then a number: the number is eight bytes in, and both take sixteen. */
  lemma BooleanThenNumber()
    ensures Size(RecordS([BoolS, IntS])) == 16 && Align(RecordS([BoolS, IntS])) == 8
    ensures FieldPlace([BoolS, IntS], 0, 0) == 0 && FieldPlace([BoolS, IntS], 0, 1) == 8
    ensures Size(StrS) == 8 && Align(StrS) == 4 && Stride(BoolS) == 1
  {
    var two := [BoolS, IntS];
    assert two[1..] == [IntS] && [IntS][1..] == [] && two[..0] == [] && two[..1] == [BoolS] && [BoolS][1..] == [];
    assert FieldsAlign(two, 1) == FieldsAlign([IntS], 1) == FieldsAlign([], 8) == 8;
    assert Size(BoolS) == 1 && Align(BoolS) == 1 && AlignUp(1, 1) == 1;
    assert EndOf([BoolS], 0) == EndOf([], 1) == 1;
    assert EndOf(two, 0) == EndOf([IntS], 1) == EndOf([], 16) == 16;
  }
}
