/**
 * The canonical ABI's two forms of a value: flat core values, or bytes in linear memory
 * (Component Model, CanonicalABI.md: Alignment, Element Size, Storing, Loading, Flattening,
 * Flat Lowering and Flat Lifting).
 */
module Abi {
  import opened Ints
  import opened Wasm
  import opened Types

  // -- shapes ----------------------------------------------------------------

  /** A type once its layouts have been looked up. */
  datatype Shape =
    | UnitS
    | BoolS
    | IntS
    | StrS
    | ListS(element: Shape)
    | RecordS(fields: seq<Shape>)
    | ChoiceS(variants: seq<Case>)
    | RefusedS(kind: Unsupported)

  /** One variant of a choice. */
  datatype Case = Case(fields: seq<Shape>)

  datatype Unsupported = ClosureRefused | CapabilityRefused

  /** The layouts of a program, and for each how deeply layouts nest below it. */
  datatype Table = Table(layouts: seq<Layout>, rank: seq<nat>)

  function RankOf(t: Table, ty: Ty): nat {
    match ty
    case List(element) => RankOf(t, element)
    case Aggregate(id) => if id < |t.rank| then t.rank[id] + 1 else 0
    case _ => 0
  }

  predicate Known(t: Table, ty: Ty) {
    match ty
    case List(element) => Known(t, element)
    case Aggregate(id) => id < |t.layouts|
    case _ => true
  }

  predicate FieldsBelow(t: Table, fields: seq<Field>, rank: nat) {
    forall f | 0 <= f < |fields| :: Known(t, fields[f].ty) && RankOf(t, fields[f].ty) <= rank
  }

  /** No layout holds itself, through fields or through the elements of lists. */
  predicate Acyclic(t: Table) {
    && |t.rank| == |t.layouts|
    && forall id | 0 <= id < |t.layouts| ::
         && t.layouts[id].variants != []
         && forall v | 0 <= v < |t.layouts[id].variants| :: FieldsBelow(t, t.layouts[id].variants[v].fields, t.rank[id])
  }

  function ShapeOf(t: Table, ty: Ty): Shape
    requires Acyclic(t) && Known(t, ty)
    decreases RankOf(t, ty), 1, ty
  {
    match ty
    case Unit => UnitS
    case Bool => BoolS
    case Int => IntS
    case Str => StrS
    case List(element) => ListS(ShapeOf(t, element))
    case Aggregate(id) =>
      var variants := t.layouts[id].variants;
      if t.layouts[id].Tagged() then
        ChoiceS(seq(|variants|, v requires 0 <= v < |variants| =>
                      Case(FieldShapes(t, variants[v].fields, t.rank[id]))))
      else RecordS(FieldShapes(t, variants[0].fields, t.rank[id]))
    case Closure => RefusedS(ClosureRefused)
    case Capability => RefusedS(CapabilityRefused)
  }

  function FieldShapes(t: Table, fields: seq<Field>, rank: nat): (shapes: seq<Shape>)
    requires Acyclic(t) && FieldsBelow(t, fields, rank)
    ensures |shapes| == |fields|
    decreases rank + 1, 0, fields
  {
    if fields == [] then [] else [ShapeOf(t, fields[0].ty)] + FieldShapes(t, fields[1..], rank)
  }

  /** The first thing in a type that cannot cross, fields in order and elements included. */
  function Refusal(s: Shape): Option<Unsupported> {
    match s
    case RefusedS(kind) => Some(kind)
    case ListS(element) => Refusal(element)
    case RecordS(fields) => FieldsRefusal(fields)
    case ChoiceS(variants) => VariantsRefusal(variants)
    case _ => None
  }

  function FieldsRefusal(fields: seq<Shape>): Option<Unsupported> {
    if fields == [] then None
    else if Refusal(fields[0]).Some? then Refusal(fields[0])
    else FieldsRefusal(fields[1..])
  }

  function VariantsRefusal(variants: seq<Case>): Option<Unsupported> {
    if variants == [] then None
    else if FieldsRefusal(variants[0].fields).Some? then FieldsRefusal(variants[0].fields)
    else VariantsRefusal(variants[1..])
  }

  // -- flat types ------------------------------------------------------------

  const MAX_FLAT: nat := 16

  function Flat(s: Shape): seq<ValType> {
    match s
    case BoolS => [I32]
    case IntS => [I64]
    case StrS => [I32, I32]
    case ListS(_) => [I32, I32]
    case RecordS(fields) => FlatAll(fields)
    case ChoiceS(variants) => [I32] + Payload(variants, [])
    case _ => []
  }

  function FlatAll(fields: seq<Shape>): seq<ValType> {
    if fields == [] then [] else Flat(fields[0]) + FlatAll(fields[1..])
  }

  /** What the payload of every variant fits in, variant by variant. */
  function Payload(variants: seq<Case>, joined: seq<ValType>): seq<ValType>
    decreases variants
  {
    if variants == [] then joined else Payload(variants[1..], Join(joined, FlatAll(variants[0].fields)))
  }

  function JoinOne(a: ValType, b: ValType): ValType { if a == I64 || b == I64 then I64 else I32 }

  /** The wider of the two where both have an entry, and whichever there is where one does. */
  function Join(a: seq<ValType>, b: seq<ValType>): (r: seq<ValType>)
    ensures |r| == if |a| >= |b| then |a| else |b|
  {
    seq(if |a| >= |b| then |a| else |b|,
        i requires 0 <= i < |a| || 0 <= i < |b| =>
          if i < |a| && i < |b| then JoinOne(a[i], b[i]) else if i < |a| then a[i] else b[i])
  }

  // -- sizes -----------------------------------------------------------------

  /** The alignments there are: powers of two, so that a smaller one divides a larger. */
  predicate Power(a: nat) { a == 1 || a == 4 || a == 8 }

  /** The next multiple of an alignment. */
  function AlignUp(n: nat, a: nat): (r: nat)
    requires Power(a)
    ensures n <= r
  {
    if a == 8 then n + (8 - n % 8) % 8 else if a == 4 then n + (4 - n % 4) % 4 else n
  }

  function Size(s: Shape): nat {
    match s
    case BoolS => 1
    case IntS => 8
    case StrS => 8
    case ListS(_) => 8
    case RecordS(fields) => AlignUp(EndOf(fields, 0), FieldsAlign(fields, 1))
    case ChoiceS(variants) =>
      var align := VariantsAlign(variants, 1);
      AlignUp(AlignUp(DiscriminantSize(|variants|), align) + LargestPayload(variants, 0), align)
    case _ => 0
  }

  function Align(s: Shape): (a: nat)
    ensures Power(a)
  {
    match s
    case IntS => 8
    case StrS => 4
    case ListS(_) => 4
    case RecordS(fields) => FieldsAlign(fields, 1)
    case ChoiceS(variants) => VariantsAlign(variants, 1)
    case _ => 1
  }

  function Max(a: nat, b: nat): nat { if a >= b then a else b }

  function FieldsAlign(fields: seq<Shape>, least: nat): (a: nat)
    requires Power(least)
    ensures Power(a)
    ensures least <= a
    ensures forall i | 0 <= i < |fields| :: Align(fields[i]) <= a
    decreases fields
  {
    if fields == [] then least else FieldsAlign(fields[1..], Max(least, Align(fields[0])))
  }

  function VariantsAlign(variants: seq<Case>, least: nat): (a: nat)
    requires Power(least)
    ensures Power(a)
    ensures least <= a
    decreases variants
  {
    if variants == [] then least else VariantsAlign(variants[1..], FieldsAlign(variants[0].fields, least))
  }

  function DiscriminantSize(variants: nat): (r: nat)
    ensures 1 <= r <= 4
  {
    if variants <= 0x100 then 1 else if variants <= 0x1_0000 then 2 else 4
  }

  /** Where fields laid out from `at` on end. */
  function EndOf(fields: seq<Shape>, at: nat): (end: nat)
    ensures at <= end
    decreases fields
  {
    if fields == [] then at
    else EndOf(fields[1..], AlignUp(at, Align(fields[0])) + Size(fields[0]))
  }

  function LargestPayload(variants: seq<Case>, largest: nat): nat
    decreases variants
  {
    if variants == [] then largest else LargestPayload(variants[1..], Max(largest, EndOf(variants[0].fields, 0)))
  }

  /** Where the payload of a choice starts, past its discriminant. */
  function PayloadAt(variants: seq<Case>): nat {
    AlignUp(DiscriminantSize(|variants|), VariantsAlign(variants, 1))
  }

  function Stride(s: Shape): nat { AlignUp(Size(s), Align(s)) }

  /** What a list's elements take. */
  function Room(s: Shape, n: nat): nat { Stride(s) * n }

  // -- values ----------------------------------------------------------------

  datatype Val =
    | UnitV
    | BoolV(b: bool)
    | IntV(n: i64)
    | StrV(text: Text)
    | ListV(elements: seq<Val>)
    | RecordV(fields: seq<Val>)
    | VariantV(discriminant: nat, payload: seq<Val>)

  datatype Error =
    | OutOfBounds
    | TypeMismatch
    | InvalidDiscriminant(got: int, max: int)
    | NotSupported(kind: Unsupported)

  datatype Result<+T> = Ok(value: T) | Err(error: Error)

  /** A flat argument. */
  datatype Arg = A32(n: i32) | A64(m: i64)

  function As64(a: Arg): i64 { match a case A32(n) => n case A64(m) => m }

  function As32(a: Arg): i32 { match a case A32(n) => n case A64(m) => Wrap32(m) }

  function TypeOfArg(a: Arg): ValType { match a case A32(_) => I32 case A64(_) => I64 }

  function TypesOf(args: seq<Arg>): (r: seq<ValType>)
    ensures |r| == |args|
  {
    seq(|args|, i requires 0 <= i < |args| => TypeOfArg(args[i]))
  }

  function ZeroArg(ty: ValType): Arg { match ty case I32 => A32(0) case I64 => A64(0) }

  // -- memory ----------------------------------------------------------------

  /** The bytes of a component's memory, and where the next allocation starts looking. */
  datatype Mem = Mem(bytes: seq<byte>, next: nat)

  function Alloc(mem: Mem, size: nat, align: nat): Result<(Mem, nat)>
    requires Power(align)
  {
    var at := AlignUp(mem.next, align);
    if at + size > |mem.bytes| then Err(OutOfBounds) else Ok((mem.(next := at + size), at))
  }

  function Write(mem: Mem, at: nat, data: seq<byte>): Result<Mem> {
    if at + |data| > |mem.bytes| then Err(OutOfBounds)
    else Ok(mem.(bytes := mem.bytes[..at] + data + mem.bytes[at + |data|..]))
  }

  function Read(bytes: seq<byte>, at: nat, length: nat): (r: Result<seq<byte>>)
    ensures r.Ok? ==> |r.value| == length
  {
    if at + length > |bytes| then Err(OutOfBounds) else Ok(bytes[at..at + length])
  }

  /** Four bytes of an address or a length: the low half of the word it is cast from. */
  function Word32(n: nat): (r: seq<byte>)
    ensures |r| == 4
  {
    LeBytes(n, 4)
  }

  // -- lowering into memory --------------------------------------------------

  /** A string's bytes where they fit, or nowhere when there are none. */
  function StoreText(text: Text, mem: Mem): Result<(Mem, nat)> {
    if text == [] then Ok((mem, 0))
    else
      match Alloc(mem, |text|, 1)
      case Ok((room, at)) =>
        (match Write(room, at, text)
         case Ok(after) => Ok((after, at))
         case Err(error) => Err(error))
      case Err(error) => Err(error)
  }

  /** A pointer and a length, one after the other. */
  function StorePair(mem: Mem, at: nat, pointer: nat, length: nat): Result<Mem> {
    match Write(mem, at, Word32(pointer))
    case Ok(between) => Write(between, at + 4, Word32(length))
    case Err(error) => Err(error)
  }

  function LowerToMemory(v: Val, s: Shape, mem: Mem, at: nat): Result<Mem>
    decreases v, 1
  {
    match s
    case UnitS => if v.UnitV? then Ok(mem) else Err(TypeMismatch)
    case BoolS => if v.BoolV? then Write(mem, at, [if v.b then 1 else 0]) else Err(TypeMismatch)
    case IntS => if v.IntV? then Write(mem, at, WordBytes(v.n)) else Err(TypeMismatch)
    case StrS =>
      if v.StrV? then
        (match StoreText(v.text, mem)
         case Ok((after, pointer)) => StorePair(after, at, pointer, |v.text|)
         case Err(error) => Err(error))
      else Err(TypeMismatch)
    case ListS(element) =>
      if v.ListV? then
        (match StoreList(v.elements, element, mem)
         case Ok((after, pointer)) => StorePair(after, at, pointer, |v.elements|)
         case Err(error) => Err(error))
      else Err(TypeMismatch)
    case RecordS(fields) => if v.RecordV? then LowerFields(v.fields, fields, mem, at) else Err(TypeMismatch)
    case ChoiceS(variants) =>
      if !v.VariantV? || v.discriminant >= |variants| then Err(TypeMismatch)
      else
        (match Write(mem, at, Word32(v.discriminant)[..DiscriminantSize(|variants|)])
         case Ok(between) => LowerFields(v.payload, variants[v.discriminant].fields, between, at + PayloadAt(variants))
         case Err(error) => Err(error))
    case RefusedS(kind) => Err(NotSupported(kind))
  }

  /** Every element where it fits, a stride apart, or nowhere when there are none. */
  function StoreList(elements: seq<Val>, element: Shape, mem: Mem): Result<(Mem, nat)>
    decreases elements, 1
  {
    if elements == [] then Ok((mem, 0))
    else
      match Alloc(mem, Room(element, |elements|), Align(element))
      case Ok((room, at)) =>
        (match LowerElements(elements, element, room, at)
         case Ok(after) => Ok((after, at))
         case Err(error) => Err(error))
      case Err(error) => Err(error)
  }

  function LowerElements(elements: seq<Val>, element: Shape, mem: Mem, at: nat): Result<Mem>
    decreases elements, 0
  {
    if elements == [] then Ok(mem)
    else
      match LowerToMemory(elements[0], element, mem, at)
      case Ok(after) => LowerElements(elements[1..], element, after, at + Stride(element))
      case Err(error) => Err(error)
  }

  /** Fields in order, each where its alignment puts it, for as long as there are both. */
  function LowerFields(vs: seq<Val>, fields: seq<Shape>, mem: Mem, at: nat): Result<Mem>
    decreases vs, 0
  {
    if vs == [] || fields == [] then Ok(mem)
    else
      var here := AlignUp(at, Align(fields[0]));
      match LowerToMemory(vs[0], fields[0], mem, here)
      case Ok(after) => LowerFields(vs[1..], fields[1..], after, here + Size(fields[0]))
      case Err(error) => Err(error)
  }

  // -- lifting out of memory -------------------------------------------------

  function LiftText(bytes: seq<byte>, pointer: nat, length: nat): Result<Val> {
    if length == 0 then Ok(StrV([]))
    else
      match Read(bytes, pointer, length)
      case Ok(text) => Ok(StrV(text))
      case Err(error) => Err(error)
  }

  function LoadNumber(bytes: seq<byte>, at: nat, width: nat): Result<nat> {
    match Read(bytes, at, width)
    case Ok(data) => Ok(LeValue(data))
    case Err(error) => Err(error)
  }

  /** A pointer and a length, read one after the other. */
  function LoadPair(bytes: seq<byte>, at: nat): Result<(nat, nat)> {
    match LoadNumber(bytes, at, 4)
    case Ok(pointer) =>
      (match LoadNumber(bytes, at + 4, 4)
       case Ok(length) => Ok((pointer, length))
       case Err(error) => Err(error))
    case Err(error) => Err(error)
  }

  function LiftFromMemory(s: Shape, bytes: seq<byte>, at: nat): Result<Val>
    decreases s, 0
  {
    match s
    case UnitS => Ok(UnitV)
    case BoolS =>
      (match LoadNumber(bytes, at, 1) case Ok(n) => Ok(BoolV(n != 0)) case Err(error) => Err(error))
    case IntS =>
      (match Read(bytes, at, 8) case Ok(data) => Ok(IntV(BytesWord(data))) case Err(error) => Err(error))
    case StrS =>
      (match LoadPair(bytes, at)
       case Ok((pointer, length)) => LiftText(bytes, pointer, length)
       case Err(error) => Err(error))
    case ListS(element) =>
      (match LoadPair(bytes, at)
       case Ok((pointer, count)) => LiftList(element, bytes, pointer, count)
       case Err(error) => Err(error))
    case RecordS(fields) =>
      (match LiftFields(fields, bytes, at) case Ok(vs) => Ok(RecordV(vs)) case Err(error) => Err(error))
    case ChoiceS(variants) =>
      (match LoadNumber(bytes, at, DiscriminantSize(|variants|))
       case Ok(discriminant) =>
         if discriminant >= |variants| then Err(InvalidDiscriminant(discriminant, |variants| - 1))
         else
           (match LiftFields(variants[discriminant].fields, bytes, at + PayloadAt(variants))
            case Ok(vs) => Ok(VariantV(discriminant, vs))
            case Err(error) => Err(error))
       case Err(error) => Err(error))
    case RefusedS(kind) => Err(NotSupported(kind))
  }

  function LiftList(element: Shape, bytes: seq<byte>, pointer: nat, count: nat): Result<Val>
    decreases element, 2
  {
    match LiftElements(element, bytes, pointer, count)
    case Ok(vs) => Ok(ListV(vs))
    case Err(error) => Err(error)
  }

  function LiftElements(element: Shape, bytes: seq<byte>, at: nat, count: nat): Result<seq<Val>>
    decreases element, 1, count
  {
    if count == 0 then Ok([])
    else
      match LiftFromMemory(element, bytes, at)
      case Ok(v) =>
        (match LiftElements(element, bytes, at + Stride(element), count - 1)
         case Ok(vs) => Ok([v] + vs)
         case Err(error) => Err(error))
      case Err(error) => Err(error)
  }

  function LiftFields(fields: seq<Shape>, bytes: seq<byte>, at: nat): Result<seq<Val>>
    decreases fields, 0
  {
    if fields == [] then Ok([])
    else
      var here := AlignUp(at, Align(fields[0]));
      match LiftFromMemory(fields[0], bytes, here)
      case Ok(v) =>
        (match LiftFields(fields[1..], bytes, here + Size(fields[0]))
         case Ok(vs) => Ok([v] + vs)
         case Err(error) => Err(error))
      case Err(error) => Err(error)
  }

  // -- lowering flat ---------------------------------------------------------

  /** A cast of an address or a length to a signed 32-bit argument. */
  function Arg32(n: nat): Arg { A32(Wrap32(n)) }

  function Pair(pointer: nat, length: nat): seq<Arg> { [Arg32(pointer), Arg32(length)] }

  function LowerFlat(v: Val, s: Shape, mem: Mem): Result<(seq<Arg>, Mem)>
    decreases v, 1
  {
    match s
    case UnitS => if v.UnitV? then Ok(([], mem)) else Err(TypeMismatch)
    case BoolS => if v.BoolV? then Ok(([A32(if v.b then 1 else 0)], mem)) else Err(TypeMismatch)
    case IntS => if v.IntV? then Ok(([A64(v.n)], mem)) else Err(TypeMismatch)
    case StrS =>
      if v.StrV? then
        (match StoreText(v.text, mem)
         case Ok((after, pointer)) => Ok((Pair(pointer, |v.text|), after))
         case Err(error) => Err(error))
      else Err(TypeMismatch)
    case ListS(element) =>
      if v.ListV? then
        (match StoreList(v.elements, element, mem)
         case Ok((after, pointer)) => Ok((Pair(pointer, |v.elements|), after))
         case Err(error) => Err(error))
      else Err(TypeMismatch)
    case RecordS(fields) => if v.RecordV? then LowerFlatFields(v.fields, fields, mem) else Err(TypeMismatch)
    case ChoiceS(variants) =>
      if !v.VariantV? || v.discriminant >= |variants| then Err(TypeMismatch)
      else
        (match LowerFlatFields(v.payload, variants[v.discriminant].fields, mem)
         case Ok((args, after)) => Ok(([Arg32(v.discriminant)] + Padded(args, Payload(variants, [])), after))
         case Err(error) => Err(error))
    case RefusedS(kind) => Err(NotSupported(kind))
  }

  function LowerFlatFields(vs: seq<Val>, fields: seq<Shape>, mem: Mem): Result<(seq<Arg>, Mem)>
    decreases vs, 0
  {
    if vs == [] || fields == [] then Ok(([], mem))
    else
      match LowerFlat(vs[0], fields[0], mem)
      case Ok((args, between)) =>
        (match LowerFlatFields(vs[1..], fields[1..], between)
         case Ok((more, after)) => Ok((args + more, after))
         case Err(error) => Err(error))
      case Err(error) => Err(error)
  }

  /** The arguments of one variant in the slots every variant fits in: widened, and zeros after. */
  function Padded(args: seq<Arg>, joined: seq<ValType>): (r: seq<Arg>)
    ensures |r| == Max(|args|, |joined|)
  {
    seq(Max(|args|, |joined|),
        i requires 0 <= i < |args| || 0 <= i < |joined| =>
          if i >= |args| then ZeroArg(joined[i])
          else if i < |joined| && joined[i] == I64 then A64(As64(args[i]))
          else args[i])
  }

  /** Flat when it is short enough, and otherwise in memory, by address. */
  function Lower(v: Val, s: Shape, mem: Mem): Result<(seq<Arg>, Mem)> {
    if Refusal(s).Some? then Err(NotSupported(Refusal(s).value))
    else if |Flat(s)| > MAX_FLAT then
      match Alloc(mem, Size(s), Align(s))
      case Ok((room, at)) =>
        (match LowerToMemory(v, s, room, at)
         case Ok(after) => Ok(([Arg32(at)], after))
         case Err(error) => Err(error))
      case Err(error) => Err(error)
    else LowerFlat(v, s, mem)
  }

  // -- lifting flat ----------------------------------------------------------

  /** The slot at this index, as the number it is cast to, or zero when there is none. */
  function Slot32(flat: seq<Arg>, i: nat): i32 { if i < |flat| then As32(flat[i]) else 0 }

  function Coerced(have: seq<Arg>, want: seq<ValType>): (r: seq<Arg>) {
    seq(if |have| <= |want| then |have| else |want|,
        i requires 0 <= i < |have| && 0 <= i < |want| => if want[i] == I32 then A32(As32(have[i])) else A64(As64(have[i])))
  }

  /** `None` is a slice past the end of the arguments, or a negative address or length. */
  function Lift(flat: seq<Arg>, s: Shape, bytes: seq<byte>): Option<Result<Val>>
    decreases s, 0
  {
    match s
    case UnitS => Some(Ok(UnitV))
    case BoolS => Some(Ok(BoolV(Slot32(flat, 0) != 0)))
    case IntS => Some(Ok(IntV(if flat != [] then As64(flat[0]) else 0)))
    case StrS =>
      if Slot32(flat, 0) < 0 || Slot32(flat, 1) < 0 then None
      else Some(LiftText(bytes, Slot32(flat, 0), Slot32(flat, 1)))
    case ListS(element) =>
      if Slot32(flat, 0) < 0 || Slot32(flat, 1) < 0 then None
      else Some(LiftList(element, bytes, Slot32(flat, 0), Slot32(flat, 1)))
    case RecordS(fields) =>
      (match LiftFlatFields(flat, 0, fields, bytes)
       case Some(Ok(vs)) => Some(Ok(RecordV(vs)))
       case Some(Err(error)) => Some(Err(error))
       case None => None)
    case ChoiceS(variants) =>
      var discriminant := Slot32(flat, 0);
      if !(0 <= discriminant < |variants|) then Some(Err(InvalidDiscriminant(discriminant, |variants| - 1)))
      else
        (match LiftFlatFields(flat, 1, variants[discriminant].fields, bytes)
         case Some(Ok(vs)) => Some(Ok(VariantV(discriminant, vs)))
         case Some(Err(error)) => Some(Err(error))
         case None => None)
    case RefusedS(kind) => Some(Err(NotSupported(kind)))
  }

  function LiftFlatFields(flat: seq<Arg>, cursor: nat, fields: seq<Shape>, bytes: seq<byte>): Option<Result<seq<Val>>>
    decreases fields, 0
  {
    if fields == [] then Some(Ok([]))
    else
      var want := Flat(fields[0]);
      if cursor + |want| > |flat| then None
      else
        match Lift(Coerced(flat[cursor..cursor + |want|], want), fields[0], bytes)
        case Some(Ok(v)) =>
          (match LiftFlatFields(flat, cursor + |want|, fields[1..], bytes)
           case Some(Ok(vs)) => Some(Ok([v] + vs))
           case Some(Err(error)) => Some(Err(error))
           case None => None)
        case Some(Err(error)) => Some(Err(error))
        case None => None
  }
}
