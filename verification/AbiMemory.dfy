/** Component memory as a buffer written in place, and lowering into it. */
module AbiMemory {
  import opened Ints
  import opened Wasm
  import opened Types
  import opened Abi

  class Memory {
    const data: array<byte>
    var next: nat

    /** Fresh memory, all zeros. */
    constructor (size: nat)
      ensures fresh(data) && Abs() == Mem(seq(size, _ => 0), 0)
    {
      data := new byte[size](_ => 0);
      next := 0;
    }

    function Abs(): Mem
      reads this, data
    {
      Mem(data[..], next)
    }

    method AllocRoom(size: nat, align: nat) returns (r: Result<nat>)
      requires Power(align)
      modifies this
      ensures match Alloc(old(Abs()), size, align)
        case Ok((after, at)) => r == Ok(at) && Abs() == after
        case Err(error) => r == Err(error) && Abs() == old(Abs())
    {
      var at := AlignUp(next, align);
      var end := at + size;
      if end > data.Length {
        return Err(OutOfBounds);
      }
      next := end;
      return Ok(at);
    }

    /** Copies bytes over the ones at an address. */
    method WriteBytes(at: nat, bytes: seq<byte>) returns (r: Result<()>)
      modifies data
      ensures match Write(old(Abs()), at, bytes)
        case Ok(after) => r == Ok(()) && Abs() == after
        case Err(error) => r == Err(error) && Abs() == old(Abs())
    {
      if at + |bytes| > data.Length {
        return Err(OutOfBounds);
      }
      var i := 0;
      while i < |bytes|
        invariant i <= |bytes|
        invariant data[..] == old(data[..])[..at] + bytes[..i] + old(data[..])[at + i..]
      {
        data[at + i] := bytes[i];
        i := i + 1;
      }
      return Ok(());
    }

    method StoreBytes(text: Text) returns (r: Result<nat>)
      modifies this, data
      ensures match StoreText(text, old(Abs()))
        case Ok((after, at)) => r == Ok(at) && Abs() == after
        case Err(error) => r == Err(error)
    {
      if text == [] {
        return Ok(0);
      }
      r := AllocRoom(|text|, 1);
      if r.Ok? {
        var wrote := WriteBytes(r.value, text);
        if wrote.Err? {
          r := Err(wrote.error);
        }
      }
    }

    method WritePair(at: nat, pointer: nat, length: nat) returns (r: Result<()>)
      modifies data
      ensures match StorePair(old(Abs()), at, pointer, length)
        case Ok(after) => r == Ok(()) && Abs() == after
        case Err(error) => r == Err(error)
    {
      r := WriteBytes(at, Word32(pointer));
      if r.Ok? {
        r := WriteBytes(at + 4, Word32(length));
      }
    }

    /** A value into memory at an address, whatever it points to first. */
    method LowerAt(v: Val, s: Shape, at: nat) returns (r: Result<()>)
      modifies this, data
      ensures match LowerToMemory(v, s, old(Abs()), at)
        case Ok(after) => r == Ok(()) && Abs() == after
        case Err(error) => r == Err(error)
      decreases v, 2
    {
      match s {
        case UnitS => r := if v.UnitV? then Ok(()) else Err(TypeMismatch);
        case BoolS =>
          if !v.BoolV? { return Err(TypeMismatch); }
          r := WriteBytes(at, [if v.b then 1 else 0]);
        case IntS =>
          if !v.IntV? { return Err(TypeMismatch); }
          r := WriteBytes(at, WordBytes(v.n));
        case StrS =>
          if !v.StrV? { return Err(TypeMismatch); }
          var stored := StoreBytes(v.text);
          if stored.Err? { return Err(stored.error); }
          r := WritePair(at, stored.value, |v.text|);
        case ListS(element) =>
          if !v.ListV? { return Err(TypeMismatch); }
          var stored := LowerListHere(v.elements, element);
          if stored.Err? { return Err(stored.error); }
          r := WritePair(at, stored.value, |v.elements|);
        case RecordS(fields) =>
          if !v.RecordV? { return Err(TypeMismatch); }
          r := LowerFieldsAt(v.fields, fields, at);
        case ChoiceS(variants) =>
          if !v.VariantV? || v.discriminant >= |variants| { return Err(TypeMismatch); }
          r := WriteBytes(at, Word32(v.discriminant)[..DiscriminantSize(|variants|)]);
          if r.Ok? {
            r := LowerFieldsAt(v.payload, variants[v.discriminant].fields, at + PayloadAt(variants));
          }
        case RefusedS(kind) => r := Err(NotSupported(kind));
      }
    }

    method LowerListHere(elements: seq<Val>, element: Shape) returns (r: Result<nat>)
      modifies this, data
      ensures match StoreList(elements, element, old(Abs()))
        case Ok((after, at)) => r == Ok(at) && Abs() == after
        case Err(error) => r == Err(error)
      decreases elements, 1
    {
      if elements == [] {
        return Ok(0);
      }
      r := AllocRoom(Room(element, |elements|), Align(element));
      if r.Ok? {
        var wrote := LowerElementsAt(elements, element, r.value);
        if wrote.Err? {
          r := Err(wrote.error);
        }
      }
    }

    method LowerElementsAt(elements: seq<Val>, element: Shape, at: nat) returns (r: Result<()>)
      modifies this, data
      ensures match LowerElements(elements, element, old(Abs()), at)
        case Ok(after) => r == Ok(()) && Abs() == after
        case Err(error) => r == Err(error)
      decreases elements, 0
    {
      hide LowerToMemory, Stride;
      var i: nat, here: nat := 0, at;
      r := Ok(());
      while i < |elements|
        invariant i <= |elements| && r == Ok(())
        invariant LowerElements(elements[i..], element, Abs(), here) == LowerElements(elements, element, old(Abs()), at)
      {
        assert elements[i..][0] == elements[i] && elements[i..][1..] == elements[i + 1..];
        r := LowerAt(elements[i], element, here);
        if r.Err? {
          return;
        }
        i, here := i + 1, here + Stride(element);
      }
    }

    /** Fields in order, each at its own alignment. */
    method LowerFieldsAt(vs: seq<Val>, fields: seq<Shape>, at: nat) returns (r: Result<()>)
      modifies this, data
      ensures match LowerFields(vs, fields, old(Abs()), at)
        case Ok(after) => r == Ok(()) && Abs() == after
        case Err(error) => r == Err(error)
      decreases vs, 0
    {
      hide LowerToMemory, AlignUp, Align, Size;
      var i: nat, here: nat := 0, at;
      r := Ok(());
      while i < |vs| && i < |fields|
        invariant i <= |vs| && i <= |fields| && r == Ok(())
        invariant LowerFields(vs[i..], fields[i..], Abs(), here) == LowerFields(vs, fields, old(Abs()), at)
      {
        assert vs[i..][0] == vs[i] && vs[i..][1..] == vs[i + 1..];
        assert fields[i..][0] == fields[i] && fields[i..][1..] == fields[i + 1..];
        here := AlignUp(here, Align(fields[i]));
        r := LowerAt(vs[i], fields[i], here);
        if r.Err? {
          return;
        }
        here := here + Size(fields[i]);
        i := i + 1;
      }
    }

    // -- flat ----------------------------------------------------------------

    method LowerArgs(v: Val, s: Shape) returns (r: Result<seq<Arg>>)
      modifies this, data
      ensures match LowerFlat(v, s, old(Abs()))
        case Ok((args, after)) => r == Ok(args) && Abs() == after
        case Err(error) => r == Err(error)
      decreases v, 2
    {
      match s {
        case UnitS => r := if v.UnitV? then Ok([]) else Err(TypeMismatch);
        case BoolS => r := if v.BoolV? then Ok([A32(if v.b then 1 else 0)]) else Err(TypeMismatch);
        case IntS => r := if v.IntV? then Ok([A64(v.n)]) else Err(TypeMismatch);
        case StrS =>
          if !v.StrV? { return Err(TypeMismatch); }
          var stored := StoreBytes(v.text);
          r := if stored.Ok? then Ok(Pair(stored.value, |v.text|)) else Err(stored.error);
        case ListS(element) =>
          if !v.ListV? { return Err(TypeMismatch); }
          var stored := LowerListHere(v.elements, element);
          r := if stored.Ok? then Ok(Pair(stored.value, |v.elements|)) else Err(stored.error);
        case RecordS(fields) =>
          if !v.RecordV? { return Err(TypeMismatch); }
          r := LowerArgsOfFields(v.fields, fields);
        case ChoiceS(variants) =>
          if !v.VariantV? || v.discriminant >= |variants| { return Err(TypeMismatch); }
          r := LowerArgsOfFields(v.payload, variants[v.discriminant].fields);
          if r.Ok? {
            var padded := WidenAndPad(r.value, Payload(variants, []));
            r := Ok([Arg32(v.discriminant)] + padded);
          }
        case RefusedS(kind) => r := Err(NotSupported(kind));
      }
    }

    method LowerArgsOfFields(vs: seq<Val>, fields: seq<Shape>) returns (r: Result<seq<Arg>>)
      modifies this, data
      ensures match LowerFlatFields(vs, fields, old(Abs()))
        case Ok((args, after)) => r == Ok(args) && Abs() == after
        case Err(error) => r == Err(error)
      decreases vs, 0
    {
      hide LowerFlat;
      var i := 0;
      var args: seq<Arg> := [];
      AfterNothing(LowerFlatFields(vs, fields, Abs()));
      while i < |vs| && i < |fields|
        invariant i <= |vs| && i <= |fields|
        invariant LowerFlatFields(vs, fields, old(Abs()))
               == After(args, LowerFlatFields(vs[i..], fields[i..], Abs()))
      {
        assert vs[i..][0] == vs[i] && vs[i..][1..] == vs[i + 1..];
        assert fields[i..][0] == fields[i] && fields[i..][1..] == fields[i + 1..];
        var more := LowerArgs(vs[i], fields[i]);
        if more.Err? {
          return more;
        }
        AfterBoth(args, more.value, LowerFlatFields(vs[i + 1..], fields[i + 1..], Abs()));
        args := args + more.value;
        i := i + 1;
      }
      assert args + [] == args;
      return Ok(args);
    }

    /** Flat when it is short enough, and otherwise in memory, by address. */
    method LowerValue(v: Val, s: Shape) returns (r: Result<seq<Arg>>)
      modifies this, data
      ensures match Lower(v, s, old(Abs()))
        case Ok((args, after)) => r == Ok(args) && Abs() == after
        case Err(error) => r == Err(error)
    {
      if Refusal(s).Some? {
        return Err(NotSupported(Refusal(s).value));
      }
      if |Flat(s)| > MAX_FLAT {
        var room := AllocRoom(Size(s), Align(s));
        if room.Err? {
          return Err(room.error);
        }
        var wrote := LowerAt(v, s, room.value);
        if wrote.Err? {
          return Err(wrote.error);
        }
        return Ok([Arg32(room.value)]);
      }
      r := LowerArgs(v, s);
    }
  }

  /** The arguments already lowered, and then the rest. */
  function After(args: seq<Arg>, rest: Result<(seq<Arg>, Mem)>): Result<(seq<Arg>, Mem)> {
    match rest
    case Ok((more, mem)) => Ok((args + more, mem))
    case Err(error) => Err(error)
  }

  lemma AfterNothing(rest: Result<(seq<Arg>, Mem)>)
    ensures After([], rest) == rest
  {
    if rest.Ok? {
      assert [] + rest.value.0 == rest.value.0;
    }
  }

  lemma AfterBoth(one: seq<Arg>, two: seq<Arg>, rest: Result<(seq<Arg>, Mem)>)
    ensures After(one, After(two, rest)) == After(one + two, rest)
  {
    if rest.Ok? {
      assert one + (two + rest.value.0) == one + two + rest.value.0;
    }
  }

  /** Widens each argument to the slot it goes in, and fills the slots left over. */
  method WidenAndPad(args: seq<Arg>, joined: seq<ValType>) returns (r: seq<Arg>)
    ensures r == Padded(args, joined)
  {
    r := [];
    var i := 0;
    while i < |args|
      invariant i <= |args| && |r| == i
      invariant forall k | 0 <= k < i :: r[k] == Padded(args, joined)[k]
    {
      r := r + [if i < |joined| && joined[i] == I64 then A64(As64(args[i])) else args[i]];
      i := i + 1;
    }
    while |r| < |joined|
      invariant |args| <= |r| <= Max(|args|, |joined|)
      invariant forall k | 0 <= k < |r| :: r[k] == Padded(args, joined)[k]
      decreases |joined| - |r|
    {
      r := r + [ZeroArg(joined[|r|])];
    }
  }
}
