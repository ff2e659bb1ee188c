/** Which local each slot of the IR becomes, and where the temporaries start. */
module Slots {
  import opened Ints
  import opened Wasm
  import opened Types
  import opened Compile
  import Ir

  lemma {:induction false} RepresentedAppend(one: seq<Ty>, two: seq<Ty>)
    ensures Represented(one + two) == Represented(one) + Represented(two)
    decreases |one|
  {
    if one == [] {
      assert one + two == two;
    } else {
      assert (one + two)[1..] == one[1..] + two;
      RepresentedAppend(one[1..], two);
    }
  }

  /** A slot with a representation is numbered by how many of those come before it. */
  lemma {:induction false} SlotRepresented(locals: seq<Ty>, next: nat, i: nat)
    requires i < |locals|
    ensures var slot := SlotsFrom(locals, next)[i];
      && (slot.Some? <==> ValTypeOf(locals[i]).Some?)
      && (slot.Some? ==>
            && slot.value == next + |Represented(locals[..i])|
            && slot.value - next < |Represented(locals)|
            && Some(Represented(locals)[slot.value - next]) == ValTypeOf(locals[i]))
    decreases i
  {
    if i > 0 {
      var step := if ValTypeOf(locals[0]).Some? then 1 else 0;
      SlotRepresented(locals[1..], next + step, i - 1);
      assert locals[..i][1..] == locals[1..][..i - 1];
      assert Represented(locals[..i]) == Results(ValTypeOf(locals[0])) + Represented(locals[1..][..i - 1]);
    } else {
      assert locals[..0] == [];
    }
  }

  /** The locals a body has when compiling has got as far as this draft. */
  function LocalsAt(cx: Cx, d: Draft): seq<ValType> { Represented(cx.f.params) + d.extra }

  /** The draft has at least the locals the function declares. */
  ghost predicate Covers(cx: Cx, d: Draft) {
    cx.f.params <= cx.f.locals && Represented(cx.f.locals) <= LocalsAt(cx, d)
  }

  lemma BeginCovers(cx: Cx, strings: Strings)
    requires cx.f.params <= cx.f.locals
    ensures Covers(cx, Begin(cx.f, strings)) && LocalsAt(cx, Begin(cx.f, strings)) == Represented(cx.f.locals)
  {
    assert cx.f.locals == cx.f.params + cx.f.locals[|cx.f.params|..];
    RepresentedAppend(cx.f.params, cx.f.locals[|cx.f.params|..]);
  }

  lemma CoversLater(cx: Cx, d: Draft, after: Draft)
    requires Covers(cx, d) && Grows(d, after)
    ensures Covers(cx, after)
  {
    assert LocalsAt(cx, d) <= LocalsAt(cx, after);
  }

  /** Two slots never share a local. */
  lemma {:induction false} SlotsApart(locals: seq<Ty>, next: nat, i: nat, j: nat)
    requires i < j < |locals| && SlotsFrom(locals, next)[i].Some? && SlotsFrom(locals, next)[j].Some?
    ensures SlotsFrom(locals, next)[i].value < SlotsFrom(locals, next)[j].value
    decreases i
  {
    var step := if ValTypeOf(locals[0]).Some? then 1 else 0;
    if i == 0 {
      SlotRepresented(locals[1..], next + step, j - 1);
    } else {
      SlotsApart(locals[1..], next + step, i - 1, j - 1);
    }
  }
}
