/** The split and join helpers whole: what they leave in memory is what they mean. */
module SplitJoin {
  import opened Ints
  import opened Wasm
  import opened Types
  import opened Compile
  import opened Heap
  import opened Texts
  import opened Pieces
  import opened Splitting
  import L = Layout

  /** The room that all of these strings take. */
  function RoomForAll(pieces: seq<Text>): nat {
    if pieces == [] then 0 else RoomForAll(pieces[..|pieces| - 1]) + StringRoom(|pieces[|pieces| - 1]|)
  }

  lemma RoomForOneMore(pieces: seq<Text>, piece: Text)
    ensures RoomForAll(pieces + [piece]) == RoomForAll(pieces) + StringRoom(|piece|)
  {
    assert (pieces + [piece])[..|pieces|] == pieces;
  }

  lemma {:induction false} RoomForFewer(pieces: seq<Text>, k: nat)
    requires k <= |pieces|
    ensures RoomForAll(pieces[..k]) <= RoomForAll(pieces)
    decreases |pieces|
  {
    if k < |pieces| {
      RoomForFewer(pieces[..|pieces| - 1], k);
      assert pieces[..|pieces| - 1][..k] == pieces[..k];
    } else {
      assert pieces[..k] == pieces;
    }
  }

  /** Part of a list of pieces that has been cut and stored so far. */
  ghost predicate Cutting(start: seq<byte>, memory: seq<byte>, list: nat, count: nat, done: seq<Text>) {
    && Extends(start, memory) && BumpOf(start) == list && Filled(memory, list, count, done) && |done| <= count
    && BumpOf(memory) == list + L.ListSize(count) + RoomForAll(done)
  }

  lemma CuttingHolds(start: seq<byte>, memory: seq<byte>, list: nat, count: nat, done: seq<Text>, at: nat, text: Text)
    requires Cutting(start, memory, list, count, done) && Held(start, at, text)
    ensures Held(memory, at, text) && 8 <= |memory| && BumpOf(memory) == list + L.ListSize(count) + RoomForAll(done)
  {
    hide TextAt, RoomForAll;
    HeldStays(start, memory, at, text);
  }

  /** Cuts one piece and stores its address in the next element. */
  method CutOne(
    machine: Machine, ghost start: seq<byte>, list: nat, count: nat, written: nat, ghost done: seq<Text>,
    at: nat, from: nat, to: nat, ghost s: Text) returns (ok: bool)
    requires Held(start, at, s) && from <= to <= |s|
    requires Cutting(start, machine.memory, list, count, done) && written == |done| < count
    modifies machine
    ensures ok <==> BumpOf(old(machine.memory)) + StringRoom(to - from) <= CEILING
    ensures ok ==> Cutting(start, machine.memory, list, count, done + [s[from..to]])
  {
    hide TextAt, WordBytes, StringRoom, PieceAbove;
    ghost var before := machine.memory;
    HeldStays(start, before, at, s);
    var a := Slice(machine, at, from, to, s);
    if a.None? {
      return false;
    }
    ghost var sliced := machine.memory;
    machine.PutWord(Element(list, written), a.value);
    OneMorePiece(before, sliced, machine.memory, list, count, done, a.value, s[from..to]);
    StartStays(start, before, sliced, machine.memory, list, Element(list, written), a.value);
    RoomForOneMore(done, s[from..to]);
    ok := true;
  }

  /** What is there from the start is below the list. */
  lemma StartStays(start: seq<byte>, before: seq<byte>, sliced: seq<byte>, after: seq<byte>, list: nat, at: nat, v: i64)
    requires Extends(start, before) && Extends(before, sliced) && BumpOf(start) == list <= at
    requires Put(sliced, after, at, WordBytes(v)) && BumpOf(after) == BumpOf(sliced)
    ensures Extends(start, after)
  {
    hide WordAt, WordBytes;
    ExtendsThen(start, before, sliced);
  }

  lemma HeldTexts(memory: seq<byte>, a: nat, s: Text, b: nat, t: Text)
    requires Held(memory, a, s) && Held(memory, b, t)
    ensures TextAt(memory, a, s) && TextAt(memory, b, t) && |s| <= CEILING && |t| <= CEILING
  {
  }

  lemma RoomNone()
    ensures RoomForAll([]) == 0
  {
  }

  /** There are at most as many pieces as bytes, and one more. */
  lemma {:induction false} FewPieces(s: Text, sep: Text, from: nat)
    requires sep != [] && from <= |s|
    ensures |CutFrom(s, sep, from)| <= |s| - from + 1
    decreases |s| - from
  {
    hide Find, OccursAt;
    var at := Find(s, sep, from);
    if at >= 0 {
      CutCount(s, sep, from);
      FewPieces(s, sep, at + |sep|);
    }
  }

  /** The next piece, and what is left after it. */
  lemma CutStep(s: Text, sep: Text, from: nat, pieces: seq<Text>, k: nat)
    requires sep != [] && from <= |s| && k < |pieces| && CutFrom(s, sep, from) == pieces[k..]
    ensures var found := Find(s, sep, from); var end := if found < 0 then |s| else found;
      && from <= end <= |s| && pieces[k] == s[from..end]
      && (k + 1 < |pieces| <==> found >= 0)
      && (found >= 0 ==> found + |sep| <= |s| && CutFrom(s, sep, found + |sep|) == pieces[k + 1..])
  {
    var found := Find(s, sep, from);
    assert pieces[k..][0] == pieces[k] && pieces[k..][1..] == pieces[k + 1..];
    if found >= 0 {
      var rest := CutFrom(s, sep, found + |sep|);
      assert ([s[from..found]] + rest)[1..] == rest;
    }
  }

  lemma FilledIsList(memory: seq<byte>, list: nat, count: nat, pieces: seq<Text>)
    requires Filled(memory, list, count, pieces) && count == |pieces|
    ensures PiecesAt(memory, list, pieces)
  {
    forall k | 0 <= k < |pieces| ensures PieceAt(memory, list, k, pieces[k]) {
      assert PieceAbove(memory, list, count, k, pieces[k]);
    }
  }

  // -- split -----------------------------------------------------------------

  lemma CutCount(s: Text, sep: Text, from: nat)
    requires sep != [] && from <= |s|
    ensures var found := Find(s, sep, from);
      if found < 0 then |CutFrom(s, sep, from)| == 1
      else found >= from && found + |sep| <= |s| && |CutFrom(s, sep, from)| == 1 + |CutFrom(s, sep, found + |sep|)|
  {
  }

  /** One piece more than there are separators, counted by finding each. */
  method CountPieces(memory: seq<byte>, a: nat, b: nat, n: nat, ghost s: Text, ghost sep: Text) returns (count: nat)
    requires TextAt(memory, a, s) && TextAt(memory, b, sep) && sep != [] && n == |sep|
    ensures count == |CutFrom(s, sep, 0)|
  {
    hide Find, TextAt, OccursAt, CutFrom;
    count := 1;
    var from: nat := 0;
    while true
      invariant from <= |s| && count - 1 + |CutFrom(s, sep, from)| == |CutFrom(s, sep, 0)|
      decreases |s| - from
    {
      var found := Search(memory, a, b, from, s, sep);
      CutCount(s, sep, from);
      if found < 0 {
        return;
      }
      count := count + 1;
      from := found + n;
    }
  }

  /** Finds the end of the next piece and cuts it. */
  method CutNext(
    machine: Machine, ghost start: seq<byte>, list: nat, count: nat, written: nat, ghost pieces: seq<Text>,
    a: nat, b: nat, n: nat, nsep: nat, from: nat, ghost s: Text, ghost sep: Text) returns (ok: bool, next: nat)
    requires Held(start, a, s) && Held(start, b, sep) && sep != [] && n == |s| && nsep == |sep|
    requires written < count == |pieces| && Cutting(start, machine.memory, list, count, pieces[..written])
    requires from <= |s| && CutFrom(s, sep, from) == pieces[written..]
    modifies machine
    ensures ok ==> Cutting(start, machine.memory, list, count, pieces[..written + 1])
    ensures ok && written + 1 < count ==> next <= |s| && CutFrom(s, sep, next) == pieces[written + 1..]
    ensures !ok ==> list + L.ListSize(count) + RoomForAll(pieces) > CEILING
  {
    hide TextAt, WordAt, WordBytes, StringRoom, RoomForAll, Find, OccursAt, CutFrom, Cutting, Held, L.ListSize;
    NextPiece(start, machine.memory, list, count, written, pieces, a, b, from, s, sep);
    var found := Search(machine.memory, a, b, from, s, sep);
    var end := if found < 0 then n else found;
    ok := CutOne(machine, start, list, count, written, pieces[..written], a, from, end, s);
    next := end + nsep;
  }

  /** Everything about the next piece: where it ends, what is left after it, and the room it takes. */
  lemma NextPiece(
    start: seq<byte>, memory: seq<byte>, list: nat, count: nat, written: nat, pieces: seq<Text>,
    a: nat, b: nat, from: nat, s: Text, sep: Text)
    requires Held(start, a, s) && Held(start, b, sep) && sep != []
    requires written < count == |pieces| && Cutting(start, memory, list, count, pieces[..written])
    requires from <= |s| && CutFrom(s, sep, from) == pieces[written..]
    ensures TextAt(memory, a, s) && TextAt(memory, b, sep) && 8 <= |memory|
    ensures var found := Find(s, sep, from); var end := if found < 0 then |s| else found;
      && from <= end <= |s| && pieces[..written] + [s[from..end]] == pieces[..written + 1] && |pieces[..written]| == written
      && (written + 1 < count ==> end + |sep| <= |s| && CutFrom(s, sep, end + |sep|) == pieces[written + 1..])
      && (BumpOf(memory) + StringRoom(end - from) > CEILING ==> list + L.ListSize(count) + RoomForAll(pieces) > CEILING)
  {
    hide TextAt, WordAt, StringRoom, RoomForAll, Find, OccursAt, CutFrom, Cutting, Held;
    CuttingHolds(start, memory, list, count, pieces[..written], a, s);
    CuttingHolds(start, memory, list, count, pieces[..written], b, sep);
    HeldTexts(memory, a, s, b, sep);
    CutStep(s, sep, from, pieces, written);
    RoomForOneMore(pieces[..written], pieces[written]);
    RoomForFewer(pieces, written + 1);
    assert pieces[..written + 1] == pieces[..written] + [pieces[written]];
  }

  /** Splitting by a separator that is not empty. A counting pass sizes the list that a second pass fills. */
  method SplitOn(machine: Machine, a: nat, b: nat, ghost s: Text, ghost sep: Text) returns (r: Option<nat>)
    requires Held(machine.memory, a, s) && Held(machine.memory, b, sep) && sep != []
    modifies machine
    ensures var pieces := CutFrom(s, sep, 0);
      r.Some? <==> BumpOf(old(machine.memory)) + L.ListSize(|pieces|) + RoomForAll(pieces) <= CEILING
    ensures r.Some? ==>
              var pieces := CutFrom(s, sep, 0);
              && PiecesAt(machine.memory, r.value, pieces) && Extends(old(machine.memory), machine.memory)
              && BumpOf(machine.memory) == BumpOf(old(machine.memory)) + L.ListSize(|pieces|) + RoomForAll(pieces)
  {
    hide TextAt, WordBytes, StringRoom, PieceAbove, RoomForAll, Find, OccursAt, CutFrom;
    ghost var start := machine.memory;
    ghost var pieces := CutFrom(s, sep, 0);
    HeldTexts(machine.memory, a, s, b, sep);
    var n := TextLength(machine.memory, a, s);
    var nsep := TextLength(machine.memory, b, sep);

    var count := CountPieces(machine.memory, a, b, nsep, s, sep);
    FewPieces(s, sep, 0);
    r := NewList(machine, count);
    RoomForFewer(pieces, 0);
    if r.None? {
      return;
    }
    var list := r.value;
    var written: nat, from: nat := 0, 0;
    assert pieces[..0] == [] && pieces[0..] == pieces;
    assert RoomForAll([]) == 0 by { RoomNone(); }
    while written < count
      invariant written <= count == |pieces|
      invariant Cutting(start, machine.memory, list, count, pieces[..written])
      invariant written < count ==> from <= |s| && CutFrom(s, sep, from) == pieces[written..]
    {
      var ok;
      ok, from := CutNext(machine, start, list, count, written, pieces, a, b, n, nsep, from, s, sep);
      if !ok {
        return None;
      }
      written := written + 1;
    }
    assert pieces[..count] == pieces;
    FilledIsList(machine.memory, list, count, pieces);
  }

  // -- split into characters -------------------------------------------------

  method CountStarts(memory: seq<byte>, a: nat, ghost s: Text) returns (count: nat)
    requires TextAt(memory, a, s)
    ensures count == |CharactersFrom(s, 0)|
  {
    var n := TextLength(memory, a, s);
    count := 0;
    var i := 0;
    while i < n
      invariant i <= n && count + |CharactersFrom(s, i)| == |CharactersFrom(s, 0)|
    {
      var b := memory[a + TEXT + i];
      assert b == s[i];
      if !(128 <= b && b < 192) {
        count := count + 1;
      }
      i := i + 1;
    }
  }

  /** Where the character that starts before this place ends. */
  method EndOfCharacter(memory: seq<byte>, a: nat, n: nat, i: nat, ghost s: Text) returns (next: nat)
    requires TextAt(memory, a, s) && n == |s| && i <= n
    ensures next == CharacterEnd(s, i)
  {
    next := i;
    while next < n && 128 <= memory[a + TEXT + next] < 192
      invariant i <= next <= n && CharacterEnd(s, next) == CharacterEnd(s, i)
    {
      assert memory[a + TEXT + next] == s[next];
      next := next + 1;
    }
    assert next < n ==> memory[a + TEXT + next] == s[next];
  }

  /** The next character, and what is left after it. */
  lemma NextCharacter(
    start: seq<byte>, memory: seq<byte>, list: nat, count: nat, written: nat, pieces: seq<Text>, a: nat, i: nat, s: Text)
    requires Held(start, a, s) && pieces == CharactersFrom(s, 0) && count == |pieces| && i < |s|
    requires written <= count && Cutting(start, memory, list, count, pieces[..written]) && CharactersFrom(s, i) == pieces[written..]
    ensures TextAt(memory, a, s) && 8 <= |memory|
    ensures Continues(s[i]) ==> CharactersFrom(s, i + 1) == pieces[written..]
    ensures !Continues(s[i]) ==>
      && written < count && |pieces[..written]| == written
      && pieces[..written] + [s[i..CharacterEnd(s, i + 1)]] == pieces[..written + 1]
      && CharactersFrom(s, i + 1) == pieces[written + 1..]
      && (BumpOf(memory) + StringRoom(CharacterEnd(s, i + 1) - i) > CEILING ==> list + L.ListSize(count) + RoomForAll(pieces) > CEILING)
  {
    hide TextAt, WordAt, StringRoom, RoomForAll, Cutting, Held;
    CuttingHolds(start, memory, list, count, pieces[..written], a, s);
    HeldTexts(memory, a, s, a, s);
    if !Continues(s[i]) {
      var piece := s[i..CharacterEnd(s, i + 1)];
      assert pieces[written..][0] == piece && pieces[written..][1..] == CharactersFrom(s, i + 1);
      assert pieces[written..][1..] == pieces[written + 1..];
      assert pieces[..written + 1] == pieces[..written] + [pieces[written]];
      RoomForOneMore(pieces[..written], piece);
      RoomForFewer(pieces, written + 1);
    }
  }

  /** Cuts the character that starts here, if one does. */
  method CutCharacter(
    machine: Machine, ghost start: seq<byte>, list: nat, count: nat, written: nat, ghost pieces: seq<Text>,
    a: nat, n: nat, i: nat, ghost s: Text) returns (ok: bool, wrote: nat)
    requires Held(start, a, s) && n == |s| && pieces == CharactersFrom(s, 0) && count == |pieces| && i < |s|
    requires written <= count && Cutting(start, machine.memory, list, count, pieces[..written])
    requires CharactersFrom(s, i) == pieces[written..]
    modifies machine
    ensures ok ==> wrote <= count && Cutting(start, machine.memory, list, count, pieces[..wrote])
    ensures ok ==> CharactersFrom(s, i + 1) == pieces[wrote..]
    ensures !ok ==> list + L.ListSize(count) + RoomForAll(pieces) > CEILING
  {
    hide WordAt, WordBytes, StringRoom, RoomForAll, CharactersFrom, CharacterEnd, Cutting, Held, L.ListSize;
    NextCharacter(start, machine.memory, list, count, written, pieces, a, i, s);
    var b := machine.memory[a + TEXT + i];
    assert b == s[i];
    if 128 <= b < 192 {
      return true, written;
    }
    var next := EndOfCharacter(machine.memory, a, n, i + 1, s);
    ok := CutOne(machine, start, list, count, written, pieces[..written], a, i, next, s);
    wrote := written + 1;
  }

  lemma FewCharacters(s: Text)
    ensures |CharactersFrom(s, 0)| <= |s|
  {
    CountCharacters(s, 0);
    CharactersFew(s);
    assert s[0..] == s;
  }

  /** Splitting by an empty separator: every element of the list is one character. */
  method SplitCharacters(machine: Machine, a: nat, ghost s: Text) returns (r: Option<nat>)
    requires Held(machine.memory, a, s)
    modifies machine
    ensures var pieces := CharactersFrom(s, 0);
      r.Some? <==> BumpOf(old(machine.memory)) + L.ListSize(|pieces|) + RoomForAll(pieces) <= CEILING
    ensures r.Some? ==>
              var pieces := CharactersFrom(s, 0);
              && PiecesAt(machine.memory, r.value, pieces) && Extends(old(machine.memory), machine.memory)
              && BumpOf(machine.memory) == BumpOf(old(machine.memory)) + L.ListSize(|pieces|) + RoomForAll(pieces)
  {
    hide TextAt, WordBytes, StringRoom, PieceAbove, RoomForAll, CharactersFrom;
    ghost var start := machine.memory;
    ghost var pieces := CharactersFrom(s, 0);
    HeldTexts(machine.memory, a, s, a, s);
    var n := TextLength(machine.memory, a, s);
    var count := CountStarts(machine.memory, a, s);
    FewCharacters(s);
    r := NewList(machine, count);
    RoomForFewer(pieces, 0);
    if r.None? {
      return;
    }
    var list := r.value;
    var written: nat, i: nat := 0, 0;
    assert pieces[..0] == [] && pieces[0..] == pieces;
    RoomNone();
    while i < n
      invariant i <= n && written <= count == |pieces|
      invariant Cutting(start, machine.memory, list, count, pieces[..written])
      invariant CharactersFrom(s, i) == pieces[written..]
    {
      var ok;
      ok, written := CutCharacter(machine, start, list, count, written, pieces, a, n, i, s);
      if !ok {
        return None;
      }
      i := i + 1;
    }
    NoMoreCharacters(s);
    assert pieces[..written] == pieces;
    FilledIsList(machine.memory, list, count, pieces);
  }

  lemma NoMoreCharacters(s: Text)
    ensures CharactersFrom(s, |s|) == []
  {
  }

  /** Splitting, on a separator or into characters. */
  method SplitText(machine: Machine, a: nat, b: nat, ghost s: Text, ghost sep: Text) returns (r: Option<nat>)
    requires Held(machine.memory, a, s) && Held(machine.memory, b, sep)
    modifies machine
    ensures var pieces := Split(s, sep);
      r.Some? <==> BumpOf(old(machine.memory)) + L.ListSize(|pieces|) + RoomForAll(pieces) <= CEILING
    ensures r.Some? ==>
              var pieces := Split(s, sep);
              && PiecesAt(machine.memory, r.value, pieces) && Extends(old(machine.memory), machine.memory)
              && BumpOf(machine.memory) == BumpOf(old(machine.memory)) + L.ListSize(|pieces|) + RoomForAll(pieces)
  {
    HeldTexts(machine.memory, a, s, b, sep);
    var nsep := TextLength(machine.memory, b, sep);
    if nsep == 0 {
      r := SplitCharacters(machine, a, s);
    } else {
      r := SplitOn(machine, a, b, s, sep);
    }
  }
}
