/** The loops that cut a string into pieces in memory, and that put pieces together. */
module Splitting {
  import opened Ints
  import opened Wasm
  import opened Types
  import opened Compile
  import opened Heap
  import opened Texts
  import opened Pieces
  import L = Layout

  // -- one piece -------------------------------------------------------------

  /** Bytes copied one at a time, counting those that start a character. */
  method CopyCounting(machine: Machine, to: nat, from: nat, n: nat) returns (characters: nat)
    requires from + n <= to && to + n <= |machine.memory|
    modifies machine
    ensures Put(old(machine.memory), machine.memory, to, old(machine.memory)[from..from + n])
    ensures characters == Characters(old(machine.memory)[from..from + n])
  {
    ghost var before := machine.memory;
    ghost var text := before[from..from + n];
    characters := 0;
    var i := 0;
    assert text[..0] == [];
    while i < n
      invariant i <= n && Put(before, machine.memory, to, text[..i]) && characters == Characters(text[..i])
    {
      ghost var held := machine.memory;
      var b := machine.memory[from + i];
      assert b == text[i];
      machine.PutByte(to + i, b);
      PutOneMore(before, held, to, text[..i], b);
      assert text[..i + 1] == text[..i] + [b];
      CharactersOne(text, i);
      if !(128 <= b && b < 192) {
        characters := characters + 1;
      }
      i := i + 1;
    }
    assert text[..n] == text;
  }

  /** A new string of the bytes between two places, its characters counted on the way. */
  method Slice(machine: Machine, at: nat, from: nat, to: nat, ghost s: Text) returns (r: Option<nat>)
    requires Held(machine.memory, at, s) && from <= to <= |s|
    modifies machine
    ensures r.Some? <==> BumpOf(old(machine.memory)) + StringRoom(to - from) <= CEILING
    ensures r.Some? ==>
              && r.value == BumpOf(old(machine.memory)) && Held(machine.memory, r.value, s[from..to])
              && Extends(old(machine.memory), machine.memory)
              && BumpOf(machine.memory) == r.value + StringRoom(to - from)
  {
    ghost var start := machine.memory;
    var n := to - from;
    r := machine.Allocate(StringRoom(n));
    if r.None? {
      return;
    }
    var out := r.value;
    HeldStays(start, machine.memory, at, s);
    RoomFor(n);
    SliceInto(machine, start, machine.memory, out, at, from, n, s);
  }

  method SliceInto(
    machine: Machine, ghost start: seq<byte>, ghost reserved: seq<byte>, out: nat, at: nat, from: nat, n: nat, ghost s: Text)
    requires Held(start, at, s) && from + n <= |s| && machine.memory == reserved
    requires Orderly(reserved) && Extends(start, reserved) && BumpOf(start) == out && Held(reserved, at, s)
    requires BumpOf(reserved) == out + StringRoom(n) && out + StringRoom(n) <= |reserved|
    modifies machine
    ensures Held(machine.memory, out, s[from..from + n]) && Extends(start, machine.memory)
    ensures BumpOf(machine.memory) == out + StringRoom(n)
  {
    hide Characters, StringRoom, WordAt, Held, TextAt, WordBytes, Extends;
    HeldBelow(start, at, s);
    RoomFor(n);
    machine.PutWord(out + 8, n);
    ghost var counted := machine.memory;
    var characters := CopyCounting(machine, out + TEXT, at + TEXT + from, n);
    SourceIs(reserved, counted, at, out, from, n, s);
    ghost var copied := machine.memory;
    CharactersFew(s[from..from + n]);
    machine.PutWord(out, characters);
    SliceDone(start, reserved, counted, copied, machine.memory, out, s[from..from + n], StringRoom(n), characters);
  }

  lemma SourceIs(reserved: seq<byte>, counted: seq<byte>, at: nat, out: nat, from: nat, n: nat, s: Text)
    requires Held(reserved, at, s) && from + n <= |s| && at + TEXT + |s| <= out
    requires |counted| == |reserved| && forall i | 0 <= i < out && i < |reserved| :: counted[i] == reserved[i]
    ensures counted[at + TEXT + from..at + TEXT + from + n] == s[from..from + n]
  {
    assert counted[at + TEXT + from..at + TEXT + from + n] == reserved[at + TEXT + from..at + TEXT + from + n];
    SliceInside(reserved, at + TEXT, at + TEXT + |s|, from, from + n);
  }

  lemma SliceDone(
    start: seq<byte>, reserved: seq<byte>, counted: seq<byte>, copied: seq<byte>, after: seq<byte>,
    out: nat, text: Text, room: nat, characters: i64)
    requires Orderly(reserved) && Extends(start, reserved) && BumpOf(start) == out && L.HEAP_START <= out
    requires BumpOf(reserved) == out + room && TEXT + |text| <= room && out + room <= |reserved|
    requires Put(reserved, counted, out + 8, WordBytes(|text|)) && WordAt(counted, out + 8) == |text|
    requires Put(counted, copied, out + TEXT, text)
    requires Put(copied, after, out, WordBytes(characters)) && WordAt(after, out) == characters == Characters(text)
    ensures Held(after, out, text) && Extends(start, after) && BumpOf(after) == out + room
  {
    hide Characters, WordAt, WordBytes, Put, Extends, Orderly, Held;
    SliceFrame(reserved, counted, copied, after, out, text, |text|, characters);
    PutKeeps(counted, copied, out + TEXT, text, out + 8, out + 16);
    PutKeeps(copied, after, out, WordBytes(characters), out + 8, out + 16);
    SameWord(counted, after, out + 8);
    PutKeeps(copied, after, out, WordBytes(characters), out + TEXT, out + TEXT + |text|);
    PutThere(counted, copied, out + TEXT, text);
    SliceKept(start, reserved, after, out, text, room);
  }

  lemma PutThere(before: seq<byte>, after: seq<byte>, at: nat, bytes: seq<byte>)
    requires Put(before, after, at, bytes)
    ensures at + |bytes| <= |before| == |after| && after[at..at + |bytes|] == bytes
  {
  }

  lemma SliceFrame(
    reserved: seq<byte>, counted: seq<byte>, copied: seq<byte>, after: seq<byte>, out: nat, text: Text, n: i64, characters: i64)
    requires Put(reserved, counted, out + 8, WordBytes(n)) && Put(counted, copied, out + TEXT, text)
    requires Put(copied, after, out, WordBytes(characters))
    ensures |after| == |copied| == |counted| == |reserved| && out + TEXT + |text| <= |after|
    ensures forall i | 0 <= i < |reserved| && !(out <= i < out + TEXT + |text|) :: after[i] == reserved[i]
  {
    hide WordBytes;
  }

  lemma SameWord(one: seq<byte>, two: seq<byte>, at: nat)
    requires at + 8 <= |one| && at + 8 <= |two| && one[at..at + 8] == two[at..at + 8]
    ensures WordAt(one, at) == WordAt(two, at)
  {
  }

  /** The counts and the bytes are in place, and nothing outside the room has changed. */
  lemma SliceKept(start: seq<byte>, reserved: seq<byte>, after: seq<byte>, out: nat, text: Text, room: nat)
    requires Orderly(reserved) && Extends(start, reserved) && BumpOf(start) == out && L.HEAP_START <= out
    requires BumpOf(reserved) == out + room && TEXT + |text| <= room && out + room <= |reserved| == |after|
    requires forall i | 0 <= i < |reserved| && !(out <= i < out + TEXT + |text|) :: after[i] == reserved[i]
    requires WordAt(after, out) == Characters(text) && WordAt(after, out + 8) == |text|
    requires after[out + TEXT..out + TEXT + |text|] == text
    ensures Held(after, out, text) && Extends(start, after) && BumpOf(after) == out + room
  {
    hide Characters;
    assert after[0..8] == reserved[0..8];
  }

  // -- searching -------------------------------------------------------------

  /** The first place a string occurs in another at or after this one, or -1. */
  method Search(memory: seq<byte>, a: nat, b: nat, from: nat, ghost s: Text, ghost needle: Text) returns (at: int)
    requires TextAt(memory, a, s) && TextAt(memory, b, needle)
    ensures at == Find(s, needle, from)
  {
    hide TextAt, OccursAt;
    var ns := TextLength(memory, a, s);
    var nn := TextLength(memory, b, needle);
    at := from;
    while at <= ns - nn
      invariant from <= at && Find(s, needle, from) == Find(s, needle, at)
      decreases ns - at
    {
      var same := OccursHere(memory, a, b, at, nn, s, needle);
      if same {
        return;
      }
      at := at + 1;
    }
    at := -1;
  }

  /** A string's byte count. */
  method TextLength(memory: seq<byte>, at: nat, ghost s: Text) returns (n: nat)
    requires TextAt(memory, at, s)
    ensures n == |s|
  {
    n := WordAt(memory, at + 8);
  }

  /** One place: every byte compared, and none of them missed. */
  method OccursHere(memory: seq<byte>, a: nat, b: nat, at: nat, nn: nat, ghost s: Text, ghost needle: Text) returns (same: bool)
    requires TextAt(memory, a, s) && TextAt(memory, b, needle) && nn == |needle| && at + nn <= |s|
    ensures same <==> OccursAt(s, needle, at)
  {
    same := true;
    var i := 0;
    while i < nn
      invariant i <= nn && (same <==> s[at..at + i] == needle[..i])
    {
      TextByte(memory, a, s, at + i);
      TextByte(memory, b, needle, i);
      LongerSame(s, needle, at, i);
      if memory[a + TEXT + at + i] != memory[b + TEXT + i] {
        same := false;
      }
      i := i + 1;
    }
    assert needle[..nn] == needle;
  }

  lemma TextByte(memory: seq<byte>, at: nat, s: Text, i: nat)
    requires TextAt(memory, at, s) && i < |s|
    ensures at + TEXT + i < |memory| && memory[at + TEXT + i] == s[i]
  {
    assert memory[at + TEXT..at + TEXT + |s|][i] == memory[at + TEXT + i];
  }

  lemma LongerSame(s: Text, needle: Text, at: nat, i: nat)
    requires at + i < |s| && i < |needle|
    ensures s[at..at + i + 1] == needle[..i + 1] <==> s[at..at + i] == needle[..i] && s[at + i] == needle[i]
  {
    SliceOneMore(s, at, i);
    PrefixOneMore(needle, i);
    assert s[at..at + i + 1][i] == s[at + i] && needle[..i + 1][i] == needle[i];
    if s[at..at + i + 1] == needle[..i + 1] {
      assert s[at..at + i] == s[at..at + i + 1][..i] == needle[..i + 1][..i] == needle[..i];
    }
  }

  lemma SliceOneMore(s: Text, at: nat, i: nat)
    requires at + i < |s|
    ensures s[at..at + i + 1] == s[at..at + i] + [s[at + i]]
  {
  }

  lemma PrefixOneMore(s: Text, i: nat)
    requires i < |s|
    ensures s[..i + 1] == s[..i] + [s[i]]
  {
  }

  // -- lists of strings ------------------------------------------------------

  /** Where the word of this element is. */
  function Element(list: nat, k: nat): nat { list + L.ElementOffset(k) }

  /** The element at this index is the address of this string. */
  ghost predicate PieceAt(memory: seq<byte>, list: nat, k: nat, piece: Text) {
    && Element(list, k) + 8 <= |memory|
    && WordAt(memory, Element(list, k)) >= 0 && Held(memory, WordAt(memory, Element(list, k)), piece)
  }

  /** A list of strings: how many, and the address of each. */
  ghost predicate PiecesAt(memory: seq<byte>, list: nat, pieces: seq<Text>) {
    && Orderly(memory) && 8 <= list && list + L.ListSize(|pieces|) <= BumpOf(memory)
    && WordAt(memory, list) == |pieces|
    && forall k | 0 <= k < |pieces| :: PieceAt(memory, list, k, pieces[k])
  }

  /** The list's own words, and every piece written so far above them. */
  ghost predicate Filled(memory: seq<byte>, list: nat, count: nat, pieces: seq<Text>) {
    && Orderly(memory) && L.HEAP_START <= list && list + L.ListSize(count) <= BumpOf(memory)
    && WordAt(memory, list) == count
    && forall k | 0 <= k < |pieces| && k < count :: PieceAbove(memory, list, count, k, pieces[k])
  }

  ghost predicate PieceAbove(memory: seq<byte>, list: nat, count: nat, k: nat, piece: Text) {
    PieceAt(memory, list, k, piece) && list + L.ListSize(count) <= WordAt(memory, Element(list, k))
  }

  /** A list with room for its elements and none written yet. */
  method NewList(machine: Machine, count: nat) returns (r: Option<nat>)
    requires Orderly(machine.memory) && L.ListSize(count) <= 16 * CEILING
    modifies machine
    ensures r.Some? <==> BumpOf(old(machine.memory)) + L.ListSize(count) <= CEILING
    ensures r.Some? ==>
              && r.value == BumpOf(old(machine.memory)) && Filled(machine.memory, r.value, count, [])
              && Extends(old(machine.memory), machine.memory)
              && BumpOf(machine.memory) == r.value + L.ListSize(count)
  {
    r := machine.Allocate(L.ListSize(count));
    if r.Some? {
      ghost var reserved := machine.memory;
      machine.PutWord(r.value, count);
      assert machine.memory[0..8] == reserved[0..8];
    }
  }

  /** A piece already written stays where it is when another is allocated. */
  lemma PieceStays(before: seq<byte>, after: seq<byte>, list: nat, count: nat, k: nat, piece: Text)
    requires PieceAbove(before, list, count, k, piece) && k < count && L.HEAP_START <= list
    requires Orderly(after) && Extends(before, after) && list + L.ListSize(count) <= BumpOf(before)
    ensures PieceAbove(after, list, count, k, piece)
  {
    SliceStays(before, after, Element(list, k), Element(list, k) + 8);
    HeldStays(before, after, WordAt(before, Element(list, k)), piece);
  }

  /** Writing another element's word leaves it alone. */
  lemma PieceUntouched(before: seq<byte>, after: seq<byte>, list: nat, count: nat, k: nat, piece: Text, j: nat, v: i64)
    requires PieceAbove(before, list, count, k, piece) && k < count && j < count && j != k && L.HEAP_START <= list
    requires Put(before, after, Element(list, j), WordBytes(v)) && Orderly(after) && BumpOf(after) == BumpOf(before)
    ensures PieceAbove(after, list, count, k, piece)
  {
    hide WordAt, WordBytes, Put, TextAt, Orderly;
    var a := WordAt(before, Element(list, k));
    PutSize(before, after, Element(list, j), WordBytes(v));
    PutKeeps(before, after, Element(list, j), WordBytes(v), Element(list, k), Element(list, k) + 8);
    SameWord(before, after, Element(list, k));
    TextUntouched(before, after, Element(list, j), v, a, piece);
  }

  lemma PutSize(before: seq<byte>, after: seq<byte>, at: nat, bytes: seq<byte>)
    requires Put(before, after, at, bytes)
    ensures |before| == |after|
  {
  }

  lemma TextUntouched(before: seq<byte>, after: seq<byte>, at: nat, v: i64, a: nat, text: Text)
    requires TextAt(before, a, text) && Put(before, after, at, WordBytes(v)) && at + 8 <= a
    ensures TextAt(after, a, text)
  {
    PutKeeps(before, after, at, WordBytes(v), a, a + 8);
    PutKeeps(before, after, at, WordBytes(v), a + 8, a + 16);
    PutKeeps(before, after, at, WordBytes(v), a + TEXT, a + TEXT + |text|);
  }

  /** One more piece: the string allocated, and its address in the next element. */
  lemma OneMorePiece(
    before: seq<byte>, sliced: seq<byte>, after: seq<byte>, list: nat, count: nat, pieces: seq<Text>, a: nat, piece: Text)
    requires Filled(before, list, count, pieces) && |pieces| < count
    requires Extends(before, sliced) && Held(sliced, a, piece) && a == BumpOf(before)
    requires Put(sliced, after, Element(list, |pieces|), WordBytes(a)) && WordAt(after, Element(list, |pieces|)) == a
    ensures Filled(after, list, count, pieces + [piece]) && BumpOf(after) == BumpOf(sliced)
  {
    hide WordBytes, PieceAbove, TextAt;
    var n := |pieces|;
    HeadsStay(before, sliced, after, list, Element(list, n), a);
    NewPiece(before, sliced, after, list, count, n, a, piece);
    forall k | 0 <= k < |pieces + [piece]| && k < count
      ensures PieceAbove(after, list, count, k, (pieces + [piece])[k])
    {
      if k < n {
        PieceStays(before, sliced, list, count, k, pieces[k]);
        PieceUntouched(sliced, after, list, count, k, pieces[k], n, a);
      }
    }
  }

  /** The bump pointer and the list's count are not among what changed. */
  lemma HeadsStay(before: seq<byte>, sliced: seq<byte>, after: seq<byte>, list: nat, at: nat, v: i64)
    requires Orderly(sliced) && Extends(before, sliced) && L.HEAP_START <= list && list + 8 <= at && at <= BumpOf(before) <= |before|
    requires Put(sliced, after, at, WordBytes(v))
    ensures BumpOf(after) == BumpOf(sliced) && Orderly(after) && WordAt(after, list) == WordAt(before, list)
  {
    hide WordAt, WordBytes;
    PutKeeps(sliced, after, at, WordBytes(v), 0, 8);
    SameWord(sliced, after, 0);
    SliceStays(before, sliced, list, list + 8);
    PutKeeps(sliced, after, at, WordBytes(v), list, list + 8);
    SameWord(before, after, list);
  }

  lemma NewPiece(
    before: seq<byte>, sliced: seq<byte>, after: seq<byte>, list: nat, count: nat, n: nat, a: nat, piece: Text)
    requires |before| >= 8 && n < count && list + L.ListSize(count) <= BumpOf(before)
    requires Held(sliced, a, piece) && a == BumpOf(before) && Orderly(after) && BumpOf(after) == BumpOf(sliced)
    requires Put(sliced, after, Element(list, n), WordBytes(a)) && WordAt(after, Element(list, n)) == a
    ensures PieceAbove(after, list, count, n, piece)
  {
    TextUntouched(sliced, after, Element(list, n), a, a, piece);
  }
}
