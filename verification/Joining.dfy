/** The join helper whole: one walk to measure, one to copy. */
module Joining {
  import opened Ints
  import opened Wasm
  import opened Types
  import opened Compile
  import opened Heap
  import opened Texts
  import opened Pieces
  import opened Splitting
  import opened SplitJoin
  import L = Layout

  // -- measuring -------------------------------------------------------------

  function TotalBytes(pieces: seq<Text>): nat {
    if pieces == [] then 0 else TotalBytes(pieces[..|pieces| - 1]) + |pieces[|pieces| - 1]|
  }

  function TotalCharacters(pieces: seq<Text>): nat {
    if pieces == [] then 0 else TotalCharacters(pieces[..|pieces| - 1]) + Characters(pieces[|pieces| - 1])
  }

  /** What a join puts in front of piece `i`: nothing at the very start, and the separator after that. */
  function Before(sep: Text, i: nat): Text { if i > 0 then sep else [] }

  lemma {:induction false} JoinOneMore(pieces: seq<Text>, sep: Text, i: nat)
    requires i < |pieces|
    ensures Join(pieces[..i + 1], sep) == Join(pieces[..i], sep) + Before(sep, i) + pieces[i]
    decreases |pieces|
  {
    if i == 0 {
      assert pieces[..1] == [pieces[0]] && pieces[..0] == [];
    } else {
      var rest := pieces[1..];
      JoinOneMore(rest, sep, i - 1);
      assert pieces[..i + 1] == [pieces[0]] + rest[..i] && pieces[..i] == [pieces[0]] + rest[..i - 1];
      JoinFirst(pieces[0], rest[..i], sep);
      JoinFirst(pieces[0], rest[..i - 1], sep);
      JoinedTail(pieces[0], sep, Join(rest[..i - 1], sep), Before(sep, i - 1), rest[i - 1], i);
    }
  }

  lemma JoinedTail(first: Text, sep: Text, middle: Text, before: Text, last: Text, i: nat)
    requires i > 0 && (i == 1 ==> middle == [] && before == [])
    ensures i > 1 ==> first + sep + (middle + before + last) == first + sep + middle + before + last
    ensures i == 1 ==> first + sep + (middle + before + last) == first + sep + last
  {
  }

  lemma {:induction false} JoinMeasures(pieces: seq<Text>, sep: Text, i: nat)
    requires i <= |pieces|
    ensures |Join(pieces[..i], sep)| == TotalBytes(pieces[..i]) + if i > 0 then |sep| * (i - 1) else 0
    ensures Characters(Join(pieces[..i], sep)) == TotalCharacters(pieces[..i]) + if i > 0 then Characters(sep) * (i - 1) else 0
    decreases i
  {
    if i > 0 {
      var k := i - 1;
      JoinMeasures(pieces, sep, k);
      JoinOneMore(pieces, sep, k);
      TotalsOneMore(pieces, k);
      CharactersAppend(Join(pieces[..k], sep) + Before(sep, k), pieces[k]);
      CharactersAppend(Join(pieces[..k], sep), Before(sep, k));
      OneMoreTimes(|sep|, k);
      OneMoreTimes(Characters(sep), k);
    } else {
      assert pieces[..0] == [];
    }
  }

  lemma OneMoreTimes(a: nat, k: nat)
    ensures k > 0 ==> a * k == a * (k - 1) + a
    ensures a * 0 == 0
  {
  }

  lemma TotalsOneMore(pieces: seq<Text>, k: nat)
    requires k < |pieces|
    ensures TotalBytes(pieces[..k + 1]) == TotalBytes(pieces[..k]) + |pieces[k]|
    ensures TotalCharacters(pieces[..k + 1]) == TotalCharacters(pieces[..k]) + Characters(pieces[k])
  {
    assert pieces[..k + 1][..k] == pieces[..k];
  }

  /** Where a piece is, how many bytes it has and how many characters. */
  method Measure(memory: seq<byte>, list: nat, k: nat, ghost piece: Text) returns (a: nat, bytes: nat, characters: nat)
    requires PieceAt(memory, list, k, piece)
    ensures a == WordAt(memory, Element(list, k)) && Held(memory, a, piece)
    ensures bytes == |piece| && characters == Characters(piece)
  {
    a := WordAt(memory, Element(list, k));
    bytes := WordAt(memory, a + 8);
    characters := WordAt(memory, a);
  }

  /**
   * How many bytes and characters the whole answer has, as numbers of 32 bits: a total past what
   * those hold wraps around.
   */
  method MeasureAll(memory: seq<byte>, list: nat, count: nat, b: nat, ghost pieces: seq<Text>, ghost sep: Text)
    returns (bytes: i32, characters: i32)
    requires PiecesAt(memory, list, pieces) && Held(memory, b, sep) && count == |pieces|
    ensures bytes == Wrap32(|Join(pieces, sep)|) && characters == Wrap32(Characters(Join(pieces, sep)))
  {
    hide TextAt, Characters, Wrap32;
    bytes, characters := 0, 0;
    var i := 0;
    assert pieces[..0] == [];
    WrapNothing();
    while i < count
      invariant i <= count && bytes == Wrap32(TotalBytes(pieces[..i])) && characters == Wrap32(TotalCharacters(pieces[..i]))
    {
      assert PieceAt(memory, list, i, pieces[i]);
      var _, m, c := Measure(memory, list, i, pieces[i]);
      bytes, characters := Wrap32(bytes + m), Wrap32(characters + c);
      WrapLeft(TotalBytes(pieces[..i]), m);
      WrapLeft(TotalCharacters(pieces[..i]), c);
      TotalsOneMore(pieces, i);
      i := i + 1;
    }
    JoinMeasures(pieces, sep, count);
    assert pieces[..count] == pieces;
    if count > 0 {
      HeldTexts(memory, b, sep, b, sep);
      var m, c := TextCounts(memory, b, sep);
      bytes, characters := Wrap32(bytes + Wrap32(m * (count - 1))), Wrap32(characters + Wrap32(c * (count - 1)));
      WrapBoth(TotalBytes(pieces), m * (count - 1));
      WrapBoth(TotalCharacters(pieces), c * (count - 1));
    }
  }

  lemma WrapNothing()
    ensures Wrap32(0) == 0
  {
  }

  lemma WrapLeft(x: int, y: int)
    ensures Wrap32(Wrap32(x) + y) == Wrap32(x + y)
  {
    var turns := (x + 0x8000_0000) / TWO_32;
    assert Wrap32(x) == x - TWO_32 * turns;
    WrapTurns(x + y, turns);
  }

  lemma WrapTurns(x: int, turns: int)
    ensures Wrap32(x - TWO_32 * turns) == Wrap32(x)
  {
    var from, to := x - TWO_32 * turns + 0x8000_0000, x + 0x8000_0000;
    assert to == TWO_32 * (to / TWO_32) + to % TWO_32;
    assert from == TWO_32 * (to / TWO_32 - turns) + to % TWO_32;
  }

  lemma WrapBoth(x: int, y: int)
    ensures Wrap32(Wrap32(x) + Wrap32(y)) == Wrap32(x + y)
  {
    WrapLeft(x, Wrap32(y));
    WrapLeft(y, x);
  }

  method TextCounts(memory: seq<byte>, at: nat, ghost text: Text) returns (bytes: nat, characters: nat)
    requires TextAt(memory, at, text)
    ensures bytes == |text| && characters == Characters(text)
  {
    bytes := WordAt(memory, at + 8);
    characters := WordAt(memory, at);
  }

  // -- copying ---------------------------------------------------------------

  /** What has been copied so far, into room nothing else is using. */
  ghost predicate Copied(start: seq<byte>, counted: seq<byte>, memory: seq<byte>, out: nat, text: Text) {
    && Orderly(start) && BumpOf(start) == out && out + TEXT <= |counted| && |start| <= |counted|
    && (forall i | 8 <= i < out && i < |start| :: counted[i] == start[i])
    && Put(counted, memory, out + TEXT, text)
  }

  /** Strings there from the start can still be read while copying. */
  lemma StillReads(start: seq<byte>, counted: seq<byte>, memory: seq<byte>, out: nat, text: Text, a: nat, s: Text)
    requires Copied(start, counted, memory, out, text) && Held(start, a, s)
    ensures a + TEXT + |s| <= out <= |start| && TextAt(memory, a, s) && memory[a + TEXT..a + TEXT + |s|] == s
  {
    hide WordAt, Characters, WordBytes;
    SameBelow(start, counted, memory, out, text, a, a + 8);
    SameBelow(start, counted, memory, out, text, a + 8, a + 16);
    SameBelow(start, counted, memory, out, text, a + TEXT, a + TEXT + |s|);
    SameWord(start, memory, a);
    SameWord(start, memory, a + 8);
  }

  lemma SameBelow(start: seq<byte>, counted: seq<byte>, memory: seq<byte>, out: nat, text: Text, from: nat, to: nat)
    requires Copied(start, counted, memory, out, text) && 8 <= from <= to <= out
    ensures to <= |start| && to <= |memory| && memory[from..to] == start[from..to]
  {
    hide WordAt;
  }

  /** A string added to what has been copied. Byte by byte, one is past the end of memory unless the last is not. */
  method CopyOne(
    machine: Machine, ghost start: seq<byte>, ghost counted: seq<byte>, out: nat, wrote: nat, a: nat, n: nat,
    ghost text: Text, ghost s: Text) returns (ok: bool)
    requires Copied(start, counted, machine.memory, out, text) && Held(start, a, s) && wrote == |text| && n == |s|
    modifies machine
    ensures ok <==> out + TEXT + |text + s| <= |counted|
    ensures ok ==> Copied(start, counted, machine.memory, out, text + s)
  {
    hide WordAt, Held, Orderly, TextAt;
    ghost var before := machine.memory;
    if out + TEXT + wrote + n > |machine.memory| {
      return false;
    }
    StillReads(start, counted, before, out, text, a, s);
    CopyBytes(machine, out + TEXT + wrote, a + TEXT, n);
    PutThen(counted, before, machine.memory, out + TEXT, text, s);
    ok := true;
  }

  /** One turn of the copying walk: what goes in front of piece `i`, and then the piece. */
  method CopyPiece(
    machine: Machine, ghost start: seq<byte>, ghost counted: seq<byte>, out: nat, wrote: nat, list: nat, i: nat,
    b: nat, nsep: nat, ghost pieces: seq<Text>, ghost sep: Text) returns (ok: bool, next: nat)
    requires PiecesAt(start, list, pieces) && Held(start, b, sep) && nsep == |sep| && i < |pieces|
    requires Copied(start, counted, machine.memory, out, Join(pieces[..i], sep)) && wrote == |Join(pieces[..i], sep)|
    modifies machine
    ensures ok <==> out + TEXT + |Join(pieces[..i + 1], sep)| <= |counted|
    ensures ok ==> Copied(start, counted, machine.memory, out, Join(pieces[..i + 1], sep)) && next == |Join(pieces[..i + 1], sep)|
  {
    hide WordAt, Held, Orderly, TextAt, Join, Copied;
    ghost var so := Join(pieces[..i], sep);
    JoinOneMore(pieces, sep, i);
    next := wrote;
    if i > 0 {
      ok := CopyOne(machine, start, counted, out, next, b, nsep, so, sep);
      if !ok {
        return;
      }
      next := next + nsep;
    } else {
      assert so + [] == so;
    }
    PieceReads(start, counted, machine.memory, out, so + Before(sep, i), list, pieces, i);
    var a, n, _ := PieceLength(machine.memory, list, i, pieces[i]);
    ok := CopyOne(machine, start, counted, out, next, a, n, so + Before(sep, i), pieces[i]);
    next := next + n;
  }

  /** The address in an element, and the length found there. */
  method PieceLength(memory: seq<byte>, list: nat, k: nat, ghost piece: Text) returns (a: nat, bytes: nat, characters: nat)
    requires Element(list, k) + 8 <= |memory| && WordAt(memory, Element(list, k)) >= 0
    requires TextAt(memory, WordAt(memory, Element(list, k)), piece)
    ensures a == WordAt(memory, Element(list, k)) && bytes == |piece| && characters == Characters(piece)
  {
    a := WordAt(memory, Element(list, k));
    bytes, characters := TextCounts(memory, a, piece);
  }

  lemma PieceReads(
    start: seq<byte>, counted: seq<byte>, memory: seq<byte>, out: nat, text: Text, list: nat, pieces: seq<Text>, k: nat)
    requires PiecesAt(start, list, pieces) && k < |pieces| && Copied(start, counted, memory, out, text)
    ensures Element(list, k) + 8 <= |memory| && WordAt(memory, Element(list, k)) >= 0
    ensures Held(start, WordAt(memory, Element(list, k)), pieces[k])
    ensures TextAt(memory, WordAt(memory, Element(list, k)), pieces[k])
  {
    hide WordAt, Characters, TextAt;
    assert PieceAt(start, list, k, pieces[k]);
    SameBelow(start, counted, memory, out, text, Element(list, k), Element(list, k) + 8);
    SameWord(start, memory, Element(list, k));
    StillReads(start, counted, memory, out, text, WordAt(start, Element(list, k)), pieces[k]);
  }

  lemma {:induction false} JoinShorter(pieces: seq<Text>, sep: Text, i: nat)
    requires i <= |pieces|
    ensures |Join(pieces[..i], sep)| <= |Join(pieces, sep)|
    decreases |pieces| - i
  {
    if i < |pieces| {
      JoinOneMore(pieces, sep, i);
      JoinShorter(pieces, sep, i + 1);
    } else {
      assert pieces[..i] == pieces;
    }
  }

  /** The room asked for when the measured total is `bytes`, which is negative when measuring wrapped. */
  function RoomAsked(bytes: i32): int { TEXT + WordRoom(bytes) }

  lemma RoomAskedIs(bytes: i32)
    ensures bytes >= 0 ==> RoomAsked(bytes) == StringRoom(bytes)
    ensures -0x8000_0000 <= RoomAsked(bytes) < 0x8000_0000 + 32
  {
  }

  /** Anything that fits in memory at all has a total that did not wrap. */
  lemma NotWrapped(pieces: seq<Text>, sep: Text, bytes: i32, characters: i32)
    requires bytes == Wrap32(|Join(pieces, sep)|) && characters == Wrap32(Characters(Join(pieces, sep)))
    requires |Join(pieces, sep)| <= CEILING
    ensures bytes == |Join(pieces, sep)| && characters == Characters(Join(pieces, sep)) <= bytes
  {
    CharactersFew(Join(pieces, sep));
  }

  /** The pieces with the separator between them, as one new string. A total past what can be counted stops it like any other that does not fit. */
  method JoinText(machine: Machine, list: nat, b: nat, ghost pieces: seq<Text>, ghost sep: Text) returns (r: Option<nat>)
    requires PiecesAt(machine.memory, list, pieces) && Held(machine.memory, b, sep)
    modifies machine
    ensures r.Some? <==> BumpOf(old(machine.memory)) + StringRoom(|Join(pieces, sep)|) <= CEILING
    ensures r.Some? ==>
              && r.value == BumpOf(old(machine.memory)) && Held(machine.memory, r.value, Join(pieces, sep))
              && Extends(old(machine.memory), machine.memory)
  {
    hide Join, TextAt, Characters, WordAt, WordBytes, StringRoom, PieceAt, Wrap32, RoomAsked;
    ghost var start := machine.memory;
    HeldSound(start, b, sep);
    RoomFor(|Join(pieces, sep)|);
    var count: nat := ElementCount(machine.memory, list, pieces);
    var bytes, characters := MeasureAll(machine.memory, list, count, b, pieces, sep);
    HeldTexts(start, b, sep, b, sep);
    var nsep := TextLength(machine.memory, b, sep);
    RoomAskedIs(bytes);
    if |Join(pieces, sep)| <= CEILING {
      NotWrapped(pieces, sep, bytes, characters);
    }
    r := machine.Reserve(RoomAsked(bytes));
    if r.None? || r.value + TEXT > |machine.memory| {
      return None;
    }
    var ok := CopyAll(machine, start, r.value, list, count, b, nsep, bytes, characters, pieces, sep);
    if !ok {
      return None;
    }
  }

  method ElementCount(memory: seq<byte>, list: nat, ghost pieces: seq<Text>) returns (count: nat)
    requires PiecesAt(memory, list, pieces)
    ensures count == |pieces|
  {
    count := WordAt(memory, list);
  }

  lemma HeldSound(memory: seq<byte>, at: nat, text: Text)
    requires Held(memory, at, text)
    ensures Orderly(memory) && L.HEAP_START <= BumpOf(memory) <= |memory|
  {
  }

  /** Both counts, and then the pieces one after another, as long as there is memory. */
  method CopyAll(
    machine: Machine, ghost start: seq<byte>, out: nat, list: nat, count: nat, b: nat, nsep: nat, bytes: i32, characters: i32,
    ghost pieces: seq<Text>, ghost sep: Text) returns (ok: bool)
    requires PiecesAt(start, list, pieces) && Held(start, b, sep) && nsep == |sep| && count == |pieces|
    requires Orderly(start) && BumpOf(start) == out && out + TEXT <= |machine.memory|
    requires Moved(start, machine.memory, RoomAsked(bytes))
    requires |Join(pieces, sep)| <= CEILING ==>
               bytes == |Join(pieces, sep)| && characters == Characters(Join(pieces, sep)) <= bytes
    modifies machine
    ensures ok <==> out + StringRoom(|Join(pieces, sep)|) <= CEILING
    ensures ok ==> Held(machine.memory, out, Join(pieces, sep)) && Extends(start, machine.memory)
  {
    hide TextAt, WordBytes, WordAt, Characters, Join, PieceAt, Held, StringRoom, RoomAsked, Copied, Moved;
    ghost var reserved := machine.memory;
    MovedKeeps(start, reserved, RoomAsked(bytes));
    machine.PutCounts(out, characters, bytes);
    ghost var counted := machine.memory;
    var i, wrote := 0, 0;
    assert pieces[..0] == [];
    JoinFew([], sep);
    CopiedNothing(start, reserved, counted, out, RoomAsked(bytes));
    while i < count
      invariant i <= count
      invariant Copied(start, counted, machine.memory, out, Join(pieces[..i], sep)) && wrote == |Join(pieces[..i], sep)|
    {
      var fits, next := CopyPiece(machine, start, counted, out, wrote, list, i, b, nsep, pieces, sep);
      if !fits {
        JoinShorter(pieces, sep, i + 1);
        DoesNotFit(start, reserved, out, pieces, sep, bytes);
        return false;
      }
      wrote := next;
      i := i + 1;
    }
    assert pieces[..count] == pieces;
    AllCopied(start, reserved, counted, machine.memory, out, pieces, sep, bytes, characters);
    ok := true;
  }

  lemma MovedKeeps(start: seq<byte>, reserved: seq<byte>, room: int)
    requires Moved(start, reserved, room)
    ensures 8 <= |start| <= |reserved|
  {
  }

  lemma CopiedNothing(start: seq<byte>, reserved: seq<byte>, counted: seq<byte>, out: nat, room: int)
    requires Orderly(start) && BumpOf(start) == out && out + TEXT <= |reserved| == |counted| && Moved(start, reserved, room)
    requires forall i | 0 <= i < |reserved| && !(out <= i < out + 16) :: counted[i] == reserved[i]
    ensures Copied(start, counted, counted, out, [])
  {
    hide WordAt;
    assert Put(counted, counted, out + TEXT, []);
  }

  /** When the copy goes past the end of memory, there was no room for the whole. */
  lemma DoesNotFit(start: seq<byte>, reserved: seq<byte>, out: nat, pieces: seq<Text>, sep: Text, bytes: i32)
    requires Moved(start, reserved, RoomAsked(bytes)) && BumpOf(start) == out
    requires |Join(pieces, sep)| <= CEILING ==> bytes == |Join(pieces, sep)|
    requires out + TEXT + |Join(pieces, sep)| > |reserved|
    ensures out + StringRoom(|Join(pieces, sep)|) > CEILING
  {
    hide WordAt, RoomAsked, StringRoom, Join;
    RoomFor(|Join(pieces, sep)|);
    RoomAskedIs(bytes);
  }

  /** When all of it is there, so are its counts, and everything from before. */
  lemma AllCopied(
    start: seq<byte>, reserved: seq<byte>, counted: seq<byte>, memory: seq<byte>, out: nat, pieces: seq<Text>, sep: Text,
    bytes: i32, characters: i32)
    requires Orderly(start) && BumpOf(start) == out && Moved(start, reserved, RoomAsked(bytes))
    requires out + TEXT <= |counted| == |reserved| && WordAt(counted, out) == characters && WordAt(counted, out + 8) == bytes
    requires forall i | 0 <= i < |reserved| && !(out <= i < out + 16) :: counted[i] == reserved[i]
    requires Copied(start, counted, memory, out, Join(pieces, sep))
    requires |Join(pieces, sep)| <= CEILING ==>
               bytes == |Join(pieces, sep)| && characters == Characters(Join(pieces, sep)) <= bytes
    ensures out + StringRoom(|Join(pieces, sep)|) <= CEILING
    ensures Held(memory, out, Join(pieces, sep)) && Extends(start, memory)
  {
    hide WordAt, RoomAsked, StringRoom, Join, Characters, TextAt, Held, WordBytes, Moved, Orderly, Extends, Put;
    RoomFor(|Join(pieces, sep)|);
    RoomAskedIs(bytes);
    WholeWords(|Join(pieces, sep)|);
    MovedEnds(start, reserved, out, RoomAsked(bytes));
    CopiedFits(start, counted, memory, out, Join(pieces, sep));
    MovedWell(start, reserved, out, RoomAsked(bytes));
    Written(start, reserved, counted, memory, out, Join(pieces, sep), StringRoom(bytes));
  }

  lemma CopiedFits(start: seq<byte>, counted: seq<byte>, memory: seq<byte>, out: nat, text: Text)
    requires Copied(start, counted, memory, out, text)
    ensures out + TEXT + |text| <= |counted| && Put(counted, memory, out + TEXT, text)
  {
  }

  lemma MovedEnds(start: seq<byte>, reserved: seq<byte>, out: nat, room: int)
    requires Orderly(start) && BumpOf(start) == out && Moved(start, reserved, room)
    ensures L.HEAP_START <= out && |reserved| <= CEILING
  {
  }

  lemma MovedWell(start: seq<byte>, reserved: seq<byte>, out: nat, room: int)
    requires Orderly(start) && BumpOf(start) == out && Moved(start, reserved, room) && room >= 0 && room % 8 == 0
    ensures Orderly(reserved) && Extends(start, reserved) && BumpOf(reserved) == out + room <= |reserved|
  {
    hide WordAt;
  }

  lemma WholeWords(bytes: nat)
    ensures StringRoom(bytes) % 8 == 0
  {
  }

  /**
   * Split and then joined: the same string again, unless it was cut into characters and starts in
   * the middle of one. It runs out of memory exactly when the list, its pieces and the answer do not fit.
   */
  method SplitThenJoin(machine: Machine, a: nat, b: nat, ghost s: Text, ghost sep: Text) returns (r: Option<nat>)
    requires Held(machine.memory, a, s) && Held(machine.memory, b, sep)
    requires sep == [] && s != [] ==> !Continues(s[0])
    modifies machine
    ensures var pieces := Split(s, sep);
      r.Some? <==>
        BumpOf(old(machine.memory)) + L.ListSize(|pieces|) + RoomForAll(pieces) + StringRoom(|s|) <= CEILING
    ensures r.Some? ==> Held(machine.memory, r.value, s) && Extends(old(machine.memory), machine.memory)
  {
    hide TextAt, WordAt, StringRoom, RoomForAll, Split, Join, PieceAt, Held, Extends;
    ghost var start := machine.memory;
    HeldSound(start, a, s);
    RoomFor(|s|);
    JoinsSplit(s, sep);
    var list := SplitText(machine, a, b, s, sep);
    if list.None? {
      return None;
    }
    ghost var cut := machine.memory;
    HeldStays(start, cut, b, sep);
    r := JoinText(machine, list.value, b, Split(s, sep), sep);
    if r.Some? {
      ExtendsThen(start, cut, machine.memory);
    }
  }
}
