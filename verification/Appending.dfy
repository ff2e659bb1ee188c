/**
 * Lists of words: pushing onto one by copying it, and filling one in place inside room that was
 * reserved for it, which leaves the same list.
 */
module Appending {
  import opened Ints
  import opened Wasm
  import opened Types
  import opened Heap
  import opened Frames
  import opened WithBlocks
  import L = Layout

  /** A list laid out at an address: how many, and then each. */
  ghost predicate ListAt(memory: seq<byte>, at: nat, words: seq<i64>) {
    && at + L.ListSize(|words|) <= |memory|
    && WordAt(memory, at) == |words| && WordsAt(memory, at + 8, words)
  }

  /** A list in a block with room for more, all of it allocated. */
  ghost predicate Reserved(memory: seq<byte>, at: nat, words: seq<i64>, room: nat) {
    && Orderly(memory) && L.HEAP_START <= at && |words| <= room && at + L.ListSize(room) <= BumpOf(memory)
    && ListAt(memory, at, words)
  }

  /** Reading a list: how many elements it has, and the one at an index, a word further on than the index says. */
  method ReadList(memory: seq<byte>, xs: nat, index: nat, ghost words: seq<i64>, ghost room: nat) returns (length: i64, element: i64)
    requires Reserved(memory, xs, words, room) && index < |words|
    ensures length == |words| && element == words[index]
  {
    hide WordAt;
    length := WordAt(memory, xs);
    element := WordAt(memory, xs + 8 * (index + 1));
  }

  /** Everything allocated before is as it was, apart from one block. */
  ghost predicate ExtendsBeside(before: seq<byte>, after: seq<byte>, from: nat, to: nat) {
    && 8 <= |before| <= |after| && BumpOf(before) <= BumpOf(after)
    && forall i | 8 <= i < BumpOf(before) && i < |before| && !(from <= i < to) :: after[i] == before[i]
  }

  lemma BesideThen(a: seq<byte>, b: seq<byte>, c: seq<byte>, from: nat, to: nat)
    requires ExtendsBeside(a, b, from, to) && ExtendsBeside(b, c, from, to)
    ensures ExtendsBeside(a, c, from, to)
  {
  }

  /** A list away from a block that changes stays the list it is. */
  lemma ListStays(before: seq<byte>, after: seq<byte>, at: nat, words: seq<i64>, room: nat, from: nat, to: nat)
    requires Reserved(before, at, words, room) && Orderly(after) && ExtendsBeside(before, after, from, to)
    requires at + L.ListSize(room) <= from || to <= at
    ensures Reserved(after, at, words, room)
  {
    hide WordAt;
    WordKept(before, after, at);
    WordsKept(before, after, at + 8, words);
  }

  // -- pushing ---------------------------------------------------------------

  /** Words copied up, one at a time. */
  method CopyWords(m: Machine, to: nat, from: nat, ghost words: seq<i64>, n: nat)
    requires n == |words| && WordsAt(m.memory, from, words) && from + 8 * n <= to && to + 8 * n <= |m.memory|
    modifies m
    ensures |m.memory| == |old(m.memory)| && WordsAt(m.memory, to, words)
    ensures SameOver(old(m.memory), m.memory, 0, to) && SameOver(old(m.memory), m.memory, to + 8 * n, |m.memory|)
  {
    hide WordAt, WordBytes;
    ghost var before := m.memory;
    var k := 0;
    while k < n
      invariant k <= n && |m.memory| == |before| && WordsAt(m.memory, to, words[..k])
      invariant SameOver(before, m.memory, 0, to) && SameOver(before, m.memory, to + 8 * k, |before|)
    {
      ghost var held := m.memory;
      WordKept(before, held, from + 8 * k);
      m.PutWord(to + 8 * k, WordAt(m.memory, from + 8 * k));
      WordsKept(held, m.memory, to, words[..k]);
      assert words[..k + 1] == words[..k] + [words[k]];
      k := k + 1;
    }
    assert words[..n] == words;
  }

  /** Appending by copying: the answer holds the words and then the value, and the argument can be read as before. */
  method ListExtended(m: Machine, xs: nat, value: i64, ghost words: seq<i64>) returns (r: Option<nat>)
    requires Reserved(m.memory, xs, words, |words|)
    modifies m
    ensures r.Some? <==> BumpOf(old(m.memory)) + L.ListSize(|words| + 1) <= CEILING
    ensures r.Some? ==>
              && r.value == BumpOf(old(m.memory)) && Reserved(m.memory, r.value, words + [value], |words| + 1)
              && Extends(old(m.memory), m.memory) && BumpOf(m.memory) == r.value + L.ListSize(|words| + 1)
  {
    hide WordAt, WordBytes, WordsAt;
    ghost var start := m.memory;
    var n: nat := WordAt(m.memory, xs);
    r := m.Allocate(L.ListSize(n + 1));
    if r.None? {
      return;
    }
    var out := r.value;
    ghost var reserved := m.memory;
    m.PutWord(out, n + 1);
    ghost var counted := m.memory;
    WordsKept(start, counted, xs + 8, words);
    CopyWords(m, out + 8, xs + 8, words, n);
    ghost var copied := m.memory;
    m.PutWord(out + 8 + 8 * n, value);
    OneMoreWord(copied, m.memory, out, words, value);
    WordKept(counted, m.memory, out);
    WordKept(reserved, m.memory, L.BUMP);
  }

  lemma OneMoreWord(copied: seq<byte>, last: seq<byte>, out: nat, words: seq<i64>, value: i64)
    requires |last| == |copied| && WordsAt(copied, out + 8, words)
    requires out + 8 + 8 * |words| + 8 <= |copied| && Put(copied, last, out + 8 + 8 * |words|, WordBytes(value))
    requires WordAt(last, out + 8 + 8 * |words|) == value
    ensures WordsAt(last, out + 8, words + [value])
  {
    hide WordAt, WordBytes;
    WordsKept(copied, last, out + 8, words);
  }

  // -- in place --------------------------------------------------------------

  /** A list of no elements followed by space for `count` of them. A negative count reserves no elements. */
  method ListWithRoom(m: Machine, count: i64) returns (r: Option<nat>)
    requires Orderly(m.memory) && count < 0x8000_0000
    modifies m
    ensures var room := if count < 0 then 0 else count;
            && (r.Some? <==> BumpOf(old(m.memory)) + L.ListSize(room) <= CEILING)
            && (r.Some? ==>
                  && r.value == BumpOf(old(m.memory)) && Reserved(m.memory, r.value, [], room)
                  && Extends(old(m.memory), m.memory) && BumpOf(m.memory) == r.value + L.ListSize(room))
  {
    hide WordAt, WordBytes;
    var n: nat := if count < 0 then 0 else count;
    r := m.Allocate(L.ListSize(n));
    if r.Some? {
      ghost var reserved := m.memory;
      m.PutWord(r.value, 0);
      WordKept(reserved, m.memory, L.BUMP);
    }
  }

  /** The elements of one list in a new block that has `extra` words to spare. */
  method ListWithRoomFrom(m: Machine, xs: nat, extra: i64, ghost words: seq<i64>, ghost held: nat) returns (r: Option<nat>)
    requires Reserved(m.memory, xs, words, held) && extra < 0x4000_0000
    modifies m
    ensures var room := |words| + if extra < 0 then 0 else extra;
            && (r.Some? <==> BumpOf(old(m.memory)) + L.ListSize(room) <= CEILING)
            && (r.Some? ==>
                  && r.value == BumpOf(old(m.memory)) && Reserved(m.memory, r.value, words, room)
                  && Extends(old(m.memory), m.memory) && BumpOf(m.memory) == r.value + L.ListSize(room))
  {
    hide WordAt, WordBytes, WordsAt;
    ghost var start := m.memory;
    var n: nat := WordAt(m.memory, xs);
    var room: nat := n + if extra < 0 then 0 else extra;
    r := m.Allocate(L.ListSize(room));
    if r.None? {
      return;
    }
    var out := r.value;
    ghost var reserved := m.memory;
    WordsKept(start, reserved, xs + 8, words);
    CopyWords(m, out + 8, xs + 8, words, n);
    ghost var copied := m.memory;
    m.PutWord(out, n);
    WordsKept(copied, m.memory, out + 8, words);
    WordKept(reserved, m.memory, L.BUMP);
  }

  /** Appending in place: writes one element past the last and then raises the stored length. */
  method ListAppended(m: Machine, xs: nat, value: i64, ghost words: seq<i64>, ghost room: nat) returns (r: nat)
    requires Reserved(m.memory, xs, words, room) && |words| < room
    modifies m
    ensures r == xs && Reserved(m.memory, xs, words + [value], room)
    ensures |m.memory| == |old(m.memory)| && BumpOf(m.memory) == BumpOf(old(m.memory))
    ensures ExtendsBeside(old(m.memory), m.memory, xs, xs + L.ListSize(room))
  {
    hide WordAt, WordBytes;
    ghost var start := m.memory;
    var n: nat := WordAt(m.memory, xs);
    m.PutWord(xs + 8 + 8 * n, value);
    ghost var placed := m.memory;
    WordsKept(start, placed, xs + 8, words);
    m.PutWord(xs, n + 1);
    WordsKept(placed, m.memory, xs + 8, words + [value]);
    WordKept(start, m.memory, L.BUMP);
    r := xs;
  }

  // -- whole walks -----------------------------------------------------------

  /** A turn of a walk: an element goes onto the list, or something else is made. */
  datatype Turn = Push(value: i64) | Make(words: seq<i64>)

  /** What a walk has pushed, in order. */
  function Pushed(turns: seq<Turn>): seq<i64> {
    if turns == [] then []
    else (match turns[0] case Push(value) => [value] case Make(_) => []) + Pushed(turns[1..])
  }

  /** The room what else it makes takes, and with the lists that pushing onto one of this length makes. */
  function MadeRoom(turns: seq<Turn>): nat {
    if turns == [] then 0
    else (match turns[0] case Push(_) => 0 case Make(words) => 8 * |words|) + MadeRoom(turns[1..])
  }

  function CopiedRoom(turns: seq<Turn>, length: nat): nat
    decreases |turns|
  {
    if turns == [] then 0 else
      match turns[0]
      case Push(_) => L.ListSize(length + 1) + CopiedRoom(turns[1..], length + 1)
      case Make(words) => 8 * |words| + CopiedRoom(turns[1..], length)
  }

  ghost predicate Sizes(turns: seq<Turn>) {
    forall k | 0 <= k < |turns| && turns[k].Make? :: 8 * |turns[k].words| < TWO_32
  }

  /** Something else made, away from every list there is. */
  method MakeWords(m: Machine, words: seq<i64>) returns (r: Option<nat>)
    requires Orderly(m.memory) && 8 * |words| < TWO_32
    modifies m
    ensures r.Some? <==> BumpOf(old(m.memory)) + 8 * |words| <= CEILING
    ensures r.Some? ==>
              && r.value == BumpOf(old(m.memory)) && Orderly(m.memory) && WordsAt(m.memory, r.value, words)
              && Extends(old(m.memory), m.memory) && BumpOf(m.memory) == r.value + 8 * |words|
  {
    hide WordAt, WordsAt;
    r := m.Allocate(8 * |words|);
    if r.Some? {
      ghost var reserved := m.memory;
      PutWords(m, r.value, words);
      WordKept(reserved, m.memory, L.BUMP);
    }
  }

  /** A walk that makes a new list at every push. */
  method WalkByCopy(m: Machine, xs: nat, turns: seq<Turn>, ghost words: seq<i64>) returns (r: Option<nat>)
    requires Reserved(m.memory, xs, words, |words|) && Sizes(turns)
    modifies m
    ensures r.Some? <==> BumpOf(old(m.memory)) + CopiedRoom(turns, |words|) <= CEILING
    ensures r.Some? ==>
              && Reserved(m.memory, r.value, words + Pushed(turns), |words + Pushed(turns)|)
              && Extends(old(m.memory), m.memory)
              && BumpOf(m.memory) == BumpOf(old(m.memory)) + CopiedRoom(turns, |words|)
    decreases |turns|
  {
    hide WordAt, WordsAt, Extends, ListAt;
    ghost var start := m.memory;
    ReservedSound(start, xs, words);
    if turns == [] {
      assert words + [] == words;
      return Some(xs);
    }
    ghost var now := words + if turns[0].Push? then [turns[0].value] else [];
    r := CopyTurn(m, xs, turns[0], words);
    if r.None? {
      return;
    }
    ghost var between := m.memory;
    assert now + Pushed(turns[1..]) == words + Pushed(turns);
    r := WalkByCopy(m, r.value, turns[1..], now);
    if r.Some? {
      ExtendsThen(start, between, m.memory);
    }
  }

  /** One turn, after which the list is wherever it is now. */
  method CopyTurn(m: Machine, xs: nat, turn: Turn, ghost words: seq<i64>) returns (r: Option<nat>)
    requires Reserved(m.memory, xs, words, |words|) && (turn.Make? ==> 8 * |turn.words| < TWO_32)
    modifies m
    ensures r.Some? <==>
              BumpOf(old(m.memory)) + (if turn.Push? then L.ListSize(|words| + 1) else 8 * |turn.words|) <= CEILING
    ensures r.Some? ==>
              var now := words + if turn.Push? then [turn.value] else [];
              && Reserved(m.memory, r.value, now, |now|) && Extends(old(m.memory), m.memory)
              && BumpOf(m.memory) == BumpOf(old(m.memory)) + if turn.Push? then L.ListSize(|words| + 1) else 8 * |turn.words|
  {
    hide WordAt, WordsAt;
    ghost var start := m.memory;
    if turn.Push? {
      r := ListExtended(m, xs, turn.value, words);
      return;
    }
    var made := MakeWords(m, turn.words);
    if made.None? {
      return None;
    }
    ExtendsBesideNothing(start, m.memory, xs + L.ListSize(|words|));
    ListStays(start, m.memory, xs, words, |words|, xs + L.ListSize(|words|), xs + L.ListSize(|words|));
    assert words + [] == words;
    r := Some(xs);
  }

  lemma ReservedSound(memory: seq<byte>, at: nat, words: seq<i64>)
    requires Reserved(memory, at, words, |words|)
    ensures Orderly(memory) && L.HEAP_START <= BumpOf(memory) <= |memory| <= CEILING
    ensures at + L.ListSize(|words|) <= BumpOf(memory) && Extends(memory, memory)
  {
  }

  lemma SoundBounds(memory: seq<byte>)
    requires Orderly(memory)
    ensures L.HEAP_START <= BumpOf(memory) <= |memory| <= CEILING
  {
  }

  lemma ExtendsBesideNothing(before: seq<byte>, after: seq<byte>, at: nat)
    requires Extends(before, after)
    ensures ExtendsBeside(before, after, at, at)
  {
  }

  /** A walk that fills a block reserved for it, as long as it pushes no more than there is room for. */
  method WalkInPlace(m: Machine, xs: nat, turns: seq<Turn>, ghost words: seq<i64>, ghost room: nat) returns (r: Option<nat>)
    requires Reserved(m.memory, xs, words, room) && Sizes(turns) && |words| + |Pushed(turns)| <= room
    modifies m
    ensures r.Some? <==> BumpOf(old(m.memory)) + MadeRoom(turns) <= CEILING
    ensures r.Some? ==>
              && r.value == xs && Reserved(m.memory, xs, words + Pushed(turns), room)
              && ExtendsBeside(old(m.memory), m.memory, xs, xs + L.ListSize(room))
              && BumpOf(m.memory) == BumpOf(old(m.memory)) + MadeRoom(turns)
    decreases |turns|
  {
    hide WordAt, WordsAt;
    ghost var start, end := m.memory, xs + L.ListSize(room);
    SoundBounds(start);
    if turns == [] {
      assert words + [] == words;
      return Some(xs);
    }
    match turns[0]
    case Push(value) =>
      var at := ListAppended(m, xs, value, words, room);
      ghost var between := m.memory;
      r := WalkInPlace(m, at, turns[1..], words + [value], room);
      assert words + [value] + Pushed(turns[1..]) == words + Pushed(turns);
      if r.Some? {
        BesideThen(start, between, m.memory, xs, end);
      }
    case Make(made) =>
      r := MakeWords(m, made);
      if r.Some? {
        ghost var between := m.memory;
        ExtendsBesideNothing(start, between, end);
        ListStays(start, between, xs, words, room, end, end);
        r := WalkInPlace(m, xs, turns[1..], words, room);
        assert Pushed(turns) == Pushed(turns[1..]);
        if r.Some? {
          BesideThen(start, between, m.memory, xs, end);
        }
      }
  }

  /**
   * A walk from a list somebody is still holding: it takes a copy with room and fills that. It
   * ends with the list that copying at every push ends with, and the list it began from, and
   * everything else allocated before it, is as it was.
   */
  method WalkFrom(m: Machine, xs: nat, extra: i64, turns: seq<Turn>, ghost words: seq<i64>) returns (r: Option<nat>)
    requires Reserved(m.memory, xs, words, |words|) && Sizes(turns) && extra < 0x4000_0000
    requires |Pushed(turns)| <= if extra < 0 then 0 else extra
    modifies m
    ensures r.Some? <==>
              BumpOf(old(m.memory)) + L.ListSize(|words| + if extra < 0 then 0 else extra) + MadeRoom(turns) <= CEILING
    ensures r.Some? ==>
              && Reserved(m.memory, r.value, words + Pushed(turns), |words + Pushed(turns)|)
              && Extends(old(m.memory), m.memory) && Reserved(m.memory, xs, words, |words|)
  {
    hide WordAt, WordsAt;
    ghost var start := m.memory;
    ghost var room := |words| + if extra < 0 then 0 else extra;
    SoundBounds(start);
    r := ListWithRoomFrom(m, xs, extra, words, |words|);
    if r.None? {
      return;
    }
    ghost var reserved, out := m.memory, r.value;
    r := WalkInPlace(m, r.value, turns, words, room);
    if r.Some? {
      ExtendsAbove(start, reserved, m.memory, out, out + L.ListSize(room));
      ExtendsBesideNothing(start, m.memory, xs + L.ListSize(|words|));
      ListStays(start, m.memory, xs, words, |words|, xs + L.ListSize(|words|), xs + L.ListSize(|words|));
    }
  }

  lemma ExtendsAbove(a: seq<byte>, b: seq<byte>, c: seq<byte>, from: nat, to: nat)
    requires Extends(a, b) && ExtendsBeside(b, c, from, to) && BumpOf(a) <= from
    ensures Extends(a, c)
  {
  }

  /** Filling in place never runs out of memory where copying would not, if there is something to push for every place reserved. */
  lemma {:induction false} NoMoreRoom(turns: seq<Turn>, length: nat)
    ensures Pushed(turns) != [] ==> L.ListSize(length + |Pushed(turns)|) + MadeRoom(turns) <= CopiedRoom(turns, length)
    ensures MadeRoom(turns) <= CopiedRoom(turns, length)
    decreases |turns|
  {
    if turns != [] {
      NoMoreRoom(turns[1..], length + if turns[0].Push? then 1 else 0);
    }
  }
}
