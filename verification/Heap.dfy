/**
 * Linear memory as the emitted helpers use it: a bump pointer at its start, allocation that
 * grows it a page at a time, and strings as two counts and their bytes.
 */
module Heap {
  import opened Ints
  import opened Wasm
  import opened Types
  import opened Run
  import opened Compile
  import L = Layout

  // -- words and strings -----------------------------------------------------

  function WordAt(memory: seq<byte>, at: nat): i64
    requires at + 8 <= |memory|
  {
    BytesWord(memory[at..at + 8])
  }

  const TEXT: nat := 16

  /** A string laid out at an address: how many characters, how many bytes, and the bytes. */
  ghost predicate TextAt(memory: seq<byte>, at: nat, text: Text) {
    && at + TEXT + |text| <= |memory|
    && WordAt(memory, at) == Characters(text) && WordAt(memory, at + 8) == |text|
    && memory[at + TEXT..at + TEXT + |text|] == text
  }

  function Padding(bytes: nat): nat { (8 - bytes % 8) % 8 }

  /** Both counts, the text and its padding, in bytes. */
  function StringRoom(bytes: nat): (r: nat)
    ensures r >= TEXT + bytes && r % 8 == 0
  {
    TEXT + bytes + Padding(bytes)
  }

  /**
   * A number of bytes rounded to whole words: up when there are some, and towards none for a
   * number of 32 bits that is below zero.
   */
  function WordRoom(bytes: int): (r: int)
    ensures r % 8 == 0 && bytes <= r < bytes + 8
    ensures bytes <= 0 ==> r <= 0
  {
    bytes + TruncRem(8 - TruncRem(bytes, 8), 8)
  }

  const CEILING: nat := MEMORY_PAGES_CEILING * L.PAGE

  /** Where the next value goes. */
  function BumpOf(memory: seq<byte>): int
    requires |memory| >= 8
  {
    WordAt(memory, L.BUMP)
  }

  /** A heap in order: whole pages, and a word-aligned bump pointer above the heap's start and inside them. */
  ghost predicate Orderly(memory: seq<byte>) {
    && |memory| % L.PAGE == 0 && L.HEAP_START <= |memory| <= CEILING
    && L.HEAP_START <= BumpOf(memory) <= |memory| && BumpOf(memory) % 8 == 0
  }

  /** Everything allocated before is as it was. */
  ghost predicate Extends(before: seq<byte>, after: seq<byte>) {
    && 8 <= |before| <= |after| && BumpOf(before) <= BumpOf(after)
    && forall i | 8 <= i < BumpOf(before) && i < |before| :: after[i] == before[i]
  }

  /** The bump pointer moved by this much, and nothing else but how much memory there is. */
  ghost predicate Moved(before: seq<byte>, after: seq<byte>, room: int) {
    && 8 <= |before| <= |after| <= CEILING && |after| % L.PAGE == 0
    && BumpOf(after) == BumpOf(before) + room <= |after|
    && forall i | 8 <= i < |before| :: after[i] == before[i]
  }

  lemma ExtendsThen(a: seq<byte>, b: seq<byte>, c: seq<byte>)
    requires Extends(a, b) && Extends(b, c)
    ensures Extends(a, c)
  {
  }

  /** Bytes below the bump pointer stay where they are. */
  lemma SliceStays(before: seq<byte>, after: seq<byte>, from: nat, to: nat)
    requires Extends(before, after) && 8 <= from <= to <= BumpOf(before) && to <= |before|
    ensures to <= |after| && after[from..to] == before[from..to]
  {
  }

  /** An allocated string stays the string it is. */
  lemma TextStays(before: seq<byte>, after: seq<byte>, at: nat, text: Text)
    requires TextAt(before, at, text) && Extends(before, after) && 8 <= at && at + TEXT + |text| <= BumpOf(before)
    ensures TextAt(after, at, text)
  {
    SliceStays(before, after, at, at + 8);
    SliceStays(before, after, at + 8, at + 16);
    SliceStays(before, after, at + TEXT, at + TEXT + |text|);
  }

  /** Putting bytes over those at an address, byte by byte. */
  ghost predicate Put(before: seq<byte>, after: seq<byte>, at: nat, bytes: seq<byte>) {
    && at + |bytes| <= |before| == |after|
    && after[at..at + |bytes|] == bytes
    && forall i | 0 <= i < |before| && !(at <= i < at + |bytes|) :: after[i] == before[i]
  }

  lemma SplicePuts(memory: seq<byte>, at: nat, bytes: seq<byte>)
    requires at + |bytes| <= |memory|
    ensures Put(memory, Splice(memory, at, bytes), at, bytes)
  {
  }

  /** Bytes away from where something was put are as they were. */
  lemma PutKeeps(before: seq<byte>, after: seq<byte>, at: nat, bytes: seq<byte>, from: nat, to: nat)
    requires Put(before, after, at, bytes) && from <= to <= |before| && (to <= at || at + |bytes| <= from)
    ensures after[from..to] == before[from..to]
  {
  }

  // -- the machine -----------------------------------------------------------

  /** A module's memory while a helper runs. */
  class Machine {
    var memory: seq<byte>

    constructor (memory: seq<byte>)
      ensures this.memory == memory
    {
      this.memory := memory;
    }

    method PutWord(at: nat, v: i64)
      requires at + 8 <= |memory|
      modifies this
      ensures Put(old(memory), memory, at, WordBytes(v)) && WordAt(memory, at) == v
    {
      memory := Splice(memory, at, WordBytes(v));
      SplicePuts(old(memory), at, WordBytes(v));
      WordRoundTrip(v);
    }

    /** The two counts a string starts with. */
    method PutCounts(at: nat, characters: i64, bytes: i64)
      requires at + 16 <= |memory|
      modifies this
      ensures |memory| == |old(memory)| && WordAt(memory, at) == characters && WordAt(memory, at + 8) == bytes
      ensures forall i | 0 <= i < |memory| && !(at <= i < at + 16) :: memory[i] == old(memory)[i]
    {
      PutWord(at, characters);
      ghost var one := memory;
      PutWord(at + 8, bytes);
      PutKeeps(one, memory, at + 8, WordBytes(bytes), at, at + 8);
    }

    method PutByte(at: nat, b: byte)
      requires at < |memory|
      modifies this
      ensures memory == old(memory)[at := b]
    {
      memory := memory[at := b];
    }

    /** Adds pages while the bump pointer is past the end, and answers whether there were enough to be had. */
    method GrowToFit() returns (ok: bool)
      requires |memory| % L.PAGE == 0 && 8 <= |memory| <= CEILING
      modifies this
      ensures old(memory) <= memory && |memory| % L.PAGE == 0 && |memory| <= CEILING
      ensures ok <==> BumpOf(old(memory)) <= CEILING
      ensures ok ==> BumpOf(memory) == BumpOf(old(memory)) <= |memory|
    {
      while BumpOf(memory) > |memory|
        invariant old(memory) <= memory && |memory| % L.PAGE == 0 && |memory| <= CEILING
        invariant memory[..8] == old(memory)[..8]
        invariant |old(memory)| < |memory| ==> |memory| - L.PAGE < BumpOf(memory)
        decreases CEILING - |memory|
      {
        if |memory| / L.PAGE + 1 > MEMORY_PAGES_CEILING {
          assert |memory| == CEILING;
          return false;
        }
        memory := memory + seq(L.PAGE, _ => 0);
      }
      ok := true;
    }

    /** Room that may be less than none: the bump pointer moves by it whichever way, and memory grows if that takes it past the end. */
    method Reserve(room: int) returns (r: Option<nat>)
      requires Orderly(memory) && -0x8000_0000 <= room <= MAX_64 - CEILING
      modifies this
      ensures r.Some? <==> BumpOf(old(memory)) + room <= CEILING
      ensures r.Some? ==> r.value == BumpOf(old(memory)) && Moved(old(memory), memory, room)
    {
      hide WordAt, WordBytes;
      var at := BumpOf(memory);
      PutWord(L.BUMP, at + room);
      ghost var moved := memory;
      var ok := GrowToFit();
      if !ok {
        return None;
      }
      assert forall i | 8 <= i < |old(memory)| :: memory[i] == moved[i] == old(memory)[i];
      r := Some(at);
    }

    /**
     * Reserves room and hands back its address: where the bump pointer was. It is refused
     * exactly when it would end past the most memory there can be.
     */
    method Allocate(size: nat) returns (r: Option<nat>)
      requires Orderly(memory) && size % 8 == 0 && size <= MAX_64 - CEILING
      modifies this
      ensures r.Some? <==> BumpOf(old(memory)) + size <= CEILING
      ensures r.Some? ==>
                && r.value == BumpOf(old(memory)) && Orderly(memory) && Extends(old(memory), memory)
                && BumpOf(memory) == r.value + size
    {
      hide WordAt, WordBytes;
      r := Reserve(size);
    }
  }
}
