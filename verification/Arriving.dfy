/**
 * Text and numbers that arrive from outside, and text in another case: every string made has a
 * byte count and a character count that say what its bytes are.
 */
module Arriving {
  import opened Ints
  import opened Wasm
  import opened Types
  import opened Compile
  import opened Heap
  import opened Texts
  import opened Frames
  import opened Appending
  import L = Layout

  // -- from a caller ---------------------------------------------------------

  /** How many characters some bytes are, by two comparisons of each. */
  method CountArriving(memory: seq<byte>, pointer: nat, length: nat) returns (characters: nat)
    requires pointer + length <= |memory|
    ensures characters == Characters(memory[pointer..pointer + length])
  {
    ghost var text := memory[pointer..pointer + length];
    characters := 0;
    var i := 0;
    assert text[..0] == [];
    while i < length
      invariant i <= length && characters == Characters(text[..i])
    {
      var b := memory[pointer + i];
      assert b == text[i];
      CharactersOne(text, i);
      characters := characters + (if b < 0x80 then 1 else 0) + (if b >= 0xc0 then 1 else 0);
      i := i + 1;
    }
    assert text[..length] == text;
  }

  /** A pointer and a length made into a string: the characters counted, then room, the two counts, and the bytes. */
  method LowerText(m: Machine, pointer: nat, length: nat) returns (r: Option<nat>)
    requires Orderly(m.memory) && 8 <= pointer && pointer + length <= BumpOf(m.memory)
    modifies m
    ensures r.Some? <==> BumpOf(old(m.memory)) + StringRoom(length) <= CEILING
    ensures r.Some? ==>
              && r.value == BumpOf(old(m.memory))
              && Held(m.memory, r.value, old(m.memory)[pointer..pointer + length])
              && Extends(old(m.memory), m.memory) && BumpOf(m.memory) == r.value + StringRoom(length)
  {
    hide Characters, WordAt;
    ghost var start := m.memory;
    ghost var text := start[pointer..pointer + length];
    CharactersFew(text);
    var characters := CountArriving(m.memory, pointer, length);
    r := m.Allocate(StringRoom(length));
    if r.None? {
      return;
    }
    ghost var reserved := m.memory;
    m.PutCounts(r.value, characters, length);
    ghost var counted := m.memory;
    SliceStays(start, reserved, pointer, pointer + length);
    assert counted[pointer..pointer + length] == reserved[pointer..pointer + length];
    CopyBytes(m, r.value + TEXT, pointer, length);
    RoomFor(length);
    Written(start, reserved, counted, m.memory, r.value, text, StringRoom(length));
  }

  /** A pointer and a length made into a list: the same words, with how many there are in front. */
  method LowerNumbers(m: Machine, pointer: nat, length: nat, ghost words: seq<i64>) returns (r: Option<nat>)
    requires Orderly(m.memory) && 8 <= pointer && pointer + 8 * length <= BumpOf(m.memory)
    requires length == |words| && WordsAt(m.memory, pointer, words)
    modifies m
    ensures r.Some? <==> BumpOf(old(m.memory)) + L.ListSize(length) <= CEILING
    ensures r.Some? ==>
              && r.value == BumpOf(old(m.memory)) && Reserved(m.memory, r.value, words, length)
              && Extends(old(m.memory), m.memory) && BumpOf(m.memory) == r.value + L.ListSize(length)
  {
    hide WordAt, WordBytes, WordsAt;
    ghost var start := m.memory;
    r := m.Allocate((length + 1) * 8);
    if r.None? {
      return;
    }
    ghost var reserved := m.memory;
    m.PutWord(r.value, length);
    ghost var counted := m.memory;
    WordsKept(start, counted, pointer, words);
    CopyWords(m, r.value + 8, pointer, words, length);
    WordKept(counted, m.memory, r.value);
    WordKept(reserved, m.memory, L.BUMP);
  }

  // -- from a host -----------------------------------------------------------

  /**
   * A string a host answers with. The host asks for no pages: it moves the bump pointer when there
   * is room in the memory there is, and answers nothing otherwise.
   */
  method WriteText(m: Machine, text: Text) returns (r: Option<nat>)
    requires Orderly(m.memory) && |text| < 0x8000_0000
    modifies m
    ensures r.Some? <==> BumpOf(old(m.memory)) + StringRoom(|text|) <= |old(m.memory)|
    ensures r.None? ==> m.memory == old(m.memory)
    ensures r.Some? ==>
              && r.value == BumpOf(old(m.memory)) && Held(m.memory, r.value, text)
              && Extends(old(m.memory), m.memory) && BumpOf(m.memory) == r.value + StringRoom(|text|)
  {
    hide Characters, WordAt, WordBytes, StringRoom;
    ghost var start := m.memory;
    StringSizeIs(|text|);
    var at: nat := BumpOf(m.memory);
    var end := at + L.StringSize(|text|);
    if end > |m.memory| {
      return None;
    }
    m.PutWord(L.BUMP, end);
    ghost var reserved := m.memory;
    CharactersFew(text);
    m.PutCounts(at, Characters(text), |text|);
    ghost var counted := m.memory;
    PutText(m, at + TEXT, text);
    Written(start, reserved, counted, m.memory, at, text, StringRoom(|text|));
    r := Some(at);
  }

  lemma StringSizeIs(bytes: nat)
    ensures L.StringSize(bytes) == StringRoom(bytes) && StringRoom(bytes) % 8 == 0 && TEXT + bytes <= StringRoom(bytes)
  {
  }

  method PutText(m: Machine, at: nat, text: Text)
    requires at + |text| <= |m.memory|
    modifies m
    ensures Put(old(m.memory), m.memory, at, text)
  {
    ghost var before := m.memory;
    var i := 0;
    while i < |text|
      invariant i <= |text| && Put(before, m.memory, at, text[..i])
    {
      ghost var held := m.memory;
      m.PutByte(at + i, text[i]);
      PutOneMore(before, held, at, text[..i], text[i]);
      assert text[..i + 1] == text[..i] + [text[i]];
      i := i + 1;
    }
    assert text[..|text|] == text;
  }

  // -- another case ----------------------------------------------------------

  /** The twenty-six letters moved by thirty-two, and every other byte as it is. */
  function CasedByte(b: byte, raise: bool): byte {
    if raise then (if 97 <= b <= 122 then b - 32 else b)
    else if 65 <= b <= 90 then b + 32 else b
  }

  function Cased(text: Text, raise: bool): (cased: Text)
    ensures |cased| == |text|
  {
    if text == [] then [] else [CasedByte(text[0], raise)] + Cased(text[1..], raise)
  }

  /** Changing case keeps every character a character, so neither count changes. */
  lemma {:induction false} CasedCharacters(text: Text, raise: bool)
    ensures Characters(Cased(text, raise)) == Characters(text)
    decreases |text|
  {
    if text != [] {
      CasedCharacters(text[1..], raise);
    }
  }

  lemma {:induction false} CasedAt(text: Text, raise: bool, i: nat)
    requires i < |text|
    ensures Cased(text, raise)[i] == CasedByte(text[i], raise)
    decreases i
  {
    if i > 0 {
      CasedAt(text[1..], raise, i - 1);
    }
  }

  /** Whatever case a text was put in before, only the last time counts. */
  lemma {:induction false} CasedTwice(text: Text, first: bool, last: bool)
    ensures Cased(Cased(text, first), last) == Cased(text, last)
    decreases |text|
  {
    if text != [] {
      CasedTwice(text[1..], first, last);
      assert Cased(text, first)[1..] == Cased(text[1..], first);
    }
  }

  /** `upper` and `lower`: a string as long, each byte in its case and both counts as they were. */
  method CaseText(m: Machine, at: nat, raise: bool, ghost s: Text) returns (r: Option<nat>)
    requires Held(m.memory, at, s)
    modifies m
    ensures r.Some? <==> BumpOf(old(m.memory)) + StringRoom(|s|) <= CEILING
    ensures r.Some? ==>
              && r.value == BumpOf(old(m.memory)) && Held(m.memory, r.value, Cased(s, raise))
              && Extends(old(m.memory), m.memory) && BumpOf(m.memory) == r.value + StringRoom(|s|)
  {
    hide Characters, WordAt;
    ghost var start := m.memory;
    var n: nat := WordAt(m.memory, at + 8);
    r := m.Allocate(StringRoom(n));
    if r.None? {
      return;
    }
    ghost var reserved := m.memory;
    HeldStays(start, reserved, at, s);
    HeldBelow(start, at, s);
    CasedCharacters(s, raise);
    CharactersFew(s);
    m.PutCounts(r.value, WordAt(m.memory, at), n);
    ghost var counted := m.memory;
    CopiesFrom(start, reserved, counted, counted, r.value, at, s);
    RoomFor(n);
    PutCased(m, r.value + TEXT, at + TEXT, n, raise, s);
    Written(start, reserved, counted, m.memory, r.value, Cased(s, raise), StringRoom(n));
  }

  /** Each byte read, moved when it is a letter of the other case, and written. */
  method PutCased(m: Machine, to: nat, from: nat, n: nat, raise: bool, ghost s: Text)
    requires n == |s| && from + n <= to && to + n <= |m.memory| && m.memory[from..from + n] == s
    modifies m
    ensures Put(old(m.memory), m.memory, to, Cased(s, raise))
  {
    hide Cased, CasedByte;
    var low, high, shift := if raise then 97 else 65, if raise then 122 else 90, if raise then -32 else 32;
    ghost var before, cased := m.memory, Cased(s, raise);
    var i := 0;
    while i < n
      invariant i <= n && Put(before, m.memory, to, cased[..i])
    {
      var b: int := m.memory[from + i];
      assert b == before[from..from + n][i] == s[i];
      CasedAt(s, raise, i);
      Shifted(s[i], raise);
      if b >= low && b <= high {
        b := b + shift;
      }
      ghost var held := m.memory;
      m.PutByte(to + i, b);
      PutOneMore(before, held, to, cased[..i], b);
      assert cased[..i + 1] == cased[..i] + [cased[i]];
      i := i + 1;
    }
    assert cased[..n] == cased;
  }

  lemma Shifted(b: byte, raise: bool)
    ensures
      var low, high, shift := if raise then 97 else 65, if raise then 122 else 90, if raise then -32 else 32;
      CasedByte(b, raise) == if low <= b <= high then b + shift else b
  {
  }
}
