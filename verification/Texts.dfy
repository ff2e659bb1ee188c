/** Strings in memory: comparing, ordering, joining two, cutting one, and finding one in another. */
module Texts {
  import opened Ints
  import opened Wasm
  import opened Types
  import opened Run
  import opened Compile
  import opened Heap
  import L = Layout

  /** A string that has been allocated: above the reserved words and below the bump pointer. */
  ghost predicate Held(memory: seq<byte>, at: nat, text: Text) {
    Orderly(memory) && 8 <= at && TextAt(memory, at, text) && at + TEXT + |text| <= BumpOf(memory)
  }

  lemma HeldStays(before: seq<byte>, after: seq<byte>, at: nat, text: Text)
    requires Held(before, at, text) && Orderly(after) && Extends(before, after)
    ensures Held(after, at, text)
  {
    TextStays(before, after, at, text);
  }

  // -- characters ------------------------------------------------------------

  predicate Continues(b: byte) { 128 <= b < 192 }

  lemma {:induction false} CharactersAppend(one: Text, two: Text)
    ensures Characters(one + two) == Characters(one) + Characters(two)
    decreases |one|
  {
    if one == [] {
      assert one + two == two;
    } else {
      assert (one + two)[1..] == one[1..] + two;
      CharactersAppend(one[1..], two);
    }
  }

  lemma CharactersOne(text: Text, i: nat)
    requires i < |text|
    ensures Characters(text[..i + 1]) == Characters(text[..i]) + if Continues(text[i]) then 0 else 1
  {
    var one: Text := [text[i]];
    assert text[..i + 1] == text[..i] + one;
    CharactersAppend(text[..i], one);
    assert one[1..] == [];
  }

  lemma {:induction false} CharactersFew(text: Text)
    ensures Characters(text) <= |text|
    decreases |text|
  {
    if text != [] {
      CharactersFew(text[1..]);
    }
  }

  // -- comparing -------------------------------------------------------------

  /** Lengths first, and then bytes until two differ. */
  method SameText(memory: seq<byte>, a: nat, b: nat, ghost s: Text, ghost t: Text) returns (same: bool)
    requires TextAt(memory, a, s) && TextAt(memory, b, t)
    ensures same <==> s == t
  {
    var n: nat := WordAt(memory, a + 8);
    if n != WordAt(memory, b + 8) {
      return false;
    }
    var i := 0;
    while i < n
      invariant i <= n && s[..i] == t[..i]
    {
      assert memory[a + TEXT + i] == s[i] && memory[b + TEXT + i] == t[i];
      if memory[a + TEXT + i] != memory[b + TEXT + i] {
        return false;
      }
      assert s[..i + 1] == s[..i] + [s[i]] == t[..i] + [t[i]] == t[..i + 1];
      i := i + 1;
    }
    same := true;
  }

  /** Byte order, with a prefix before what it is a prefix of. */
  function Order(s: Text, t: Text): int {
    if s == [] && t == [] then 0
    else if s == [] then -1
    else if t == [] then 1
    else if s[0] < t[0] then -1
    else if s[0] > t[0] then 1
    else Order(s[1..], t[1..])
  }

  lemma {:induction false} OrderShared(s: Text, t: Text, i: nat)
    requires i <= |s| && i <= |t| && s[..i] == t[..i]
    ensures Order(s, t) == Order(s[i..], t[i..])
    decreases i
  {
    if i > 0 {
      assert s[0] == s[..i][0] == t[..i][0] == t[0];
      assert s[1..][..i - 1] == s[..i][1..] && t[1..][..i - 1] == t[..i][1..];
      OrderShared(s[1..], t[1..], i - 1);
      assert s[1..][i - 1..] == s[i..] && t[1..][i - 1..] == t[i..];
    }
  }

  /** An order: only equal strings are neither before nor after, and it goes one way round. */
  lemma {:induction false} OrderTotal(s: Text, t: Text, u: Text)
    ensures Order(s, t) == 0 <==> s == t
    ensures Order(s, t) == -Order(t, s)
    ensures Order(s, t) <= 0 && Order(t, u) <= 0 ==> Order(s, u) <= 0
    decreases |s|
  {
    if s != [] && t != [] {
      assert s == [s[0]] + s[1..] && t == [t[0]] + t[1..];
      OrderTotal(s[1..], t[1..], if u == [] then [] else u[1..]);
    }
  }

  method CompareText(memory: seq<byte>, a: nat, b: nat, ghost s: Text, ghost t: Text) returns (order: int)
    requires TextAt(memory, a, s) && TextAt(memory, b, t)
    ensures order == Order(s, t)
  {
    var na: nat := WordAt(memory, a + 8);
    var nb: nat := WordAt(memory, b + 8);
    var n := if nb < na then nb else na;
    var i := 0;
    while i < n
      invariant i <= n && s[..i] == t[..i]
    {
      OrderShared(s, t, i);
      var x, y := memory[a + TEXT + i], memory[b + TEXT + i];
      assert x == s[i] && y == t[i];
      if x < y {
        return -1;
      }
      if x > y {
        return 1;
      }
      assert s[..i + 1] == s[..i] + [x] == t[..i + 1];
      i := i + 1;
    }
    OrderShared(s, t, n);
    if na < nb {
      return -1;
    }
    if na > nb {
      return 1;
    }
    order := 0;
  }

  // -- copying ---------------------------------------------------------------

  /** Bytes from below to above, one at a time. */
  method CopyBytes(machine: Machine, to: nat, from: nat, n: nat)
    requires from + n <= to && to + n <= |machine.memory|
    modifies machine
    ensures Put(old(machine.memory), machine.memory, to, old(machine.memory)[from..from + n])
  {
    ghost var before := machine.memory;
    var i := 0;
    while i < n
      invariant i <= n && Put(before, machine.memory, to, before[from..from + i])
    {
      var b := machine.memory[from + i];
      ghost var held := machine.memory;
      machine.PutByte(to + i, b);
      PutOneMore(before, held, to, before[from..from + i], b);
      assert before[from..from + i + 1] == before[from..from + i] + [b];
      i := i + 1;
    }
  }

  lemma PutOneMore(before: seq<byte>, held: seq<byte>, at: nat, bytes: seq<byte>, b: byte)
    requires Put(before, held, at, bytes) && at + |bytes| < |before|
    ensures Put(before, held[at + |bytes| := b], at, bytes + [b])
  {
    var after := held[at + |bytes| := b];
    assert after[at..at + |bytes| + 1] == held[at..at + |bytes|] + [b];
  }

  lemma PutThen(a: seq<byte>, b: seq<byte>, c: seq<byte>, at: nat, one: seq<byte>, two: seq<byte>)
    requires Put(a, b, at, one) && Put(b, c, at + |one|, two)
    ensures Put(a, c, at, one + two)
  {
    assert c[at..at + |one| + |two|] == c[at..at + |one|] + c[at + |one|..at + |one| + |two|];
    assert c[at..at + |one|] == b[at..at + |one|];
  }

  /** Counts and then bytes in freshly reserved room make a string, and nothing before it changes. */
  lemma Written(start: seq<byte>, reserved: seq<byte>, counted: seq<byte>, after: seq<byte>, out: nat, text: Text, room: nat)
    requires Orderly(reserved) && Extends(start, reserved) && BumpOf(start) <= out && L.HEAP_START <= out
    requires BumpOf(reserved) == out + room && TEXT + |text| <= room && out + room <= |reserved|
    requires |counted| == |reserved| && WordAt(counted, out) == Characters(text) && WordAt(counted, out + 8) == |text|
    requires forall i | 0 <= i < |reserved| && !(out <= i < out + 16) :: counted[i] == reserved[i]
    requires Put(counted, after, out + TEXT, text)
    ensures Held(after, out, text) && Extends(start, after) && BumpOf(after) == out + room
  {
    PutKeeps(counted, after, out + TEXT, text, out, out + 8);
    PutKeeps(counted, after, out + TEXT, text, out + 8, out + 16);
    assert after[0..8] == counted[0..8] == reserved[0..8];
  }

  /** One string after another: both counts are sums, and the bytes are copied one side and then the other. */
  method Concat(machine: Machine, a: nat, b: nat, ghost s: Text, ghost t: Text) returns (r: Option<nat>)
    requires Held(machine.memory, a, s) && Held(machine.memory, b, t)
    modifies machine
    ensures r.Some? <==> BumpOf(old(machine.memory)) + StringRoom(|s| + |t|) <= CEILING
    ensures r.Some? ==>
              && r.value == BumpOf(old(machine.memory)) && Held(machine.memory, r.value, s + t)
              && Extends(old(machine.memory), machine.memory)
              && BumpOf(machine.memory) == r.value + StringRoom(|s| + |t|)
  {
    ghost var start := machine.memory;
    var na: nat := WordAt(machine.memory, a + 8);
    var nb: nat := WordAt(machine.memory, b + 8);
    CharactersAppend(s, t);
    CharactersFew(s);
    CharactersFew(t);
    r := machine.Allocate(StringRoom(na + nb));
    if r.None? {
      return;
    }
    var out := r.value;
    ghost var reserved := machine.memory;
    HeldStays(start, reserved, a, s);
    HeldStays(start, reserved, b, t);
    machine.PutCounts(out, WordAt(machine.memory, a) + WordAt(machine.memory, b), na + nb);
    FillBoth(machine, start, reserved, out, a, b, na, nb, s, t);
  }

  /** The bytes of both strings, once there is room for them and the counts are there. */
  method FillBoth(
    machine: Machine, ghost start: seq<byte>, ghost reserved: seq<byte>, out: nat, a: nat, b: nat, na: nat, nb: nat,
    ghost s: Text, ghost t: Text)
    requires na == |s| && nb == |t| && Held(start, a, s) && Held(start, b, t)
    requires Orderly(reserved) && Extends(start, reserved) && BumpOf(start) == out && out + StringRoom(na + nb) <= |reserved|
    requires BumpOf(reserved) == out + StringRoom(na + nb) && |machine.memory| == |reserved|
    requires WordAt(machine.memory, out) == Characters(s + t) && WordAt(machine.memory, out + 8) == na + nb
    requires forall i | 0 <= i < |reserved| && !(out <= i < out + 16) :: machine.memory[i] == reserved[i]
    modifies machine
    ensures Held(machine.memory, out, s + t) && Extends(start, machine.memory)
    ensures BumpOf(machine.memory) == out + StringRoom(na + nb)
  {
    hide Characters, StringRoom, WordAt, TextAt, Held;
    ghost var counted := machine.memory;
    HeldBelow(start, a, s);
    HeldBelow(start, b, t);
    CopyBytes(machine, out + TEXT, a + TEXT, na);
    ghost var first := machine.memory;
    CopyBytes(machine, out + TEXT + na, b + TEXT, nb);
    CopiesFrom(start, reserved, counted, counted, out, a, s);
    CopiesFrom(start, reserved, counted, first, out, b, t);
    PutThen(counted, first, machine.memory, out + TEXT, s, t);
    RoomFor(na + nb);
    Written(start, reserved, counted, machine.memory, out, s + t, StringRoom(na + nb));
  }

  lemma HeldBelow(memory: seq<byte>, at: nat, text: Text)
    requires Held(memory, at, text)
    ensures at + TEXT + |text| <= BumpOf(memory) && L.HEAP_START <= BumpOf(memory) && 8 <= at
  {
  }

  lemma RoomFor(n: nat)
    ensures TEXT + n <= StringRoom(n)
  {
  }

  /** A string allocated before is still there to copy from. */
  lemma CopiesFrom(start: seq<byte>, reserved: seq<byte>, counted: seq<byte>, now: seq<byte>, out: nat, a: nat, s: Text)
    requires Held(start, a, s) && Extends(start, reserved) && BumpOf(start) <= out
    requires |now| == |counted| == |reserved|
    requires forall i | 0 <= i < |reserved| && i < out :: counted[i] == reserved[i] && now[i] == counted[i]
    ensures a + TEXT + |s| <= out && now[a + TEXT..a + TEXT + |s|] == s
  {
    SliceStays(start, reserved, a + TEXT, a + TEXT + |s|);
    assert now[a + TEXT..a + TEXT + |s|] == reserved[a + TEXT..a + TEXT + |s|];
  }
}
