/** Splitting a string and joining it back: what the pieces are, and that nothing is lost. */
module Pieces {
  import opened Ints
  import opened Wasm
  import opened Types
  import opened Compile
  import opened Heap
  import opened Texts

  // -- what they mean --------------------------------------------------------

  predicate OccursAt(s: Text, needle: Text, i: nat) {
    i + |needle| <= |s| && s[i..i + |needle|] == needle
  }

  /** The first place at or after this one, or -1. */
  function Find(s: Text, needle: Text, from: nat): (r: int)
    ensures r >= 0 ==> r >= from && OccursAt(s, needle, r)
    ensures r < 0 ==> r == -1
    decreases |s| - from
  {
    if from + |needle| > |s| then -1
    else if OccursAt(s, needle, from) then from
    else if from == |s| then -1
    else Find(s, needle, from + 1)
  }

  lemma {:induction false} FindsFirst(s: Text, needle: Text, from: nat, i: nat)
    requires from <= i && OccursAt(s, needle, i)
    ensures 0 <= Find(s, needle, from) <= i
    decreases i - from
  {
    if !OccursAt(s, needle, from) {
      FindsFirst(s, needle, from + 1, i);
    }
  }

  /** The pieces either side of every separator, from this place on. */
  function CutFrom(s: Text, sep: Text, from: nat): (r: seq<Text>)
    requires sep != [] && from <= |s|
    ensures r != []
    decreases |s| - from
  {
    var at := Find(s, sep, from);
    if at < 0 then [s[from..]] else [s[from..at]] + CutFrom(s, sep, at + |sep|)
  }

  /** Where the character that starts before this place ends. */
  function CharacterEnd(s: Text, i: nat): (end: nat)
    requires i <= |s|
    ensures i <= end <= |s| && (end == |s| || !Continues(s[end]))
    decreases |s| - i
  {
    if i < |s| && Continues(s[i]) then CharacterEnd(s, i + 1) else i
  }

  /** The characters from this place on, each with the bytes that continue it. */
  function CharactersFrom(s: Text, from: nat): seq<Text>
    requires from <= |s|
    decreases |s| - from
  {
    if from == |s| then []
    else if Continues(s[from]) then CharactersFrom(s, from + 1)
    else [s[from..CharacterEnd(s, from + 1)]] + CharactersFrom(s, from + 1)
  }

  function Split(s: Text, sep: Text): seq<Text> {
    if sep == [] then CharactersFrom(s, 0) else CutFrom(s, sep, 0)
  }

  function Join(pieces: seq<Text>, sep: Text): Text {
    if pieces == [] then []
    else if |pieces| == 1 then pieces[0]
    else pieces[0] + sep + Join(pieces[1..], sep)
  }

  lemma SliceJoins(s: Text, a: nat, b: nat)
    requires a <= b <= |s|
    ensures s[a..] == s[a..b] + s[b..]
  {
  }

  lemma SliceInside(s: Text, a: nat, b: nat, x: nat, y: nat)
    requires a <= b <= |s| && x <= y <= b - a
    ensures s[a..b][x..y] == s[a + x..a + y]
  {
    forall i | 0 <= i < y - x ensures s[a..b][x..y][i] == s[a + x..a + y][i] {
      assert s[a..b][x + i] == s[a + x + i];
    }
  }

  /** The first piece, and then the others. */
  lemma JoinFirst(piece: Text, rest: seq<Text>, sep: Text)
    ensures Join([piece] + rest, sep) == if rest == [] then piece else piece + sep + Join(rest, sep)
  {
    assert ([piece] + rest)[1..] == rest;
  }

  lemma JoinFew(piece: Text, sep: Text)
    ensures Join([], sep) == [] && Join([piece], sep) == piece
  {
  }

  lemma {:induction false} JoinsCut(s: Text, sep: Text, from: nat)
    requires sep != [] && from <= |s|
    ensures Join(CutFrom(s, sep, from), sep) == s[from..]
    decreases |s| - from
  {
    hide Join;
    var at := Find(s, sep, from);
    if at >= 0 {
      JoinsCut(s, sep, at + |sep|);
      JoinFirst(s[from..at], CutFrom(s, sep, at + |sep|), sep);
      SliceJoins(s, from, at);
      SliceJoins(s, at, at + |sep|);
      assert s[from..at] + (sep + s[at + |sep|..]) == s[from..at] + sep + s[at + |sep|..];
    } else {
      JoinFew(s[from..], sep);
    }
  }

  lemma {:induction false} CharactersSkip(s: Text, i: nat)
    requires i <= |s|
    ensures CharactersFrom(s, i) == CharactersFrom(s, CharacterEnd(s, i))
    decreases |s| - i
  {
    if i < |s| && Continues(s[i]) {
      CharactersSkip(s, i + 1);
    }
  }

  lemma {:induction false} JoinsCharacters(s: Text, from: nat)
    requires from <= |s| && (from == |s| || !Continues(s[from]))
    ensures Join(CharactersFrom(s, from), []) == s[from..]
    decreases |s| - from
  {
    hide Join;
    if from < |s| {
      var end := CharacterEnd(s, from + 1);
      CharactersSkip(s, from + 1);
      JoinsCharacters(s, end);
      var rest := CharactersFrom(s, end);
      SliceJoins(s, from, end);
      JoinFirst(s[from..end], rest, []);
      JoinEmpty(s[from..end], Join(rest, []));
      if rest == [] {
        NoCharacters(s, end);
      }
    } else {
      JoinFew([], []);
    }
  }

  lemma JoinEmpty(one: Text, two: Text)
    ensures one + [] + two == one + two && one + [] == one
  {
  }

  lemma NoCharacters(s: Text, from: nat)
    requires from <= |s| && (from == |s| || !Continues(s[from])) && CharactersFrom(s, from) == []
    ensures from == |s|
  {
  }

  /**
   * Joining what was split gives the string back, for every separator that is not empty; for
   * the empty one, exactly when the string does not start in the middle of a character.
   */
  lemma JoinsSplit(s: Text, sep: Text)
    ensures sep != [] ==> Join(Split(s, sep), sep) == s
    ensures Join(Split(s, []), []) == s <==> s == [] || !Continues(s[0])
  {
    if sep != [] {
      JoinsCut(s, sep, 0);
      assert s[0..] == s;
    }
    var start := CharacterEnd(s, 0);
    CharactersSkip(s, 0);
    JoinsCharacters(s, start);
    if start == 0 {
      assert s[0..] == s;
    }
  }

  /** No piece between separators holds the separator. */
  lemma {:induction false} PiecesFree(s: Text, sep: Text, from: nat, k: nat, i: nat)
    requires sep != [] && from <= |s| && k < |CutFrom(s, sep, from)|
    ensures !OccursAt(CutFrom(s, sep, from)[k], sep, i)
    decreases |s| - from
  {
    var at := Find(s, sep, from);
    var piece := CutFrom(s, sep, from)[k];
    if at >= 0 && k > 0 {
      PiecesFree(s, sep, at + |sep|, k - 1, i);
    } else if OccursAt(piece, sep, i) {
      var end := if at < 0 then |s| else at;
      assert piece == s[from..end];
      SliceInside(s, from, end, i, i + |sep|);
      FindsFirst(s, sep, from, from + i);
    }
  }

  lemma {:induction false} CountCharacters(s: Text, from: nat)
    requires from <= |s|
    ensures |CharactersFrom(s, from)| == Characters(s[from..])
    decreases |s| - from
  {
    if from < |s| {
      assert s[from..][1..] == s[from + 1..];
      CountCharacters(s, from + 1);
    }
  }
}
