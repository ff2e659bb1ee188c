/**
 * Handlers as the backend keeps them: frames linked in linear memory, on a stack of their own
 * between the reserved words and the heap, and the code emitted for `with` and `perform`.
 */
module Frames {
  import opened Ints
  import opened Wasm
  import opened Handlers
  import opened Heap
  import L = Layout

  /** Words one after another. */
  ghost predicate WordsAt(memory: seq<byte>, at: nat, words: seq<i64>) {
    && at + 8 * |words| <= |memory|
    && forall k | 0 <= k < |words| :: WordAt(memory, at + 8 * k) == words[k]
  }

  /** Where the innermost frame is, or zero when there is none. */
  function Head(handlers: seq<Handler>): nat {
    if handlers == [] then 0 else Top(handlers[1..]) + 8 * |handlers[0].state|
  }

  /** Where a handler's state is. */
  function StateAt(handlers: seq<Handler>, j: nat): nat
    requires j < |handlers|
  {
    Top(handlers[j + 1..])
  }

  /** What a frame starts with: the one under it, the effect, and where the state is. */
  function FrameWords(under: seq<Handler>, handler: Handler): seq<i64> {
    [AsWord(Head(under)), handler.effect, AsWord(Top(under))] + handler.codes
  }

  /** Every handler's state and above it its frame, outermost lowest. */
  ghost predicate FramesAt(memory: seq<byte>, handlers: seq<Handler>) {
    handlers == [] ||
    (&& WordsAt(memory, Top(handlers[1..]), handlers[0].state)
     && WordsAt(memory, Head(handlers), FrameWords(handlers[1..], handlers[0]))
     && FramesAt(memory, handlers[1..]))
  }

  /** Memory while these handlers are installed: the frames, the two words that say where they are, and a heap in order. */
  ghost predicate Installed(memory: seq<byte>, handlers: seq<Handler>) {
    && Orderly(memory) && FramesAt(memory, handlers) && Top(handlers) <= L.HEAP_START
    && WordAt(memory, L.HANDLERS) == Head(handlers) && WordAt(memory, L.FRAME_BUMP) == Top(handlers)
  }

  /** What a run leaves of the heap: everything that was there, and what it made right after. */
  ghost predicate Grown(before: seq<byte>, after: seq<byte>, made: seq<i64>) {
    && 8 <= |before| <= |after| && L.HEAP_START <= BumpOf(before) <= |before|
    && BumpOf(after) == BumpOf(before) + 8 * |made|
    && WordsAt(after, BumpOf(before), made)
    && forall i | L.HEAP_START <= i < BumpOf(before) :: after[i] == before[i]
  }

  /** What a run made is read back from where the heap ended before it. */
  method ReadMade(ghost before: seq<byte>, after: seq<byte>, at: nat, k: nat, ghost made: seq<i64>) returns (word: i64)
    requires Grown(before, after, made) && at == BumpOf(before) && k < |made|
    ensures word == made[k]
  {
    hide WordAt;
    word := WordAt(after, at + 8 * k);
  }

  // -- words that stay -------------------------------------------------------

  /** Bytes the same over a range. */
  ghost predicate SameOver(before: seq<byte>, after: seq<byte>, from: int, to: int) {
    forall i | from <= i < to && 0 <= i < |before| && i < |after| :: after[i] == before[i]
  }

  lemma WordKept(before: seq<byte>, after: seq<byte>, at: nat)
    requires at + 8 <= |before| && at + 8 <= |after| && SameOver(before, after, at, at + 8)
    ensures WordAt(after, at) == WordAt(before, at)
  {
    assert after[at..at + 8] == before[at..at + 8];
  }

  lemma WordsKept(before: seq<byte>, after: seq<byte>, at: nat, words: seq<i64>)
    requires WordsAt(before, at, words) && |before| <= |after| && SameOver(before, after, at, at + 8 * |words|)
    ensures WordsAt(after, at, words)
  {
    hide WordAt;
    forall k | 0 <= k < |words| ensures WordAt(after, at + 8 * k) == words[k] {
      WordKept(before, after, at + 8 * k);
    }
  }

  lemma TopBounds(handlers: seq<Handler>)
    ensures L.FRAME_START <= Top(handlers)
    ensures handlers != [] ==>
      && Top(handlers[1..]) + 8 * |handlers[0].state| == Head(handlers)
      && Head(handlers) + 24 + 8 * |handlers[0].codes| == Top(handlers)
  {
    if handlers != [] {
      TopBounds(handlers[1..]);
    }
  }

  /** Frames do not change unless something under the top of their stack does. */
  lemma {:induction false} FramesKept(before: seq<byte>, after: seq<byte>, handlers: seq<Handler>)
    requires FramesAt(before, handlers) && |before| <= |after| && SameOver(before, after, L.FRAME_START, Top(handlers))
    ensures FramesAt(after, handlers)
    decreases |handlers|
  {
    if handlers != [] {
      hide WordsAt, WordAt;
      TopBounds(handlers);
      TopBounds(handlers[1..]);
      WordsKept(before, after, Top(handlers[1..]), handlers[0].state);
      WordsKept(before, after, Head(handlers), FrameWords(handlers[1..], handlers[0]));
      FramesKept(before, after, handlers[1..]);
    }
  }

  /** A word put below the heap leaves the heap as it is. */
  lemma LowWord(before: seq<byte>, after: seq<byte>, at: nat, bytes: seq<byte>)
    requires Put(before, after, at, bytes) && 8 <= at && at + |bytes| <= L.HEAP_START && Orderly(before)
    ensures Orderly(after) && Grown(before, after, [])
  {
    WordKept(before, after, L.BUMP);
  }

  lemma GrownThen(a: seq<byte>, b: seq<byte>, c: seq<byte>, one: seq<i64>, two: seq<i64>)
    requires Grown(a, b, one) && Grown(b, c, two)
    ensures Grown(a, c, one + two)
  {
    hide WordAt;
    WordsKept(b, c, BumpOf(a), one);
    forall k | 0 <= k < |one| + |two| ensures WordAt(c, BumpOf(a) + 8 * k) == (one + two)[k] {
      if k >= |one| {
        assert WordAt(c, BumpOf(b) + 8 * (k - |one|)) == two[k - |one|];
      }
    }
  }

  // -- one handler among the others ------------------------------------------

  lemma {:induction false} FramesUnder(memory: seq<byte>, handlers: seq<Handler>, j: nat)
    requires FramesAt(memory, handlers) && j <= |handlers|
    ensures FramesAt(memory, handlers[j..]) && Top(handlers[j..]) <= Top(handlers)
    decreases j
  {
    hide WordsAt;
    if j > 0 {
      FramesUnder(memory, handlers[1..], j - 1);
      assert handlers[1..][j - 1..] == handlers[j..];
    } else {
      assert handlers[0..] == handlers;
    }
  }

  /** The words of the handler at this depth. */
  lemma HandlerAt(memory: seq<byte>, handlers: seq<Handler>, j: nat)
    requires FramesAt(memory, handlers) && j < |handlers|
    ensures WordsAt(memory, StateAt(handlers, j), handlers[j].state)
    ensures WordsAt(memory, Head(handlers[j..]), FrameWords(handlers[j + 1..], handlers[j]))
    ensures L.FRAME_START <= StateAt(handlers, j)
    ensures StateAt(handlers, j) + 8 * |handlers[j].state| <= Head(handlers[j..]) <= Top(handlers)
  {
    hide WordsAt;
    FramesUnder(memory, handlers, j);
    assert handlers[j..][1..] == handlers[j + 1..];
    TopBounds(handlers[j..]);
    TopBounds(handlers[j + 1..]);
  }

  /** Writing a field of one handler's state changes that field and nothing else. */
  lemma {:induction false} StateWritten(before: seq<byte>, after: seq<byte>, handlers: seq<Handler>, j: nat, field: nat, word: i64)
    requires FramesAt(before, handlers) && j < |handlers| && field < |handlers[j].state|
    requires Put(before, after, StateAt(handlers, j) + 8 * field, WordBytes(word))
    requires WordAt(after, StateAt(handlers, j) + 8 * field) == word
    ensures FramesAt(after, WithState(handlers, j, field, word)) && Alike(WithState(handlers, j, field, word), handlers)
    decreases j
  {
    hide WordsAt, WordAt, WordBytes, FrameWords;
    var now, held := WithState(handlers, j, field, word), Top(handlers[1..]);
    AlikeTop(now[1..], handlers[1..]);
    AlikeHead(now, handlers);
    AlikeHead(now[1..], handlers[1..]);
    TopBounds(handlers);
    HandlerAt(before, handlers, j);
    if j == 0 {
      InnermostWritten(before, after, handlers, field, word);
    } else {
      HandlerAt(before, handlers[1..], j - 1);
      Under(handlers, j);
      TopBounds(handlers[1..]);
      WordsKept(before, after, held, handlers[0].state);
      SameFrame(handlers[1..], now[1..], handlers[0]);
      FrameKept(before, after, handlers);
      StateWritten(before, after, handlers[1..], j - 1, field, word);
      assert now[1..] == WithState(handlers[1..], j - 1, field, word);
    }
  }

  lemma InnermostWritten(before: seq<byte>, after: seq<byte>, handlers: seq<Handler>, field: nat, word: i64)
    requires FramesAt(before, handlers) && handlers != [] && field < |handlers[0].state|
    requires Put(before, after, Top(handlers[1..]) + 8 * field, WordBytes(word))
    requires WordAt(after, Top(handlers[1..]) + 8 * field) == word
    ensures FramesAt(after, WithState(handlers, 0, field, word))
  {
    hide WordsAt, WordAt, WordBytes, FrameWords;
    var now := WithState(handlers, 0, field, word);
    assert now[1..] == handlers[1..];
    SameFrame(handlers[1..], now[1..], handlers[0]);
    FrameOfState(handlers[1..], handlers[0], now[0]);
    TopBounds(handlers);
    OneWordPut(before, after, Top(handlers[1..]), handlers[0].state, field, word);
    FrameKept(before, after, handlers);
    FramesKept(before, after, handlers[1..]);
  }

  lemma FrameOfState(under: seq<Handler>, one: Handler, other: Handler)
    requires one.effect == other.effect && one.codes == other.codes
    ensures FrameWords(under, one) == FrameWords(under, other)
  {
  }

  lemma SameFrame(one: seq<Handler>, other: seq<Handler>, handler: Handler)
    requires Top(one) == Top(other) && Head(one) == Head(other)
    ensures FrameWords(one, handler) == FrameWords(other, handler)
  {
  }

  /** The innermost frame stays when nothing from it up changes. */
  lemma FrameKept(before: seq<byte>, after: seq<byte>, handlers: seq<Handler>)
    requires FramesAt(before, handlers) && handlers != [] && |before| <= |after|
    requires SameOver(before, after, Head(handlers), Top(handlers))
    ensures WordsAt(after, Head(handlers), FrameWords(handlers[1..], handlers[0]))
  {
    TopBounds(handlers);
    WordsKept(before, after, Head(handlers), FrameWords(handlers[1..], handlers[0]));
  }

  function WithState(handlers: seq<Handler>, j: nat, field: nat, word: i64): seq<Handler>
    requires j < |handlers| && field < |handlers[j].state|
  {
    handlers[j := handlers[j].(state := handlers[j].state[field := word])]
  }

  lemma Under(handlers: seq<Handler>, j: nat)
    requires 0 < j < |handlers|
    ensures handlers[1..][j - 1] == handlers[j] && handlers[1..][j - 1..] == handlers[j..]
    ensures StateAt(handlers[1..], j - 1) == StateAt(handlers, j)
  {
    assert handlers[1..][j..] == handlers[j + 1..];
  }

  lemma AlikeHead(one: seq<Handler>, other: seq<Handler>)
    requires Alike(one, other)
    ensures Head(one) == Head(other)
  {
    if one != [] {
      AlikeTop(one[1..], other[1..]);
    }
  }

  lemma OneWordPut(before: seq<byte>, after: seq<byte>, at: nat, words: seq<i64>, k: nat, word: i64)
    requires WordsAt(before, at, words) && k < |words| && Put(before, after, at + 8 * k, WordBytes(word))
    requires WordAt(after, at + 8 * k) == word
    ensures WordsAt(after, at, words[k := word])
  {
    hide WordAt;
    forall i | 0 <= i < |words| ensures WordAt(after, at + 8 * i) == words[k := word][i] {
      if i != k {
        WordKept(before, after, at + 8 * i);
      }
    }
  }
}
