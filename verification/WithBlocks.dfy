/** The code of `with` and `perform` over linear memory, which does what the stack of handlers says. */
module WithBlocks {
  import opened Ints
  import opened Wasm
  import opened Handlers
  import opened Heap
  import opened Frames
  import L = Layout

  /** Words stored one after another, and nothing else touched. */
  method PutWords(m: Machine, at: nat, words: seq<i64>)
    requires at + 8 * |words| <= |m.memory|
    modifies m
    ensures |m.memory| == |old(m.memory)| && WordsAt(m.memory, at, words)
    ensures SameOver(old(m.memory), m.memory, 0, at) && SameOver(old(m.memory), m.memory, at + 8 * |words|, |m.memory|)
  {
    hide WordAt, WordBytes;
    ghost var before := m.memory;
    var k := 0;
    while k < |words|
      invariant k <= |words| && |m.memory| == |before| && WordsAt(m.memory, at, words[..k])
      invariant SameOver(before, m.memory, 0, at) && SameOver(before, m.memory, at + 8 * k, |before|)
    {
      ghost var held := m.memory;
      m.PutWord(at + 8 * k, words[k]);
      WordsKept(held, m.memory, at, words[..k]);
      assert words[..k + 1] == words[..k] + [words[k]];
      k := k + 1;
    }
    assert words[..k] == words;
  }

  /** Room on the frame stack, or a trap when it would run into the heap. */
  method AllocateFrame(m: Machine, size: nat) returns (r: Option<nat>)
    requires Orderly(m.memory) && L.FRAME_START <= WordAt(m.memory, L.FRAME_BUMP)
    modifies m
    ensures r.Some? <==> WordAt(old(m.memory), L.FRAME_BUMP) + size <= L.HEAP_START
    ensures r.Some? ==>
              && r.value == WordAt(old(m.memory), L.FRAME_BUMP)
              && Put(old(m.memory), m.memory, L.FRAME_BUMP, WordBytes(r.value + size))
              && WordAt(m.memory, L.FRAME_BUMP) == r.value + size
  {
    hide WordAt, WordBytes;
    SoundReaches(m.memory);
    var into: nat := WordAt(m.memory, L.FRAME_BUMP);
    if into + size > L.HEAP_START {
      return None;
    }
    m.PutWord(L.FRAME_BUMP, into + size);
    r := Some(into);
  }

  /**
   * Installs a handler: its state and its frame go on the frame stack, and the frame becomes the
   * innermost. A trap exactly when there is no room for both.
   */
  method Install(m: Machine, handler: Handler, ghost handlers: seq<Handler>) returns (frame: Option<nat>)
    requires Installed(m.memory, handlers)
    modifies m
    ensures frame.Some? <==> Top(handlers) + RoomOf(handler) <= L.HEAP_START
    ensures frame.Some? ==>
              && Installed(m.memory, [handler] + handlers) && frame.value == Head([handler] + handlers)
              && Grown(old(m.memory), m.memory, [])
  {
    hide WordAt, WordBytes, FramesAt, WordsAt, Orderly, Grown;
    TopBounds(handlers);
    ghost var start := m.memory;
    SoundReaches(start);
    var held := AllocateFrame(m, 8 * |handler.state|);
    if held.None? {
      return None;
    }
    ghost var first := m.memory;
    LowWord(start, first, L.FRAME_BUMP, WordBytes(held.value + 8 * |handler.state|));
    SoundReaches(first);
    PutWords(m, held.value, handler.state);
    ghost var second := m.memory;
    LowBytes(first, second, held.value, 8 * |handler.state|);
    WordKept(first, second, L.FRAME_BUMP);
    var at := AllocateFrame(m, L.FrameSize(|handler.codes|));
    if at.None? {
      return None;
    }
    ghost var third := m.memory;
    LowWord(second, third, L.FRAME_BUMP, WordBytes(at.value + L.FrameSize(|handler.codes|)));
    SoundReaches(third);
    WriteFrame(m, at.value, held.value, handler);
    ghost var fourth := m.memory;
    LowBytes(third, fourth, at.value, L.FrameSize(|handler.codes|));
    SoundReaches(fourth);
    m.PutWord(L.HANDLERS, at.value);
    LowWord(fourth, m.memory, L.HANDLERS, WordBytes(at.value));
    GrownFive(start, first, second, third, fourth, m.memory);
    Linked(start, first, second, third, fourth, m.memory, handler, handlers);
    frame := Some(at.value);
  }

  /** A frame's words: the frame that was innermost, the effect, the state, and the code of each operation. */
  method WriteFrame(m: Machine, at: nat, held: nat, handler: Handler)
    requires L.FRAME_START <= at && at + L.FrameSize(|handler.codes|) <= |m.memory| && held <= MAX_64
    modifies m
    ensures |m.memory| == |old(m.memory)|
    ensures WordsAt(m.memory, at, [WordAt(old(m.memory), L.HANDLERS), handler.effect, held] + handler.codes)
    ensures SameOver(old(m.memory), m.memory, 0, at)
    ensures SameOver(old(m.memory), m.memory, at + L.FrameSize(|handler.codes|), |m.memory|)
  {
    hide WordAt, WordBytes;
    ghost var words: seq<i64> := [WordAt(m.memory, L.HANDLERS), handler.effect, held];
    m.PutWord(at, WordAt(m.memory, L.HANDLERS));
    ghost var one := m.memory;
    m.PutWord(at + 8, handler.effect);
    ghost var two := m.memory;
    m.PutWord(at + 16, held);
    ghost var three := m.memory;
    PutWords(m, at + 24, handler.codes);
    WordKept(one, two, at);
    WordKept(two, three, at);
    WordKept(two, three, at + 8);
    assert WordsAt(three, at, words);
    WordsKept(three, m.memory, at, words);
    WordsJoin(m.memory, at, words, handler.codes);
  }

  lemma WordsJoin(memory: seq<byte>, at: nat, one: seq<i64>, two: seq<i64>)
    requires WordsAt(memory, at, one) && WordsAt(memory, at + 8 * |one|, two)
    ensures WordsAt(memory, at, one + two)
  {
    hide WordAt;
    forall k | 0 <= k < |one| + |two| ensures WordAt(memory, at + 8 * k) == (one + two)[k] {
      if k >= |one| {
        assert WordAt(memory, at + 8 * |one| + 8 * (k - |one|)) == two[k - |one|];
      }
    }
  }

  lemma SoundReaches(memory: seq<byte>)
    requires Orderly(memory)
    ensures L.HEAP_START <= |memory|
  {
  }

  /** Bytes written below the heap leave the heap as it is. */
  lemma LowBytes(before: seq<byte>, after: seq<byte>, at: nat, n: nat)
    requires Orderly(before) && |after| == |before| && L.FRAME_START <= at && at + n <= L.HEAP_START
    requires SameOver(before, after, 0, at) && SameOver(before, after, at + n, |before|)
    ensures Orderly(after) && Grown(before, after, [])
  {
    WordKept(before, after, L.BUMP);
  }

  lemma GrownFive(a: seq<byte>, b: seq<byte>, c: seq<byte>, d: seq<byte>, e: seq<byte>, f: seq<byte>)
    requires Grown(a, b, []) && Grown(b, c, []) && Grown(c, d, []) && Grown(d, e, []) && Grown(e, f, [])
    ensures Grown(a, f, [])
  {
    hide Grown;
    var none: seq<i64> := [];
    assert none + none == none;
    GrownThen(a, b, c, none, none);
    GrownThen(a, c, d, none, none);
    GrownThen(a, d, e, none, none);
    GrownThen(a, e, f, none, none);
  }

  /** Everything installing wrote, seen together. */
  lemma Linked(
    start: seq<byte>, first: seq<byte>, second: seq<byte>, third: seq<byte>, fourth: seq<byte>, last: seq<byte>,
    handler: Handler, handlers: seq<Handler>)
    requires Installed(start, handlers) && Orderly(last) && Top(handlers) + RoomOf(handler) <= L.HEAP_START
    requires |start| == |first| == |second| == |third| == |fourth| == |last|
    requires var at := Top(handlers) + 8 * |handler.state|;
             && (exists b :: |b| == 8 && Put(start, first, L.FRAME_BUMP, b))
             && SameOver(first, second, 0, Top(handlers)) && WordsAt(second, Top(handlers), handler.state)
             && (exists b :: |b| == 8 && Put(second, third, L.FRAME_BUMP, b)) && WordAt(third, L.FRAME_BUMP) == Top([handler] + handlers)
             && SameOver(third, fourth, 0, at)
             && WordsAt(fourth, at, [WordAt(third, L.HANDLERS), handler.effect, Top(handlers)] + handler.codes)
             && (exists b :: |b| == 8 && Put(fourth, last, L.HANDLERS, b)) && WordAt(last, L.HANDLERS) == at
    ensures Installed(last, [handler] + handlers)
  {
    hide WordAt, WordsAt, Orderly, FramesAt;
    var now, at := [handler] + handlers, Top(handlers) + 8 * |handler.state|;
    TopBounds(handlers);
    TopBounds(now);
    assert now[1..] == handlers;
    assert SameOver(start, last, L.FRAME_START, Top(handlers));
    FramesKept(start, last, handlers);
    WordsKept(second, last, Top(handlers), handler.state);
    SoundReaches(start);
    WordKept(start, third, L.HANDLERS);
    assert FrameWords(handlers, handler) == [WordAt(third, L.HANDLERS), handler.effect, Top(handlers)] + handler.codes;
    WordsKept(fourth, last, at, FrameWords(handlers, handler));
    WordKept(third, last, L.FRAME_BUMP);
    OneMoreFrame(last, handler, handlers);
  }

  lemma OneMoreFrame(memory: seq<byte>, handler: Handler, handlers: seq<Handler>)
    requires FramesAt(memory, handlers) && WordsAt(memory, Top(handlers), handler.state)
    requires WordsAt(memory, Head([handler] + handlers), FrameWords(handlers, handler))
    ensures FramesAt(memory, [handler] + handlers)
  {
    assert ([handler] + handlers)[1..] == handlers;
  }

  /**
   * The end of a block, by way of its own frame: the frame under that is innermost, and the frame
   * stack is where the block found it, whatever has been left above.
   */
  method Unlink(m: Machine, frame: nat, mark: nat, ghost handlers: seq<Handler>, ghost k: nat)
    requires k < |handlers| && Installed(m.memory, handlers)
    requires frame == Head(handlers[k..]) && mark == Top(handlers[k + 1..])
    modifies m
    ensures Installed(m.memory, handlers[k + 1..]) && Grown(old(m.memory), m.memory, [])
  {
    hide WordAt, WordBytes, FramesAt, Orderly, Grown;
    ghost var start := m.memory;
    FramesUnder(start, handlers, k);
    FramesUnder(start, handlers, k + 1);
    assert handlers[k..][1..] == handlers[k + 1..];
    TopBounds(handlers[k..]);
    TopBounds(handlers[k + 1..]);
    SoundReaches(start);
    NextOf(start, handlers[k..]);
    m.PutWord(L.HANDLERS, WordAt(m.memory, frame));
    ghost var first := m.memory;
    LowWord(start, first, L.HANDLERS, WordBytes(WordAt(start, frame)));
    m.PutWord(L.FRAME_BUMP, mark);
    LowWord(first, m.memory, L.FRAME_BUMP, WordBytes(mark));
    WordKept(first, m.memory, L.HANDLERS);
    GrownThen(start, first, m.memory, [], []);
    var none: seq<i64> := [];
    assert none + [] == none;
    FramesKept(start, m.memory, handlers[k + 1..]);
  }

  /** The first word of the innermost frame is where the next one is. */
  lemma NextOf(memory: seq<byte>, handlers: seq<Handler>)
    requires handlers != [] && FramesAt(memory, handlers) && Top(handlers) <= L.HEAP_START
    ensures Head(handlers) + 24 <= |memory|
    ensures WordAt(memory, Head(handlers)) == Head(handlers[1..])
    ensures WordAt(memory, Head(handlers) + 8) == handlers[0].effect
    ensures WordAt(memory, Head(handlers) + 16) == Top(handlers[1..])
  {
    hide WordAt;
    TopBounds(handlers);
    TopBounds(handlers[1..]);
    var words := FrameWords(handlers[1..], handlers[0]);
    assert words[0] == Head(handlers[1..]) && words[1] == handlers[0].effect && words[2] == Top(handlers[1..]);
    assert WordAt(memory, Head(handlers) + 8 * 0) == words[0];
    assert WordAt(memory, Head(handlers) + 8 * 1) == words[1];
    assert WordAt(memory, Head(handlers) + 8 * 2) == words[2];
  }

  /** Follows the links from the newest frame and stops at one for the effect, or at none. */
  method FindHandler(memory: seq<byte>, effect: i64, ghost handlers: seq<Handler>) returns (cursor: nat)
    requires Installed(memory, handlers)
    ensures match Innermost(handlers, effect)
            case None => cursor == 0
            case Some(j) => cursor == Head(handlers[j..]) && cursor != 0
  {
    hide WordAt, FramesAt;
    cursor := WordAt(memory, L.HANDLERS);
    ghost var j := 0;
    TopBounds(handlers);
    assert handlers[0..] == handlers;
    while cursor != 0
      invariant j <= |handlers| && cursor == Head(handlers[j..])
      invariant forall k | 0 <= k < j :: handlers[k].effect != effect
      decreases |handlers| - j
    {
      FramesUnder(memory, handlers, j);
      NextOf(memory, handlers[j..]);
      if WordAt(memory, cursor + 8) == effect {
        FoundAt(handlers, effect, j);
        return;
      }
      cursor := WordAt(memory, cursor);
      assert handlers[j..][1..] == handlers[j + 1..];
      j := j + 1;
    }
    FoundAt(handlers, effect, j);
  }

  lemma FoundAt(handlers: seq<Handler>, effect: i64, j: nat)
    requires j <= |handlers| && forall k | 0 <= k < j :: handlers[k].effect != effect
    requires j < |handlers| ==> Head(handlers[j..]) != 0
    ensures j < |handlers| && handlers[j].effect == effect ==> Innermost(handlers, effect) == Some(j)
    ensures j == |handlers| ==> Innermost(handlers, effect) == None
  {
  }

  // -- whole runs ------------------------------------------------------------

  /** If an operation is running, `mine` is the address of the state of its handler. */
  ghost predicate MineAt(handlers: seq<Handler>, me: Option<nat>, mine: nat) {
    me.Some? ==> me.value < |handlers| && mine == StateAt(handlers, |handlers| - 1 - me.value)
  }

  /** What a run of the emitted code comes to: a trap, or what was observed and whether it returned. */
  datatype Came = Stopped | Over(events: seq<Event>, returned: bool)

  /** What a run leaves is what the stack of handlers says it does. */
  ghost predicate Ends(before: seq<byte>, after: seq<byte>, r: Came, ended: Ended) {
    match ended
    case Done(handlers, made, events, returned) =>
      r == Over(events, returned) && Installed(after, handlers) && Grown(before, after, made)
    case Trapped => r == Stopped
    case Wrong => true
  }

  lemma MineStays(handlers: seq<Handler>, now: seq<Handler>, me: Option<nat>, mine: nat)
    requires MineAt(handlers, me, mine) && Above(now, handlers)
    ensures MineAt(now, me, mine)
  {
    if me.Some? {
      var under := Outermost(now, |handlers|);
      assert under[|handlers| - me.value..] == now[|now| - me.value..];
      AlikeTop(now[|now| - me.value..], handlers[|handlers| - me.value..]);
    }
  }

  lemma MinePushed(handlers: seq<Handler>, handler: Handler, me: Option<nat>, mine: nat)
    requires MineAt(handlers, me, mine)
    ensures MineAt([handler] + handlers, me, mine)
  {
    if me.Some? {
      var j := |handlers| - 1 - me.value;
      assert ([handler] + handlers)[j + 2..] == handlers[j + 1..];
    }
  }

  lemma EndsThen(before: seq<byte>, between: seq<byte>, after: seq<byte>, one: Ended, events: seq<Event>, r: Came, rest: Ended)
    requires one.Done? && events == one.events && Grown(before, between, one.made) && Ends(between, after, r, rest)
    ensures Ends(before, after, if r.Over? then Over(events + r.events, r.returned) else Stopped, After(one.made, events, rest))
  {
    hide Grown, Installed;
    if rest.Done? {
      GrownThen(before, between, after, one.made, rest.made);
    }
  }

  /** One act after another, until one traps or returns. */
  method Run(m: Machine, acts: seq<Act>, mine: nat, ghost handlers: seq<Handler>, ghost me: Option<nat>) returns (r: Came)
    requires Installed(m.memory, handlers) && MineAt(handlers, me, mine)
    requires Meant(acts, handlers, BumpOf(m.memory), me) != Wrong
    modifies m
    ensures Ends(old(m.memory), m.memory, r, Meant(acts, handlers, BumpOf(old(m.memory)), me))
    decreases acts, 0
  {
    hide Installed, Grown, MineAt, Does, Above;
    ShowsSound(m.memory, handlers);
    if acts == [] {
      StaysGrown(m.memory, handlers);
      return Over([], false);
    }
    ghost var start, first := m.memory, Does(acts[0], handlers, BumpOf(m.memory), me);
    r := RunAct(m, acts[0], mine, handlers, me);
    if r.Stopped? || r.returned {
      return;
    }
    ghost var between := m.memory;
    ActKeeps(acts[0], handlers, BumpOf(start), me);
    MineStays(handlers, first.handlers, me, mine);
    GrownBump(start, between, first.made);
    var rest := Run(m, acts[1..], mine, first.handlers, me);
    EndsThen(start, between, m.memory, first, r.events, rest, Meant(acts[1..], first.handlers, BumpOf(between), me));
    r := if rest.Over? then Over(r.events + rest.events, rest.returned) else Stopped;
  }

  lemma ShowsSound(memory: seq<byte>, handlers: seq<Handler>)
    requires Installed(memory, handlers)
    ensures Orderly(memory) && |memory| >= L.HEAP_START && BumpOf(memory) >= L.HEAP_START
  {
  }

  lemma StaysGrown(memory: seq<byte>, handlers: seq<Handler>)
    requires Installed(memory, handlers)
    ensures Grown(memory, memory, [])
  {
  }

  lemma GrownBump(before: seq<byte>, after: seq<byte>, made: seq<i64>)
    requires Grown(before, after, made)
    ensures |after| >= 8 && |before| >= 8 && BumpOf(after) == BumpOf(before) + 8 * |made|
  {
  }

  method RunAct(m: Machine, act: Act, mine: nat, ghost handlers: seq<Handler>, ghost me: Option<nat>) returns (r: Came)
    requires Installed(m.memory, handlers) && MineAt(handlers, me, mine) && |m.memory| >= 8
    requires BumpOf(m.memory) >= 0 && Does(act, handlers, BumpOf(m.memory), me) != Wrong
    modifies m
    ensures Ends(old(m.memory), m.memory, r, Does(act, handlers, BumpOf(old(m.memory)), me))
    decreases act, 1
  {
    match act
    case With(_, _) => r := RunWith(m, act, mine, handlers, me);
    case Perform(_, _, _) => r := RunPerform(m, act, handlers, me);
    case Ask(effect, offered, ends) =>
      var cursor := FindHandler(m.memory, effect, handlers);
      assert cursor == 0;
      StaysGrown(m.memory, handlers);
      r := Over([Asked(offered)], ends);
    case Enter(body) =>
      r := Run(m, body, mine, handlers, None);
      r := if r.Over? then Over(r.events, false) else Stopped;
    case Leave =>
      StaysGrown(m.memory, handlers);
      r := Over([], true);
    case Read(field) =>
      StateField(m.memory, handlers, me, mine, field);
      StaysGrown(m.memory, handlers);
      r := Over([Saw(WordAt(m.memory, mine + 8 * field))], false);
    case Write(field, word) =>
      WriteField(m, mine, field, word, handlers, me);
      r := Over([], false);
    case Make(words) => r := MakeValue(m, words, handlers);
  }

  /** The field of the running operation's own state. */
  lemma StateField(memory: seq<byte>, handlers: seq<Handler>, me: Option<nat>, mine: nat, field: nat)
    requires Installed(memory, handlers) && MineAt(handlers, me, mine) && Mine(handlers, me, field)
    ensures L.FRAME_START <= mine + 8 * field && mine + 8 * field + 8 <= Top(handlers) && mine + 8 * field + 8 <= |memory|
    ensures WordAt(memory, mine + 8 * field) == handlers[|handlers| - 1 - me.value].state[field]
  {
    hide WordAt, FramesAt, FrameWords, Orderly;
    var j := |handlers| - 1 - me.value;
    HandlerAt(memory, handlers, j);
    assert WordsAt(memory, mine, handlers[j].state);
  }

  /** Writing a field in place: that handler's state has the new word, and nothing else has changed. */
  method WriteField(m: Machine, mine: nat, field: nat, word: i64, ghost handlers: seq<Handler>, ghost me: Option<nat>)
    requires Installed(m.memory, handlers) && MineAt(handlers, me, mine) && Mine(handlers, me, field)
    modifies m
    ensures Installed(m.memory, WithState(handlers, |handlers| - 1 - me.value, field, word)) && Grown(old(m.memory), m.memory, [])
  {
    hide WordAt, WordBytes, FramesAt, Orderly, Grown;
    ghost var start, j := m.memory, |handlers| - 1 - me.value;
    StateField(start, handlers, me, mine, field);
    ShowsSound(start, handlers);
    m.PutWord(mine + 8 * field, word);
    LowWord(start, m.memory, mine + 8 * field, WordBytes(word));
    StateWritten(start, m.memory, handlers, j, field, word);
    ghost var now := WithState(handlers, j, field, word);
    AlikeTop(now, handlers);
    AlikeHead(now, handlers);
    WordKept(start, m.memory, L.HANDLERS);
    WordKept(start, m.memory, L.FRAME_BUMP);
  }

  /** A value goes on the heap, above everything there. */
  method MakeValue(m: Machine, words: seq<i64>, ghost handlers: seq<Handler>) returns (r: Came)
    requires Installed(m.memory, handlers) && 8 * |words| < TWO_32
    modifies m
    ensures r == if BumpOf(old(m.memory)) + 8 * |words| > CEILING then Stopped else Over([], false)
    ensures r.Over? ==> Installed(m.memory, handlers) && Grown(old(m.memory), m.memory, words)
  {
    hide WordAt, WordBytes, FramesAt, WordsAt;
    ghost var start := m.memory;
    var at := m.Allocate(8 * |words|);
    if at.None? {
      return Stopped;
    }
    ghost var reserved := m.memory;
    PutWords(m, at.value, words);
    FramesKept(start, m.memory, handlers);
    WordKept(start, m.memory, L.HANDLERS);
    WordKept(start, m.memory, L.FRAME_BUMP);
    WordKept(reserved, m.memory, L.BUMP);
    r := Over([], false);
  }

  /** A block: its handler is installed and the body runs. Both frame words are put back unless the body returned. */
  method RunWith(m: Machine, act: Act, mine: nat, ghost handlers: seq<Handler>, ghost me: Option<nat>) returns (r: Came)
    requires act.With? && Installed(m.memory, handlers) && MineAt(handlers, me, mine) && |m.memory| >= 8
    requires BumpOf(m.memory) >= 0 && Does(act, handlers, BumpOf(m.memory), me) != Wrong
    modifies m
    ensures Ends(old(m.memory), m.memory, r, Does(act, handlers, BumpOf(old(m.memory)), me))
    decreases act, 0
  {
    hide Installed, Grown, MineAt, Meant, Above;
    ghost var start, now := m.memory, [act.handler] + handlers;
    var mark := MarkOf(m.memory, handlers);
    var frame := Install(m, act.handler, handlers);
    if frame.None? {
      return Stopped;
    }
    ghost var installed := m.memory;
    GrownBump(start, installed, []);
    MinePushed(handlers, act.handler, me, mine);
    r := Run(m, act.body, mine, now, me);
    ghost var ended := Meant(act.body, now, BumpOf(start), me);
    if r.Stopped? {
      return;
    }
    ghost var body := m.memory;
    if r.returned {
      GrownAround(start, installed, body, body, ended.made);
      return;
    }
    StackKept(act.body, now, BumpOf(start), me);
    BlockFrame(ended.handlers, act.handler, handlers);
    Unlink(m, frame.value, mark, ended.handlers, |ended.handlers| - |handlers| - 1);
    GrownAround(start, installed, body, m.memory, ended.made);
  }

  /** The block's own frame is where it was, under anything left above it. */
  lemma BlockFrame(ended: seq<Handler>, handler: Handler, handlers: seq<Handler>)
    requires Above(ended, [handler] + handlers)
    ensures |handlers| < |ended|
    ensures Head(ended[|ended| - |handlers| - 1..]) == Head([handler] + handlers)
    ensures Top(ended[|ended| - |handlers|..]) == Top(handlers)
  {
    AlikeHead(Outermost(ended, |handlers| + 1), [handler] + handlers);
    AboveOne(ended, handler, handlers);
    AlikeTop(Outermost(ended, |handlers|), handlers);
  }

  lemma GrownAround(a: seq<byte>, b: seq<byte>, c: seq<byte>, d: seq<byte>, made: seq<i64>)
    requires Grown(a, b, []) && Grown(b, c, made) && (Grown(c, d, []) || c == d)
    ensures Grown(a, d, made)
  {
    hide Grown;
    GrownThen(a, b, c, [], made);
    assert [] + made == made;
    if c != d {
      GrownThen(a, c, d, made, []);
      assert made + [] == made;
    }
  }

  /** Where the frame stack stands. */
  method MarkOf(memory: seq<byte>, ghost handlers: seq<Handler>) returns (mark: nat)
    requires Installed(memory, handlers)
    ensures mark == Top(handlers)
  {
    mark := WordAt(memory, L.FRAME_BUMP);
  }

  /** An operation: the innermost handler's state and code are read out of its frame, and the code runs on that state. */
  method RunPerform(m: Machine, act: Act, ghost handlers: seq<Handler>, ghost me: Option<nat>) returns (r: Came)
    requires act.Perform? && Installed(m.memory, handlers) && |m.memory| >= 8
    requires BumpOf(m.memory) >= 0 && Does(act, handlers, BumpOf(m.memory), me) != Wrong
    modifies m
    ensures Ends(old(m.memory), m.memory, r, Does(act, handlers, BumpOf(old(m.memory)), me))
    decreases act, 0
  {
    hide Installed, Grown, Meant, WordAt, FrameWords;
    var cursor := FindHandler(m.memory, act.effect, handlers);
    if cursor == 0 {
      return Stopped;
    }
    ghost var j := Innermost(handlers, act.effect).value;
    FrameRead(m.memory, handlers, j, act.operation);
    var state := WordAt(m.memory, cursor + 16);
    var code := WordAt(m.memory, cursor + L.OperationOffset(act.operation));
    var rest := Run(m, act.answer, state, handlers, Some(|handlers| - 1 - j));
    r := if rest.Over? then Over([Called(code)] + rest.events, false) else Stopped;
    EndsAfter(old(m.memory), m.memory, rest, [Called(code)], Meant(act.answer, handlers, BumpOf(old(m.memory)), Some(|handlers| - 1 - j)));
  }

  /**
   * Once a handler has been installed, performing each of its operations calls the code that was
   * installed for that operation and no other, whatever else is installed under it.
   */
  method InstallThenPerform(m: Machine, handler: Handler, k: nat, ghost handlers: seq<Handler>) returns (r: Came)
    requires Installed(m.memory, handlers) && k < |handler.codes|
    modifies m
    ensures r == if Top(handlers) + RoomOf(handler) <= L.HEAP_START then Over([Called(handler.codes[k])], false) else Stopped
  {
    hide Installed, Grown;
    ghost var start := m.memory;
    var frame := Install(m, handler, handlers);
    if frame.None? {
      return Stopped;
    }
    ghost var all := [handler] + handlers;
    assert [] + [handler] + handlers == all;
    ShowsSound(m.memory, all);
    PerformsItsOwn([], handler, handlers, k, BumpOf(m.memory), None);
    r := RunPerform(m, Perform(handler.effect, k, []), all, None);
  }

  lemma EndsAfter(before: seq<byte>, after: seq<byte>, rest: Came, events: seq<Event>, ended: Ended)
    requires Ends(before, after, rest, ended)
    ensures Ends(before, after, if rest.Over? then Over(events + rest.events, false) else Stopped, After([], events, Answered(ended)))
  {
    hide Installed, Grown;
    if ended.Done? {
      assert [] + ended.made == ended.made;
    }
  }

  /** What a frame says: where its handler's state is, and the code of an operation. */
  lemma FrameRead(memory: seq<byte>, handlers: seq<Handler>, j: nat, operation: nat)
    requires Installed(memory, handlers) && j < |handlers| && operation < |handlers[j].codes|
    ensures Head(handlers[j..]) + L.OperationOffset(operation) + 8 <= |memory|
    ensures WordAt(memory, Head(handlers[j..]) + 16) == StateAt(handlers, j)
    ensures WordAt(memory, Head(handlers[j..]) + L.OperationOffset(operation)) == handlers[j].codes[operation]
    ensures MineAt(handlers, Some(|handlers| - 1 - j), StateAt(handlers, j))
  {
    hide WordAt;
    HandlerAt(memory, handlers, j);
    var words := FrameWords(handlers[j + 1..], handlers[j]);
    assert words[2] == AsWord(StateAt(handlers, j)) && words[3 + operation] == handlers[j].codes[operation];
    assert WordAt(memory, Head(handlers[j..]) + 8 * 2) == words[2];
    assert WordAt(memory, Head(handlers[j..]) + 8 * (3 + operation)) == words[3 + operation];
  }

  /**
   * A run that ends puts each of the two words back exactly when it leaves no handler behind:
   * when no return went past the end of a block that nothing around it ended.
   */
  lemma WordsRestored(before: seq<byte>, after: seq<byte>, acts: seq<Act>, handlers: seq<Handler>, me: Option<nat>, r: Came)
    requires Installed(before, handlers) && Ends(before, after, r, Meant(acts, handlers, BumpOf(before), me))
    requires Meant(acts, handlers, BumpOf(before), me).Done?
    ensures |after| >= |before| >= L.HEAP_START
    ensures WordAt(after, L.HANDLERS) == WordAt(before, L.HANDLERS) <==> Left(acts) == 0
    ensures WordAt(after, L.FRAME_BUMP) == WordAt(before, L.FRAME_BUMP) <==> Left(acts) == 0
  {
    hide WordAt, Meant, FramesAt;
    StackKept(acts, handlers, BumpOf(before), me);
    var now := Meant(acts, handlers, BumpOf(before), me).handlers;
    TopBounds(handlers);
    if Left(acts) == 0 {
      assert Outermost(now, |handlers|) == now;
      AlikeTop(now, handlers);
      AlikeHead(now, handlers);
    } else {
      HigherTop(now, handlers);
      assert Outermost(now[1..], |handlers|) == Outermost(now, |handlers|);
      HigherTop(now[1..], handlers);
      HeadBelowTop(handlers);
    }
  }

  lemma HeadBelowTop(handlers: seq<Handler>)
    ensures Head(handlers) < Top(handlers)
  {
    TopBounds(handlers);
  }
}
