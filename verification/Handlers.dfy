/**
 * Effect handlers as a stack: installing one for the length of a block, performing an
 * operation of the innermost one for its effect, and the state each installation keeps.
 */
module Handlers {
  import opened Ints
  import opened Wasm
  import Heap
  import L = Layout

  /** An installed handler: what it answers for, the code of each operation, and its own state. */
  datatype Handler = Handler(effect: i64, codes: seq<i64>, state: seq<i64>)

  /** What a run does, as the nesting of blocks and calls it goes through. */
  datatype Act =
    /** A `with` block: a handler is installed for the length of the body. */
    | With(handler: Handler, body: seq<Act>)
    /** An operation is asked for, and whatever answers runs. */
    | Perform(effect: i64, operation: nat, answer: seq<Act>)
    /**
     * An operation nothing here answers is answered by the host. `ends` is whether that ends the
     * function asking as well, which the code emitted for it does.
     */
    | Ask(effect: i64, offered: i64, ends: bool)
    /** A function is called. */
    | Enter(body: seq<Act>)
    /** The function or the operation that is running returns, from wherever in it this is. */
    | Leave
    /** The operation that is running reads or writes a field of its handler's state. */
    | Read(field: nat)
    | Write(field: nat, word: i64)
    /** A value is made on the heap. */
    | Make(words: seq<i64>)

  datatype Event = Called(code: i64) | Asked(offered: i64) | Saw(word: i64)

  /**
   * Where a run ends: with the handlers as they are then, what was made, what was observed and
   * whether it returned; stopped by a trap; or doing what no checked program does.
   */
  datatype Ended = Done(handlers: seq<Handler>, made: seq<i64>, events: seq<Event>, returned: bool) | Trapped | Wrong

  /** The frame stack a handler takes: its state and then its frame. */
  function RoomOf(h: Handler): nat { L.AggregateSize(false, |h.state|) + L.FrameSize(|h.codes|) }

  /** How far the frame stack has risen under these, innermost first. */
  function Top(handlers: seq<Handler>): nat {
    if handlers == [] then L.FRAME_START else RoomOf(handlers[0]) + Top(handlers[1..])
  }

  /** The innermost handler that answers for an effect. */
  function Innermost(handlers: seq<Handler>, effect: i64): (r: Option<nat>)
    ensures r.Some? ==> r.value < |handlers| && handlers[r.value].effect == effect
    ensures forall j | 0 <= j < (if r.Some? then r.value else |handlers|) :: handlers[j].effect != effect
  {
    if handlers == [] then None
    else if handlers[0].effect == effect then Some(0)
    else match Innermost(handlers[1..], effect) case Some(j) => Some(j + 1) case None => None
  }

  /**
   * What a run means on the stack of handlers. `me` counts the handlers under the one whose
   * operation is running, if one is.
   */
  function Meant(acts: seq<Act>, handlers: seq<Handler>, bump: nat, me: Option<nat>): Ended
    decreases acts, 0
  {
    if acts == [] then Done(handlers, [], [], false) else
      match Does(acts[0], handlers, bump, me)
      case Done(now, made, events, returned) =>
        if returned then Done(now, made, events, true)
        else After(made, events, Meant(acts[1..], now, bump + 8 * |made|, me))
      case other => other
  }

  function After(made: seq<i64>, events: seq<Event>, ended: Ended): Ended {
    match ended
    case Done(handlers, more, later, returned) => Done(handlers, made + more, events + later, returned)
    case other => other
  }

  function Does(act: Act, handlers: seq<Handler>, bump: nat, me: Option<nat>): Ended
    decreases act, 1
  {
    match act
    case With(handler, body) =>
      if Top(handlers) + RoomOf(handler) > L.HEAP_START then Trapped
      else Leaves(Meant(body, [handler] + handlers, bump, me), |handlers|)
    case Perform(effect, operation, answer) =>
      (match Innermost(handlers, effect)
       case None => Trapped
       case Some(j) =>
         if operation >= |handlers[j].codes| then Wrong
         else
           After([], [Called(handlers[j].codes[operation])],
                 Answered(Meant(answer, handlers, bump, Some(|handlers| - 1 - j)))))
    case Ask(effect, offered, ends) =>
      if Innermost(handlers, effect).Some? then Wrong else Done(handlers, [], [Asked(offered)], ends)
    case Enter(body) => Answered(Meant(body, handlers, bump, None))
    case Leave => Done(handlers, [], [], true)
    case Read(field) =>
      if !Mine(handlers, me, field) then Wrong
      else Done(handlers, [], [Saw(handlers[|handlers| - 1 - me.value].state[field])], false)
    case Write(field, word) =>
      if !Mine(handlers, me, field) then Wrong else
        var at := |handlers| - 1 - me.value;
        Done(handlers[at := handlers[at].(state := handlers[at].state[field := word])], [], [], false)
    case Make(words) =>
      if 8 * |words| >= TWO_32 then Wrong
      else if bump + 8 * |words| > Heap.CEILING then Trapped
      else Done(handlers, words, [], false)
  }

  /** A block that reaches its end goes back to the handlers there were; a return goes past it. */
  function Leaves(ended: Ended, depth: nat): Ended {
    match ended
    case Done(handlers, made, events, returned) =>
      if returned then ended
      else if |handlers| < depth then Wrong
      else Done(handlers[|handlers| - depth..], made, events, false)
    case other => other
  }

  /** What was called has answered, whether it returned or reached its end. */
  function Answered(ended: Ended): Ended {
    match ended
    case Done(handlers, made, events, _) => Done(handlers, made, events, false)
    case other => other
  }

  predicate Mine(handlers: seq<Handler>, me: Option<nat>, field: nat) {
    me.Some? && me.value < |handlers| && field < |handlers[|handlers| - 1 - me.value].state|
  }

  // -- what every run keeps --------------------------------------------------

  /** The same handlers, whatever has happened to their states. */
  ghost predicate Alike(one: seq<Handler>, other: seq<Handler>) {
    && |one| == |other|
    && forall j | 0 <= j < |one| ::
         one[j].effect == other[j].effect && one[j].codes == other[j].codes && |one[j].state| == |other[j].state|
  }

  lemma {:induction false} AlikeTop(one: seq<Handler>, other: seq<Handler>)
    requires Alike(one, other)
    ensures Top(one) == Top(other)
    decreases |one|
  {
    if one != [] {
      AlikeTop(one[1..], other[1..]);
    }
  }

  /** The outermost handlers, as many as this. */
  function Outermost(handlers: seq<Handler>, depth: nat): seq<Handler>
    requires depth <= |handlers|
  {
    handlers[|handlers| - depth..]
  }

  /** The outermost handlers now are the ones there were, states aside. */
  ghost predicate Above(now: seq<Handler>, handlers: seq<Handler>) {
    |handlers| <= |now| && Alike(Outermost(now, |handlers|), handlers)
  }

  lemma AboveThen(a: seq<Handler>, b: seq<Handler>, c: seq<Handler>)
    requires Above(b, a) && Above(c, b)
    ensures Above(c, a)
  {
    forall j | 0 <= j < |a|
      ensures
        var x, y := Outermost(c, |a|)[j], a[j];
        x.effect == y.effect && x.codes == y.codes && |x.state| == |y.state|
    {
      assert Outermost(c, |a|)[j] == Outermost(c, |b|)[|b| - |a| + j];
      assert Outermost(b, |a|)[j] == b[|b| - |a| + j];
    }
  }

  lemma AboveOne(now: seq<Handler>, handler: Handler, handlers: seq<Handler>)
    requires Above(now, [handler] + handlers)
    ensures Above(now, handlers) && Above(Outermost(now, |handlers|), handlers)
  {
    var all, rest := Outermost(now, |handlers| + 1), Outermost(now, |handlers|);
    forall j | 0 <= j < |handlers|
      ensures
        var x, y := rest[j], handlers[j];
        x.effect == y.effect && x.codes == y.codes && |x.state| == |y.state|
    {
      assert rest[j] == all[j + 1] && handlers[j] == ([handler] + handlers)[j + 1];
    }
    assert Outermost(rest, |handlers|) == rest;
  }

  lemma AboveItself(handlers: seq<Handler>)
    ensures Above(handlers, handlers)
  {
  }

  // -- what returns leave ----------------------------------------------------

  /** Whether a run returns, from its own level or from inside blocks of its own. */
  predicate Returns(acts: seq<Act>) { acts != [] && (ActReturns(acts[0]) || Returns(acts[1..])) }

  predicate ActReturns(act: Act) { act.Leave? || (act.Ask? && act.ends) || (act.With? && Returns(act.body)) }

  /** How many handlers a run leaves behind: one for each block that a return went past, unless a block around it ended. */
  function Left(acts: seq<Act>): nat
    decreases acts, 0
  {
    if acts == [] then 0
    else ActLeaves(acts[0]) + if ActReturns(acts[0]) then 0 else Left(acts[1..])
  }

  function ActLeaves(act: Act): nat
    decreases act, 1
  {
    match act
    case With(_, body) => if Returns(body) then 1 + Left(body) else 0
    case Perform(_, _, answer) => Left(answer)
    case Enter(body) => Left(body)
    case _ => 0
  }

  /** A run that ends leaves the handlers it found where they were, and above them those returns went past. */
  lemma {:induction false} StackKept(acts: seq<Act>, handlers: seq<Handler>, bump: nat, me: Option<nat>)
    ensures var ended := Meant(acts, handlers, bump, me);
      ended.Done? ==>
        && Above(ended.handlers, handlers) && |ended.handlers| == |handlers| + Left(acts)
        && ended.returned == Returns(acts)
    decreases acts, 0
  {
    hide Above, Does, ActLeaves, ActReturns;
    if acts == [] {
      AboveItself(handlers);
    } else {
      ActKeeps(acts[0], handlers, bump, me);
      var first := Does(acts[0], handlers, bump, me);
      if first.Done? && !first.returned {
        StackKept(acts[1..], first.handlers, bump + 8 * |first.made|, me);
        var rest := Meant(acts[1..], first.handlers, bump + 8 * |first.made|, me);
        if rest.Done? {
          AboveThen(handlers, first.handlers, rest.handlers);
        }
      }
    }
  }

  lemma {:induction false} ActKeeps(act: Act, handlers: seq<Handler>, bump: nat, me: Option<nat>)
    ensures var ended := Does(act, handlers, bump, me);
      ended.Done? ==>
        && Above(ended.handlers, handlers) && |ended.handlers| == |handlers| + ActLeaves(act)
        && ended.returned == ActReturns(act)
    decreases act, 1
  {
    hide Above, Alike;
    AboveItself(handlers);
    match act
    case With(handler, body) =>
      StackKept(body, [handler] + handlers, bump, me);
      var ended := Meant(body, [handler] + handlers, bump, me);
      if ended.Done? {
        AboveSize(ended.handlers, [handler] + handlers);
        AboveOne(ended.handlers, handler, handlers);
      }
    case Perform(effect, operation, answer) =>
      var found := Innermost(handlers, effect);
      if found.Some? {
        StackKept(answer, handlers, bump, Some(|handlers| - 1 - found.value));
      }
    case Enter(body) => StackKept(body, handlers, bump, None);
    case Write(field, word) => WriteKeeps(handlers, me, field, word);
    case _ =>
  }

  lemma AboveSize(now: seq<Handler>, handlers: seq<Handler>)
    requires Above(now, handlers)
    ensures |handlers| <= |now|
  {
  }

  lemma WriteKeeps(handlers: seq<Handler>, me: Option<nat>, field: nat, word: i64)
    ensures var ended := Does(Write(field, word), handlers, 0, me); ended.Done? ==> Above(ended.handlers, handlers)
  {
  }

  /** Every handler takes room, so more of them reach higher. */
  lemma {:induction false} HigherTop(now: seq<Handler>, handlers: seq<Handler>)
    requires Above(now, handlers)
    ensures Top(handlers) + 24 * (|now| - |handlers|) <= Top(now)
    decreases |now|
  {
    if |now| == |handlers| {
      assert Outermost(now, |handlers|) == now;
      AlikeTop(now, handlers);
    } else {
      assert Outermost(now[1..], |handlers|) == Outermost(now, |handlers|);
      HigherTop(now[1..], handlers);
    }
  }

  /**
   * A function that returns from inside a block leaves the block's handler answering: performed
   * afterwards, its operation is called where a trap would have been had the block ended.
   */
  lemma ReturnedHandlerAnswers(handler: Handler, bump: nat)
    requires handler.codes != [] && Top([]) + RoomOf(handler) <= L.HEAP_START
    ensures var after := Perform(handler.effect, 0, []);
      && Meant([Enter([With(handler, [Leave])]), after], [], bump, None)
           == Done([handler], [], [Called(handler.codes[0])], false)
      && Meant([Enter([With(handler, [])]), after], [], bump, None) == Trapped
  {
    OpenAnswers(handler, bump);
    var after := Perform(handler.effect, 0, []);
    assert Meant([], [], bump, None) == Done([], [], [], false);
    assert Meant([], [handler], bump, None) == Done([handler], [], [], false);
    assert ([handler] + [])[1..] == [] && [handler] + [] == [handler];
    ClosedBlock(handler, bump);
    hide Does;
    assert Meant([Enter([With(handler, [])]), after], [], bump, None) == After([], [], Meant([after], [], bump, None));
    assert Meant([Enter([With(handler, [Leave])]), after], [], bump, None) == After([], [], Meant([after], [handler], bump, None));
  }

  lemma OpenAnswers(handler: Handler, bump: nat)
    requires handler.codes != [] && Top([]) + RoomOf(handler) <= L.HEAP_START
    ensures Does(Enter([With(handler, [Leave])]), [], bump, None) == Done([handler], [], [], false)
    ensures Does(Perform(handler.effect, 0, []), [handler], bump, None) == Done([handler], [], [Called(handler.codes[0])], false)
    ensures Does(Perform(handler.effect, 0, []), [], bump, None) == Trapped
  {
    hide Top, RoomOf;
    assert [handler] + [] == [handler];
    assert Does(Leave, [handler], bump, None) == Done([handler], [], [], true);
    assert Meant([Leave], [handler], bump, None) == Done([handler], [], [], true);
    assert Does(With(handler, [Leave]), [], bump, None) == Done([handler], [], [], true);
    assert Meant([With(handler, [Leave])], [], bump, None) == Done([handler], [], [], true);
  }

  lemma ClosedBlock(handler: Handler, bump: nat)
    requires Top([]) + RoomOf(handler) <= L.HEAP_START
    ensures Does(Enter([With(handler, [])]), [], bump, None) == Done([], [], [], false)
  {
    hide Top, RoomOf;
    assert [handler] + [] == [handler];
    assert Meant([], [handler], bump, None) == Done([handler], [], [], false);
    assert Does(With(handler, []), [], bump, None) == Done([], [], [], false);
    assert Meant([With(handler, [])], [], bump, None) == Done([], [], [], false);
  }

  // -- which operation, and on which state ------------------------------------

  lemma {:induction false} FoundUnder(over: seq<Handler>, handler: Handler, under: seq<Handler>)
    requires forall j | 0 <= j < |over| :: over[j].effect != handler.effect
    ensures Innermost(over + [handler] + under, handler.effect) == Some(|over|)
    decreases |over|
  {
    var all := over + [handler] + under;
    if over != [] {
      assert all[1..] == over[1..] + [handler] + under;
      FoundUnder(over[1..], handler, under);
    }
  }

  /**
   * Performing an operation calls that operation's own code, of the innermost handler for the
   * effect, whatever handlers for other effects are over it and whatever is under it.
   */
  lemma PerformsItsOwn(over: seq<Handler>, handler: Handler, under: seq<Handler>, k: nat, bump: nat, me: Option<nat>)
    requires forall j | 0 <= j < |over| :: over[j].effect != handler.effect
    requires k < |handler.codes|
    ensures
      var all := over + [handler] + under;
      Does(Perform(handler.effect, k, []), all, bump, me) == Done(all, [], [Called(handler.codes[k])], false)
  {
    var all := over + [handler] + under;
    FoundUnder(over, handler, under);
    assert Meant([], all, bump, Some(|under|)) == Done(all, [], [], false);
  }

  /** Two operations of one handler, with another effect's handler over it, call two codes. */
  lemma SecondOperation(bump: nat)
    ensures
      var all := [Handler(5, [30], []), Handler(7, [10, 20], [])];
      && Does(Perform(7, 0, []), all, bump, None) == Done(all, [], [Called(10)], false)
      && Does(Perform(7, 1, []), all, bump, None) == Done(all, [], [Called(20)], false)
      && Does(Perform(5, 0, []), all, bump, None) == Done(all, [], [Called(30)], false)
      && Does(Perform(9, 0, []), all, bump, None) == Trapped
  {
    var one, two := Handler(5, [30], []), Handler(7, [10, 20], []);
    assert [one] + [two] + [] == [one, two] && [] + [one] + [two] == [one, two];
    PerformsItsOwn([one], two, [], 0, bump, None);
    PerformsItsOwn([one], two, [], 1, bump, None);
    PerformsItsOwn([], one, [two], 0, bump, None);
    assert [one, two][1..] == [two] && [two][1..] == [];
  }

  /** What an operation writes to its handler's state is what it then reads, there and nowhere else. */
  lemma WrittenIsSeen(handlers: seq<Handler>, me: Option<nat>, field: nat, word: i64, other: nat, bump: nat)
    requires Mine(handlers, me, field) && Mine(handlers, me, other)
    ensures
      var j := |handlers| - 1 - me.value;
      var now := Does(Write(field, word), handlers, bump, me);
      && now.Done? && now.made == [] && now.events == [] && !now.returned
      && |now.handlers| == |handlers|
      && Does(Read(other), now.handlers, bump, me)
           == Done(now.handlers, [], [Saw(if other == field then word else handlers[j].state[other])], false)
      && forall i | 0 <= i < |handlers| && i != j :: now.handlers[i] == handlers[i]
  {
  }

  /** A word one operation leaves in its handler's state is there for the next operation performed. */
  lemma StateLasts(over: seq<Handler>, handler: Handler, under: seq<Handler>, i: nat, k: nat, field: nat, word: i64, bump: nat, me: Option<nat>)
    requires forall j | 0 <= j < |over| :: over[j].effect != handler.effect
    requires i < |handler.codes| && k < |handler.codes| && field < |handler.state|
    ensures
      var now := handler.(state := handler.state[field := word]);
      Meant([Perform(handler.effect, i, [Write(field, word)]), Perform(handler.effect, k, [Read(field)])], over + [handler] + under, bump, me)
        == Done(over + [now] + under, [], [Called(handler.codes[i]), Called(handler.codes[k]), Saw(word)], false)
  {
    hide Does, Meant, Innermost;
    var now := handler.(state := handler.state[field := word]);
    var one, two := Perform(handler.effect, i, [Write(field, word)]), Perform(handler.effect, k, [Read(field)]);
    PerformWrites(over, handler, under, i, field, word, bump, me);
    PerformReads(over, now, under, k, field, bump, me);
    OneAct(two, over + [now] + under, bump, me);
    TwoActs(one, two, over + [handler] + under, bump, me);
  }

  lemma PerformWrites(over: seq<Handler>, handler: Handler, under: seq<Handler>, k: nat, field: nat, word: i64, bump: nat, me: Option<nat>)
    requires forall j | 0 <= j < |over| :: over[j].effect != handler.effect
    requires k < |handler.codes| && field < |handler.state|
    ensures
      Does(Perform(handler.effect, k, [Write(field, word)]), over + [handler] + under, bump, me)
        == Done(over + [handler.(state := handler.state[field := word])] + under, [], [Called(handler.codes[k])], false)
  {
    var all, now := over + [handler] + under, handler.(state := handler.state[field := word]);
    FoundUnder(over, handler, under);
    assert all[|over| := now] == over + [now] + under && all[|over|] == handler;
    OneAct(Write(field, word), all, bump, Some(|under|));
  }

  lemma PerformReads(over: seq<Handler>, handler: Handler, under: seq<Handler>, k: nat, field: nat, bump: nat, me: Option<nat>)
    requires forall j | 0 <= j < |over| :: over[j].effect != handler.effect
    requires k < |handler.codes| && field < |handler.state|
    ensures
      Does(Perform(handler.effect, k, [Read(field)]), over + [handler] + under, bump, me)
        == Done(over + [handler] + under, [], [Called(handler.codes[k]), Saw(handler.state[field])], false)
  {
    var all := over + [handler] + under;
    FoundUnder(over, handler, under);
    assert all[|over|] == handler;
    OneAct(Read(field), all, bump, Some(|under|));
  }

  lemma OneAct(act: Act, handlers: seq<Handler>, bump: nat, me: Option<nat>)
    requires Does(act, handlers, bump, me).Done?
    ensures Meant([act], handlers, bump, me) == Does(act, handlers, bump, me)
  {
    assert [act][1..] == [];
    var first := Does(act, handlers, bump, me);
    assert Meant([], first.handlers, bump + 8 * |first.made|, me) == Done(first.handlers, [], [], false);
    assert first.made + [] == first.made && first.events + [] == first.events;
  }

  lemma TwoActs(one: Act, two: Act, handlers: seq<Handler>, bump: nat, me: Option<nat>)
    requires Does(one, handlers, bump, me).Done? && !Does(one, handlers, bump, me).returned
    ensures
      var first := Does(one, handlers, bump, me);
      Meant([one, two], handlers, bump, me) == After(first.made, first.events, Meant([two], first.handlers, bump + 8 * |first.made|, me))
  {
    hide Does;
    assert [one, two][1..] == [two];
  }

  // -- answers from the host -------------------------------------------------

  /** The same run as it is meant: an answer from the host is an answer, and the function goes on. */
  function Mended(acts: seq<Act>): (r: seq<Act>)
    ensures |r| == |acts|
    decreases acts, 0
  {
    if acts == [] then [] else [MendedAct(acts[0])] + Mended(acts[1..])
  }

  function MendedAct(act: Act): Act
    decreases act, 1
  {
    match act
    case With(handler, body) => With(handler, Mended(body))
    case Perform(effect, operation, answer) => Perform(effect, operation, Mended(answer))
    case Ask(effect, offered, _) => Ask(effect, offered, false)
    case Enter(body) => Enter(Mended(body))
    case _ => act
  }

  /** Nothing ends a function by asking the host, but in functions called from here, last. */
  predicate Quiet(acts: seq<Act>)
    decreases acts, 0
  {
    acts == [] || (ActQuiet(acts[0]) && Quiet(acts[1..]))
  }

  predicate ActQuiet(act: Act)
    decreases act, 1
  {
    match act
    case With(_, body) => Quiet(body)
    case Perform(_, _, answer) => AsksLast(answer)
    case Ask(_, _, ends) => !ends
    case Enter(body) => AsksLast(body)
    case _ => true
  }

  /** Whatever the host answers is asked for last, outside every block, in each function. */
  predicate AsksLast(acts: seq<Act>)
    decreases acts, 0
  {
    acts == [] || (|acts| == 1 && acts[0].Ask?) || (ActQuiet(acts[0]) && AsksLast(acts[1..]))
  }

  lemma {:induction false} QuietAsMeant(acts: seq<Act>, handlers: seq<Handler>, bump: nat, me: Option<nat>)
    requires Quiet(acts)
    ensures Meant(Mended(acts), handlers, bump, me) == Meant(acts, handlers, bump, me)
    decreases acts, 0
  {
    if acts != [] {
      hide Does, ActQuiet, MendedAct;
      ActAsMeant(acts[0], handlers, bump, me);
      MendedRest(acts);
      var first := Does(acts[0], handlers, bump, me);
      if first.Done? && !first.returned {
        QuietAsMeant(acts[1..], first.handlers, bump + 8 * |first.made|, me);
      }
    }
  }

  lemma MendedRest(acts: seq<Act>)
    requires acts != []
    ensures Mended(acts)[0] == MendedAct(acts[0]) && Mended(acts)[1..] == Mended(acts[1..])
  {
  }

  lemma {:induction false} ActAsMeant(act: Act, handlers: seq<Handler>, bump: nat, me: Option<nat>)
    requires ActQuiet(act)
    ensures Does(MendedAct(act), handlers, bump, me) == Does(act, handlers, bump, me)
    decreases act, 1
  {
    hide Meant, Mended;
    match act
    case With(handler, body) => QuietAsMeant(body, [handler] + handlers, bump, me);
    case Perform(effect, operation, answer) =>
      var found := Innermost(handlers, effect);
      if found.Some? {
        LastAsMeant(answer, handlers, bump, Some(|handlers| - 1 - found.value));
      }
    case Enter(body) => LastAsMeant(body, handlers, bump, None);
    case _ =>
  }

  /** A function that asks the host only as the last thing it does comes to what it is meant to. */
  lemma {:induction false} LastAsMeant(acts: seq<Act>, handlers: seq<Handler>, bump: nat, me: Option<nat>)
    requires AsksLast(acts)
    ensures Answered(Meant(Mended(acts), handlers, bump, me)) == Answered(Meant(acts, handlers, bump, me))
    decreases acts, 0
  {
    hide Does, ActQuiet, MendedAct, Mended, Meant;
    if |acts| == 1 && acts[0].Ask? {
      AskedAlone(acts[0], handlers, bump, me);
      MendedOne(acts);
    } else if acts != [] {
      MendedRest(acts);
      ActAsMeant(acts[0], handlers, bump, me);
      var first := Does(acts[0], handlers, bump, me);
      if first.Done? && !first.returned {
        LastAsMeant(acts[1..], first.handlers, bump + 8 * |first.made|, me);
      }
      FirstThenRest(acts, handlers, bump, me);
      FirstThenRest(Mended(acts), handlers, bump, me);
    } else {
      MendedNone();
    }
  }

  lemma MendedOne(acts: seq<Act>)
    requires |acts| == 1
    ensures acts == [acts[0]] && Mended(acts) == [MendedAct(acts[0])]
  {
  }

  lemma MendedNone()
    ensures Mended([]) == []
  {
  }

  lemma FirstThenRest(acts: seq<Act>, handlers: seq<Handler>, bump: nat, me: Option<nat>)
    requires acts != []
    ensures
      var first := Does(acts[0], handlers, bump, me);
      Meant(acts, handlers, bump, me) ==
        if first.Done? && !first.returned then
          After(first.made, first.events, Meant(acts[1..], first.handlers, bump + 8 * |first.made|, me))
        else first
  {
    hide Does;
  }

  lemma AskedAlone(act: Act, handlers: seq<Handler>, bump: nat, me: Option<nat>)
    requires act.Ask?
    ensures Answered(Meant([MendedAct(act)], handlers, bump, me)) == Answered(Meant([act], handlers, bump, me))
  {
    var mended := MendedAct(act);
    assert [act][1..] == [] && [mended][1..] == [];
    assert Meant([], handlers, bump + 0, me) == Done(handlers, [], [], false);
    assert Does(mended, handlers, bump, me) == Answered(Does(act, handlers, bump, me));
  }

  /**
   * A function that goes on after asking the host does not: the rest of it is left out, which
   * shows exactly when the rest would have made, seen or changed anything, or trapped.
   */
  lemma AskEnds(effect: i64, offered: i64, rest: seq<Act>, handlers: seq<Handler>, bump: nat, me: Option<nat>)
    requires Innermost(handlers, effect).None?
    ensures
      var acts := [Ask(effect, offered, true)] + rest;
      (Answered(Meant(acts, handlers, bump, me)) == Answered(Meant(Mended(acts), handlers, bump, me))) <==>
      (Answered(Meant(Mended(rest), handlers, bump, me)) == Done(handlers, [], [], false))
  {
    var acts := [Ask(effect, offered, true)] + rest;
    assert acts[1..] == rest;
    MendedRest(acts);
    assert Meant(acts, handlers, bump, me) == Done(handlers, [], [Asked(offered)], true);
    var more := Meant(Mended(rest), handlers, bump, me);
    assert Meant(Mended(acts), handlers, bump, me) == After([], [Asked(offered)], more);
    if more.Done? && [Asked(offered)] + more.events == [Asked(offered)] {
      assert |more.events| == 0;
    }
  }

  /** Asking the host and then making a value: the value is not made. */
  lemma AskThenMake(effect: i64, offered: i64, word: i64, bump: nat)
    requires bump + 8 <= Heap.CEILING
    ensures
      var acts := [Ask(effect, offered, true), Make([word])];
      && Answered(Meant(acts, [], bump, None)) == Done([], [], [Asked(offered)], false)
      && Answered(Meant(Mended(acts), [], bump, None)) == Done([], [word], [Asked(offered)], false)
  {
    var rest := [Make([word])];
    var acts := [Ask(effect, offered, true)] + rest;
    assert acts == [Ask(effect, offered, true), Make([word])] && acts[1..] == rest;
    MendedRest(acts);
    MendedRest(rest);
    assert Mended(rest) == rest && rest[1..] == [];
    assert Meant([], [], bump + 8, None) == Done([], [], [], false);
    assert Does(Make([word]), [], bump, None) == Done([], [word], [], false);
    assert Meant(rest, [], bump, None) == Done([], [word], [], false);
    assert Meant(acts, [], bump, None) == Done([], [], [Asked(offered)], true);
    assert Meant(Mended(acts), [], bump, None) == After([], [Asked(offered)], Meant(rest, [], bump, None));
  }
}
