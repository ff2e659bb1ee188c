/** The allocator a component offers its caller, and whole runs of what it hands out. */
module Boundary {
  import opened Ints
  import opened Wasm
  import opened Types
  import opened Compile
  import opened Heap
  import opened Texts
  import opened Frames
  import opened Appending
  import L = Layout

  // -- room for a caller -----------------------------------------------------

  /** How much of what was there survives a move: none of nothing, and no more than either size. */
  function Surviving(original: nat, held: i32, wanted: i32): nat {
    if original == 0 || held < 0 || wanted < 0 then 0 else if held > wanted then wanted else held
  }

  /**
   * An allocator for a caller: room for what it wants, on a word, with the start of what was
   * there copied over. An alignment past a word stops it, and so does running out of memory.
   * A size of 2^31 or more is below zero here, and moves the bump pointer back over what was
   * handed out before.
   */
  method Reallocate(m: Machine, original: nat, held: i32, align: i32, wanted: i32) returns (r: Option<nat>)
    requires Orderly(m.memory)
    requires original == 0 || 8 <= original
    requires original + Surviving(original, held, wanted) <= BumpOf(m.memory)
    modifies m
    ensures r.Some? <==> align <= 8 && BumpOf(old(m.memory)) + WordRoom(wanted) <= CEILING
    ensures r.Some? ==> r.value == BumpOf(old(m.memory)) && r.value % 8 == 0
    ensures r.Some? && wanted < 0 ==>
              && Moved(old(m.memory), m.memory, WordRoom(wanted))
              && (BumpOf(m.memory) < r.value <==> wanted <= -8)
    ensures r.Some? && wanted >= 0 ==>
              var kept := Surviving(original, held, wanted);
              && Orderly(m.memory) && BumpOf(m.memory) == r.value + WordRoom(wanted)
              && m.memory[r.value..r.value + kept] == old(m.memory)[original..original + kept]
              && Extends(old(m.memory), m.memory)
  {
    hide WordAt, WordBytes, WordRoom;
    ghost var start := m.memory;
    if align > 8 {
      return None;
    }
    var kept := if original == 0 then 0 else held;
    r := m.Reserve(WordRoom(wanted));
    if r.None? {
      return;
    }
    if kept > wanted {
      kept := wanted;
    }
    ghost var reserved := m.memory;
    if wanted >= 0 {
      MovedOn(start, reserved, WordRoom(wanted));
    }
    if kept > 0 {
      CopyBytes(m, r.value, original, kept);
      Copied(start, reserved, m.memory, original, r.value, kept, WordRoom(wanted));
    }
  }

  /** Moving the bump pointer up keeps the heap in order, with everything from before. */
  lemma MovedOn(start: seq<byte>, reserved: seq<byte>, room: nat)
    requires Orderly(start) && Moved(start, reserved, room) && room % 8 == 0
    ensures Orderly(reserved) && Extends(start, reserved)
  {
    hide WordAt;
  }

  lemma Copied(start: seq<byte>, reserved: seq<byte>, after: seq<byte>, original: nat, out: nat, kept: nat, room: nat)
    requires Orderly(start) && Orderly(reserved) && Extends(start, reserved) && BumpOf(start) == out
    requires 0 < kept <= room && original + kept <= out && BumpOf(reserved) == out + room
    requires original + kept <= |reserved| && Put(reserved, after, out, reserved[original..original + kept])
    requires 8 <= original
    ensures Orderly(after) && Extends(start, after) && BumpOf(after) == out + room
    ensures original + kept <= |start| && after[out..out + kept] == start[original..original + kept]
  {
    hide WordAt;
    WordKept(reserved, after, L.BUMP);
    SliceStays(start, reserved, original, original + kept);
  }

  // -- whole runs of allocation ----------------------------------------------

  /** Room asked for by emitted code, in whole words, or by a caller moving what it was given before. */
  datatype Request = Ask(size: nat) | Move(which: nat, align: i32, wanted: nat)

  datatype Region = Region(at: nat, size: nat)

  predicate Proper(request: Request, before: nat) {
    match request
    case Ask(size) => size % 8 == 0 && size < 0x8000_0000
    case Move(which, _, wanted) => which < before && wanted < 0x8000_0000
  }

  /** Where everything goes, or that the run stops. */
  function Served(bump: nat, requests: seq<Request>): Option<seq<Region>>
    decreases |requests|
  {
    if requests == [] then Some([]) else
      var one := requests[0];
      var size := if one.Ask? then one.size else one.wanted;
      var end := bump + WordRoom(size);
      if end > CEILING || (one.Move? && one.align > 8) then None else
        match Served(end, requests[1..])
        case Some(rest) => Some([Region(bump, size)] + rest)
        case None => None
  }

  /** What a run of requests takes. */
  function Total(requests: seq<Request>): nat {
    if requests == [] then 0
    else WordRoom(if requests[0].Ask? then requests[0].size else requests[0].wanted) + Total(requests[1..])
  }

  /** Every request is served exactly when all of them together fit and none asks for more than a word's alignment. */
  lemma {:induction false} ServedWhen(bump: nat, requests: seq<Request>)
    requires bump <= CEILING
    ensures Served(bump, requests).Some? <==>
            bump + Total(requests) <= CEILING && forall k | 0 <= k < |requests| && requests[k].Move? :: requests[k].align <= 8
    decreases |requests|
  {
    hide WordRoom;
    if requests != [] {
      var one, rest := requests[0], requests[1..];
      var end := bump + WordRoom(if one.Ask? then one.size else one.wanted);
      assert forall k | 0 < k < |requests| :: requests[k] == rest[k - 1];
      if end <= CEILING {
        ServedWhen(end, rest);
      }
    }
  }

  /** Everything handed out starts on a word and ends before the next begins. */
  lemma {:induction false} ServedApart(bump: nat, requests: seq<Request>)
    requires bump % 8 == 0
    ensures var regions := Served(bump, requests); regions.Some? ==>
      && |regions.value| == |requests|
      && (forall i | 0 <= i < |regions.value| ::
            bump <= regions.value[i].at && regions.value[i].at % 8 == 0 && regions.value[i].at + regions.value[i].size <= CEILING)
      && forall i, j | 0 <= i < j < |regions.value| :: regions.value[i].at + regions.value[i].size <= regions.value[j].at
    decreases |requests|
  {
    hide WordRoom;
    if requests != [] {
      var one := requests[0];
      ServedApart(bump + WordRoom(if one.Ask? then one.size else one.wanted), requests[1..]);
    }
  }

  /** The start of what was in one region is in the other: as much of it as there was, or as fits. */
  ghost predicate Carried(memory: seq<byte>, earlier: Region, now: Region) {
    var kept := if earlier.size > now.size then now.size else earlier.size;
    && earlier.at + kept <= |memory| && now.at + kept <= |memory|
    && memory[now.at..now.at + kept] == memory[earlier.at..earlier.at + kept]
  }

  ghost predicate AllCarried(memory: seq<byte>, requests: seq<Request>, regions: seq<Region>) {
    && |regions| <= |requests|
    && forall k | 0 <= k < |regions| && requests[k].Move? ::
         requests[k].which < k && Carried(memory, regions[requests[k].which], regions[k])
  }

  /** Every region handed out so far is above the heap's start and below the bump pointer. */
  ghost predicate HandedOut(memory: seq<byte>, regions: seq<Region>) {
    && Orderly(memory)
    && forall k | 0 <= k < |regions| ::
         L.HEAP_START <= regions[k].at && regions[k].size < 0x8000_0000 && regions[k].at + regions[k].size <= BumpOf(memory)
  }

  lemma Inside(memory: seq<byte>, regions: seq<Region>, k: nat)
    requires HandedOut(memory, regions) && k < |regions|
    ensures |memory| >= 8 && 8 <= regions[k].at && regions[k].at + regions[k].size <= BumpOf(memory) <= |memory|
  {
    hide WordAt;
  }

  lemma HandedStays(before: seq<byte>, after: seq<byte>, regions: seq<Region>)
    requires HandedOut(before, regions) && Extends(before, after) && Orderly(after)
    ensures HandedOut(after, regions)
  {
    hide WordAt;
  }

  lemma CarriedStays(before: seq<byte>, after: seq<byte>, requests: seq<Request>, regions: seq<Region>)
    requires AllCarried(before, requests, regions) && HandedOut(before, regions) && Extends(before, after) && Orderly(after)
    ensures AllCarried(after, requests, regions) && HandedOut(after, regions)
  {
    hide WordAt, HandedOut, Extends, Orderly;
    HandedStays(before, after, regions);
    forall k | 0 <= k < |regions| && requests[k].Move?
      ensures Carried(after, regions[requests[k].which], regions[k])
    {
      var earlier, now := regions[requests[k].which], regions[k];
      var kept := if earlier.size > now.size then now.size else earlier.size;
      Inside(before, regions, k);
      Inside(before, regions, requests[k].which);
      SliceStays(before, after, earlier.at, earlier.at + kept);
      SliceStays(before, after, now.at, now.at + kept);
    }
  }

  /** One request: where the room is. */
  method Serve(m: Machine, request: Request, regions: seq<Region>) returns (r: Option<Region>)
    requires HandedOut(m.memory, regions) && Proper(request, |regions|)
    modifies m
    ensures
      var size := if request.Ask? then request.size else request.wanted;
      var end := BumpOf(old(m.memory)) + WordRoom(size);
      && (r.Some? <==> end <= CEILING && !(request.Move? && request.align > 8))
      && (r.Some? ==>
            && r.value == Region(BumpOf(old(m.memory)), size) && Orderly(m.memory) && BumpOf(m.memory) == end
            && Extends(old(m.memory), m.memory)
            && (request.Move? ==> Carried(m.memory, regions[request.which], r.value)))
  {
    hide WordAt;
    ghost var start := m.memory;
    match request
    case Ask(size) =>
      var at := m.Allocate(size);
      r := if at.Some? then Some(Region(at.value, size)) else None;
    case Move(which, align, wanted) =>
      var earlier := regions[which];
      var at := Reallocate(m, earlier.at, earlier.size, align, wanted);
      if at.None? {
        return None;
      }
      r := Some(Region(at.value, wanted));
      var kept := if earlier.size > wanted then wanted else earlier.size;
      SliceStays(start, m.memory, earlier.at, earlier.at + kept);
  }

  /** A whole run of requests: the regions there should be, each move having carried what it could, and nothing before touched. */
  method ServeAll(m: Machine, requests: seq<Request>) returns (r: Option<seq<Region>>)
    requires Orderly(m.memory) && forall k | 0 <= k < |requests| :: Proper(requests[k], k)
    modifies m
    ensures r == Served(BumpOf(old(m.memory)), requests)
    ensures r.Some? ==>
              && HandedOut(m.memory, r.value) && AllCarried(m.memory, requests, r.value) && Extends(old(m.memory), m.memory)
  {
    hide WordAt, Carried, Extends, HandedOut, AllCarried;
    ghost var start := m.memory;
    NothingServed(start, requests);
    var regions := [];
    var i := 0;
    while i < |requests|
      invariant i == |regions| <= |requests| && |m.memory| >= 8 && BumpOf(m.memory) >= 0
      invariant HandedOut(m.memory, regions) && AllCarried(m.memory, requests, regions) && Extends(start, m.memory)
      invariant Served(BumpOf(start), requests) == Joined(regions, Served(BumpOf(m.memory), requests[i..]))
    {
      ghost var before := m.memory;
      assert requests[i..][0] == requests[i] && requests[i..][1..] == requests[i + 1..];
      var one := Serve(m, requests[i], regions);
      if one.None? {
        return None;
      }
      OneMoreServed(start, before, m.memory, requests, regions, one.value);
      JoinedOneMore(regions, one.value, Served(BumpOf(m.memory), requests[i + 1..]));
      regions := regions + [one.value];
      i := i + 1;
    }
    assert regions + [] == regions;
    r := Some(regions);
  }

  function Joined(regions: seq<Region>, rest: Option<seq<Region>>): Option<seq<Region>> {
    match rest
    case Some(more) => Some(regions + more)
    case None => None
  }

  lemma JoinedOneMore(regions: seq<Region>, one: Region, rest: Option<seq<Region>>)
    ensures
      Joined(regions, match rest case Some(more) => Some([one] + more) case None => None) == Joined(regions + [one], rest)
  {
    if rest.Some? {
      assert regions + ([one] + rest.value) == regions + [one] + rest.value;
    }
  }

  lemma NothingServed(memory: seq<byte>, requests: seq<Request>)
    requires Orderly(memory)
    ensures HandedOut(memory, []) && AllCarried(memory, requests, []) && Extends(memory, memory)
    ensures Served(BumpOf(memory), requests) == Joined([], Served(BumpOf(memory), requests[0..]))
    ensures |memory| >= 8 && BumpOf(memory) >= 0
  {
    assert requests[0..] == requests;
    var regions := Served(BumpOf(memory), requests);
    assert regions.Some? ==> [] + regions.value == regions.value;
  }

  lemma OneMoreServed(
    start: seq<byte>, before: seq<byte>, after: seq<byte>, requests: seq<Request>, regions: seq<Region>, one: Region)
    requires HandedOut(before, regions) && AllCarried(before, requests, regions) && Extends(start, before)
    requires |regions| < |requests| && Proper(requests[|regions|], |regions|)
    requires Orderly(after) && Extends(before, after) && one.at == BumpOf(before) && one.at + one.size <= BumpOf(after)
    requires one.size < 0x8000_0000
    requires requests[|regions|].Move? ==> Carried(after, regions[requests[|regions|].which], one)
    ensures HandedOut(after, regions + [one]) && AllCarried(after, requests, regions + [one]) && Extends(start, after)
    ensures |after| >= 8 && BumpOf(after) >= 0
  {
    hide WordAt, Carried;
    ExtendsThen(start, before, after);
    CarriedStays(before, after, requests, regions);
  }
}
