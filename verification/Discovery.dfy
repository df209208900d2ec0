// Neighbour reconciliation: one poll folds a snapshot into a bounded table of retained neighbours
// and logs joins and leaves.

module Discovery {
  import opened Statuses
  import opened Neighbors
  import opened Options
  import Providers
  import opened Slices

  const MAX_NEIGHBORS := 256
  const MISSING_POLLS_BEFORE_LEFT := 3

  datatype EventType = Joined | Left
  datatype Event = Event(kind: EventType, neighbor: Neighbor)

  // The installed providers.
  datatype Sources = Sources(snapshot: Option<Providers.Provider>, localNetworks: Option<Providers.Provider>)

  const NO_SOURCES := Sources(None, None)

  // What the snapshot provider returned.
  datatype Snapshot = Failed(status: Status) | Taken(items: seq<Neighbor>)

  // The retained baseline as a value: parallel lists, one position per slot.
  datatype Table = Table(known: seq<Neighbor>, missing: seq<nat>, hasBaseline: bool)

  const EMPTY := Table([], [], false)

  // The table in the middle of a poll. The first |seen| slots are the ones retained before it.
  datatype Pass = Pass(known: seq<Neighbor>, missing: seq<nat>, seen: seq<bool>, log: seq<Event>)

  ghost predicate CountersInRange(missing: seq<nat>) {
    forall k | 0 <= k < |missing| :: missing[k] < MISSING_POLLS_BEFORE_LEFT
  }

  ghost predicate WellFormed(t: Table) {
    |t.known| == |t.missing| <= MAX_NEIGHBORS && CountersInRange(t.missing)
  }

  ghost predicate PassOk(p: Pass) {
    |p.seen| <= |p.known| == |p.missing| <= MAX_NEIGHBORS
  }

  // ----- what one poll means -----

  // The first slot from index i on that matches an item.
  function FindKnownFrom(known: seq<Neighbor>, item: Neighbor, i: nat): (idx: int)
    requires i <= |known|
    ensures idx == -1 || i <= idx < |known|
    ensures idx >= 0 ==> Matches(known[idx], item)
    ensures forall j | i <= j < (if idx < 0 then |known| else idx) :: !Matches(known[j], item)
    decreases |known| - i
  {
    if i == |known| then -1 else if Matches(known[i], item) then i else FindKnownFrom(known, item, i + 1)
  }

  function FindKnown(known: seq<Neighbor>, item: Neighbor): (idx: int)
    ensures -1 <= idx < |known|
    ensures idx >= 0 ==> Matches(known[idx], item)
    ensures forall j | 0 <= j < (if idx < 0 then |known| else idx) :: !Matches(known[j], item)
  {
    FindKnownFrom(known, item, 0)
  }

  function StartPass(t: Table): Pass {
    Pass(t.known, t.missing, seq(|t.known|, _ => false), [])
  }

  // Folds one reported neighbour in. A join of a slot that was inactive reports the item as the
  // provider gave it; a join of a new device reports it already marked active.
  function Absorb(p: Pass, item: Neighbor, baseline: bool): (r: Pass)
    requires PassOk(p)
    ensures PassOk(r) && |r.seen| == |p.seen| && |p.known| <= |r.known|
  {
    var retained := |p.seen|;
    var idx := FindKnown(p.known[..retained], item);
    var present := item.(active := true);
    if idx >= 0 then
      Pass(p.known[idx := present], p.missing[idx := 0], p.seen[idx := true],
           p.log + if baseline && !p.known[idx].active then [Event(Joined, item)] else [])
    else
      var log := p.log + if baseline then [Event(Joined, present)] else [];
      if |p.known| < MAX_NEIGHBORS then
        Pass(p.known + [present], p.missing + [0], p.seen, log)
      else
        Pass(p.known, p.missing, p.seen, log)
  }

  function AbsorbAll(p: Pass, items: seq<Neighbor>, baseline: bool): (r: Pass)
    requires PassOk(p)
    ensures PassOk(r) && |r.seen| == |p.seen| && |p.known| <= |r.known|
  {
    if items == [] then p
    else Absorb(AbsorbAll(p, items[..|items| - 1], baseline), items[|items| - 1], baseline)
  }

  predicate Expires(missing: nat) {
    missing + 1 >= MISSING_POLLS_BEFORE_LEFT
  }

  function SweptNeighbor(p: Pass, k: nat): Neighbor
    requires PassOk(p) && k < |p.known|
  {
    if k < |p.seen| && !p.seen[k] && Expires(p.missing[k]) then p.known[k].(active := false)
    else p.known[k]
  }

  function SweptMissing(p: Pass, k: nat): nat
    requires PassOk(p) && k < |p.known|
  {
    if k >= |p.seen| || p.seen[k] then 0
    else if Expires(p.missing[k]) then p.missing[k]
    else p.missing[k] + 1
  }

  function LeftLog(p: Pass, upTo: nat, baseline: bool): seq<Event>
    requires PassOk(p) && upTo <= |p.seen|
  {
    if upTo == 0 then []
    else
      var k := upTo - 1;
      LeftLog(p, k, baseline) +
      if !p.seen[k] && Expires(p.missing[k]) && p.known[k].active && baseline
      then [Event(Left, p.known[k])] else []
  }

  function Reported(t: Table, items: seq<Neighbor>): (p: Pass)
    requires WellFormed(t)
    ensures PassOk(p) && |p.seen| == |t.known| <= |p.known|
  {
    AbsorbAll(StartPass(t), items, t.hasBaseline)
  }

  function Swept(p: Pass): (r: Table)
    requires PassOk(p)
    ensures |r.known| == |r.missing| == |p.known|
  {
    Table(seq(|p.known|, k requires 0 <= k < |p.known| => SweptNeighbor(p, k)),
          seq(|p.known|, k requires 0 <= k < |p.known| => SweptMissing(p, k)),
          true)
  }

  function PollTable(t: Table, items: seq<Neighbor>): (r: Table)
    requires WellFormed(t)
  {
    Swept(Reported(t, items))
  }

  // Every event of one poll, before it is cut to the caller's buffer.
  function PollLog(t: Table, items: seq<Neighbor>): seq<Event>
    requires WellFormed(t)
  {
    var p := Reported(t, items);
    p.log + LeftLog(p, |p.seen|, t.hasBaseline)
  }

  lemma {:induction false} FirstMatchIsFound(known: seq<Neighbor>, k: nat, item: Neighbor)
    requires k < |known| && Matches(known[k], item)
    requires forall j | 0 <= j < k :: !Matches(known[j], item)
    ensures FindKnown(known, item) == k
  {
  }

  // ----- the poll as the program runs it -----

  class Monitor {
    var sources: Sources
    const known: array<Neighbor>
    const missing: array<nat>
    var knownCount: nat
    var hasBaseline: bool

    ghost predicate Valid()
      reads this, known, missing
    {
      && known.Length == missing.Length == MAX_NEIGHBORS
      && known as object != missing
      && knownCount <= MAX_NEIGHBORS
      && WellFormed(View())
    }

    ghost function View(): Table
      reads this, known, missing
      requires known.Length == missing.Length == MAX_NEIGHBORS && knownCount <= MAX_NEIGHBORS
    {
      Table(known[..knownCount], missing[..knownCount], hasBaseline)
    }

    constructor ()
      ensures Valid() && View() == EMPTY && sources == NO_SOURCES
      ensures fresh(known) && fresh(missing)
    {
      sources, knownCount, hasBaseline := NO_SOURCES, 0, false;
      known := new Neighbor[MAX_NEIGHBORS](_ => BLANK);
      missing := new nat[MAX_NEIGHBORS](_ => 0);
    }

    // Installs the providers that are given and keeps the others.
    method SetSources(given: Sources)
      requires Valid()
      modifies this`sources
      ensures Valid() && View() == old(View())
      ensures sources.snapshot == if given.snapshot.Some? then given.snapshot else old(sources).snapshot
      ensures sources.localNetworks
           == if given.localNetworks.Some? then given.localNetworks else old(sources).localNetworks
    {
      if given.snapshot.Some? { sources := sources.(snapshot := given.snapshot); }
      if given.localNetworks.Some? { sources := sources.(localNetworks := given.localNetworks); }
    }

    method FindKnownIndex(count: nat, item: Neighbor) returns (idx: int)
      requires Valid() && count <= knownCount
      ensures idx == FindKnown(known[..count], item)
    {
      idx := -1;
      var i := 0;
      while i < count
        invariant 0 <= i <= count && FindKnown(known[..count], item) == FindKnownFrom(known[..count], item, i)
      {
        if Matches(known[i], item) { return i; }
        i := i + 1;
      }
    }

    // Writes one event unless the caller's buffer is full.
    static method Emit(events: array<Event>, emitted: nat, maxEvents: nat, e: Event, ghost log: seq<Event>)
      returns (count: nat)
      requires emitted <= maxEvents <= events.Length && events[..emitted] == FirstN(log, maxEvents)
      modifies events
      ensures emitted <= count <= maxEvents && events[..count] == FirstN(log + [e], maxEvents)
    {
      count := emitted;
      if count < maxEvents {
        events[count] := e;
        count := count + 1;
      }
    }

    // Overwrites a matched slot with what was reported for it.
    method Refresh(idx: nat, present: Neighbor, seen: array<bool>)
      requires Valid() && idx < seen.Length <= knownCount
      requires seen as object != known && seen as object != missing
      modifies known, missing, seen
      ensures Valid()
      ensures View() == old(View()).(known := old(View()).known[idx := present],
                                     missing := old(View()).missing[idx := 0])
      ensures seen[..] == old(seen[..])[idx := true]
    {
      seen[idx] := true;
      missing[idx] := 0;
      known[idx] := present;
    }

    // Appends an unmatched neighbour while there is room.
    method Append(present: Neighbor)
      requires Valid()
      modifies this, known, missing
      ensures Valid() && sources == old(sources)
      ensures View() == if old(knownCount) == MAX_NEIGHBORS then old(View())
                        else old(View()).(known := old(View()).known + [present],
                                          missing := old(View()).missing + [0])
    {
      if knownCount < MAX_NEIGHBORS {
        known[knownCount] := present;
        knownCount := knownCount + 1;
        missing[knownCount - 1] := 0;
      }
    }

    // Where a pass stands: the arrays hold its table and marks, the buffer the first of its events.
    ghost predicate Shows(p: Pass, seen: array<bool>, events: array<Event>, maxEvents: nat, emitted: nat)
      reads this, known, missing, seen, events
      requires Valid() && emitted <= maxEvents <= events.Length
    {
      && p == Pass(View().known, View().missing, seen[..], p.log)
      && events[..emitted] == FirstN(p.log, maxEvents)
    }

    // One turn of the first loop: matches a reported neighbour against the retained slots.
    method AbsorbOne(item: Neighbor, seen: array<bool>, events: array<Event>, maxEvents: nat, emitted: nat,
                     ghost p: Pass)
      returns (count: nat)
      requires Valid() && seen.Length <= knownCount && emitted <= maxEvents <= events.Length
      requires seen as object != known && seen as object != missing
      requires events as object != known && events as object != missing && events as object != seen
      requires Shows(p, seen, events, maxEvents, emitted)
      modifies this, known, missing, seen, events
      ensures Valid() && sources == old(sources) && hasBaseline == old(hasBaseline)
      ensures count <= maxEvents && seen.Length <= knownCount
      ensures Shows(Absorb(p, item, hasBaseline), seen, events, maxEvents, count)
    {
      assert known[..seen.Length] == p.known[..seen.Length];
      var idx := FindKnownIndex(seen.Length, item);
      var present := item.(active := true);
      count := emitted;
      if idx >= 0 {
        if hasBaseline && !known[idx].active {
          count := Emit(events, count, maxEvents, Event(Joined, item), p.log);
        } else {
          assert p.log + [] == p.log;
        }
        Refresh(idx, present, seen);
      } else {
        if hasBaseline {
          count := Emit(events, count, maxEvents, Event(Joined, present), p.log);
        } else {
          assert p.log + [] == p.log;
        }
        Append(present);
      }
    }

    // First loop: every reported neighbour in turn.
    method AbsorbReported(items: seq<Neighbor>, seen: array<bool>, events: array<Event>, maxEvents: nat)
      returns (emitted: nat)
      requires Valid() && seen.Length == knownCount && maxEvents <= events.Length
      requires forall k | 0 <= k < seen.Length :: !seen[k]
      requires seen as object != known && seen as object != missing
      requires events as object != known && events as object != missing && events as object != seen
      modifies this, known, missing, seen, events
      ensures Valid() && sources == old(sources) && hasBaseline == old(hasBaseline)
      ensures seen.Length <= knownCount && emitted <= maxEvents
      ensures var p := Reported(old(View()), items);
              && p == Pass(View().known, View().missing, seen[..], p.log)
              && events[..emitted] == FirstN(p.log, maxEvents)
    {
      ghost var start := StartPass(View());
      assert seen[..] == start.seen;
      ghost var p := start;
      emitted := 0;
      var i := 0;
      while i < |items|
        invariant 0 <= i <= |items| && emitted <= maxEvents
        invariant Valid() && sources == old(sources) && hasBaseline == old(hasBaseline)
        invariant seen.Length <= knownCount
        invariant PassOk(start) && p == AbsorbAll(start, items[..i], hasBaseline)
        invariant Shows(p, seen, events, maxEvents, emitted)
      {
        assert items[..i + 1][..i] == items[..i];
        emitted := AbsorbOne(items[i], seen, events, maxEvents, emitted, p);
        p := Absorb(p, items[i], hasBaseline);
        i := i + 1;
      }
      assert items[..i] == items;
    }

    // One turn of the second loop: ages or expires slot i and writes it at index w.
    method SweepOne(i: nat, w: nat, seen: array<bool>, events: array<Event>, maxEvents: nat, emitted: nat,
                    ghost p: Pass)
      returns (count: nat)
      requires PassOk(p) && w == i < seen.Length == |p.seen| && seen[i] == p.seen[i]
      requires known.Length == missing.Length == MAX_NEIGHBORS && known as object != missing
      requires seen as object != known && seen as object != missing
      requires events as object != known && events as object != missing && events as object != seen
      requires known[i] == p.known[i] && missing[i] == p.missing[i]
      requires emitted <= maxEvents <= events.Length
      requires events[..emitted] == FirstN(p.log + LeftLog(p, i, hasBaseline), maxEvents)
      modifies known, missing, events
      ensures count <= maxEvents
      ensures known[i] == SweptNeighbor(p, i) && missing[i] == SweptMissing(p, i)
      ensures forall k | 0 <= k < MAX_NEIGHBORS && k != i ::
                known[k] == old(known[k]) && missing[k] == old(missing[k])
      ensures events[..count] == FirstN(p.log + LeftLog(p, i + 1, hasBaseline), maxEvents)
    {
      ghost var log := p.log + LeftLog(p, i, hasBaseline);
      count := emitted;
      var leaves := !seen[i] && missing[i] + 1 >= MISSING_POLLS_BEFORE_LEFT && known[i].active && hasBaseline;
      if leaves {
        count := Emit(events, count, maxEvents, Event(Left, known[i]), log);
        assert log + [Event(Left, known[i])] == p.log + LeftLog(p, i + 1, hasBaseline);
      } else {
        assert log == p.log + LeftLog(p, i + 1, hasBaseline);
      }
      if seen[i] {
        known[w] := known[i];
        missing[w] := 0;
      } else if missing[i] + 1 < MISSING_POLLS_BEFORE_LEFT {
        known[w] := known[i];
        missing[w] := missing[i] + 1;
      } else {
        known[i] := known[i].(active := false);
        known[w] := known[i];
        missing[w] := missing[i];
      }
    }

    // Second loop: compacts the retained slots in place.
    method CompactRetained(seen: array<bool>, events: array<Event>, maxEvents: nat, start: nat, ghost p: Pass)
      returns (write: nat, emitted: nat)
      requires Valid() && PassOk(p) && seen.Length <= knownCount
      requires p == Pass(View().known, View().missing, seen[..], p.log)
      requires seen as object != known && seen as object != missing
      requires events as object != known && events as object != missing && events as object != seen
      requires start <= maxEvents <= events.Length && events[..start] == FirstN(p.log, maxEvents)
      modifies known, missing, events
      ensures write == seen.Length && emitted <= maxEvents
      ensures forall k | 0 <= k < write :: known[k] == SweptNeighbor(p, k) && missing[k] == SweptMissing(p, k)
      ensures forall k | write <= k < knownCount :: known[k] == p.known[k] && missing[k] == p.missing[k]
      ensures events[..emitted] == FirstN(p.log + LeftLog(p, |p.seen|, hasBaseline), maxEvents)
    {
      emitted := start;
      assert p.log + [] == p.log;
      write := 0;
      var i := 0;
      while i < seen.Length
        invariant 0 <= write == i <= seen.Length && emitted <= maxEvents
        invariant forall k | 0 <= k < i :: known[k] == SweptNeighbor(p, k) && missing[k] == SweptMissing(p, k)
        invariant forall k | i <= k < |p.known| :: known[k] == p.known[k] && missing[k] == p.missing[k]
        invariant events[..emitted] == FirstN(p.log + LeftLog(p, i, hasBaseline), maxEvents)
      {
        emitted := SweepOne(i, write, seen, events, maxEvents, emitted, p);
        write := write + 1;
        i := i + 1;
      }
    }

    // Third loop: slides the slots appended this poll down to follow the compacted ones.
    method SlideAppended(first: nat, start: nat, ghost p: Pass) returns (write: nat)
      requires known.Length == missing.Length == MAX_NEIGHBORS && known as object != missing
      requires PassOk(p) && knownCount == |p.known| && first == start == |p.seen|
      requires forall k | 0 <= k < start :: known[k] == SweptNeighbor(p, k) && missing[k] == SweptMissing(p, k)
      requires forall k | start <= k < knownCount :: known[k] == p.known[k] && missing[k] == p.missing[k]
      modifies known, missing
      ensures write == |p.known|
      ensures known[..write] == Swept(p).known && missing[..write] == Swept(p).missing
    {
      write := start;
      var i := first;
      while i < knownCount
        invariant |p.seen| <= write == i <= knownCount
        invariant forall k | 0 <= k < i :: known[k] == SweptNeighbor(p, k) && missing[k] == SweptMissing(p, k)
        invariant forall k | i <= k < knownCount :: known[k] == p.known[k] && missing[k] == p.missing[k]
      {
        known[write] := known[i];
        write := write + 1;
        missing[write - 1] := 0;
        i := i + 1;
      }
    }

    method Reconcile(items: seq<Neighbor>, events: array<Event>, maxEvents: nat) returns (emitted: nat)
      requires Valid() && maxEvents <= events.Length
      requires events as object != known && events as object != missing
      modifies this, known, missing, events
      ensures Valid() && sources == old(sources)
      ensures View() == PollTable(old(View()), items)
      ensures emitted <= maxEvents && events[..emitted] == FirstN(PollLog(old(View()), items), maxEvents)
    {
      ghost var before := View();
      var seen := new bool[knownCount](_ => false);
      emitted := AbsorbReported(items, seen, events, maxEvents);
      ghost var p := Reported(before, items);
      var write;
      write, emitted := CompactRetained(seen, events, maxEvents, emitted, p);
      knownCount := SlideAppended(seen.Length, write, p);
      hasBaseline := true;
      assert View() == PollTable(before, items);
      PollKeepsWellFormed(before, items);
    }

    // Reconciles one provider outcome with the baseline. A missing buffer or provider and a failed
    // snapshot leave the table alone and report no event.
    method Poll(snapshot: Snapshot, events: array?<Event>, maxEvents: nat) returns (status: Status, eventCount: nat)
      requires Valid() && (events != null ==> maxEvents <= events.Length)
      requires events as object? != known && events as object? != missing
      requires snapshot.Failed? ==> snapshot.status != Ok
      modifies this, known, missing, events
      ensures Valid() && sources == old(sources)
      ensures status == (if events == null then InvalidArg else if old(sources).snapshot.None? then Unsupported
                         else if snapshot.Failed? then snapshot.status else Ok)
      ensures status != Ok ==> View() == old(View()) && eventCount == 0
      ensures status == Ok ==>
                && View() == PollTable(old(View()), snapshot.items)
                && eventCount <= maxEvents
                && events[..eventCount] == FirstN(PollLog(old(View()), snapshot.items), maxEvents)
    {
      eventCount := 0;
      if events == null { return InvalidArg, 0; }
      if sources.snapshot.None? { return Unsupported, 0; }
      if snapshot.Failed? { return snapshot.status, 0; }
      eventCount := Reconcile(snapshot.items, events, maxEvents);
      status := Ok;
    }
  }

  lemma {:induction false} AbsorbKeepsMissing(p: Pass, item: Neighbor, baseline: bool)
    requires PassOk(p) && CountersInRange(p.missing)
    ensures CountersInRange(Absorb(p, item, baseline).missing)
  {
  }

  lemma {:induction false} AbsorbAllKeepsMissing(p: Pass, items: seq<Neighbor>, baseline: bool)
    requires PassOk(p) && CountersInRange(p.missing)
    ensures CountersInRange(AbsorbAll(p, items, baseline).missing)
  {
    if items != [] {
      var rest := items[..|items| - 1];
      AbsorbAllKeepsMissing(p, rest, baseline);
      AbsorbKeepsMissing(AbsorbAll(p, rest, baseline), items[|items| - 1], baseline);
    }
  }

  lemma {:induction false} PollKeepsWellFormed(t: Table, items: seq<Neighbor>)
    requires WellFormed(t)
    ensures WellFormed(PollTable(t, items))
  {
    var p := StartPass(t);
    AbsorbAllKeepsMissing(p, items, t.hasBaseline);
    assert Reported(t, items) == AbsorbAll(p, items, t.hasBaseline);
  }
}
