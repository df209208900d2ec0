// Byte-rate sampling: per-interface counter baselines and a ring of recent samples.

module Sampler {
  import opened Options
  import Providers
  import opened Slices
  import opened Statuses
  import opened Words

  const MAX_TRACKED := 32
  const HISTORY_CAP := 300

  datatype Mode = Auto | Manual | All
  datatype Config = Config(mode: Mode, ifaceName: string, includeVirtual: bool)
  datatype Iface = Iface(name: string, rx: u64, tx: u64, loopback: bool, virtual: bool)
  datatype Target = Target(name: string, rx: u64, tx: u64, initialized: bool, seen: bool)
  datatype RateSample = RateSample(rx: nat, tx: nat, timestamp: u64)

  // The installed providers.
  datatype Sources = Sources(snapshot: Option<Providers.Provider>, route: Option<Providers.Provider>,
                             clock: Option<Providers.Provider>)

  const NO_SOURCES := Sources(None, None, None)

  // Only Auto mode needs to know the default route.
  predicate Wired(config: Config, s: Sources) {
    s.snapshot.Some? && s.clock.Some? && (config.mode.Auto? ==> s.route.Some?)
  }

  // What the three providers answer during one poll.
  datatype Ifaces = NoIfaces(status: Status) | Ifaces(list: seq<Iface>)
  datatype Default = NoDefault(status: Status) | Default(name: string)
  datatype Input = Input(ifaces: Ifaces, route: Default, clock: u64)

  ghost predicate Answers(input: Input) {
    && (input.ifaces.NoIfaces? ==> input.ifaces.status != Ok)
    && (input.route.NoDefault? ==> input.route.status != Ok)
  }

  // ----- what one poll means -----

  // The first target of a name from index i on.
  function FindTargetFrom(targets: seq<Target>, name: string, i: nat): (idx: int)
    requires i <= |targets|
    ensures idx == -1 || i <= idx < |targets|
    ensures idx >= 0 ==> targets[idx].name == name
    ensures forall j | i <= j < (if idx < 0 then |targets| else idx) :: targets[j].name != name
    decreases |targets| - i
  {
    if i == |targets| then -1 else if targets[i].name == name then i else FindTargetFrom(targets, name, i + 1)
  }

  function FindTarget(targets: seq<Target>, name: string): (idx: int)
    ensures -1 <= idx < |targets|
    ensures idx >= 0 ==> targets[idx].name == name
    ensures forall j | 0 <= j < (if idx < 0 then |targets| else idx) :: targets[j].name != name
  {
    FindTargetFrom(targets, name, 0)
  }

  function FindIfaceFrom(list: seq<Iface>, name: string, i: nat): (idx: int)
    requires i <= |list|
    ensures idx == -1 || i <= idx < |list|
    ensures idx >= 0 ==> list[idx].name == name
    ensures forall j | i <= j < (if idx < 0 then |list| else idx) :: list[j].name != name
    decreases |list| - i
  {
    if i == |list| then -1 else if list[i].name == name then i else FindIfaceFrom(list, name, i + 1)
  }

  function FindIface(list: seq<Iface>, name: string): (idx: int)
    ensures -1 <= idx < |list|
    ensures idx >= 0 ==> list[idx].name == name
    ensures forall j | 0 <= j < (if idx < 0 then |list| else idx) :: list[j].name != name
  {
    FindIfaceFrom(list, name, 0)
  }

  // The growth of one counter; a counter that went down has been reset and contributes nothing.
  function Step(before: u64, now: u64): nat {
    if now >= before then now - before else 0
  }

  // The table during a poll and the exact byte totals so far.
  datatype Tally = Tally(targets: seq<Target>, rx: nat, tx: nat)

  function Renewed(iface: Iface): Target { Target(iface.name, iface.rx, iface.tx, true, true) }

  function Accumulate(t: Tally, iface: Iface): Tally {
    var idx := FindTarget(t.targets, iface.name);
    if idx >= 0 then
      var e := t.targets[idx];
      Tally(t.targets[idx := Renewed(iface)],
            t.rx + if e.initialized then Step(e.rx, iface.rx) else 0,
            t.tx + if e.initialized then Step(e.tx, iface.tx) else 0)
    else if |t.targets| >= MAX_TRACKED then t
    else t.(targets := t.targets + [Renewed(iface)])
  }

  predicate Eligible(config: Config, iface: Iface) {
    !iface.loopback && (config.includeVirtual || !iface.virtual)
  }

  function EligibleOf(config: Config, list: seq<Iface>): seq<Iface> {
    if list == [] then []
    else
      EligibleOf(config, list[..|list| - 1]) +
      if Eligible(config, list[|list| - 1]) then [list[|list| - 1]] else []
  }

  function AccumulateEither(config: Config, t: Tally, iface: Iface): Tally {
    if Eligible(config, iface) then Accumulate(t, iface) else t
  }

  function AccumulateAll(t: Tally, list: seq<Iface>): Tally {
    if list == [] then t else Accumulate(AccumulateAll(t, list[..|list| - 1]), list[|list| - 1])
  }

  function Kept(t: Target): seq<Target> { if t.seen then [t.(seen := false)] else [] }

  // Drops what was not seen in this poll and clears the scratch flag of the rest.
  function Evict(targets: seq<Target>): seq<Target> {
    if targets == [] then [] else Evict(targets[..|targets| - 1]) + Kept(targets[|targets| - 1])
  }

  // The interfaces a poll measures, or why it cannot.
  datatype Selection = Missing(status: Status) | Selected(list: seq<Iface>)

  function Select(config: Config, list: seq<Iface>, route: Default): Selection {
    if config.mode.All? then Selected(EligibleOf(config, list))
    else if config.mode.Auto? && route.NoDefault? then Missing(route.status)
    else
      var idx := FindIface(list, if config.mode.Manual? then config.ifaceName else route.name);
      if idx < 0 then Missing(NotFound) else Selected([list[idx]])
  }

  function Measure(targets: seq<Target>, selected: seq<Iface>): Tally {
    var t := AccumulateAll(Tally(targets, 0, 0), selected);
    t.(targets := Evict(t.targets))
  }

  // Bytes per second, rounded half up.
  function Rate(delta: nat, elapsed: nat): nat {
    if elapsed == 0 then 0 else (2 * delta * NS_PER_SECOND + elapsed) / (2 * elapsed)
  }

  // The sampler as a value.
  datatype View = View(targets: seq<Target>, lastPoll: u64, history: seq<RateSample>)

  const START := View([], 0, [])

  function SampleOf(lastPoll: u64, t: Tally, clock: u64): RateSample {
    var elapsed := Sub64(clock, lastPoll);
    RateSample(Rate(t.rx % TWO_TO_THE_64, elapsed), Rate(t.tx % TWO_TO_THE_64, elapsed), clock)
  }

  // A failed snapshot changes nothing; a failed selection forgets every baseline.
  function PollView(config: Config, v: View, input: Input): View {
    if input.ifaces.NoIfaces? then v
    else
      match Select(config, input.ifaces.list, input.route)
      case Missing(_) => v.(targets := [])
      case Selected(list) =>
        var t := Measure(v.targets, list);
        View(t.targets, input.clock, LastN(v.history + [SampleOf(v.lastPoll, t, input.clock)], HISTORY_CAP))
  }

  function PollStatus(config: Config, input: Input): Status {
    if input.ifaces.NoIfaces? then input.ifaces.status
    else
      match Select(config, input.ifaces.list, input.route)
      case Missing(status) => status
      case Selected(_) => Ok
  }

  // ----- the sampler as the program runs it -----

  class RateSampler {
    const config: Config
    var sources: Sources
    var lastPoll: u64
    const targets: array<Target>
    var targetCount: nat
    const history: array<RateSample>
    var historyCount: nat
    var historyHead: nat

    ghost predicate Valid()
      reads this
    {
      && targets.Length == MAX_TRACKED && targetCount <= MAX_TRACKED
      && history.Length == HISTORY_CAP && historyCount <= HISTORY_CAP && historyHead < HISTORY_CAP
      && (historyCount < HISTORY_CAP ==> historyHead == 0)
      && targets as object != history
    }

    ghost function Tracked(): seq<Target>
      reads this, targets
      requires Valid()
    {
      targets[..targetCount]
    }

    // The stored samples, oldest first.
    ghost function Recent(): seq<RateSample>
      reads this, history
      requires Valid()
    {
      history[historyHead..historyCount] + history[..historyHead]
    }

    ghost function AsView(): View
      reads this, targets, history
      requires Valid()
    {
      View(Tracked(), lastPoll, Recent())
    }

    constructor (config: Config)
      ensures Valid() && AsView() == START && this.config == config
      ensures sources == NO_SOURCES && fresh(targets) && fresh(history)
    {
      this.config := config;
      sources := NO_SOURCES;
      lastPoll, targetCount, historyCount, historyHead := 0, 0, 0, 0;
      targets := new Target[MAX_TRACKED](_ => Target("", 0, 0, false, false));
      history := new RateSample[HISTORY_CAP](_ => RateSample(0, 0, 0));
    }

    // The ring after its next slot was written.
    lemma {:induction false} Appended(before: seq<RateSample>, head: nat, sample: RateSample)
      requires Valid() && |before| == HISTORY_CAP && head < HISTORY_CAP && historyCount == HISTORY_CAP
      requires historyHead == if head + 1 == HISTORY_CAP then 0 else head + 1
      requires history[..] == before[head := sample]
      ensures Recent() == (before[head..] + before[..head])[1..] + [sample]
    {
    }

    // Appends a sample to the ring and moves the oldest slot forward once the ring is full.
    method PushHistory(sample: RateSample)
      requires Valid()
      modifies this`historyCount, this`historyHead, history
      ensures Valid() && Recent() == LastN(old(Recent()) + [sample], HISTORY_CAP)
    {
      ghost var before, head := history[..], historyHead;
      var nextSlot := (historyHead + historyCount) % HISTORY_CAP;
      history[nextSlot] := sample;
      if historyCount < HISTORY_CAP {
        historyCount := historyCount + 1;
        assert Recent() == old(Recent()) + [sample];
      } else {
        historyHead := (historyHead + 1) % HISTORY_CAP;
        Appended(before, head, sample);
        assert old(Recent()) == before[head..] + before[..head];
      }
    }

    lemma {:induction false} RecentAt(skip: nat, k: nat)
      requires Valid() && skip + k < historyCount
      ensures Recent()[skip + k] == history[((historyHead + skip) % HISTORY_CAP + k) % HISTORY_CAP]
    {
      var at := historyHead + skip + k;
      assert ((historyHead + skip) % HISTORY_CAP + k) % HISTORY_CAP
          == if at < HISTORY_CAP then at else at - HISTORY_CAP;
    }

    // Copies the newest samples, oldest first.
    method History(out: array?<RateSample>, cap: nat) returns (count: nat)
      requires Valid() && (out != null ==> cap <= out.Length && out as object != history)
      modifies out
      ensures out == null ==> count == 0
      ensures out != null ==> count <= cap && out[..count] == LastN(Recent(), cap)
    {
      if out == null || cap == 0 { return 0; }
      count := if historyCount < cap then historyCount else cap;
      ghost var skip := historyCount - count;
      var start := (historyHead + (historyCount - count)) % HISTORY_CAP;
      CopyFrom(out, start, count, skip);
    }

    method CopyFrom(out: array<RateSample>, start: nat, count: nat, ghost skip: nat)
      requires Valid() && count <= out.Length && out as object != history
      requires skip + count == historyCount && start == (historyHead + skip) % HISTORY_CAP
      modifies out
      ensures out[..count] == Recent()[skip..]
    {
      ghost var recent := Recent();
      var i := 0;
      while i < count
        invariant 0 <= i <= count && Recent() == recent
        invariant forall k | 0 <= k < i :: out[k] == recent[skip + k]
      {
        var slot := (start + i) % HISTORY_CAP;
        RecentAt(skip, i);
        out[i] := history[slot];
        i := i + 1;
      }
    }

    method FindTargetIndex(name: string) returns (idx: int)
      requires Valid()
      ensures idx == FindTarget(Tracked(), name)
    {
      var i := 0;
      while i < targetCount
        invariant 0 <= i <= targetCount && FindTarget(Tracked(), name) == FindTargetFrom(Tracked(), name, i)
      {
        if targets[i].name == name { return i; }
        i := i + 1;
      }
      idx := -1;
    }

    // The target of a name, appended blank when there is none; -1 when the table is full.
    method FindOrAddTarget(name: string) returns (idx: int)
      requires Valid()
      modifies this`targetCount, targets
      ensures Valid() && Tracked() == WithTarget(old(Tracked()), name)
      ensures idx == FindTarget(Tracked(), name)
    {
      idx := FindTargetIndex(name);
      if idx < 0 && targetCount < MAX_TRACKED {
        ghost var before := Tracked();
        idx := targetCount;
        targets[idx] := Target(name, 0, 0, false, false);
        targetCount := targetCount + 1;
        assert Tracked()[..idx] == before;
      }
    }

    method PutTarget(idx: nat, t: Target)
      requires Valid() && idx < targetCount
      modifies targets
      ensures Tracked() == old(Tracked())[idx := t]
    {
      targets[idx] := t;
    }

    // Adds one interface's growth since its own last poll to the running totals.
    method AccumulateTargetDelta(iface: Iface, deltaRx: u64, deltaTx: u64, ghost t: Tally)
      returns (rx: u64, tx: u64)
      requires Valid() && t.targets == Tracked()
      requires deltaRx == t.rx % TWO_TO_THE_64 && deltaTx == t.tx % TWO_TO_THE_64
      modifies this`targetCount, targets
      ensures Valid()
      ensures var r := Accumulate(t, iface);
              r.targets == Tracked() && rx == r.rx % TWO_TO_THE_64 && tx == r.tx % TWO_TO_THE_64
    {
      AccumulateInTwoSteps(t, iface);
      rx, tx := deltaRx, deltaTx;
      var idx := FindOrAddTarget(iface.name);
      if idx < 0 { return; }
      var entry := targets[idx];
      assert entry == Tracked()[idx];
      if entry.initialized {
        SumsWrap(t.rx, Step(entry.rx, iface.rx));
        SumsWrap(t.tx, Step(entry.tx, iface.tx));
        if iface.rx >= entry.rx { rx := Add64(rx, iface.rx - entry.rx); }
        if iface.tx >= entry.tx { tx := Add64(tx, iface.tx - entry.tx); }
      }
      PutTarget(idx, Target(entry.name, iface.rx, iface.tx, true, true));
    }

    // The first i targets have been compacted to the front, the others are still in place.
    ghost predicate Compacted(before: seq<Target>, i: nat, write: nat)
      reads this, targets
      requires Valid()
    {
      && write <= i <= targetCount == |before|
      && targets[..write] == Evict(before[..i])
      && forall k | i <= k < targetCount :: targets[k] == before[k]
    }

    // One turn of the compaction: target i moves down to the kept ones if it was seen.
    method KeepIfSeen(i: nat, write: nat, ghost before: seq<Target>) returns (next: nat)
      requires Valid() && i < targetCount && Compacted(before, i, write)
      modifies targets
      ensures Compacted(before, i + 1, next)
    {
      EvictNext(before, i);
      next := write;
      if targets[i].seen {
        if write != i { targets[write] := targets[i]; }
        targets[write] := targets[write].(seen := false);
        next := write + 1;
        assert targets[..next] == old(targets[..write]) + [targets[write]];
      }
    }

    // Compacts the seen targets to the front.
    method EvictUntracked()
      requires Valid()
      modifies this`targetCount, targets
      ensures Valid() && Tracked() == Evict(old(Tracked()))
    {
      ghost var before := Tracked();
      var write, i := 0, 0;
      while i < targetCount
        invariant Valid() && Compacted(before, i, write)
      {
        write := KeepIfSeen(i, write, before);
        i := i + 1;
      }
      assert before[..i] == before;
      targetCount := write;
    }

    // One turn of the loop over all interfaces.
    method AccumulateIfEligible(iface: Iface, deltaRx: u64, deltaTx: u64, ghost t: Tally) returns (rx: u64, tx: u64)
      requires Valid() && t.targets == Tracked()
      requires deltaRx == t.rx % TWO_TO_THE_64 && deltaTx == t.tx % TWO_TO_THE_64
      modifies this`targetCount, targets
      ensures Valid()
      ensures var r := AccumulateEither(config, t, iface);
              r.targets == Tracked() && rx == r.rx % TWO_TO_THE_64 && tx == r.tx % TWO_TO_THE_64
    {
      rx, tx := deltaRx, deltaTx;
      if Eligible(config, iface) { rx, tx := AccumulateTargetDelta(iface, deltaRx, deltaTx, t); }
    }

    method AccumulateEligible(list: seq<Iface>) returns (deltaRx: u64, deltaTx: u64)
      requires Valid()
      modifies this`targetCount, targets
      ensures Valid()
      ensures var t := AccumulateAll(Tally(old(Tracked()), 0, 0), EligibleOf(config, list));
              t.targets == Tracked() && deltaRx == t.rx % TWO_TO_THE_64 && deltaTx == t.tx % TWO_TO_THE_64
    {
      ghost var start := Tally(Tracked(), 0, 0);
      ghost var t := start;
      deltaRx, deltaTx := 0, 0;
      var i := 0;
      while i < |list|
        invariant 0 <= i <= |list| && Valid()
        invariant t == AccumulateAll(start, EligibleOf(config, list[..i])) && t.targets == Tracked()
        invariant deltaRx == t.rx % TWO_TO_THE_64 && deltaTx == t.tx % TWO_TO_THE_64
      {
        EligibleNext(config, list, start, i);
        deltaRx, deltaTx := AccumulateIfEligible(list[i], deltaRx, deltaTx, t);
        t := AccumulateEither(config, t, list[i]);
        i := i + 1;
      }
      assert list[..i] == list;
    }

    method FindByName(list: seq<Iface>, name: string) returns (idx: int)
      ensures idx == FindIface(list, name)
    {
      var i := 0;
      while i < |list|
        invariant 0 <= i <= |list| && FindIface(list, name) == FindIfaceFrom(list, name, i)
      {
        if list[i].name == name { return i; }
        i := i + 1;
      }
      idx := -1;
    }

    method MeasureEligible(list: seq<Iface>) returns (deltaRx: u64, deltaTx: u64)
      requires Valid()
      modifies this`targetCount, targets
      ensures Valid()
      ensures var t := Measure(old(Tracked()), EligibleOf(config, list));
              t.targets == Tracked() && deltaRx == t.rx % TWO_TO_THE_64 && deltaTx == t.tx % TWO_TO_THE_64
    {
      deltaRx, deltaTx := AccumulateEligible(list);
      EvictUntracked();
    }

    method MeasureOne(iface: Iface) returns (deltaRx: u64, deltaTx: u64)
      requires Valid()
      modifies this`targetCount, targets
      ensures Valid()
      ensures var t := Measure(old(Tracked()), [iface]);
              t.targets == Tracked() && deltaRx == t.rx % TWO_TO_THE_64 && deltaTx == t.tx % TWO_TO_THE_64
    {
      ghost var start := Tally(Tracked(), 0, 0);
      deltaRx, deltaTx := AccumulateTargetDelta(iface, 0, 0, start);
      AccumulateSingle(start, iface);
      EvictUntracked();
    }

    // Picks the interfaces to measure and adds up their growth.
    method ResolveDeltas(list: seq<Iface>, route: Default) returns (status: Status, deltaRx: u64, deltaTx: u64)
      requires Valid() && (route.NoDefault? ==> route.status != Ok)
      modifies this`targetCount, targets
      ensures Valid()
      ensures match Select(config, list, route)
              case Missing(why) => status == why != Ok && Tracked() == old(Tracked())
              case Selected(chosen) =>
                var t := Measure(old(Tracked()), chosen);
                status == Ok && Tracked() == t.targets
                && deltaRx == t.rx % TWO_TO_THE_64 && deltaTx == t.tx % TWO_TO_THE_64
    {
      status, deltaRx, deltaTx := Ok, 0, 0;
      if config.mode.All? {
        deltaRx, deltaTx := MeasureEligible(list);
        return;
      }
      var target;
      if config.mode.Manual? {
        target := config.ifaceName;
      } else {
        if route.NoDefault? { return route.status, 0, 0; }
        target := route.name;
      }
      var found := FindByName(list, target);
      if found < 0 { return NotFound, 0, 0; }
      deltaRx, deltaTx := MeasureOne(list[found]);
    }

    // Turns the growth into rates over the time since the last poll and appends the sample.
    method Record(deltaRx: u64, deltaTx: u64, now: u64, ghost t: Tally) returns (out: RateSample)
      requires Valid() && deltaRx == t.rx % TWO_TO_THE_64 && deltaTx == t.tx % TWO_TO_THE_64
      modifies this`lastPoll, this`historyCount, this`historyHead, history
      ensures Valid() && Tracked() == old(Tracked()) && lastPoll == now
      ensures out == SampleOf(old(lastPoll), t, now)
      ensures Recent() == LastN(old(Recent()) + [out], HISTORY_CAP)
      ensures Recent() != [] && out == Recent()[|Recent()| - 1]
    {
      var elapsed := Sub64(now, lastPoll);
      out := RateSample(Rate(deltaRx, elapsed), Rate(deltaTx, elapsed), now);
      lastPoll := now;
      PushHistory(out);
    }

    // The part of a poll that follows a snapshot of the interfaces.
    method PollIfaces(input: Input) returns (status: Status, out: RateSample)
      requires Valid() && Answers(input) && input.ifaces.Ifaces?
      modifies this`lastPoll, this`targetCount, this`historyCount, this`historyHead, targets, history
      ensures Valid() && status == PollStatus(config, input)
      ensures AsView() == PollView(config, old(AsView()), input)
      ensures status == Ok ==> Recent() != [] && out == Recent()[|Recent()| - 1]
    {
      ghost var before := Tracked();
      var deltaRx, deltaTx;
      status, deltaRx, deltaTx := ResolveDeltas(input.ifaces.list, input.route);
      if status != Ok {
        targetCount, out := 0, RateSample(0, 0, 0);
        return;
      }
      ghost var t := Measure(before, Select(config, input.ifaces.list, input.route).list);
      out := Record(deltaRx, deltaTx, input.clock, t);
    }

    // One poll. A missing output, provider or, in Auto mode, default-route provider is refused.
    method Poll(input: Input, hasOut: bool) returns (status: Status, out: RateSample)
      requires Valid() && Answers(input)
      modifies this`lastPoll, this`targetCount, this`historyCount, this`historyHead, targets, history
      ensures Valid()
      ensures var wired := hasOut && sources.snapshot.Some? && sources.clock.Some?
                           && (config.mode.Auto? ==> sources.route.Some?);
              && status == (if wired then PollStatus(config, input) else InvalidArg)
              && AsView() == (if wired then PollView(config, old(AsView()), input) else old(AsView()))
      ensures status == Ok ==> Recent() != [] && out == Recent()[|Recent()| - 1]
    {
      out := RateSample(0, 0, 0);
      if !hasOut || sources.snapshot.None? || sources.clock.None? { return InvalidArg, out; }
      if config.mode.Auto? && sources.route.None? { return InvalidArg, out; }
      if input.ifaces.NoIfaces? { return input.ifaces.status, out; }
      status, out := PollIfaces(input);
    }

    // Installs the providers that are given and keeps the others.
    method SetSources(given: Sources)
      requires Valid()
      modifies this`sources
      ensures sources.snapshot == if given.snapshot.Some? then given.snapshot else old(sources).snapshot
      ensures sources.route == if given.route.Some? then given.route else old(sources).route
      ensures sources.clock == if given.clock.Some? then given.clock else old(sources).clock
    {
      if given.snapshot.Some? { sources := sources.(snapshot := given.snapshot); }
      if given.route.Some? { sources := sources.(route := given.route); }
      if given.clock.Some? { sources := sources.(clock := given.clock); }
    }
  }

  // The first half of accumulating: the table with a target of that name, if there is room.
  function WithTarget(targets: seq<Target>, name: string): (r: seq<Target>)
    ensures |r| <= if |targets| < MAX_TRACKED then MAX_TRACKED else |targets|
  {
    if FindTarget(targets, name) >= 0 || |targets| >= MAX_TRACKED then targets
    else targets + [Target(name, 0, 0, false, false)]
  }

  lemma {:induction false} AppendedTargetIsFound(targets: seq<Target>, t: Target)
    requires FindTarget(targets, t.name) < 0
    ensures FindTarget(targets + [t], t.name) == |targets|
  {
    assert (targets + [t])[|targets|] == t;
    assert forall j | 0 <= j < |targets| :: (targets + [t])[j].name == targets[j].name;
  }

  // The second half: the target of that name is renewed and its growth added, once it has counted.
  function Renew(t: Tally, idx: int, iface: Iface): Tally
    requires idx < |t.targets|
  {
    if idx < 0 then t
    else
      var e := t.targets[idx];
      Tally(t.targets[idx := Renewed(iface)],
            t.rx + (if e.initialized then Step(e.rx, iface.rx) else 0),
            t.tx + (if e.initialized then Step(e.tx, iface.tx) else 0))
  }

  lemma {:induction false} AccumulateInTwoSteps(t: Tally, iface: Iface)
    ensures var ts := WithTarget(t.targets, iface.name);
            Accumulate(t, iface) == Renew(t.(targets := ts), FindTarget(ts, iface.name), iface)
  {
    if FindTarget(t.targets, iface.name) < 0 && |t.targets| < MAX_TRACKED {
      var blank := Target(iface.name, 0, 0, false, false);
      AppendedTargetIsFound(t.targets, blank);
      assert (t.targets + [blank])[|t.targets| := Renewed(iface)] == t.targets + [Renewed(iface)];
    }
  }

  lemma {:induction false} SumsWrap(total: nat, step: nat)
    requires step < TWO_TO_THE_64
    ensures Add64(total % TWO_TO_THE_64, step) == (total + step) % TWO_TO_THE_64
  {
  }

  lemma {:induction false} EvictNext(before: seq<Target>, i: nat)
    requires i < |before|
    ensures Evict(before[..i + 1]) == Evict(before[..i]) + Kept(before[i])
  {
    assert before[..i + 1][..i] == before[..i];
  }

  lemma {:induction false} EligibleNext(config: Config, list: seq<Iface>, start: Tally, i: nat)
    requires i < |list|
    ensures AccumulateAll(start, EligibleOf(config, list[..i + 1]))
         == AccumulateEither(config, AccumulateAll(start, EligibleOf(config, list[..i])), list[i])
  {
    assert list[..i] + [list[i]] == list[..i + 1];
    EligibleOneMore(config, list[..i], list[i]);
    if Eligible(config, list[i]) { AccumulateOneMore(start, EligibleOf(config, list[..i]), list[i]); }
  }

  lemma {:induction false} EligibleOneMore(config: Config, list: seq<Iface>, iface: Iface)
    ensures EligibleOf(config, list + [iface])
         == if Eligible(config, iface) then EligibleOf(config, list) + [iface] else EligibleOf(config, list)
  {
    assert (list + [iface])[..|list|] == list;
  }

  lemma {:induction false} AccumulateOneMore(t: Tally, list: seq<Iface>, iface: Iface)
    ensures AccumulateAll(t, list + [iface]) == Accumulate(AccumulateAll(t, list), iface)
  {
    assert (list + [iface])[..|list|] == list;
  }

  lemma {:induction false} AccumulateSingle(t: Tally, iface: Iface)
    ensures AccumulateAll(t, [iface]) == Accumulate(t, iface)
  {
    AccumulateOneMore(t, [], iface);
    assert [] + [iface] == [iface];
  }
}
