// Whole runs of sampler polls: what the baselines are, which bytes are counted, what the history holds.

module SamplerRuns {
  import opened Sampler
  import opened Words

  function AfterRun(config: Config, run: seq<Input>): View {
    if run == [] then START else PollView(config, AfterRun(config, run[..|run| - 1]), run[|run| - 1])
  }

  predicate Succeeds(config: Config, input: Input) {
    input.ifaces.Ifaces? && Select(config, input.ifaces.list, input.route).Selected?
  }

  predicate SelectionFails(config: Config, input: Input) {
    input.ifaces.Ifaces? && Select(config, input.ifaces.list, input.route).Missing?
  }

  function Chosen(config: Config, input: Input): seq<Iface>
    requires Succeeds(config, input)
  {
    Select(config, input.ifaces.list, input.route).list
  }

  // When the last successful poll took place, what it measured, and whether a selection failed since.
  datatype LastSuccess = Never | At(clock: u64, measured: seq<Iface>, forgotten: bool)

  function LastOf(config: Config, run: seq<Input>): LastSuccess {
    if run == [] then Never
    else
      var last, before := run[|run| - 1], LastOf(config, run[..|run| - 1]);
      if Succeeds(config, last) then At(last.clock, Chosen(config, last), false)
      else if SelectionFails(config, last) && before.At? then before.(forgotten := true)
      else before
  }

  // ----- baselines and time base -----

  ghost predicate DistinctNames(targets: seq<Target>) {
    forall i, j | 0 <= i < j < |targets| :: targets[i].name != targets[j].name
  }

  ghost predicate Clean(targets: seq<Target>) {
    && |targets| <= MAX_TRACKED && DistinctNames(targets)
    && forall k | 0 <= k < |targets| :: targets[k].initialized && !targets[k].seen
  }

  ghost predicate Reported(list: seq<Iface>, t: Target) {
    exists i :: 0 <= i < |list| && list[i].name == t.name && list[i].rx == t.rx && list[i].tx == t.tx
  }

  // In the middle of a poll: seen entries come from what this poll has measured so far.
  ghost predicate Midway(targets: seq<Target>, list: seq<Iface>) {
    && |targets| <= MAX_TRACKED && DistinctNames(targets)
    && (forall k | 0 <= k < |targets| :: targets[k].initialized)
    && (forall k | 0 <= k < |targets| && targets[k].seen :: Reported(list, targets[k]))
  }

  lemma {:induction false} MidwayOneMore(t: Tally, list: seq<Iface>, iface: Iface)
    requires Midway(t.targets, list)
    ensures Midway(Accumulate(t, iface).targets, list + [iface])
  {
    var r, all := Accumulate(t, iface), list + [iface];
    forall k | 0 <= k < |r.targets| && r.targets[k].seen ensures Reported(all, r.targets[k]) {
      if k < |t.targets| && r.targets[k] == t.targets[k] {
        var i :| 0 <= i < |list| && list[i].name == r.targets[k].name && list[i].rx == r.targets[k].rx
                 && list[i].tx == r.targets[k].tx;
        assert all[i] == list[i];
      } else {
        assert all[|list|] == iface;
      }
    }
  }

  lemma {:induction false} MidwayAfterAll(t: Tally, list: seq<Iface>)
    requires Clean(t.targets)
    ensures Midway(AccumulateAll(t, list).targets, list)
  {
    if list != [] {
      var n := |list| - 1;
      MidwayAfterAll(t, list[..n]);
      MidwayOneMore(AccumulateAll(t, list[..n]), list[..n], list[n]);
      assert list[..n] + [list[n]] == list;
    }
  }

  lemma {:induction false} EvictKeepsSeen(targets: seq<Target>, list: seq<Iface>)
    requires Midway(targets, list)
    ensures Clean(Evict(targets)) && |Evict(targets)| <= |targets|
    ensures forall k | 0 <= k < |Evict(targets)| ::
              Reported(list, Evict(targets)[k])
              && exists j :: 0 <= j < |targets| && targets[j].seen && targets[j].(seen := false) == Evict(targets)[k]
  {
    if targets != [] {
      var n := |targets| - 1;
      EvictKeepsSeen(targets[..n], list);
    }
  }

  ghost predicate TimeBase(config: Config, run: seq<Input>, v: View) {
    var last := LastOf(config, run);
    && Clean(v.targets)
    && (!config.mode.All? ==> |v.targets| <= 1)
    && v.lastPoll == (if last.At? then last.clock else 0)
    && (last.Never? || last.forgotten ==> v.targets == [])
    && (last.At? ==> forall k | 0 <= k < |v.targets| :: Reported(last.measured, v.targets[k]))
  }

  lemma {:induction false} EvictOneMore(targets: seq<Target>, t: Target)
    ensures Evict(targets + [t]) == Evict(targets) + Kept(t)
  {
    assert (targets + [t])[..|targets|] == targets;
  }

  lemma {:induction false} FindInSingle(targets: seq<Target>, name: string)
    requires |targets| <= 1
    ensures FindTarget(targets, name) == if targets != [] && targets[0].name == name then 0 else -1
  {
  }

  // An unseen target before the renewed one is dropped.
  lemma {:induction false} EvictUnseenFirst(targets: seq<Target>, renewed: Target)
    requires |targets| <= 1 && (targets != [] ==> !targets[0].seen) && renewed.seen
    ensures Evict(targets + [renewed]) == [renewed.(seen := false)]
  {
    EvictOneMore(targets, renewed);
    if targets != [] {
      assert targets == [] + [targets[0]];
      EvictOneMore([], targets[0]);
    }
  }

  lemma {:induction false} SingleTarget(targets: seq<Target>, iface: Iface)
    requires Clean(targets) && |targets| <= 1
    ensures Evict(Accumulate(Tally(targets, 0, 0), iface).targets) == [Renewed(iface).(seen := false)]
  {
    FindInSingle(targets, iface.name);
    if targets != [] && targets[0].name == iface.name {
      assert targets[0 := Renewed(iface)] == [] + [Renewed(iface)];
      EvictUnseenFirst([], Renewed(iface));
    } else {
      EvictUnseenFirst(targets, Renewed(iface));
    }
  }

  lemma {:induction false} SingleMode(config: Config, input: Input, targets: seq<Target>)
    requires Succeeds(config, input) && !config.mode.All? && Clean(targets) && |targets| <= 1
    ensures |Measure(targets, Chosen(config, input)).targets| == 1
  {
    var list := Chosen(config, input);
    assert list == [list[0]];
    AccumulateSingle(Tally(targets, 0, 0), list[0]);
    SingleTarget(targets, list[0]);
  }

  lemma {:induction false} MeasuredTargets(targets: seq<Target>, list: seq<Iface>)
    requires Clean(targets)
    ensures var after := Measure(targets, list).targets;
            Clean(after) && forall k | 0 <= k < |after| :: Reported(list, after[k])
  {
    MidwayAfterAll(Tally(targets, 0, 0), list);
    EvictKeepsSeen(AccumulateAll(Tally(targets, 0, 0), list).targets, list);
  }

  lemma {:induction false} TimeBaseAfterSuccess(config: Config, run: seq<Input>, input: Input)
    requires Succeeds(config, input) && TimeBase(config, run, AfterRun(config, run))
    ensures TimeBase(config, run + [input], AfterRun(config, run + [input]))
  {
    assert (run + [input])[..|run|] == run;
    var v := AfterRun(config, run);
    MeasuredTargets(v.targets, Chosen(config, input));
    if !config.mode.All? { SingleMode(config, input, v.targets); }
  }

  // After every poll of every run, in every mode: names are distinct, the scratch flags are clear,
  // Auto and Manual track at most one interface, and every baseline was recorded by the very poll
  // whose clock reading is the time base.
  lemma {:induction false} BaselinesShareTheTimeBase(config: Config, run: seq<Input>)
    ensures TimeBase(config, run, AfterRun(config, run))
  {
    if run != [] {
      var prefix, input := run[..|run| - 1], run[|run| - 1];
      BaselinesShareTheTimeBase(config, prefix);
      if Succeeds(config, input) {
        assert prefix + [input] == run;
        TimeBaseAfterSuccess(config, prefix, input);
      }
    }
  }

  // Failed snapshots lose nothing: the next poll measures against the same baselines and time.
  lemma {:induction false} FailedSnapshotsLeaveNoTrace(config: Config, run: seq<Input>, failed: seq<Input>)
    requires forall i | 0 <= i < |failed| :: failed[i].ifaces.NoIfaces?
    ensures AfterRun(config, run + failed) == AfterRun(config, run)
    ensures Lists(config, run + failed) == Lists(config, run)
  {
    if failed == [] {
      assert run + failed == run;
    } else {
      var n := |failed| - 1;
      assert (run + failed)[..|run| + n] == run + failed[..n];
      FailedSnapshotsLeaveNoTrace(config, run, failed[..n]);
    }
  }

  // ----- the counters of one name -----

  datatype Direction = Rx | Tx
  datatype Counters = Absent | Present(rx: u64, tx: u64)

  function Count(c: Counters, d: Direction): u64
    requires c.Present?
  {
    if d.Rx? then c.rx else c.tx
  }

  function Reading(iface: Iface): Counters { Present(iface.rx, iface.tx) }

  // The last entry of a name.
  function CountersOf(list: seq<Iface>, name: string): Counters {
    if list == [] then Absent
    else if list[|list| - 1].name == name then Reading(list[|list| - 1])
    else CountersOf(list[..|list| - 1], name)
  }

  function BaselineOf(targets: seq<Target>, name: string): Counters {
    var idx := FindTarget(targets, name);
    if idx < 0 then Absent else Present(targets[idx].rx, targets[idx].tx)
  }

  // What a name adds when it goes from one pair of counters to another.
  function Growth(before: Counters, now: Counters, d: Direction): nat {
    if before.Present? && now.Present? then Step(Count(before, d), Count(now, d)) else 0
  }

  // The counters of a name after the entries of a list, given those before it.
  function Latest(before: Counters, list: seq<Iface>, name: string): Counters {
    if CountersOf(list, name).Present? then CountersOf(list, name) else before
  }

  function Added(t: Tally, d: Direction): nat { if d.Rx? then t.rx else t.tx }

  lemma {:induction false} CountersOneMore(list: seq<Iface>, iface: Iface, name: string)
    ensures CountersOf(list + [iface], name) == if name == iface.name then Reading(iface) else CountersOf(list, name)
  {
    assert (list + [iface])[..|list|] == list;
  }

  lemma {:induction false} CountersOfStranger(list: seq<Iface>, name: string)
    ensures CountersOf(list, name).Present? <==> exists i :: 0 <= i < |list| && list[i].name == name
  {
    if list != [] {
      var n := |list| - 1;
      CountersOfStranger(list[..n], name);
      if CountersOf(list[..n], name).Present? {
        var i :| 0 <= i < n && list[..n][i].name == name;
        assert list[i].name == name;
      }
      if list[n].name != name && exists i :: 0 <= i < |list| && list[i].name == name {
        var i :| 0 <= i < |list| && list[i].name == name;
        assert list[..n][i].name == name;
      }
    }
  }

  // Renewing a name changes the baseline of that name only; without room nothing changes.
  lemma {:induction false} UpdatedBaseline(t: Tally, iface: Iface, name: string)
    ensures BaselineOf(Accumulate(t, iface).targets, name)
         == if name == iface.name && (FindTarget(t.targets, name) >= 0 || |t.targets| < MAX_TRACKED)
            then Reading(iface) else BaselineOf(t.targets, name)
  {
    var r := Accumulate(t, iface).targets;
    assert forall j | 0 <= j < |t.targets| :: r[j].name == t.targets[j].name;
    assert |r| > |t.targets| ==> r[|t.targets|] == Renewed(iface);
  }

  lemma {:induction false} AddedGrowth(t: Tally, iface: Iface, d: Direction)
    requires forall k | 0 <= k < |t.targets| :: t.targets[k].initialized
    ensures Added(Accumulate(t, iface), d)
         == Added(t, d) + Growth(BaselineOf(t.targets, iface.name), Reading(iface), d)
  {
  }

  // ----- fresh baselines -----

  ghost predicate Unrelated(config: Config, run: seq<Input>, input: Input)
    requires Succeeds(config, input)
  {
    var last := LastOf(config, run);
    last.At? && !last.forgotten ==>
      forall i, j | 0 <= i < |Chosen(config, input)| && 0 <= j < |last.measured| ::
        Chosen(config, input)[i].name != last.measured[j].name
  }

  lemma {:induction false} NothingTrackedIsChosen(config: Config, run: seq<Input>, input: Input)
    requires Succeeds(config, input) && Unrelated(config, run, input)
    ensures Untracked(AfterRun(config, run).targets, Chosen(config, input))
  {
    BaselinesShareTheTimeBase(config, run);
    var targets, list := AfterRun(config, run).targets, Chosen(config, input);
    forall i | 0 <= i < |list| ensures BaselineOf(targets, list[i].name).Absent? {
      var k := FindTarget(targets, list[i].name);
      assert k >= 0 ==> Reported(LastOf(config, run).measured, targets[k]);
    }
  }

  ghost predicate Untracked(targets: seq<Target>, list: seq<Iface>) {
    forall i | 0 <= i < |list| :: BaselineOf(targets, list[i].name).Absent?
  }

  // Entry i of a list exceeds the entry of the same name before it.
  predicate ExceedsItself(list: seq<Iface>, i: nat, d: Direction)
    requires i < |list|
  {
    Growth(CountersOf(list[..i], list[i].name), Reading(list[i]), d) > 0
  }

  ghost predicate NoneExceedsItself(list: seq<Iface>, d: Direction) {
    forall i | 0 <= i < |list| :: !ExceedsItself(list, i, d)
  }

  lemma {:induction false} NoneExceedsItselfBefore(list: seq<Iface>, n: nat, d: Direction)
    requires NoneExceedsItself(list, d) && n <= |list|
    ensures NoneExceedsItself(list[..n], d)
  {
    forall i | 0 <= i < n ensures !ExceedsItself(list[..n], i, d) {
      assert list[..n][..i] == list[..i];
      assert !ExceedsItself(list, i, d);
    }
  }

  // A name that was not tracked before is tracked with its latest entry, if at all.
  ghost predicate FollowsTheList(targets: seq<Target>, list: seq<Iface>, name: string) {
    BaselineOf(targets, name).Absent? || BaselineOf(targets, name) == CountersOf(list, name)
  }

  lemma {:induction false} NewNameFollowsTheList(t: Tally, list: seq<Iface>, name: string)
    requires BaselineOf(t.targets, name).Absent?
    ensures FollowsTheList(AccumulateAll(t, list).targets, list, name)
  {
    if list != [] {
      var n := |list| - 1;
      NewNameFollowsTheList(t, list[..n], name);
      UpdatedBaseline(AccumulateAll(t, list[..n]), list[n], name);
    }
  }

  lemma {:induction false} NewNamesCountNothing(t: Tally, list: seq<Iface>, d: Direction)
    requires Clean(t.targets) && Untracked(t.targets, list) && NoneExceedsItself(list, d)
    ensures Added(AccumulateAll(t, list), d) == Added(t, d)
  {
    if list != [] {
      var n := |list| - 1;
      var q := AccumulateAll(t, list[..n]);
      NoneExceedsItselfBefore(list, n, d);
      NewNamesCountNothing(t, list[..n], d);
      MidwayAfterAll(t, list[..n]);
      NewNameFollowsTheList(t, list[..n], list[n].name);
      AddedGrowth(q, list[n], d);
      assert !ExceedsItself(list, n, d);
    }
  }

  // The sample a successful poll takes.
  function SampleIn(config: Config, v: View, input: Input): RateSample
    requires Succeeds(config, input)
  {
    SampleOf(v.lastPoll, Measure(v.targets, Chosen(config, input)), input.clock)
  }

  lemma {:induction false} SampleIsAppended(config: Config, v: View, input: Input)
    requires Succeeds(config, input)
    ensures var history := PollView(config, v, input).history;
            history != [] && history[|history| - 1] == SampleIn(config, v, input)
  {
  }

  function RateIn(s: RateSample, d: Direction): nat { if d.Rx? then s.rx else s.tx }

  lemma {:induction false} FreshPollCountsNothing(config: Config, run: seq<Input>, input: Input, d: Direction)
    requires Succeeds(config, input) && Unrelated(config, run, input) && NoneExceedsItself(Chosen(config, input), d)
    ensures Added(Measure(AfterRun(config, run).targets, Chosen(config, input)), d) == 0
  {
    BaselinesShareTheTimeBase(config, run);
    NothingTrackedIsChosen(config, run, input);
    NewNamesCountNothing(Tally(AfterRun(config, run).targets, 0, 0), Chosen(config, input), d);
  }

  lemma {:induction false} RateOfNothing(lastPoll: u64, t: Tally, clock: u64, d: Direction)
    requires Added(t, d) == 0
    ensures RateIn(SampleOf(lastPoll, t, clock), d) == 0
  {
    var elapsed: nat := Sub64(clock, lastPoll);
    assert Rate(0, elapsed) == 0;
  }

  // The first success after the start, after a failed selection, or on interfaces none of which was
  // measured by the last success reports a rate of zero, unless some name occurs twice and grows
  // within the snapshot itself.
  lemma {:induction false} FreshBaselineReportsZero(config: Config, run: seq<Input>, input: Input, d: Direction)
    requires Succeeds(config, input) && Unrelated(config, run, input) && NoneExceedsItself(Chosen(config, input), d)
    ensures var history := AfterRun(config, run + [input]).history;
            history != [] && RateIn(history[|history| - 1], d) == 0
  {
    var v := AfterRun(config, run);
    assert (run + [input])[..|run|] == run;
    FreshPollCountsNothing(config, run, input, d);
    RateOfNothing(v.lastPoll, Measure(v.targets, Chosen(config, input)), input.clock, d);
    SampleIsAppended(config, v, input);
  }

  // ----- which bytes one poll counts -----

  // The table is the map from name to counters of one poll's interfaces.
  ghost predicate Tracks(targets: seq<Target>, list: seq<Iface>) {
    Clean(targets) && forall name :: BaselineOf(targets, name) == CountersOf(list, name)
  }

  // Every entry grows from the entry of its name before it, the first one from the baseline.
  function Grown(before: seq<Target>, list: seq<Iface>, d: Direction): nat {
    if list == [] then 0
    else
      var rest, last := list[..|list| - 1], list[|list| - 1];
      Grown(before, rest, d) + Growth(Latest(BaselineOf(before, last.name), rest, last.name), Reading(last), d)
  }

  // Names that still need a slot.
  function Newcomers(before: seq<Target>, list: seq<Iface>): nat {
    if list == [] then 0
    else
      var rest, last := list[..|list| - 1], list[|list| - 1];
      Newcomers(before, rest) + if Latest(BaselineOf(before, last.name), rest, last.name).Absent? then 1 else 0
  }

  // In the middle of a poll: measured interfaces are seen with their new counters, the others still
  // have the old ones.
  ghost predicate Halfway(before: seq<Target>, list: seq<Iface>, now: seq<Target>) {
    && Midway(now, list) && |now| == |before| + Newcomers(before, list)
    && (forall name :: BaselineOf(now, name) == Latest(BaselineOf(before, name), list, name))
    && (forall k | 0 <= k < |now| :: now[k].seen <==> CountersOf(list, now[k].name).Present?)
  }

  lemma {:induction false} PositionIsUnique(targets: seq<Target>, k: nat)
    requires DistinctNames(targets) && k < |targets|
    ensures FindTarget(targets, targets[k].name) == k
  {
  }

  lemma {:induction false} NewcomersOneMore(before: seq<Target>, list: seq<Iface>, iface: Iface)
    ensures Newcomers(before, list + [iface]) == Newcomers(before, list)
         + if Latest(BaselineOf(before, iface.name), list, iface.name).Absent? then 1 else 0
  {
    assert (list + [iface])[..|list|] == list;
  }

  lemma {:induction false} SeenOneMore(list: seq<Iface>, t: Tally, iface: Iface, k: nat)
    requires DistinctNames(t.targets) && k < |Accumulate(t, iface).targets|
    requires forall j | 0 <= j < |t.targets| :: t.targets[j].seen <==> CountersOf(list, t.targets[j].name).Present?
    requires FindTarget(t.targets, iface.name) >= 0 || |t.targets| < MAX_TRACKED
    ensures var e := Accumulate(t, iface).targets[k];
            e.seen <==> CountersOf(list + [iface], e.name).Present?
  {
    CountersOneMore(list, iface, Accumulate(t, iface).targets[k].name);
    if k < |t.targets| { PositionIsUnique(t.targets, k); }
  }

  lemma {:induction false} HalfwayOneMore(before: seq<Target>, list: seq<Iface>, t: Tally, iface: Iface)
    requires Halfway(before, list, t.targets) && |before| + Newcomers(before, list + [iface]) <= MAX_TRACKED
    ensures Halfway(before, list + [iface], Accumulate(t, iface).targets)
  {
    var all, r := list + [iface], Accumulate(t, iface);
    NewcomersOneMore(before, list, iface);
    assert BaselineOf(t.targets, iface.name) == Latest(BaselineOf(before, iface.name), list, iface.name);
    MidwayOneMore(t, list, iface);
    forall name ensures BaselineOf(r.targets, name) == Latest(BaselineOf(before, name), all, name) {
      UpdatedBaseline(t, iface, name);
      CountersOneMore(list, iface, name);
    }
    forall k | 0 <= k < |r.targets| ensures r.targets[k].seen <==> CountersOf(all, r.targets[k].name).Present? {
      SeenOneMore(list, t, iface, k);
    }
  }

  lemma {:induction false} HalfwayAfterAll(before: seq<Target>, list: seq<Iface>)
    requires Clean(before) && |before| + Newcomers(before, list) <= MAX_TRACKED
    ensures Halfway(before, list, AccumulateAll(Tally(before, 0, 0), list).targets)
    ensures forall d :: Added(AccumulateAll(Tally(before, 0, 0), list), d) == Grown(before, list, d)
  {
    if list != [] {
      var n := |list| - 1;
      var t := AccumulateAll(Tally(before, 0, 0), list[..n]);
      assert list[..n] + [list[n]] == list;
      NewcomersOneMore(before, list[..n], list[n]);
      HalfwayAfterAll(before, list[..n]);
      HalfwayOneMore(before, list[..n], t, list[n]);
      forall d ensures Added(Accumulate(t, list[n]), d) == Grown(before, list, d) {
        AddedGrowth(t, list[n], d);
      }
    }
  }

  lemma {:induction false} BaselineOneMore(targets: seq<Target>, t: Target, name: string)
    ensures BaselineOf(targets + [t], name)
         == if BaselineOf(targets, name).Present? then BaselineOf(targets, name)
            else if t.name == name then Present(t.rx, t.tx) else Absent
  {
    var all := targets + [t];
    assert all[|targets|] == t && forall j | 0 <= j < |targets| :: all[j] == targets[j];
  }

  // The baseline of a name among the targets seen in this poll.
  function SeenBaseline(targets: seq<Target>, name: string): Counters {
    var idx := FindTarget(targets, name);
    if idx >= 0 && targets[idx].seen then BaselineOf(targets, name) else Absent
  }

  lemma {:induction false} SeenBaselineOneMore(targets: seq<Target>, t: Target, name: string)
    requires DistinctNames(targets + [t])
    ensures SeenBaseline(targets + [t], name)
         == if t.name == name then (if t.seen then Present(t.rx, t.tx) else Absent) else SeenBaseline(targets, name)
    ensures SeenBaseline(targets, t.name) == Absent
  {
    var all := targets + [t];
    assert all[..|targets|] == targets && all[|targets|] == t;
    assert forall k | 0 <= k < |targets| :: targets[k] == all[k] && all[k].name != t.name;
  }

  lemma {:induction false} EvictedOneMore(targets: seq<Target>, t: Target, kept: seq<Target>, name: string)
    requires DistinctNames(targets + [t]) && BaselineOf(kept, name) == SeenBaseline(targets, name)
    ensures BaselineOf(kept + Kept(t), name) == SeenBaseline(targets + [t], name)
  {
    SeenBaselineOneMore(targets, t, name);
    if t.seen {
      BaselineOneMore(kept, t.(seen := false), name);
    } else {
      assert kept + Kept(t) == kept;
    }
  }

  lemma {:induction false} EvictedBaseline(targets: seq<Target>, name: string)
    requires DistinctNames(targets)
    ensures BaselineOf(Evict(targets), name) == SeenBaseline(targets, name)
  {
    if targets != [] {
      var n := |targets| - 1;
      EvictedBaseline(targets[..n], name);
      assert targets[..n] + [targets[n]] == targets;
      EvictOneMore(targets[..n], targets[n]);
      EvictedOneMore(targets[..n], targets[n], Evict(targets[..n]), name);
    }
  }

  lemma {:induction false} SeenAreListed(before: seq<Target>, list: seq<Iface>, now: seq<Target>, name: string)
    requires Halfway(before, list, now)
    ensures SeenBaseline(now, name) == CountersOf(list, name)
  {
    assert BaselineOf(now, name) == Latest(BaselineOf(before, name), list, name);
  }

  // One All-mode poll of any list that fits: the table becomes the map of this poll's interfaces, and
  // the bytes counted are what every entry grew since the one of its name before it.
  lemma {:induction false} PollCountsEachInterface(before: seq<Target>, list: seq<Iface>)
    requires Clean(before) && |before| + Newcomers(before, list) <= 32
    ensures var t := Measure(before, list);
            Tracks(t.targets, list) && forall d :: Added(t, d) == Grown(before, list, d)
  {
    HalfwayAfterAll(before, list);
    var now := AccumulateAll(Tally(before, 0, 0), list).targets;
    EvictKeepsSeen(now, list);
    forall name ensures BaselineOf(Evict(now), name) == CountersOf(list, name) {
      EvictedBaseline(now, name);
      SeenAreListed(before, list, now, name);
    }
  }

  lemma {:induction false} GrownNothingIff(before: seq<Target>, list: seq<Iface>, d: Direction)
    requires Untracked(before, list)
    ensures Grown(before, list, d) == 0 <==> NoneExceedsItself(list, d)
  {
    if list != [] {
      var n := |list| - 1;
      GrownNothingIff(before, list[..n], d);
      assert Grown(before, list, d) == 0 <==> NoneExceedsItself(list[..n], d) && !ExceedsItself(list, n, d);
      if NoneExceedsItself(list, d) {
        NoneExceedsItselfBefore(list, n, d);
      } else if NoneExceedsItself(list[..n], d) {
        var i :| 0 <= i < |list| && ExceedsItself(list, i, d);
        if i < n {
          assert list[..n][..i] == list[..i];
          assert !ExceedsItself(list[..n], i, d);
        }
      }
    }
  }

  // When the names of a snapshot fit the table, one that meets fresh baselines counts nothing exactly
  // when no entry exceeds the entry of its own name before it.
  lemma {:induction false} FreshBaselineCountsNothingIff(before: seq<Target>, list: seq<Iface>, d: Direction)
    requires Clean(before) && Untracked(before, list) && |before| + Newcomers(before, list) <= MAX_TRACKED
    ensures Added(Measure(before, list), d) == 0 <==> NoneExceedsItself(list, d)
  {
    PollCountsEachInterface(before, list);
    GrownNothingIff(before, list, d);
  }

  // Two entries of one name break the per-interface reading: even the first poll counts bytes.
  lemma {:induction false} DuplicateNamesCountAtOnce(first: Iface, second: Iface)
    requires first.name == second.name
    ensures Measure([], [first, second]).rx == Step(first.rx, second.rx)
    ensures Measure([], [first, second]).tx == Step(first.tx, second.tx)
  {
    var start := Tally([], 0, 0);
    AccumulateSingle(start, first);
    assert Accumulate(start, first) == Tally([Renewed(first)], 0, 0);
    AccumulateOneMore(start, [first], second);
    assert [first] + [second] == [first, second];
    FindInSingle([Renewed(first)], second.name);
  }

  // ----- conservation over runs -----

  // The interface lists of the polls whose snapshot succeeded.
  function Lists(config: Config, run: seq<Input>): seq<seq<Iface>> {
    if run == [] then []
    else
      Lists(config, run[..|run| - 1]) +
      if run[|run| - 1].ifaces.NoIfaces? then [] else [EligibleOf(config, run[|run| - 1].ifaces.list)]
  }

  function LastList(lists: seq<seq<Iface>>): seq<Iface> {
    if lists == [] then [] else lists[|lists| - 1]
  }

  // The number of names of a list that an earlier one does not have.
  function Strangers(before: seq<Iface>, list: seq<Iface>): nat {
    if list == [] then 0
    else
      var rest, last := list[..|list| - 1], list[|list| - 1];
      Strangers(before, rest) + if Latest(CountersOf(before, last.name), rest, last.name).Absent? then 1 else 0
  }

  // The names of two lists in a row fit the table.
  predicate FitsAfter(before: seq<Iface>, list: seq<Iface>) {
    Strangers([], before) + Strangers(before, list) <= MAX_TRACKED
  }

  ghost predicate Fits(lists: seq<seq<Iface>>) {
    forall n | 0 <= n < |lists| :: FitsAfter(LastList(lists[..n]), lists[n])
  }

  // The bytes that a run adds to the totals before rates are taken.
  function Counted(config: Config, run: seq<Input>, d: Direction): nat {
    if run == [] then 0
    else
      var input, prefix := run[|run| - 1], run[..|run| - 1];
      Counted(config, prefix, d) +
      if Succeeds(config, input) then Added(Measure(AfterRun(config, prefix).targets, Chosen(config, input)), d) else 0
  }

  // What the entries of one name grow within a list, given the counters before it.
  function GrowthWithin(before: Counters, list: seq<Iface>, name: string, d: Direction): nat {
    if list == [] then 0
    else
      var rest, last := list[..|list| - 1], list[|list| - 1];
      GrowthWithin(before, rest, name, d) +
      if last.name == name then Growth(Latest(before, rest, name), Reading(last), d) else 0
  }

  // One name's share: every non-decreasing step between two entries of it in a row, within a snapshot
  // or across two consecutive ones that both contain it.
  function Share(lists: seq<seq<Iface>>, name: string, d: Direction): nat {
    if lists == [] then 0
    else
      var earlier := lists[..|lists| - 1];
      Share(earlier, name, d)
      + GrowthWithin(CountersOf(LastList(earlier), name), lists[|lists| - 1], name, d)
  }

  function SumOfShares(lists: seq<seq<Iface>>, names: seq<string>, d: Direction): nat {
    if names == [] then 0
    else SumOfShares(lists, names[..|names| - 1], d) + Share(lists, names[|names| - 1], d)
  }

  function SumOverNames(before: seq<Iface>, now: seq<Iface>, names: seq<string>, d: Direction): nat {
    if names == [] then 0
    else
      var last := names[|names| - 1];
      SumOverNames(before, now, names[..|names| - 1], d) + GrowthWithin(CountersOf(before, last), now, last, d)
  }

  ghost predicate DistinctStrings(names: seq<string>) {
    forall i, j | 0 <= i < j < |names| :: names[i] != names[j]
  }

  ghost predicate Covers(names: seq<string>, list: seq<Iface>) {
    forall i | 0 <= i < |list| :: list[i].name in names
  }

  lemma {:induction false} GrowthWithinOneMore(before: Counters, rest: seq<Iface>, last: Iface, name: string,
                                               d: Direction)
    ensures GrowthWithin(before, rest + [last], name, d) == GrowthWithin(before, rest, name, d)
         + if last.name == name then Growth(Latest(before, rest, name), Reading(last), d) else 0
  {
    assert (rest + [last])[..|rest|] == rest;
  }

  // One more entry adds exactly its own growth to the sum over names.
  lemma {:induction false} OneMoreInterface(before: seq<Iface>, rest: seq<Iface>, last: Iface, names: seq<string>,
                                            d: Direction)
    requires DistinctStrings(names)
    ensures SumOverNames(before, rest + [last], names, d) == SumOverNames(before, rest, names, d)
         + if last.name in names
           then Growth(Latest(CountersOf(before, last.name), rest, last.name), Reading(last), d) else 0
  {
    if names != [] {
      var n := |names| - 1;
      OneMoreInterface(before, rest, last, names[..n], d);
      GrowthWithinOneMore(CountersOf(before, names[n]), rest, last, names[n], d);
      assert names == names[..n] + [names[n]];
    }
  }

  lemma {:induction false} SumByInterfaceIsSumByName(targets: seq<Target>, before: seq<Iface>, now: seq<Iface>,
                                                     names: seq<string>, d: Direction)
    requires Tracks(targets, before) && DistinctStrings(names) && Covers(names, now)
    ensures Grown(targets, now, d) == SumOverNames(before, now, names, d)
  {
    if now == [] {
      NothingGrows(before, names, d);
    } else {
      var n := |now| - 1;
      SumByInterfaceIsSumByName(targets, before, now[..n], names, d);
      OneMoreInterface(before, now[..n], now[n], names, d);
      assert now[..n] + [now[n]] == now;
    }
  }

  lemma {:induction false} NothingGrows(before: seq<Iface>, names: seq<string>, d: Direction)
    ensures SumOverNames(before, [], names, d) == 0
  {
    if names != [] { NothingGrows(before, names[..|names| - 1], d); }
  }

  lemma {:induction false} SharesGrow(lists: seq<seq<Iface>>, now: seq<Iface>, names: seq<string>, d: Direction)
    ensures SumOfShares(lists + [now], names, d)
         == SumOfShares(lists, names, d) + SumOverNames(LastList(lists), now, names, d)
  {
    if names != [] {
      SharesGrow(lists, now, names[..|names| - 1], d);
      assert (lists + [now])[..|lists|] == lists;
    }
  }

  lemma {:induction false} NewcomersAreStrangers(targets: seq<Target>, before: seq<Iface>, list: seq<Iface>)
    requires Tracks(targets, before)
    ensures Newcomers(targets, list) == Strangers(before, list)
  {
    if list != [] {
      NewcomersAreStrangers(targets, before, list[..|list| - 1]);
      assert BaselineOf(targets, list[|list| - 1].name) == CountersOf(before, list[|list| - 1].name);
    }
  }

  function TargetNames(targets: seq<Target>): set<string> {
    if targets == [] then {} else TargetNames(targets[..|targets| - 1]) + {targets[|targets| - 1].name}
  }

  function IfaceNames(list: seq<Iface>): set<string> {
    if list == [] then {} else IfaceNames(list[..|list| - 1]) + {list[|list| - 1].name}
  }

  lemma {:induction false} NameOfTarget(targets: seq<Target>, name: string)
    ensures name in TargetNames(targets) <==> BaselineOf(targets, name).Present?
  {
    if targets != [] {
      var n := |targets| - 1;
      NameOfTarget(targets[..n], name);
      BaselineOneMore(targets[..n], targets[n], name);
      assert targets[..n] + [targets[n]] == targets;
    }
  }

  lemma {:induction false} CountTargets(targets: seq<Target>)
    requires DistinctNames(targets)
    ensures |TargetNames(targets)| == |targets|
  {
    if targets != [] {
      var n := |targets| - 1;
      CountTargets(targets[..n]);
      NameOfTarget(targets[..n], targets[n].name);
    }
  }

  lemma {:induction false} NameOfIface(list: seq<Iface>, name: string)
    ensures name in IfaceNames(list) <==> CountersOf(list, name).Present?
  {
    if list != [] { NameOfIface(list[..|list| - 1], name); }
  }

  lemma {:induction false} CountIfaces(list: seq<Iface>)
    ensures |IfaceNames(list)| == Strangers([], list)
  {
    if list != [] {
      var n := |list| - 1;
      CountIfaces(list[..n]);
      NameOfIface(list[..n], list[n].name);
      assert CountersOf([], list[n].name) == Absent;
      var others := IfaceNames(list[..n]);
      assert list[n].name in others ==> others + {list[n].name} == others;
    }
  }

  lemma {:induction false} TrackedAreTheNames(targets: seq<Target>, list: seq<Iface>)
    requires Tracks(targets, list)
    ensures |targets| == Strangers([], list)
  {
    CountTargets(targets);
    CountIfaces(list);
    forall name ensures name in TargetNames(targets) <==> name in IfaceNames(list) {
      NameOfTarget(targets, name);
      NameOfIface(list, name);
    }
    assert TargetNames(targets) == IfaceNames(list);
  }

  lemma {:induction false} FitsPrefix(lists: seq<seq<Iface>>, now: seq<Iface>)
    requires Fits(lists + [now])
    ensures Fits(lists) && FitsAfter(LastList(lists), now)
  {
    var all := lists + [now];
    assert all[..|lists|] == lists && all[|lists|] == now;
    forall n | 0 <= n < |lists| ensures FitsAfter(LastList(lists[..n]), lists[n]) {
      assert all[..n] == lists[..n] && all[n] == lists[n];
    }
  }

  ghost predicate CoversAll(names: seq<string>, lists: seq<seq<Iface>>) {
    forall n | 0 <= n < |lists| :: Covers(names, lists[n])
  }

  lemma {:induction false} CoversPrefix(names: seq<string>, lists: seq<seq<Iface>>, now: seq<Iface>)
    requires CoversAll(names, lists + [now])
    ensures CoversAll(names, lists) && Covers(names, now)
  {
    var all := lists + [now];
    assert all[|lists|] == now;
    forall n | 0 <= n < |lists| ensures Covers(names, lists[n]) {
      assert all[n] == lists[n];
    }
  }

  lemma {:induction false} ConserveSuccess(config: Config, run: seq<Input>, input: Input, names: seq<string>,
                                           d: Direction)
    requires config.mode.All? && input.ifaces.Ifaces? && DistinctStrings(names)
    requires FitsAfter(LastList(Lists(config, run)), EligibleOf(config, input.ifaces.list))
    requires Covers(names, EligibleOf(config, input.ifaces.list))
    requires Tracks(AfterRun(config, run).targets, LastList(Lists(config, run)))
    ensures var now, last := EligibleOf(config, input.ifaces.list), LastList(Lists(config, run));
            && Lists(config, run + [input]) == Lists(config, run) + [now]
            && Tracks(AfterRun(config, run + [input]).targets, now)
            && Counted(config, run + [input], d) == Counted(config, run, d) + SumOverNames(last, now, names, d)
  {
    var now := EligibleOf(config, input.ifaces.list);
    assert (run + [input])[..|run|] == run;
    ConserveOneMore(AfterRun(config, run).targets, LastList(Lists(config, run)), now, names, d);
  }

  // Over any run in All mode the table is the map of the last successful poll's interfaces, and the
  // bytes counted in each direction are the sum of every name's own share, whatever the others do in
  // the meantime.
  lemma {:induction false} BytesAreConserved(config: Config, run: seq<Input>, names: seq<string>, d: Direction)
    requires config.mode.All? && Fits(Lists(config, run))
    requires DistinctStrings(names) && CoversAll(names, Lists(config, run))
    ensures Tracks(AfterRun(config, run).targets, LastList(Lists(config, run)))
    ensures Counted(config, run, d) == SumOfShares(Lists(config, run), names, d)
  {
    if run == [] {
      NoShares(names, d);
    } else {
      var prefix, input := run[..|run| - 1], run[|run| - 1];
      var lists := Lists(config, prefix);
      assert prefix + [input] == run;
      if input.ifaces.NoIfaces? {
        assert Lists(config, run) == lists;
        BytesAreConserved(config, prefix, names, d);
      } else {
        var now := EligibleOf(config, input.ifaces.list);
        assert Lists(config, run) == lists + [now];
        FitsPrefix(lists, now);
        CoversPrefix(names, lists, now);
        BytesAreConserved(config, prefix, names, d);
        ConserveSuccess(config, prefix, input, names, d);
        SharesGrow(lists, now, names, d);
      }
    }
  }

  lemma {:induction false} NoShares(names: seq<string>, d: Direction)
    ensures SumOfShares([], names, d) == 0
  {
    if names != [] { NoShares(names[..|names| - 1], d); }
  }

  lemma {:induction false} ConserveOneMore(targets: seq<Target>, before: seq<Iface>, now: seq<Iface>,
                                           names: seq<string>, d: Direction)
    requires Tracks(targets, before) && FitsAfter(before, now) && DistinctStrings(names) && Covers(names, now)
    ensures Tracks(Measure(targets, now).targets, now)
    ensures Added(Measure(targets, now), d) == SumOverNames(before, now, names, d)
  {
    TrackedAreTheNames(targets, before);
    NewcomersAreStrangers(targets, before, now);
    PollCountsEachInterface(targets, now);
    SumByInterfaceIsSumByName(targets, before, now, names, d);
  }

  // However many snapshots fail in between, the next success counts everything that the interfaces
  // grew since the last success.
  lemma {:induction false} FailedSnapshotsLoseNothing(config: Config, run: seq<Input>, failed: seq<Input>,
                                                      input: Input, names: seq<string>, d: Direction)
    requires config.mode.All? && input.ifaces.Ifaces? && DistinctStrings(names)
    requires forall i | 0 <= i < |failed| :: failed[i].ifaces.NoIfaces?
    requires Fits(Lists(config, run + [input])) && CoversAll(names, Lists(config, run + [input]))
    ensures var last, now := LastList(Lists(config, run)), EligibleOf(config, input.ifaces.list);
            Counted(config, run + failed + [input], d)
            == Counted(config, run + failed, d) + SumOverNames(last, now, names, d)
  {
    var now := EligibleOf(config, input.ifaces.list);
    assert (run + [input])[..|run|] == run;
    assert Lists(config, run + [input]) == Lists(config, run) + [now];
    FitsPrefix(Lists(config, run), now);
    CoversPrefix(names, Lists(config, run), now);
    BytesAreConserved(config, run, names, d);
    FailedSnapshotsLeaveNoTrace(config, run, failed);
    ConserveSuccess(config, run + failed, input, names, d);
  }

  // A name that occurs at most once in a snapshot gets one step from the snapshot before.
  lemma {:induction false} ShareOfSingleEntry(lists: seq<seq<Iface>>, now: seq<Iface>, name: string, d: Direction)
    requires forall i, j | 0 <= i < j < |now| :: !(now[i].name == now[j].name == name)
    ensures Share(lists + [now], name, d)
         == Share(lists, name, d) + Growth(CountersOf(LastList(lists), name), CountersOf(now, name), d)
  {
    assert (lists + [now])[..|lists|] == lists;
    SingleEntryGrows(CountersOf(LastList(lists), name), now, name, d);
  }

  lemma {:induction false} SingleEntryGrows(before: Counters, now: seq<Iface>, name: string, d: Direction)
    requires forall i, j | 0 <= i < j < |now| :: !(now[i].name == now[j].name == name)
    ensures GrowthWithin(before, now, name, d) == Growth(before, CountersOf(now, name), d)
  {
    if now != [] {
      var n := |now| - 1;
      SingleEntryGrows(before, now[..n], name, d);
      CountersOfStranger(now[..n], name);
    }
  }
}
