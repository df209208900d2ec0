// Which interfaces a sampler poll measures, when it fails, and what the rate of its sample means.

module SamplerLaws {
  import opened Sampler
  import opened SamplerRuns
  import opened Statuses
  import opened Words

  ghost predicate Listed(list: seq<Iface>, name: string) {
    exists i :: 0 <= i < |list| && list[i].name == name
  }

  // The interface Auto and Manual are after.
  function Wanted(config: Config, input: Input): string
    requires !config.mode.All? && (config.mode.Auto? ==> input.route.Default?)
  {
    if config.mode.Manual? then config.ifaceName else input.route.name
  }

  // ----- when a poll succeeds -----

  // A poll fails exactly when its snapshot does, when Auto has no default route, or when the
  // interface wanted is not listed; the status says which. All mode never fails on a snapshot.
  lemma {:induction false} PollFailsExactlyWhen(config: Config, input: Input)
    requires Answers(input)
    ensures match input.ifaces
            case NoIfaces(status) => PollStatus(config, input) == status
            case Ifaces(list) =>
              if config.mode.All? then PollStatus(config, input) == Ok
              else if config.mode.Auto? && input.route.NoDefault? then PollStatus(config, input) == input.route.status
              else PollStatus(config, input) == if Listed(list, Wanted(config, input)) then Ok else NotFound
    ensures PollStatus(config, input) == Ok <==> Succeeds(config, input)
  {
    if input.ifaces.Ifaces? && !config.mode.All? && !(config.mode.Auto? && input.route.NoDefault?) {
      var list, name := input.ifaces.list, Wanted(config, input);
      var idx := FindIface(list, name);
      if idx >= 0 { assert Listed(list, name); }
    }
  }

  // ----- which interfaces are measured -----

  // The first interface of a name, as the table holds it after a poll.
  ghost predicate HoldsFirst(targets: seq<Target>, list: seq<Iface>, name: string) {
    exists i :: 0 <= i < |list| && list[i].name == name && (forall j | 0 <= j < i :: list[j].name != name)
                && targets == [Target(name, list[i].rx, list[i].tx, true, false)]
  }

  lemma {:induction false} SingleModeTable(config: Config, v: View, input: Input)
    requires Clean(v.targets) && |v.targets| <= 1 && !config.mode.All? && Succeeds(config, input)
    ensures config.mode.Auto? ==> input.route.Default?
    ensures HoldsFirst(PollView(config, v, input).targets, input.ifaces.list, Wanted(config, input))
  {
    var list, chosen := input.ifaces.list, Chosen(config, input);
    AccumulateSingle(Tally(v.targets, 0, 0), chosen[0]);
    assert chosen == [chosen[0]];
    SingleTarget(v.targets, chosen[0]);
    var idx := FindIface(list, Wanted(config, input));
    assert list[idx] == chosen[0];
  }

  // Over any run: after a success in Auto mode the table holds exactly the interface of the default
  // route, in Manual mode exactly the one of the configured name, with its new counters.
  lemma {:induction false} SingleModeMeasuresTheWanted(config: Config, run: seq<Input>, input: Input)
    requires !config.mode.All? && Answers(input) && PollStatus(config, input) == Ok
    ensures input.ifaces.Ifaces? && (config.mode.Auto? ==> input.route.Default?)
    ensures HoldsFirst(AfterRun(config, run + [input]).targets, input.ifaces.list,
                       if config.mode.Manual? then config.ifaceName else input.route.name)
  {
    PollFailsExactlyWhen(config, input);
    BaselinesShareTheTimeBase(config, run);
    assert (run + [input])[..|run|] == run;
    SingleModeTable(config, AfterRun(config, run), input);
  }

  // Auto and Manual count what the interface has grown since it was last measured, nothing when its
  // counter went down, and nothing when the table holds another interface or none.
  lemma {:induction false} SingleModeCountsGrowth(config: Config, v: View, input: Input, d: Direction)
    requires Clean(v.targets) && |v.targets| <= 1 && !config.mode.All? && Succeeds(config, input)
    ensures var iface := Chosen(config, input)[0];
            && (config.mode.Auto? ==> input.route.Default?)
            && iface in input.ifaces.list && iface.name == Wanted(config, input)
            && var before, now := BaselineOf(v.targets, iface.name), if d.Rx? then iface.rx else iface.tx;
               Added(Measure(v.targets, Chosen(config, input)), d)
               == if before.Present? && now >= Count(before, d) then now - Count(before, d) else 0
  {
    var list := Chosen(config, input);
    assert list == [list[0]] && list[..0] == [];
    assert Newcomers(v.targets, list[..0]) == 0 && Grown(v.targets, list[..0], d) == 0;
    PollCountsEachInterface(v.targets, list);
  }

  // A counter that went down adds nothing, any other the difference, and the directions are judged
  // apart.
  lemma {:induction false} ResetCountsNothing(before: Counters, now: Counters, d: Direction)
    requires before.Present? && now.Present?
    ensures var first: int, second: int := if d.Rx? then before.rx else before.tx, if d.Rx? then now.rx else now.tx;
            Growth(before, now, d) == if second < first then 0 else second - first
  {
  }

  // Loopback interfaces never count, virtual ones only when they are asked for; nothing else is left
  // out, and entries that occur twice are measured twice.
  lemma {:induction false} AllModeMeasuresTheRest(config: Config, list: seq<Iface>, iface: Iface)
    ensures multiset(EligibleOf(config, list))[iface]
         == if !iface.loopback && (!iface.virtual || config.includeVirtual) then multiset(list)[iface] else 0
  {
    if list != [] {
      var n := |list| - 1;
      AllModeMeasuresTheRest(config, list[..n], iface);
      assert list == list[..n] + [list[n]];
    }
  }

  // In All mode, when the names fit the table, it holds exactly the names of the listed interfaces
  // that count.
  lemma {:induction false} AllModeTracksTheRest(config: Config, v: View, input: Input, name: string)
    requires config.mode.All? && input.ifaces.Ifaces? && Clean(v.targets)
    requires |v.targets| + Newcomers(v.targets, EligibleOf(config, input.ifaces.list)) <= MAX_TRACKED
    ensures var list := input.ifaces.list;
            BaselineOf(PollView(config, v, input).targets, name).Present?
            <==> exists i :: 0 <= i < |list| && list[i].name == name && !list[i].loopback
                             && (!list[i].virtual || config.includeVirtual)
  {
    var list := input.ifaces.list;
    PollCountsEachInterface(v.targets, EligibleOf(config, list));
    NamesOfEligible(config, list, name);
  }

  lemma {:induction false} NamesOfEligible(config: Config, list: seq<Iface>, name: string)
    ensures CountersOf(EligibleOf(config, list), name).Present?
       <==> exists i :: 0 <= i < |list| && list[i].name == name && !list[i].loopback
                        && (!list[i].virtual || config.includeVirtual)
  {
    if list != [] {
      var n := |list| - 1;
      var rest, eligible := EligibleOf(config, list[..n]), EligibleOf(config, list);
      NamesOfEligible(config, list[..n], name);
      if !list[n].loopback && (!list[n].virtual || config.includeVirtual) {
        assert eligible[..|eligible| - 1] == rest;
      } else {
        assert eligible == rest;
      }
      assert forall i | 0 <= i < n :: list[..n][i] == list[i];
    }
  }

  // ----- what a sample says -----

  // The whole number nearest to bytes per second, half rounded up.
  ghost predicate NearestRate(rate: nat, bytes: nat, elapsedNs: nat) {
    elapsedNs > 0 && 2 * rate * elapsedNs <= 2 * bytes * 1_000_000_000 + elapsedNs < 2 * (rate + 1) * elapsedNs
  }

  lemma {:induction false} FloorOf(a: nat, b: nat)
    requires b > 0
    ensures a / b * b <= a < (a / b + 1) * b
  {
    assert a == a / b * b + a % b;
  }

  lemma {:induction false} RateIsNearest(bytes: nat, elapsed: nat)
    ensures if elapsed == 0 then Rate(bytes, elapsed) == 0 else NearestRate(Rate(bytes, elapsed), bytes, elapsed)
  {
    if elapsed > 0 {
      var a, b, r := 2 * bytes * NS_PER_SECOND + elapsed, 2 * elapsed, Rate(bytes, elapsed);
      FloorOf(a, b);
      assert r * b == 2 * r * elapsed && (r + 1) * b == 2 * (r + 1) * elapsed;
    }
  }

  // Time since the last success, modulo 64 bits; since 0 when there was none.
  function ElapsedSince(config: Config, run: seq<Input>, clock: u64): nat {
    var last := LastOf(config, run);
    (clock as int - (if last.At? then last.clock as int else 0)) % 0x1_0000_0000_0000_0000
  }

  // Over any run: a success adds one sample, stamped with its clock reading, whose rate in each
  // direction is the bytes this poll counted over the time since the last success, rounded to the
  // nearest whole number.
  lemma {:induction false} SampleIsTheRateSinceLastSuccess(config: Config, run: seq<Input>, input: Input,
                                                           d: Direction)
    requires Succeeds(config, input)
    ensures var history := AfterRun(config, run + [input]).history;
            var bytes := Counted(config, run + [input], d) - Counted(config, run, d);
            var elapsed := ElapsedSince(config, run, input.clock);
            && history != [] && 0 <= bytes && 0 <= elapsed
            && history[|history| - 1].timestamp == input.clock
            && (bytes < 0x1_0000_0000_0000_0000 ==>
                  var rate := RateIn(history[|history| - 1], d);
                  if elapsed == 0 then rate == 0 else NearestRate(rate, bytes, elapsed))
  {
    var v := AfterRun(config, run);
    assert (run + [input])[..|run|] == run;
    BaselinesShareTheTimeBase(config, run);
    SampleIsAppended(config, v, input);
    var t := Measure(v.targets, Chosen(config, input));
    RateIsNearest(Added(t, d), ElapsedSince(config, run, input.clock));
    SmallIsUnchanged(Added(t, d));
  }

  lemma {:induction false} SmallIsUnchanged(n: nat)
    ensures n < TWO_TO_THE_64 ==> n % TWO_TO_THE_64 == n
  {
  }
}
