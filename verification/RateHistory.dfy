// The sample history and the tray's shorter window over it, after any run.

module RateHistory {
  import opened Slices
  import opened Statuses
  import opened Sampler
  import opened SamplerRuns

  const GRAPH_POINTS := 32

  // The sample of every successful poll of a run.
  function Samples(config: Config, run: seq<Input>): seq<RateSample> {
    if run == [] then []
    else
      var before, input := AfterRun(config, run[..|run| - 1]), run[|run| - 1];
      Samples(config, run[..|run| - 1]) +
      if Succeeds(config, input)
      then [SampleIn(config, before, input)] else []
  }

  function Rates(samples: seq<RateSample>): (r: seq<nat>)
    ensures |r| == |samples|
  {
    seq(|samples|, i requires 0 <= i < |samples| => samples[i].rx)
  }

  lemma {:induction false} LastOfLast<T>(s: seq<T>, n: nat, m: nat)
    requires m <= n
    ensures LastN(LastN(s, n), m) == LastN(s, m)
  {
  }

  lemma {:induction false} LastOneMore<T>(s: seq<T>, x: T, n: nat)
    ensures LastN(LastN(s, n) + [x], n) == LastN(s + [x], n)
  {
  }

  // Whatever happened, the history holds the newest samples, at most 300, oldest first.
  lemma {:induction false} HistoryAfterAnyRun(config: Config, run: seq<Input>)
    ensures AfterRun(config, run).history == LastN(Samples(config, run), 300)
  {
    if run != [] {
      var prefix, input := run[..|run| - 1], run[|run| - 1];
      HistoryAfterAnyRun(config, prefix);
      if Succeeds(config, input) {
        var before := AfterRun(config, prefix);
        LastOneMore(Samples(config, prefix), SampleIn(config, before, input), HISTORY_CAP);
      }
    }
  }

  // The window of rates the tray draws: while it fills up it appends, afterwards it shifts.
  class RateWindow {
    const points: array<nat>
    var count: nat

    ghost predicate Valid()
      reads this
    {
      points.Length == GRAPH_POINTS && count <= GRAPH_POINTS
    }

    ghost function View(): seq<nat>
      reads this, points
      requires Valid()
    {
      points[..count]
    }

    constructor ()
      ensures Valid() && View() == [] && fresh(points)
    {
      points := new nat[GRAPH_POINTS](_ => 0);
      count := 0;
    }

    method ShiftDown()
      requires Valid()
      modifies points
      ensures forall k | 0 <= k < GRAPH_POINTS - 1 :: points[k] == old(points[k + 1])
    {
      var i := 0;
      while i < GRAPH_POINTS - 1
        invariant 0 <= i <= GRAPH_POINTS - 1
        invariant forall k | 0 <= k < i :: points[k] == old(points[k + 1])
        invariant forall k | i <= k < GRAPH_POINTS :: points[k] == old(points[k])
      {
        points[i] := points[i + 1];
        i := i + 1;
      }
    }

    method Push(rate: nat)
      requires Valid()
      modifies this`count, points
      ensures Valid() && View() == LastN(old(View()) + [rate], GRAPH_POINTS)
    {
      if count < GRAPH_POINTS {
        points[count] := rate;
        count := count + 1;
      } else {
        ShiftDown();
        points[GRAPH_POINTS - 1] := rate;
      }
    }
  }

  lemma {:induction false} RatesOneMore(samples: seq<RateSample>, sample: RateSample)
    ensures Rates(samples + [sample]) == Rates(samples) + [sample.rx]
  {
  }

  lemma {:induction false} RatesOfLast(samples: seq<RateSample>, n: nat)
    ensures Rates(LastN(samples, n)) == LastN(Rates(samples), n)
  {
  }

  // What one poll adds, seen from the window and from the history.
  lemma {:induction false} OneMorePoll(config: Config, run: seq<Input>, input: Input)
    ensures AfterRun(config, run + [input]) == PollView(config, AfterRun(config, run), input)
    ensures Samples(config, run + [input])
         == Samples(config, run) +
            if Succeeds(config, input)
            then [SampleIn(config, AfterRun(config, run), input)] else []
  {
    assert (run + [input])[..|run|] == run;
  }

  lemma {:induction false} WindowOneMore(config: Config, run: seq<Input>, input: Input, window: seq<nat>)
    requires window == LastN(Rates(Samples(config, run)), GRAPH_POINTS)
    ensures var after := AfterRun(config, run + [input]);
            LastN(Rates(Samples(config, run + [input])), GRAPH_POINTS)
            == if Succeeds(config, input) && after.history != []
               then LastN(window + [after.history[|after.history| - 1].rx], GRAPH_POINTS) else window
  {
    OneMorePoll(config, run, input);
    if Succeeds(config, input) {
      var before := AfterRun(config, run);
      var sample := SampleIn(config, before, input);
      RatesOneMore(Samples(config, run), sample);
      LastOneMore(Rates(Samples(config, run)), sample.rx, GRAPH_POINTS);
    }
  }

  // The newest sample is the last of the history.
  lemma {:induction false} NewestSample(config: Config, run: seq<Input>, input: Input)
    ensures var samples, after := Samples(config, run + [input]), AfterRun(config, run + [input]);
            if Succeeds(config, input)
            then after.history != [] && samples != [] && samples[|samples| - 1] == after.history[|after.history| - 1]
            else samples == Samples(config, run)
  {
    OneMorePoll(config, run, input);
    if Succeeds(config, input) { SampleIsAppended(config, AfterRun(config, run), input); }
  }

  lemma {:induction false} StatusOfPoll(config: Config, input: Input)
    requires Answers(input)
    ensures PollStatus(config, input) == Ok <==> Succeeds(config, input)
  {
  }

  // What the tray shows: the newest sample, if any, and the window.
  datatype Shown = Shown(hasSample: bool, latest: RateSample, window: seq<nat>)

  // A run leaves the sampler in one state, the window as the tail of all samples, and the newest one.
  ghost predicate Follows(config: Config, run: seq<Input>, v: View, shown: Shown) {
    var samples := Samples(config, run);
    && v == AfterRun(config, run)
    && shown.window == LastN(Rates(samples), GRAPH_POINTS)
    && (shown.hasSample <==> samples != [])
    && (shown.hasSample ==> shown.latest == samples[|samples| - 1])
  }

  function Publish(shown: Shown, sample: RateSample): Shown {
    Shown(true, sample, LastN(shown.window + [sample.rx], GRAPH_POINTS))
  }

  function Published(shown: Shown, status: Status, v: View): Shown {
    if status == Ok && v.history != [] then Publish(shown, v.history[|v.history| - 1]) else shown
  }

  lemma {:induction false} FollowsOneMore(config: Config, run: seq<Input>, v: View, shown: Shown, input: Input)
    requires Follows(config, run, v, shown) && Answers(input)
    ensures var after := PollView(config, v, input);
            Follows(config, run + [input], after, Published(shown, PollStatus(config, input), after))
  {
    OneMorePoll(config, run, input);
    NewestSample(config, run, input);
    StatusOfPoll(config, input);
    WindowOneMore(config, run, input, shown.window);
  }

  // The sampler thread: it polls, publishes the newest sample and feeds the window.
  class SamplerWorker {
    const sampler: RateSampler
    const window: RateWindow
    var latest: RateSample
    var latestStatus: Status
    var hasSample: bool

    ghost predicate Valid()
      reads this, sampler, window
    {
      && sampler.Valid() && window.Valid()
      && Wired(sampler.config, sampler.sources)
    }

    ghost function Display(): Shown
      reads this, window, window.points
      requires window.Valid()
    {
      Shown(hasSample, latest, window.View())
    }

    ghost predicate InStep(run: seq<Input>)
      reads this, sampler, window, sampler.targets, sampler.history, window.points
      requires Valid()
    {
      Follows(sampler.config, run, sampler.AsView(), Display())
    }

    constructor (config: Config, given: Sources)
      requires Wired(config, given)
      ensures Valid() && InStep([]) && sampler.config == config
      ensures fresh(sampler) && fresh(window) && fresh(sampler.targets) && fresh(sampler.history)
          && fresh(window.points)
    {
      sampler := new RateSampler(config);
      window := new RateWindow();
      latest, latestStatus, hasSample := RateSample(0, 0, 0), Status.Ok, false;
      new;
      sampler.SetSources(given);
    }

    method PublishSample(sample: RateSample)
      requires window.Valid()
      modifies this`latest, this`hasSample, window`count, window.points
      ensures window.Valid() && Display() == Publish(old(Display()), sample)
    {
      latest := sample;
      hasSample := true;
      window.Push(sample.rx);
    }

    method PollAndPublish(input: Input)
      requires Valid() && Answers(input)
      modifies this`latest, this`latestStatus, this`hasSample, window`count, window.points,
               sampler`lastPoll, sampler`targetCount, sampler`historyCount, sampler`historyHead, sampler.targets,
               sampler.history
      ensures Valid() && latestStatus == PollStatus(sampler.config, input)
      ensures sampler.AsView() == PollView(sampler.config, old(sampler.AsView()), input)
      ensures Display() == Published(old(Display()), latestStatus, sampler.AsView())
    {
      var status, sample := sampler.Poll(input, true);
      latestStatus := status;
      if status == Ok { PublishSample(sample); }
    }

    // One turn of the loop. A paused worker does nothing.
    method PollOnce(paused: bool, input: Input, ghost run: seq<Input>)
      requires Valid() && Answers(input) && InStep(run)
      modifies this`latest, this`latestStatus, this`hasSample, window`count, window.points,
               sampler`lastPoll, sampler`targetCount, sampler`historyCount, sampler`historyHead, sampler.targets,
               sampler.history
      ensures Valid() && InStep(if paused then run else run + [input])
      ensures latestStatus == if paused then old(latestStatus) else PollStatus(sampler.config, input)
    {
      if !paused {
        FollowsOneMore(sampler.config, run, sampler.AsView(), Display(), input);
        PollAndPublish(input);
      }
    }
  }

  // The window always shows the newest of the samples the history holds.
  lemma {:induction false} WindowFollowsHistory(config: Config, run: seq<Input>)
    ensures LastN(Rates(Samples(config, run)), GRAPH_POINTS)
         == Rates(LastN(AfterRun(config, run).history, GRAPH_POINTS))
  {
    HistoryAfterAnyRun(config, run);
    LastOfLast(Samples(config, run), HISTORY_CAP, GRAPH_POINTS);
    RatesOfLast(Samples(config, run), GRAPH_POINTS);
  }

  // The window shows 32 rates once there are that many, and the newest is the download rate of the newest
  // sample, which is also the last of the history.
  lemma {:induction false} WindowEndsWithTheDownloadRate(config: Config, run: seq<Input>, v: View, shown: Shown)
    requires Follows(config, run, v, shown)
    ensures |shown.window| == var n := |Samples(config, run)|; if n < 32 then n else 32
    ensures shown.hasSample ==> && shown.window != [] && shown.window[|shown.window| - 1] == shown.latest.rx
                                && v.history != [] && v.history[|v.history| - 1] == shown.latest
  {
    HistoryAfterAnyRun(config, run);
  }
}
