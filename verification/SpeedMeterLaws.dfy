// What the flags of the speed meter mean to its user: when a test is cancelled, when a new one can be
// started, and what a worker still does once the window is gone.

module SpeedMeterLaws {
  import opened Options
  import opened SpeedMeter

  // cancel_test, stop_test and the destruction ask the worker to stop.
  predicate Requests(a: Action) { a.Cancel? || a.Stop? || a.RequestCancel? }

  lemma {:induction false} ExitedStays(states: seq<State>, i: nat, j: nat, id: nat)
    requires SafeRun(states) && i <= j < |states| && Over(states[i], id)
    ensures Over(states[j], id)
  {
    if i < j {
      ExitedStays(states, i, j - 1, id);
      assert Safe(states[j - 1], states[j]);
    }
  }

  lemma {:induction false} LiveBefore(states: seq<State>, i: nat, j: nat, id: nat)
    requires SafeRun(states) && i <= j < |states| && id < |states[i].workers| && Live(states[j], id)
    ensures Live(states[i], id)
  {
    if Over(states[i], id) { ExitedStays(states, i, j, id); }
  }

  // Once the UI thread asks for it, the worker of that moment sees the cancel flag for as long as it
  // is live.
  lemma {:induction false} CancelReachesTheWorker(states: seq<State>, actions: seq<Action>, i: nat, j: nat, id: nat)
    requires IsRun(states, actions) && states[0] == START && i < |actions| && i < j < |states|
    requires Requests(actions[i]) && Live(states[i], id) && Live(states[j], id)
    ensures states[j].cancel
  {
    FlagsOfRun(states, actions);
    assert FlagChange(states[i], actions[i], states[i + 1]);
    CancelSticks(states, actions, i + 1, j, id);
  }

  // What one step does to the cancel flag and to the list of workers.
  ghost predicate FlagChange(s: State, a: Action, t: State) {
    && t.cancel == (if Requests(a) then true else if a.ResetCancel? then false else s.cancel)
    && (forall id | 0 <= id < |s.workers| :: a.Work? || (id < |t.workers| && t.workers[id] == s.workers[id]))
    && |t.workers| == |s.workers| + (if a == Create(true) then 1 else 0)
    && (a == Create(true) ==> t.workers[|s.workers|].Created?)
    && (a.ResetCancel? <==> s.ui.StartReset? && t.ui.StartCreate?)
    && (t.ui.StartCreate? ==> a.ResetCancel? || s.ui.StartCreate?)
    && (a == Create(true) ==> s.ui.StartCreate?)
    && (Requests(a) ==> !t.ui.StartCreate?)
    && (a.ResetCancel? ==> AllOver(s))
  }

  lemma {:induction false} FlagsOfStart(s: State, a: Action)
    requires Inv(s) && StartNext(s, a).Some?
    ensures FlagChange(s, a, StartNext(s, a).value)
  {
  }

  lemma {:induction false} FlagsOfStop(s: State, a: Action)
    requires Inv(s) && StopNext(s, a).Some?
    ensures FlagChange(s, a, StopNext(s, a).value)
  {
  }

  lemma {:induction false} FlagsOfDestroy(s: State, a: Action)
    requires Inv(s) && DestroyNext(s, a).Some?
    ensures FlagChange(s, a, DestroyNext(s, a).value)
  {
  }

  lemma {:induction false} FlagsOfFinish(s: State, a: Action)
    requires Inv(s) && FinishNext(s, a).Some?
    ensures FlagChange(s, a, FinishNext(s, a).value)
  {
  }

  lemma {:induction false} FlagsOfWork(s: State, a: Action)
    requires Inv(s) && WorkNext(s, a).Some?
    ensures FlagChange(s, a, WorkNext(s, a).value)
  {
  }

  lemma {:induction false} FlagsOfWait(s: State, a: Action)
    requires Inv(s) && WaitNext(s, a).Some?
    ensures FlagChange(s, a, WaitNext(s, a).value)
  {
  }

  lemma {:induction false} FlagsOfStep(s: State, a: Action)
    requires Inv(s) && Next(s, a).Some?
    ensures FlagChange(s, a, Next(s, a).value)
  {
    if StartNext(s, a).Some? { FlagsOfStart(s, a); }
    else if StopNext(s, a).Some? { FlagsOfStop(s, a); }
    else if DestroyNext(s, a).Some? { FlagsOfDestroy(s, a); }
    else if FinishNext(s, a).Some? { FlagsOfFinish(s, a); }
    else if WorkNext(s, a).Some? { FlagsOfWork(s, a); }
    else { FlagsOfWait(s, a); }
  }

  // The flag is clear from its reset until the next worker is created.
  ghost predicate ClearForTheNext(s: State) { s.ui.StartCreate? ==> !s.cancel }

  lemma {:induction false} ClearStep(s: State, a: Action, t: State)
    requires FlagChange(s, a, t) && ClearForTheNext(s)
    ensures ClearForTheNext(t)
  {
  }

  ghost predicate FlagRun(states: seq<State>, actions: seq<Action>) {
    && |states| == |actions| + 1 && states[0] == START
    && forall i | 0 <= i < |actions| :: FlagChange(states[i], actions[i], states[i + 1])
  }

  lemma {:induction false} FlagsOfRun(states: seq<State>, actions: seq<Action>)
    requires IsRun(states, actions) && states[0] == START
    ensures FlagRun(states, actions)
  {
    RunIsSafe(states, actions);
    forall i | 0 <= i < |actions| ensures FlagChange(states[i], actions[i], states[i + 1]) {
      SafeRunInv(states, i);
      assert Next(states[i], actions[i]) == Some(states[i + 1]);
      FlagsOfStep(states[i], actions[i]);
    }
  }

  lemma {:induction false} ClearOverRun(states: seq<State>, actions: seq<Action>, i: nat)
    requires FlagRun(states, actions) && i < |states|
    ensures ClearForTheNext(states[i])
  {
    if i > 0 {
      ClearOverRun(states, actions, i - 1);
      ClearStep(states[i - 1], actions[i - 1], states[i]);
    }
  }

  // What one step does to the flag as far as a live worker is concerned.
  lemma {:induction false} FlagStep(s: State, a: Action, t: State, id: nat)
    requires FlagChange(s, a, t) && ClearForTheNext(s) && Live(t, id) && (id < |s.workers| ==> Live(s, id))
    ensures id < |s.workers| ==> (t.cancel <==> s.cancel || Requests(a))
    ensures id >= |s.workers| ==> !t.cancel && !Requests(a)
  {
  }

  ghost predicate RequestedBefore(states: seq<State>, actions: seq<Action>, j: nat, id: nat)
    requires IsRun(states, actions) && j < |states|
  {
    exists i :: 0 <= i < j && Requests(actions[i]) && Live(states[i], id)
  }

  // A live worker sees the cancel flag exactly when its cancellation was requested since it was
  // created: no request is lost, and none meant for an earlier test is left over.
  lemma {:induction false} CancelledIffRequested(states: seq<State>, actions: seq<Action>, j: nat, id: nat)
    requires IsRun(states, actions) && states[0] == START && j < |states| && Live(states[j], id)
    ensures states[j].cancel <==> RequestedBefore(states, actions, j, id)
  {
    if j > 0 {
      var k := j - 1;
      RunIsSafe(states, actions);
      FlagsOfRun(states, actions);
      ClearOverRun(states, actions, k);
      if id < |states[k].workers| { LiveBefore(states, k, j, id); }
      FlagStep(states[k], actions[k], states[j], id);
      if id < |states[k].workers| {
        CancelledIffRequested(states, actions, k, id);
        RequestedOneMore(states, actions, k, id);
      } else {
        NotYetCreated(states, actions, j, id);
      }
    }
  }

  lemma {:induction false} RequestedOneMore(states: seq<State>, actions: seq<Action>, k: nat, id: nat)
    requires IsRun(states, actions) && k < |actions| && Live(states[k], id)
    ensures RequestedBefore(states, actions, k + 1, id)
       <==> RequestedBefore(states, actions, k, id) || Requests(actions[k])
  {
  }

  lemma {:induction false} NotYetCreated(states: seq<State>, actions: seq<Action>, j: nat, id: nat)
    requires IsRun(states, actions) && SafeRun(states) && 0 < j < |states| && id >= |states[j - 1].workers|
    ensures !RequestedBefore(states, actions, j, id)
  {
    forall i | 0 <= i < j ensures !Live(states[i], id) {
      WorkersOnlyGrow(states, i, j - 1);
    }
  }

  // ----- when a new test can be started -----

  predicate Busy(w: Worker) { !w.Checking? && !w.Exited? }

  // A test is in progress: a worker has not yet published its result and cleared the running flag.
  ghost predicate InTest(s: State) {
    exists id :: 0 <= id < |s.workers| && Busy(s.workers[id])
  }

  // As long as the window is open the running flag stands for a test in progress or about to start.
  ghost predicate RunningOk(s: State) {
    match s.ui
    case Idle => s.window ==> (s.running <==> InTest(s))
    case StartClaimed | StartReset | StartCreate | StartFailed => s.running && !InTest(s)
    case StartAssign(_) | StopJoin => s.running <==> InTest(s)
    case StopClear => !s.running && !InTest(s)
    case _ => true
  }

  lemma {:induction false} OnlyLatestIsBusy(s: State)
    requires Inv(s)
    ensures InTest(s) <==> s.workers != [] && Busy(s.workers[|s.workers| - 1])
  {
  }

  lemma {:induction false} RunningAfterStart(s: State, a: Action)
    requires Inv(s) && RunningOk(s) && StartNext(s, a).Some?
    ensures RunningOk(StartNext(s, a).value)
  {
    var t := StartNext(s, a).value;
    StartIsSafe(s, a);
    OnlyLatestIsBusy(s);
    OnlyLatestIsBusy(t);
  }

  lemma {:induction false} RunningAfterStop(s: State, a: Action)
    requires Inv(s) && RunningOk(s) && StopNext(s, a).Some?
    ensures RunningOk(StopNext(s, a).value)
  {
    var t := StopNext(s, a).value;
    StopIsSafe(s, a);
    OnlyLatestIsBusy(s);
    OnlyLatestIsBusy(t);
  }

  lemma {:induction false} NotOpenAnyMore(s: State)
    requires s.ui.DestroyCancel? || s.ui.DestroyMark? || s.ui.DestroyPoll? || s.ui.DestroyRegister?
             || s.ui.DestroyFallback? || s.ui.DestroyJoin? || s.ui.UiCompleting? || s.ui.Gone?
    ensures RunningOk(s)
  {
  }

  lemma {:induction false} RunningAfterDestroy(s: State, a: Action)
    requires DestroyNext(s, a).Some?
    ensures RunningOk(DestroyNext(s, a).value)
  {
    NotOpenAnyMore(DestroyNext(s, a).value);
  }

  lemma {:induction false} RunningAfterFinish(s: State, a: Action)
    requires FinishNext(s, a).Some?
    ensures RunningOk(FinishNext(s, a).value)
  {
  }

  lemma {:induction false} RunningAfterWait(s: State, a: Action)
    requires Inv(s) && WaitNext(s, a).Some?
    ensures RunningOk(WaitNext(s, a).value)
  {
    assert s.ui.Gone?;
  }

  lemma {:induction false} RunningAfterWork(s: State, a: Action)
    requires Inv(s) && RunningOk(s) && WorkNext(s, a).Some?
    ensures RunningOk(WorkNext(s, a).value)
  {
    var t := WorkNext(s, a).value;
    WorkIsSafe(s, a);
    OnlyLatestIsBusy(s);
    OnlyLatestIsBusy(t);
    assert a.id == |s.workers| - 1;
  }

  lemma {:induction false} RunningStep(s: State, a: Action)
    requires Inv(s) && RunningOk(s) && Next(s, a).Some?
    ensures RunningOk(Next(s, a).value)
  {
    if StartNext(s, a).Some? { RunningAfterStart(s, a); }
    else if StopNext(s, a).Some? { RunningAfterStop(s, a); }
    else if DestroyNext(s, a).Some? { RunningAfterDestroy(s, a); }
    else if FinishNext(s, a).Some? { RunningAfterFinish(s, a); }
    else if WorkNext(s, a).Some? { RunningAfterWork(s, a); }
    else { RunningAfterWait(s, a); }
  }

  lemma {:induction false} RunningOverRun(states: seq<State>, actions: seq<Action>, i: nat)
    requires IsRun(states, actions) && states[0] == START && i < |states|
    ensures RunningOk(states[i])
  {
    if i > 0 {
      RunningOverRun(states, actions, i - 1);
      RunIsSafe(states, actions);
      SafeRunInv(states, i - 1);
      assert Next(states[i - 1], actions[i - 1]) == Some(states[i]);
      RunningStep(states[i - 1], actions[i - 1]);
    }
  }

  // With the window open and the UI thread at rest, a new test can be started exactly when none is in
  // progress: a finished, failed or stopped test never blocks the next one.
  lemma {:induction false} StartIsPossibleIffIdle(states: seq<State>, actions: seq<Action>, i: nat)
    requires IsRun(states, actions) && states[0] == START && i < |states|
    requires states[i].window && states[i].ui.Idle?
    ensures Next(states[i], Start).Some? <==> !InTest(states[i])
    ensures states[i].running <==> InTest(states[i])
  {
    RunningOverRun(states, actions, i);
  }

  // ----- the result of a test -----

  // A worker that has gone this far has published its result.
  predicate PastPublishing(w: Worker) { w.Clearing? || w.Checking? }

  ghost predicate HasPublished(states: seq<State>, j: nat, id: nat)
    requires j < |states|
  {
    exists i :: 0 <= i < j && id < |states[i].workers| && states[i].workers[id].Publishing?
  }

  // What a step may do to a worker on its way.
  ghost predicate OnTheWay(s: State, t: State) {
    && |s.workers| <= |t.workers|
    && (forall id | |s.workers| <= id < |t.workers| :: t.workers[id].Created?)
    && forall id | 0 <= id < |s.workers| && PastPublishing(t.workers[id]) ::
         PastPublishing(s.workers[id]) || s.workers[id].Publishing?
  }

  lemma {:induction false} WorkIsOnTheWay(s: State, a: Action)
    requires WorkNext(s, a).Some?
    ensures OnTheWay(s, WorkNext(s, a).value)
  {
  }

  lemma {:induction false} StepIsOnTheWay(s: State, a: Action)
    requires Inv(s) && Next(s, a).Some?
    ensures OnTheWay(s, Next(s, a).value)
  {
    if a.Work? {
      assert Next(s, a) == WorkNext(s, a);
      WorkIsOnTheWay(s, a);
    } else {
      FlagsOfStep(s, a);
    }
  }

  ghost predicate Goes(states: seq<State>) {
    states != [] && states[0].workers == [] && forall i | 0 <= i < |states| - 1 :: OnTheWay(states[i], states[i + 1])
  }

  lemma {:induction false} RunGoes(states: seq<State>, actions: seq<Action>)
    requires IsRun(states, actions) && states[0] == START
    ensures Goes(states)
  {
    RunIsSafe(states, actions);
    forall i | 0 <= i < |actions| ensures OnTheWay(states[i], states[i + 1]) {
      SafeRunInv(states, i);
      assert Next(states[i], actions[i]) == Some(states[i + 1]);
      StepIsOnTheWay(states[i], actions[i]);
    }
  }

  lemma {:induction false} PublishedOnTheWay(states: seq<State>, j: nat, id: nat)
    requires Goes(states) && j < |states| && id < |states[j].workers| && PastPublishing(states[j].workers[id])
    ensures HasPublished(states, j, id)
  {
    assert j > 0;
    assert OnTheWay(states[j - 1], states[j]);
    if states[j - 1].workers[id].Publishing? {
      assert HasPublished(states, j, id);
    } else {
      PublishedOnTheWay(states, j - 1, id);
    }
  }

  // No worker clears the running flag before it has published its result.
  lemma {:induction false} ResultComesBeforeTheFlag(states: seq<State>, actions: seq<Action>, j: nat, id: nat)
    requires IsRun(states, actions) && states[0] == START && j < |states| && id < |states[j].workers|
    requires states[j].workers[id].Clearing? || states[j].workers[id].Checking?
    ensures HasPublished(states, j, id)
  {
    RunGoes(states, actions);
    PublishedOnTheWay(states, j, id);
  }

  // ----- once the window is gone -----

  // The window never comes back and the mark never goes.
  ghost predicate OneWay(s: State, t: State) { (!s.window ==> !t.window) && (s.destroying ==> t.destroying) }

  lemma {:induction false} DestroyIsOneWay(s: State, a: Action)
    requires DestroyNext(s, a).Some?
    ensures OneWay(s, DestroyNext(s, a).value)
  {
  }

  lemma {:induction false} OthersAreOneWay(s: State, a: Action)
    ensures StartNext(s, a).Some? ==> OneWay(s, StartNext(s, a).value)
    ensures StopNext(s, a).Some? ==> OneWay(s, StopNext(s, a).value)
    ensures FinishNext(s, a).Some? ==> OneWay(s, FinishNext(s, a).value)
    ensures WorkNext(s, a).Some? ==> OneWay(s, WorkNext(s, a).value)
  {
  }

  lemma {:induction false} WaitIsOneWay(s: State, a: Action)
    requires WaitNext(s, a).Some?
    ensures OneWay(s, WaitNext(s, a).value)
  {
  }

  lemma {:induction false} StepIsOneWay(s: State, a: Action)
    requires Next(s, a).Some?
    ensures OneWay(s, Next(s, a).value)
  {
    if DestroyNext(s, a).Some? { DestroyIsOneWay(s, a); }
    if WaitNext(s, a).Some? { WaitIsOneWay(s, a); }
    OthersAreOneWay(s, a);
  }

  ghost predicate OneWayRun(states: seq<State>) {
    forall i | 0 <= i < |states| - 1 :: OneWay(states[i], states[i + 1])
  }

  lemma {:induction false} RunIsOneWay(states: seq<State>, actions: seq<Action>)
    requires IsRun(states, actions)
    ensures OneWayRun(states)
  {
    forall i | 0 <= i < |actions| ensures OneWay(states[i], states[i + 1]) {
      assert Next(states[i], actions[i]) == Some(states[i + 1]);
      StepIsOneWay(states[i], actions[i]);
    }
  }

  lemma {:induction false} WayBack(states: seq<State>, i: nat, j: nat)
    requires OneWayRun(states) && i <= j < |states|
    ensures OneWay(states[i], states[j])
  {
    if i < j {
      WayBack(states, i, j - 1);
      assert OneWay(states[j - 1], states[j]);
    }
  }

  // What a step without a window may do to a worker.
  ghost predicate Quiet(w: Worker, v: Worker) {
    && (w.Created? || w.Exited? ==> v == w || v.Exited?)
    && (v.Reporting? ==> w.Reporting?)
  }

  ghost predicate QuietStep(s: State, t: State) {
    |s.workers| <= |t.workers| && forall id | 0 <= id < |s.workers| :: Quiet(s.workers[id], t.workers[id])
  }

  lemma {:induction false} LateStep(s: State, a: Action)
    requires !s.window && Next(s, a).Some?
    ensures QuietStep(s, Next(s, a).value)
  {
    if a.Work? {
      assert StartNext(s, a).None? && StopNext(s, a).None? && DestroyNext(s, a).None? && FinishNext(s, a).None?;
      assert Next(s, a) == WorkNext(s, a);
    } else {
      OthersLeaveWorkers(s, a);
    }
  }

  lemma {:induction false} OthersLeaveWorkers(s: State, a: Action)
    requires !s.window && !a.Work? && Next(s, a).Some?
    ensures s.workers <= Next(s, a).value.workers
  {
    if StartNext(s, a).Some? {
      assert s.workers <= StartNext(s, a).value.workers;
    } else if DestroyNext(s, a).Some? {
      assert DestroyNext(s, a).value.workers == s.workers;
    }
  }

  lemma {:induction false} LateStepInRun(states: seq<State>, actions: seq<Action>, i: nat)
    requires IsRun(states, actions) && i < |actions| && !states[i].window
    ensures QuietStep(states[i], states[i + 1])
  {
    assert Next(states[i], actions[i]) == Some(states[i + 1]);
    LateStep(states[i], actions[i]);
  }

  // A worker that first runs after the window is gone exits at once, and no worker begins another
  // report.
  lemma {:induction false} LateWorkersStayQuiet(states: seq<State>, actions: seq<Action>, i: nat, j: nat, id: nat)
    requires IsRun(states, actions) && i <= j < |states| && !states[i].window && id < |states[i].workers|
    ensures id < |states[j].workers|
    ensures states[i].workers[id].Created? ==> states[j].workers[id].Created? || states[j].workers[id].Exited?
    ensures states[j].workers[id].Reporting? ==> states[i].workers[id].Reporting?
  {
    if i < j {
      LateWorkersStayQuiet(states, actions, i, j - 1, id);
      RunIsOneWay(states, actions);
      WayBack(states, i, j - 1);
      LateStepInRun(states, actions, j - 1);
      assert Quiet(states[j - 1].workers[id], states[j].workers[id]);
    }
  }

  // The last thing a worker does is to wake the UI thread, unless the destruction is marked.
  predicate Wakes(s: State, a: Action) {
    a.Work? && Live(s, a.id) && s.workers[a.id].Checking? && !s.destroying
  }

  // It never wakes it once the destruction is marked.
  lemma {:induction false} NoWakeAfterTheMark(states: seq<State>, actions: seq<Action>, i: nat, j: nat)
    requires IsRun(states, actions) && i < j < |actions| && actions[i].MarkDestroying?
    ensures !Wakes(states[j], actions[j])
  {
    assert Next(states[i], actions[i]) == Some(states[i + 1]);
    RunIsOneWay(states, actions);
    WayBack(states, i + 1, j);
  }

  // ----- the order of the destruction -----

  // Without a test thread the destruction frees the state itself, in four steps.
  lemma {:induction false} DestroyWithoutThreadFreesAtOnce(states: seq<State>, actions: seq<Action>, i: nat)
    requires IsRun(states, actions) && states[0] == START && i + 4 < |states|
    requires states[i].thread.NoThread? && actions[i].Destroy?
    requires actions[i + 1].RequestCancel? && actions[i + 2].MarkDestroying? && actions[i + 3].Poll?
    ensures states[i + 4].ui.Gone? && states[i + 4].frees == 1
  {
    DestroyStep(states, actions, i);
    DestroyStep(states, actions, i + 1);
    DestroyStep(states, actions, i + 2);
    DestroyStep(states, actions, i + 3);
    RunIsSafe(states, actions);
    SafeRunInv(states, i);
    assert states[i].frees == 0;
  }

  // With one, the destruction waits for a worker if and only if one is live when it looks.
  lemma {:induction false} DestroyWaitsIffAWorkerLives(states: seq<State>, actions: seq<Action>, i: nat)
    requires IsRun(states, actions) && states[0] == START && i < |actions| && actions[i].Poll?
    ensures states[i + 1].ui.DestroyRegister? <==> exists id :: Live(states[i], id)
    ensures !states[i + 1].ui.DestroyRegister? ==> states[i + 1].ui.Gone? || states[i + 1].ui.UiCompleting?
  {
    DestroyStep(states, actions, i);
    RunIsSafe(states, actions);
    SafeRunInv(states, i);
    var s := states[i];
    if s.thread.Thread? && !Over(s, s.thread.id) { assert Live(s, s.thread.id); }
    if exists id :: Live(s, id) {
      var id :| Live(s, id);
      assert id == |s.workers| - 1;
    }
  }

  lemma {:induction false} DestroyStep(states: seq<State>, actions: seq<Action>, i: nat)
    requires IsRun(states, actions) && i < |actions|
    requires actions[i].Destroy? || actions[i].RequestCancel? || actions[i].MarkDestroying? || actions[i].Poll?
    ensures DestroyNext(states[i], actions[i]) == Some(states[i + 1])
  {
    assert Next(states[i], actions[i]) == Some(states[i + 1]);
  }

  // How far the completion has come: the running flag is cleared first, then the handle is closed, then
  // the state is freed. Without a handle there is nothing running.
  ghost predicate TidyOk(s: State) {
    && (s.ui.UiCompleting? && !s.ui.todo.ClearRunning? ==> !s.running)
    && (s.waiter.WaiterCompleting? && !s.waiter.todo.ClearRunning? ==> !s.running)
    && (s.ui.DestroyCancel? || s.ui.DestroyMark? || s.ui.DestroyPoll? ==> s.thread.NoThread? ==> !s.running)
    && (s.frees > 0 ==> !s.running && s.thread.NoThread?)
  }

  lemma {:induction false} TidyAfterDestroy(s: State, a: Action)
    requires Inv(s) && RunningOk(s) && TidyOk(s) && DestroyNext(s, a).Some?
    ensures TidyOk(DestroyNext(s, a).value)
  {
    if a.Destroy? && s.thread.NoThread? { assert AllOver(s) && !InTest(s); }
  }

  lemma {:induction false} TidyAfterUi(s: State, a: Action)
    requires Inv(s) && TidyOk(s)
    ensures StartNext(s, a).Some? ==> TidyOk(StartNext(s, a).value)
    ensures StopNext(s, a).Some? ==> TidyOk(StopNext(s, a).value)
  {
  }

  lemma {:induction false} TidyAfterFinish(s: State, a: Action)
    requires Inv(s) && TidyOk(s) && FinishNext(s, a).Some?
    ensures TidyOk(FinishNext(s, a).value)
  {
  }

  lemma {:induction false} TidyAfterWork(s: State, a: Action)
    requires Inv(s) && TidyOk(s) && WorkNext(s, a).Some?
    ensures TidyOk(WorkNext(s, a).value)
  {
  }

  lemma {:induction false} TidyAfterWait(s: State, a: Action)
    requires Inv(s) && TidyOk(s) && WaitNext(s, a).Some?
    ensures TidyOk(WaitNext(s, a).value)
  {
  }

  lemma {:induction false} TidyStep(s: State, a: Action)
    requires Inv(s) && RunningOk(s) && TidyOk(s) && Next(s, a).Some?
    ensures TidyOk(Next(s, a).value)
  {
    if StartNext(s, a).Some? || StopNext(s, a).Some? { TidyAfterUi(s, a); }
    else if DestroyNext(s, a).Some? { TidyAfterDestroy(s, a); }
    else if FinishNext(s, a).Some? { TidyAfterFinish(s, a); }
    else if WorkNext(s, a).Some? { TidyAfterWork(s, a); }
    else { TidyAfterWait(s, a); }
  }

  lemma {:induction false} TidyOverStep(states: seq<State>, actions: seq<Action>, i: nat)
    requires IsRun(states, actions) && i < |actions| && Inv(states[i]) && RunningOk(states[i]) && TidyOk(states[i])
    ensures TidyOk(states[i + 1])
  {
    assert Next(states[i], actions[i]) == Some(states[i + 1]);
    TidyStep(states[i], actions[i]);
  }

  // When the state is freed, the running flag is clear and the thread handle closed.
  lemma {:induction false} FreedTidily(states: seq<State>, actions: seq<Action>, i: nat)
    requires IsRun(states, actions) && states[0] == START && i < |states|
    ensures TidyOk(states[i])
    ensures states[i].frees > 0 ==> !states[i].running && states[i].thread.NoThread?
  {
    if i > 0 {
      FreedTidily(states, actions, i - 1);
      RunningOverRun(states, actions, i - 1);
      RunIsSafe(states, actions);
      SafeRunInv(states, i - 1);
      TidyOverStep(states, actions, i - 1);
    }
  }

  // The UI thread blocks in the destruction only after neither a registered wait nor a waiting thread
  // could be had.
  lemma {:induction false} DestroyBlocksAsLastResort(states: seq<State>, actions: seq<Action>, i: nat)
    requires IsRun(states, actions) && states[0] == START && i < |actions| && actions[i].JoinDestroyed?
    ensures exists j, k :: 0 <= j < k < i && actions[j] == Register(false) && actions[k] == Fallback(false)
  {
    assert Next(states[i], actions[i]) == Some(states[i + 1]);
    CameToJoin(states, actions, i);
  }

  ghost predicate RefusedBefore(actions: seq<Action>, i: nat) {
    exists j :: 0 <= j < i <= |actions| && actions[j] == Register(false)
  }

  ghost predicate RefusedTwice(actions: seq<Action>, i: nat) {
    exists j, k :: 0 <= j < k < i <= |actions| && actions[j] == Register(false) && actions[k] == Fallback(false)
  }

  ghost predicate OnTheWayToJoin(s: State, a: Action, t: State) {
    && (t.ui.DestroyFallback? ==> s.ui.DestroyFallback? || a == Register(false))
    && (t.ui.DestroyJoin? ==> s.ui.DestroyJoin? || (s.ui.DestroyFallback? && a == Fallback(false)))
  }

  lemma {:induction false} DestroyToJoin(s: State, a: Action)
    requires DestroyNext(s, a).Some?
    ensures OnTheWayToJoin(s, a, DestroyNext(s, a).value)
  {
  }

  lemma {:induction false} OthersToJoin(s: State, a: Action)
    ensures StartNext(s, a).Some? ==> OnTheWayToJoin(s, a, StartNext(s, a).value)
    ensures StopNext(s, a).Some? ==> OnTheWayToJoin(s, a, StopNext(s, a).value)
    ensures FinishNext(s, a).Some? ==> OnTheWayToJoin(s, a, FinishNext(s, a).value)
    ensures WorkNext(s, a).Some? ==> OnTheWayToJoin(s, a, WorkNext(s, a).value)
  {
  }

  lemma {:induction false} WaitToJoin(s: State, a: Action)
    requires WaitNext(s, a).Some?
    ensures OnTheWayToJoin(s, a, WaitNext(s, a).value)
  {
  }

  lemma {:induction false} WayToJoin(s: State, a: Action)
    requires Next(s, a).Some?
    ensures OnTheWayToJoin(s, a, Next(s, a).value)
  {
    if DestroyNext(s, a).Some? { DestroyToJoin(s, a); }
    if WaitNext(s, a).Some? { WaitToJoin(s, a); }
    OthersToJoin(s, a);
  }

  lemma {:induction false} CameToJoin(states: seq<State>, actions: seq<Action>, i: nat)
    requires IsRun(states, actions) && states[0] == START && i < |states|
    ensures states[i].ui.DestroyFallback? ==> RefusedBefore(actions, i)
    ensures states[i].ui.DestroyJoin? ==> RefusedTwice(actions, i)
  {
    if i > 0 {
      CameToJoin(states, actions, i - 1);
      assert Next(states[i - 1], actions[i - 1]) == Some(states[i]);
      WayToJoin(states[i - 1], actions[i - 1]);
      if states[i].ui.DestroyJoin? && !states[i - 1].ui.DestroyJoin? {
        var j :| 0 <= j < i - 1 && actions[j] == Register(false);
        assert j < i - 1 && actions[i - 1] == Fallback(false);
      }
    }
  }
}
