// The life of a speed-meter window: the UI thread, the test workers it starts, and whoever waits for
// the last worker once the window is destroyed, one shared access at a time.

module SpeedMeter {
  import opened Options

  // Where a worker stands. It looks the shared state up once at its start and again for every
  // progress report.
  datatype Worker = Created | Testing | Reporting | Publishing | Clearing | Checking | Exited

  // What the completion routine still has to do.
  datatype Completion = ClearRunning | CloseThread | Free

  // Where the UI thread stands.
  datatype Ui =
    | Idle
    | StartClaimed | StartReset | StartCreate | StartAssign(id: nat) | StartFailed
    | StopJoin | StopClear
    | DestroyCancel | DestroyMark | DestroyPoll | DestroyRegister | DestroyFallback | DestroyJoin
    | UiCompleting(todo: Completion)
    | Gone

  // The registered wait or the waiting thread.
  datatype Waiter =
    | NoWaiter | Registered(id: nat) | WaitThread | WaitJoin(id: nat) | WaiterCompleting(todo: Completion) | WaiterDone

  datatype Handle = NoThread | Thread(id: nat)

  datatype State = State(
    window: bool,        // the window still leads to the shared state
    running: bool,
    cancel: bool,
    destroying: bool,
    thread: Handle,
    workers: seq<Worker>,
    ui: Ui,
    waiter: Waiter,
    frees: nat)

  const START := State(true, false, false, false, NoThread, [], Idle, NoWaiter, 0)

  datatype Action =
    | Start | JoinOld | ResetCancel | Create(ok: bool) | Assign | GiveUp
    | Cancel | Stop | JoinStopped | ClearStopped
    | Destroy | RequestCancel | MarkDestroying | Poll | Register(ok: bool) | Fallback(ok: bool) | JoinDestroyed
    | UiComplete
    | Work(id: nat, report: bool)
    | Await | Fire | WaiterComplete

  predicate Over(s: State, id: nat) { id < |s.workers| && s.workers[id].Exited? }

  predicate Live(s: State, id: nat) { id < |s.workers| && !s.workers[id].Exited? }

  // A wait on the stored thread handle is satisfied.
  predicate Joined(s: State) { s.thread.NoThread? || Over(s, s.thread.id) }

  function CompleteStep(s: State, todo: Completion): State {
    match todo
    case ClearRunning => s.(running := false)
    case CloseThread => s.(thread := NoThread)
    case Free => s.(frees := s.frees + 1)
  }

  function WorkerNext(s: State, w: Worker, report: bool): Worker {
    match w
    case Created => if s.window then Testing else Exited
    case Testing => if report then (if s.window then Reporting else Testing) else Publishing
    case Reporting => Testing
    case Publishing => Clearing
    case Clearing => Checking
    case Checking => Exited
    case Exited => Exited
  }

  // start_test
  function StartNext(s: State, a: Action): Option<State> {
    if a.Start? && s.ui.Idle? && s.window && !s.running then Some(s.(running := true, ui := StartClaimed))
    else if a.JoinOld? && s.ui.StartClaimed? && Joined(s) then Some(s.(thread := NoThread, ui := StartReset))
    else if a.ResetCancel? && s.ui.StartReset? then Some(s.(cancel := false, ui := StartCreate))
    else if a.Create? && s.ui.StartCreate? then
      if a.ok then Some(s.(workers := s.workers + [Created], ui := StartAssign(|s.workers|)))
      else Some(s.(ui := StartFailed))
    else if a.Assign? && s.ui.StartAssign? then Some(s.(thread := Thread(s.ui.id), ui := Idle))
    else if a.GiveUp? && s.ui.StartFailed? then Some(s.(running := false, ui := Idle))
    else None
  }

  // cancel_test and stop_test
  function StopNext(s: State, a: Action): Option<State> {
    if a.Cancel? && s.ui.Idle? && s.window then Some(s.(cancel := true))
    else if a.Stop? && s.ui.Idle? && s.window then Some(s.(cancel := true, ui := StopJoin))
    else if a.JoinStopped? && s.ui.StopJoin? && Joined(s) then Some(s.(thread := NoThread, ui := StopClear))
    else if a.ClearStopped? && s.ui.StopClear? then Some(s.(running := false, ui := Idle))
    else None
  }

  // WM_DESTROY
  function DestroyNext(s: State, a: Action): Option<State> {
    if a.Destroy? && s.ui.Idle? && s.window then Some(s.(window := false, ui := DestroyCancel))
    else if a.RequestCancel? && s.ui.DestroyCancel? then Some(s.(cancel := true, ui := DestroyMark))
    else if a.MarkDestroying? && s.ui.DestroyMark? then Some(s.(destroying := true, ui := DestroyPoll))
    else if a.Poll? && s.ui.DestroyPoll? then
      if s.thread.NoThread? then Some(s.(frees := s.frees + 1, ui := Gone))
      else if Over(s, s.thread.id) then Some(s.(ui := UiCompleting(ClearRunning)))
      else Some(s.(ui := DestroyRegister))
    else if a.Register? && s.ui.DestroyRegister? && s.thread.Thread? then
      if a.ok then Some(s.(waiter := Registered(s.thread.id), ui := Gone)) else Some(s.(ui := DestroyFallback))
    else if a.Fallback? && s.ui.DestroyFallback? then
      if a.ok then Some(s.(waiter := WaitThread, ui := Gone)) else Some(s.(ui := DestroyJoin))
    else if a.JoinDestroyed? && s.ui.DestroyJoin? && Joined(s) then Some(s.(ui := UiCompleting(ClearRunning)))
    else None
  }

  // What the completion routine does next.
  function Following(todo: Completion): Completion
    requires !todo.Free?
  {
    if todo.ClearRunning? then CloseThread else Free
  }

  // on_destroy_wait_complete, called by the UI thread itself
  function FinishNext(s: State, a: Action): Option<State> {
    if a.UiComplete? && s.ui.UiCompleting? then
      Some(CompleteStep(s, s.ui.todo).(ui := if s.ui.todo.Free? then Gone else UiCompleting(Following(s.ui.todo))))
    else None
  }

  // speedtest_thread_proc and on_speedtest_progress
  function WorkNext(s: State, a: Action): Option<State> {
    if a.Work? && Live(s, a.id) then
      var w := s.workers[a.id];
      var t := s.(workers := s.workers[a.id := WorkerNext(s, w, a.report)]);
      Some(if w.Clearing? then t.(running := false) else t)
    else None
  }

  // destroy_wait_thread_proc and on_destroy_wait_complete
  function WaitNext(s: State, a: Action): Option<State> {
    if a.Await? && s.waiter.WaitThread? then
      Some(s.(waiter := if s.thread.NoThread? then WaiterCompleting(ClearRunning) else WaitJoin(s.thread.id)))
    else if a.Fire? && (s.waiter.Registered? || s.waiter.WaitJoin?) && Over(s, s.waiter.id) then
      Some(s.(waiter := WaiterCompleting(ClearRunning)))
    else if a.WaiterComplete? && s.waiter.WaiterCompleting? then
      Some(CompleteStep(s, s.waiter.todo).(
           waiter := if s.waiter.todo.Free? then WaiterDone else WaiterCompleting(Following(s.waiter.todo))))
    else None
  }

  // The state after an action, if the action is possible.
  function Next(s: State, a: Action): Option<State> {
    if StartNext(s, a).Some? then StartNext(s, a)
    else if StopNext(s, a).Some? then StopNext(s, a)
    else if DestroyNext(s, a).Some? then DestroyNext(s, a)
    else if FinishNext(s, a).Some? then FinishNext(s, a)
    else if WorkNext(s, a).Some? then WorkNext(s, a)
    else WaitNext(s, a)
  }

  // Whether an action reads or writes the shared state.
  predicate Touches(s: State, a: Action) {
    match a
    case Work(id, _) => Live(s, id) && !s.workers[id].Created?
    case Fire => false
    case _ => true
  }

  // The states a run passes through, the first one included.
  ghost predicate IsRun(states: seq<State>, actions: seq<Action>) {
    && |states| == |actions| + 1
    && forall i | 0 <= i < |actions| :: Next(states[i], actions[i]) == Some(states[i + 1])
  }

  // ----- the invariant -----

  // All workers are over except possibly the latest one.
  ghost predicate OnlyLatestLives(s: State) {
    forall id | 0 <= id < |s.workers| - 1 :: s.workers[id].Exited?
  }

  ghost predicate AllOver(s: State) {
    forall id | 0 <= id < |s.workers| :: s.workers[id].Exited?
  }

  // The handle leads to the latest worker; without one no worker is live, except in the moment
  // between creating a worker and storing its handle.
  ghost predicate HandleOk(s: State) {
    match s.thread
    case Thread(id) => id == |s.workers| - 1 && !s.ui.StartReset? && !s.ui.StartCreate? && !s.ui.StartAssign?
        && !s.ui.StartFailed?
    case NoThread => if s.ui.StartAssign? then s.ui.id == |s.workers| - 1 else AllOver(s)
  }

  ghost predicate Completing(s: State, todo: Completion) {
    AllOver(s) && (todo.Free? ==> s.thread.NoThread?)
  }

  // Who is responsible for freeing the state.
  ghost predicate OwnerOk(s: State) {
    match s.ui
    case Idle | StartClaimed | StartReset | StartCreate | StartAssign(_) | StartFailed | StopJoin | StopClear =>
      s.window && s.waiter.NoWaiter? && s.frees == 0
    case DestroyCancel | DestroyMark | DestroyPoll => !s.window && s.waiter.NoWaiter? && s.frees == 0
    case DestroyRegister | DestroyFallback | DestroyJoin =>
      !s.window && s.waiter.NoWaiter? && s.frees == 0 && s.thread.Thread?
    case UiCompleting(todo) => !s.window && s.waiter.NoWaiter? && s.frees == 0 && Completing(s, todo)
    case Gone =>
      !s.window && match s.waiter
                   case NoWaiter => s.frees == 1 && AllOver(s)
                   case Registered(id) => s.frees == 0 && s.thread == Thread(id)
                   case WaitThread => s.frees == 0
                   case WaitJoin(id) => s.frees == 0 && s.thread == Thread(id)
                   case WaiterCompleting(todo) => s.frees == 0 && Completing(s, todo)
                   case WaiterDone => s.frees == 1 && AllOver(s)
  }

  ghost predicate Inv(s: State) {
    OnlyLatestLives(s) && HandleOk(s) && OwnerOk(s)
  }

  // What every step preserves: the invariant, the workers that are over, and a cancel request while
  // any worker is live.
  ghost predicate Safe(s: State, t: State) {
    && Inv(s) && Inv(t)
    && (s.cancel && !t.cancel ==> AllOver(s))
    && |s.workers| <= |t.workers|
    && (forall id | 0 <= id < |s.workers| && s.workers[id].Exited? :: t.workers[id].Exited?)
  }

  lemma {:induction false} StartIsSafe(s: State, a: Action)
    requires Inv(s) && StartNext(s, a).Some?
    ensures Safe(s, StartNext(s, a).value)
  {
  }

  lemma {:induction false} StopIsSafe(s: State, a: Action)
    requires Inv(s) && StopNext(s, a).Some?
    ensures Safe(s, StopNext(s, a).value)
  {
  }

  // Steps of the UI thread that leave the workers and the handle alone only have to hand over the
  // duty to free the state.
  lemma {:induction false} HandOverIsSafe(s: State, t: State)
    requires Inv(s) && OwnerOk(t) && t.workers == s.workers && t.thread == s.thread && (s.cancel ==> t.cancel)
    requires !t.window && (s.ui.Idle? || !s.window)
    ensures Safe(s, t)
  {
  }

  lemma {:induction false} AnnouncingIsSafe(s: State, a: Action)
    requires Inv(s) && DestroyNext(s, a).Some? && (a.Destroy? || a.RequestCancel? || a.MarkDestroying?)
    ensures Safe(s, DestroyNext(s, a).value)
  {
    HandOverIsSafe(s, DestroyNext(s, a).value);
  }

  lemma {:induction false} PollIsSafe(s: State)
    requires Inv(s) && DestroyNext(s, Poll).Some?
    ensures Safe(s, DestroyNext(s, Poll).value)
  {
    HandOverIsSafe(s, DestroyNext(s, Poll).value);
  }

  lemma {:induction false} RegisterIsSafe(s: State, ok: bool)
    requires Inv(s) && DestroyNext(s, Register(ok)).Some?
    ensures Safe(s, DestroyNext(s, Register(ok)).value)
  {
    HandOverIsSafe(s, DestroyNext(s, Register(ok)).value);
  }

  lemma {:induction false} FallbackIsSafe(s: State, ok: bool)
    requires Inv(s) && DestroyNext(s, Fallback(ok)).Some?
    ensures Safe(s, DestroyNext(s, Fallback(ok)).value)
  {
    HandOverIsSafe(s, DestroyNext(s, Fallback(ok)).value);
  }

  lemma {:induction false} JoinIsSafe(s: State)
    requires Inv(s) && DestroyNext(s, JoinDestroyed).Some?
    ensures Safe(s, DestroyNext(s, JoinDestroyed).value)
  {
    HandOverIsSafe(s, DestroyNext(s, JoinDestroyed).value);
  }

  lemma {:induction false} DestroyIsSafe(s: State, a: Action)
    requires Inv(s) && DestroyNext(s, a).Some?
    ensures Safe(s, DestroyNext(s, a).value)
  {
    match a
    case Destroy | RequestCancel | MarkDestroying => AnnouncingIsSafe(s, a);
    case Poll => PollIsSafe(s);
    case Register(ok) => RegisterIsSafe(s, ok);
    case Fallback(ok) => FallbackIsSafe(s, ok);
    case JoinDestroyed => JoinIsSafe(s);
  }

  lemma {:induction false} FinishIsSafe(s: State, a: Action)
    requires Inv(s) && FinishNext(s, a).Some?
    ensures Safe(s, FinishNext(s, a).value)
  {
  }

  lemma {:induction false} WorkIsSafe(s: State, a: Action)
    requires Inv(s) && WorkNext(s, a).Some?
    ensures Safe(s, WorkNext(s, a).value)
  {
    assert a.id == |s.workers| - 1;
    assert !AllOver(s);
  }

  lemma {:induction false} AwaitIsSafe(s: State)
    requires Inv(s) && WaitNext(s, Await).Some?
    ensures Safe(s, WaitNext(s, Await).value)
  {
  }

  lemma {:induction false} FireIsSafe(s: State)
    requires Inv(s) && WaitNext(s, Fire).Some?
    ensures Safe(s, WaitNext(s, Fire).value)
  {
  }

  lemma {:induction false} WaiterCompleteIsSafe(s: State)
    requires Inv(s) && WaitNext(s, WaiterComplete).Some?
    ensures Safe(s, WaitNext(s, WaiterComplete).value)
  {
  }

  lemma {:induction false} WaitIsSafe(s: State, a: Action)
    requires Inv(s) && WaitNext(s, a).Some?
    ensures Safe(s, WaitNext(s, a).value)
  {
    if a.Await? { AwaitIsSafe(s); } else if a.Fire? { FireIsSafe(s); } else { WaiterCompleteIsSafe(s); }
  }

  lemma {:induction false} StepIsSafe(s: State, a: Action)
    requires Inv(s) && Next(s, a).Some?
    ensures Safe(s, Next(s, a).value)
  {
    if StartNext(s, a).Some? { StartIsSafe(s, a); }
    else if StopNext(s, a).Some? { StopIsSafe(s, a); }
    else if DestroyNext(s, a).Some? { DestroyIsSafe(s, a); }
    else if FinishNext(s, a).Some? { FinishIsSafe(s, a); }
    else if WorkNext(s, a).Some? { WorkIsSafe(s, a); }
    else { WaitIsSafe(s, a); }
  }

  ghost predicate SafeRun(states: seq<State>) {
    && states != [] && Inv(states[0])
    && forall i | 0 <= i < |states| - 1 :: Safe(states[i], states[i + 1])
  }

  lemma {:induction false} RunIsSafe(states: seq<State>, actions: seq<Action>)
    requires IsRun(states, actions) && Inv(states[0])
    ensures SafeRun(states)
  {
    if |actions| > 0 {
      var n := |actions| - 1;
      var earlier := states[..n + 1];
      assert IsRun(earlier, actions[..n]);
      RunIsSafe(earlier, actions[..n]);
      assert Inv(earlier[n]) by { if n > 0 { assert Safe(earlier[n - 1], earlier[n]); } }
      assert Next(states[n], actions[n]) == Some(states[n + 1]);
      StepIsSafe(states[n], actions[n]);
      forall i | 0 <= i < |states| - 1 ensures Safe(states[i], states[i + 1]) {
        if i < n { assert Safe(earlier[i], earlier[i + 1]); }
      }
    }
  }

  lemma {:induction false} SafeRunInv(states: seq<State>, i: nat)
    requires SafeRun(states) && i < |states|
    ensures Inv(states[i])
  {
    if i > 0 { assert Safe(states[i - 1], states[i]); }
  }

  // ----- what every interleaving guarantees -----

  // At most one worker is ever live.
  lemma {:induction false} AtMostOneLiveWorker(states: seq<State>, actions: seq<Action>, i: nat, a: nat, b: nat)
    requires IsRun(states, actions) && states[0] == START && i < |states|
    requires Live(states[i], a) && Live(states[i], b)
    ensures a == b
  {
    RunIsSafe(states, actions);
    SafeRunInv(states, i);
  }

  // The cancel flag returns to zero only while no worker is live.
  lemma {:induction false} CancelClearsOnlyWhenIdle(states: seq<State>, actions: seq<Action>, i: nat)
    requires IsRun(states, actions) && states[0] == START && i < |actions|
    requires states[i].cancel && !states[i + 1].cancel
    ensures forall id :: !Live(states[i], id)
  {
    RunIsSafe(states, actions);
    assert Safe(states[i], states[i + 1]);
  }

  lemma {:induction false} RequestSticks(states: seq<State>, i: nat, j: nat, id: nat)
    requires SafeRun(states) && i <= j < |states| && states[i].cancel
    requires id < |states[i].workers| <= |states[j].workers| && Live(states[j], id)
    ensures states[j].cancel
  {
    if i < j {
      assert Safe(states[j - 1], states[j]);
      WorkersOnlyGrow(states, i, j - 1);
      RequestSticks(states, i, j - 1, id);
    }
  }

  lemma {:induction false} WorkersOnlyGrow(states: seq<State>, i: nat, j: nat)
    requires SafeRun(states) && i <= j < |states|
    ensures |states[i].workers| <= |states[j].workers|
  {
    if i < j {
      WorkersOnlyGrow(states, i, j - 1);
      assert Safe(states[j - 1], states[j]);
    }
  }

  // A cancel request sticks: as long as the worker it was meant for is live, the flag stays set.
  lemma {:induction false} CancelSticks(states: seq<State>, actions: seq<Action>, i: nat, j: nat, id: nat)
    requires IsRun(states, actions) && states[0] == START && i <= j < |states|
    requires states[i].cancel && Live(states[i], id) && Live(states[j], id)
    ensures states[j].cancel
  {
    RunIsSafe(states, actions);
    WorkersOnlyGrow(states, i, j);
    RequestSticks(states, i, j, id);
  }

  lemma {:induction false} TouchNeedsState(s: State, a: Action)
    requires Inv(s) && Next(s, a).Some? && Touches(s, a)
    ensures s.frees == 0
  {
  }

  // The state is freed at most once, only after every worker has exited, and never touched again.
  lemma {:induction false} FreedOnceAndLast(states: seq<State>, actions: seq<Action>, i: nat)
    requires IsRun(states, actions) && states[0] == START && i < |states|
    ensures states[i].frees <= 1
    ensures states[i].frees == 1 ==> forall id :: !Live(states[i], id)
    ensures i < |actions| && Touches(states[i], actions[i]) ==> states[i].frees == 0
  {
    assert i < |actions| ==> Next(states[i], actions[i]) == Some(states[i + 1]);
    RunIsSafe(states, actions);
    SafeRunInv(states, i);
    if i < |actions| && Touches(states[i], actions[i]) { TouchNeedsState(states[i], actions[i]); }
  }

  ghost predicate Stuck(s: State) {
    forall a :: Next(s, a).None?
  }

  lemma {:induction false} NothingFollowsTheFree(s: State, a: Action)
    requires Inv(s) && s.frees > 0
    ensures Next(s, a).None?
  {
  }

  // A run cannot go on exactly when it has freed the state, whichever branch the destruction took.
  lemma {:induction false} StuckMeansFreed(states: seq<State>, actions: seq<Action>)
    requires IsRun(states, actions) && states[0] == START
    ensures Stuck(states[|actions|]) <==> states[|actions|].frees == 1
  {
    var s := states[|actions|];
    RunIsSafe(states, actions);
    SafeRunInv(states, |actions|);
    if s.frees == 0 {
      var a := Onward(s);
    } else {
      forall a ensures Next(s, a).None? { NothingFollowsTheFree(s, a); }
    }
  }

  // Destruction has begun and the state is not freed yet.
  predicate Closing(s: State) { !s.window && s.frees == 0 }

  function WorkerLeft(w: Worker): nat {
    match w
    case Created => 6
    case Reporting => 5
    case Testing => 4
    case Publishing => 3
    case Clearing => 2
    case Checking => 1
    case Exited => 0
  }

  function CompletionLeft(todo: Completion): nat {
    match todo
    case ClearRunning => 3
    case CloseThread => 2
    case Free => 1
  }

  // An upper bound on the steps that are still needed to free the state.
  function StepsLeft(s: State): nat {
    (if s.workers == [] then 0 else WorkerLeft(s.workers[|s.workers| - 1])) +
    (match s.ui
     case Gone => 0
     case UiCompleting(todo) => CompletionLeft(todo)
     case DestroyJoin => 4
     case DestroyFallback => 6
     case DestroyRegister => 7
     case DestroyPoll => 8
     case DestroyMark => 9
     case DestroyCancel => 10
     case _ => 11) +
    (match s.waiter
     case NoWaiter => 0
     case WaiterDone => 0
     case WaiterCompleting(todo) => CompletionLeft(todo)
     case Registered(_) => 4
     case WaitJoin(_) => 4
     case WaitThread => 5)
  }

  // In every invariant state that is not finished some action is possible; once the destruction has
  // begun, one that brings the end closer.
  lemma {:induction false} Onward(s: State) returns (a: Action)
    requires Inv(s) && s.frees == 0
    ensures Next(s, a).Some?
    ensures Closing(s) ==> StepsLeft(Next(s, a).value) < StepsLeft(s)
    ensures Closing(s) ==> Closing(Next(s, a).value) || Next(s, a).value.frees == 1
  {
    match s.ui
    case Idle => a := Cancel;
    case StartClaimed => if Joined(s) { a := JoinOld; } else { a := WorkOn(s); }
    case StartReset => a := ResetCancel;
    case StartCreate => a := Create(true);
    case StartAssign(_) => a := Assign;
    case StartFailed => a := GiveUp;
    case StopJoin => if Joined(s) { a := JoinStopped; } else { a := WorkOn(s); }
    case StopClear => a := ClearStopped;
    case Gone => a := OnwardByWaiter(s);
    case _ => a := OnwardByUi(s);
  }

  lemma {:induction false} GroupsAreDisjoint(s: State, a: Action)
    ensures DestroyNext(s, a).Some? ==> Next(s, a) == DestroyNext(s, a)
    ensures FinishNext(s, a).Some? ==> Next(s, a) == FinishNext(s, a)
    ensures WorkNext(s, a).Some? ==> Next(s, a) == WorkNext(s, a)
    ensures WaitNext(s, a).Some? ==> Next(s, a) == WaitNext(s, a)
  {
  }

  // The live worker can always take another step towards its end.
  lemma {:induction false} WorkOn(s: State) returns (a: Action)
    requires Inv(s) && !AllOver(s)
    ensures Next(s, a).Some? && StepsLeft(Next(s, a).value) < StepsLeft(s)
    ensures Next(s, a).value.window == s.window && Next(s, a).value.frees == s.frees
  {
    var id := |s.workers| - 1;
    a := Work(id, false);
    assert Live(s, id);
    GroupsAreDisjoint(s, a);
    var t := WorkNext(s, a).value;
    assert WorkerLeft(t.workers[id]) < WorkerLeft(s.workers[id]);
  }

  ghost predicate Closer(s: State, t: State) {
    StepsLeft(t) < StepsLeft(s) && !t.window && (t.frees == 0 || t.frees == 1)
  }

  lemma {:induction false} DestroyOnward(s: State) returns (a: Action)
    requires Inv(s) && (s.ui.DestroyCancel? || s.ui.DestroyMark? || s.ui.DestroyPoll? || s.ui.DestroyRegister?
                        || s.ui.DestroyFallback? || (s.ui.DestroyJoin? && Joined(s)))
    ensures DestroyNext(s, a).Some? && Closer(s, DestroyNext(s, a).value)
  {
    match s.ui
    case DestroyCancel => a := RequestCancel;
    case DestroyMark => a := MarkDestroying;
    case DestroyPoll => a := Poll;
    case DestroyRegister => a := Register(true);
    case DestroyFallback => a := Fallback(true);
    case DestroyJoin => a := JoinDestroyed;
  }

  lemma {:induction false} FinishOnward(s: State)
    requires Inv(s) && s.ui.UiCompleting?
    ensures FinishNext(s, UiComplete).Some? && Closer(s, FinishNext(s, UiComplete).value)
  {
  }

  lemma {:induction false} WaitOnward(s: State) returns (a: Action)
    requires Inv(s) && s.ui.Gone? && s.frees == 0
    requires s.waiter.Registered? || s.waiter.WaitJoin? ==> Over(s, s.waiter.id)
    ensures WaitNext(s, a).Some? && Closer(s, WaitNext(s, a).value)
  {
    match s.waiter
    case WaitThread => a := Await;
    case WaiterCompleting(_) => a := WaiterComplete;
    case Registered(_) => a := Fire;
    case WaitJoin(_) => a := Fire;
  }

  lemma {:induction false} OnwardByUi(s: State) returns (a: Action)
    requires Inv(s) && s.frees == 0 && !s.window && !s.ui.Gone?
    ensures Next(s, a).Some? && Closer(s, Next(s, a).value)
  {
    if s.ui.UiCompleting? {
      a := UiComplete;
      FinishOnward(s);
      GroupsAreDisjoint(s, a);
    } else if s.ui.DestroyJoin? && !Joined(s) {
      a := WorkOn(s);
    } else {
      a := DestroyOnward(s);
      GroupsAreDisjoint(s, a);
    }
  }

  lemma {:induction false} OnwardByWaiter(s: State) returns (a: Action)
    requires Inv(s) && s.frees == 0 && s.ui.Gone?
    ensures Next(s, a).Some? && Closer(s, Next(s, a).value)
  {
    if (s.waiter.Registered? || s.waiter.WaitJoin?) && !Over(s, s.waiter.id) {
      a := WorkOn(s);
    } else {
      a := WaitOnward(s);
      GroupsAreDisjoint(s, a);
    }
  }

  // From any moment of the destruction on, the state can be freed within a bounded number of further
  // steps that need nothing but the worker running to its end.
  lemma {:induction false} DestructionCanAlwaysFinish(s: State) returns (states: seq<State>, actions: seq<Action>)
    requires Inv(s) && Closing(s)
    ensures IsRun(states, actions) && states[0] == s && |actions| <= StepsLeft(s)
    ensures states[|actions|].frees == 1
    decreases StepsLeft(s)
  {
    var a := Onward(s);
    var t := Next(s, a).value;
    if Closing(t) {
      StepIsSafe(s, a);
      var laterStates, laterActions := DestructionCanAlwaysFinish(t);
      states, actions := [s] + laterStates, [a] + laterActions;
    } else {
      states, actions := [s, t], [a];
    }
  }

  // ----- every continuation -----

  // A progress report of a worker that goes on testing. Only this can be repeated without end.
  predicate Reports(s: State, a: Action) {
    a.Work? && a.report && a.id < |s.workers| && s.workers[a.id].Testing?
  }

  // Once the destruction has begun, a report changes nothing and any other step brings the end closer.
  ghost predicate Counts(s: State, a: Action, t: State) {
    && (Closing(t) || t.frees == 1)
    && (if Reports(s, a) then t == s else StepsLeft(t) < StepsLeft(s))
  }

  lemma {:induction false} PollCounts(s: State)
    requires Inv(s) && Closing(s) && DestroyNext(s, Poll).Some?
    ensures Counts(s, Poll, DestroyNext(s, Poll).value)
  {
  }

  lemma {:induction false} RegisterCounts(s: State, ok: bool)
    requires Inv(s) && Closing(s) && DestroyNext(s, Register(ok)).Some?
    ensures Counts(s, Register(ok), DestroyNext(s, Register(ok)).value)
  {
  }

  lemma {:induction false} DestroyCounts(s: State, a: Action)
    requires Inv(s) && Closing(s) && DestroyNext(s, a).Some?
    ensures Counts(s, a, DestroyNext(s, a).value)
  {
    match a
    case Poll => PollCounts(s);
    case Register(ok) => RegisterCounts(s, ok);
    case _ =>
  }

  lemma {:induction false} FinishCounts(s: State, a: Action)
    requires Inv(s) && Closing(s) && FinishNext(s, a).Some?
    ensures Counts(s, a, FinishNext(s, a).value)
  {
  }

  lemma {:induction false} WorkCounts(s: State, a: Action)
    requires Inv(s) && Closing(s) && WorkNext(s, a).Some?
    ensures Counts(s, a, WorkNext(s, a).value)
  {
    var t := WorkNext(s, a).value;
    assert a.id == |s.workers| - 1;
    if Reports(s, a) { assert t.workers == s.workers; }
  }

  lemma {:induction false} WaitCounts(s: State, a: Action)
    requires Inv(s) && Closing(s) && WaitNext(s, a).Some?
    ensures Counts(s, a, WaitNext(s, a).value)
  {
  }

  lemma {:induction false} StepCounts(s: State, a: Action)
    requires Inv(s) && Closing(s) && Next(s, a).Some?
    ensures Counts(s, a, Next(s, a).value)
  {
    assert StartNext(s, a).None? && StopNext(s, a).None?;
    if DestroyNext(s, a).Some? { DestroyCounts(s, a); }
    else if FinishNext(s, a).Some? { FinishCounts(s, a); }
    else if WorkNext(s, a).Some? { WorkCounts(s, a); }
    else { WaitCounts(s, a); }
  }

  // How many of the steps from state i to state j are not reports.
  function Advances(states: seq<State>, actions: seq<Action>, i: nat, j: nat): nat
    requires i <= j < |states| && j <= |actions|
  {
    if i == j then 0
    else Advances(states, actions, i, j - 1) + if Reports(states[j - 1], actions[j - 1]) then 0 else 1
  }

  // The state is freed, or the steps used so far leave room for those still needed.
  predicate OnTrack(left: nat, used: nat, s: State) {
    if s.frees == 1 then used <= left else Closing(s) && used + StepsLeft(s) <= left
  }

  // A step uses at most what it brings the end closer.
  ghost predicate Pays(s: State, a: Action, t: State) {
    forall left: nat, used: nat ::
      OnTrack(left, used, s) ==> OnTrack(left, used + if Reports(s, a) then 0 else 1, t)
  }

  lemma {:induction false} StepPays(s: State, a: Action)
    requires Inv(s) && Next(s, a).Some?
    ensures Pays(s, a, Next(s, a).value)
  {
    if s.frees > 0 {
      NothingFollowsTheFree(s, a);
    } else if Closing(s) {
      StepCounts(s, a);
    }
  }

  lemma {:induction false} StaysOnTrack(states: seq<State>, actions: seq<Action>, left: nat, i: nat, j: nat)
    requires i <= j < |states| == |actions| + 1 && OnTrack(left, 0, states[i])
    requires forall k | i <= k < j :: Pays(states[k], actions[k], states[k + 1])
    ensures OnTrack(left, Advances(states, actions, i, j), states[j])
  {
    if i < j {
      StaysOnTrack(states, actions, left, i, j - 1);
      assert Pays(states[j - 1], actions[j - 1], states[j]);
    }
  }

  lemma {:induction false} StepsAreFew(s: State)
    requires Inv(s) && Closing(s)
    ensures 1 <= StepsLeft(s) <= 16
  {
  }

  // Whatever the threads do, each step other than a report uses up one of the steps that are left,
  // so the state is freed by the time all of them are used up.
  lemma {:induction false} EveryDestructionEnds(states: seq<State>, actions: seq<Action>, i: nat, j: nat)
    requires IsRun(states, actions) && states[0] == START && i <= j < |states| && Closing(states[i])
    ensures Advances(states, actions, i, j) <= StepsLeft(states[i]) <= 16
    ensures Advances(states, actions, i, j) == StepsLeft(states[i]) ==> states[j].frees == 1
  {
    RunIsSafe(states, actions);
    forall k | i <= k < j ensures Pays(states[k], actions[k], states[k + 1]) {
      SafeRunInv(states, k);
      assert Next(states[k], actions[k]) == Some(states[k + 1]);
      StepPays(states[k], actions[k]);
    }
    StaysOnTrack(states, actions, StepsLeft(states[i]), i, j);
    SafeRunInv(states, i);
    StepsAreFew(states[i]);
    if states[j].frees != 1 {
      SafeRunInv(states, j);
      StepsAreFew(states[j]);
    }
  }
}
