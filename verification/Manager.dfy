/**
 The applier manager: a watch loop over the bundle directory that starts a runner per stack directory,
 and stops the runner and deletes the stack when the directory is removed. The loop itself is started
 again whenever it has ended.
 */
module Manager {

  import opened Basics

  type Path = string

  datatype Work = Resting | Applying | Stopped

  /** A goroutine that applies a stack; `born` is the position of its creation in the log. */
  datatype Runner = Runner(path: Path, born: nat, cancelled: bool, work: Work)

  datatype Loop =
    | Down                     // runWatchers is not running
    | Listing(dirs: seq<Path>, n: nat) // creating stacks for existing directories, n of them so far
    | Selecting
    | Removing(r: nat)         // waiting for a runner to stop
    | Deleting(path: Path)
    | Draining                 // waiting for all runners to stop

  datatype Event =
    | Created(path: Path)
    | ApplyBegan(path: Path)
    | ApplyEnded(path: Path)
    | DeleteBegan(path: Path)
    | DeleteEnded(path: Path)

  datatype State = State(
    loop: Loop,
    cancelled: bool,           // the context of the watch loop is done
    stacks: map<Path, nat>,    // the runner of each stack
    runners: seq<Runner>,      // all runners ever started
    log: seq<Event>)

  predicate Init(s: State) { s == State(Down, false, map[], [], []) }

  datatype Step =
    | Start(dirs: seq<Path>)
    | ListNext
    | ListDone
    | CreateEvent(path: Path, isDir: bool)
    | RemoveEvent(path: Path)
    | CancelLoop               // a watch error, or the lead was lost
    | DoneSeen
    | RunnerStopped
    | DeleteReturns
    | Drained
    | BeginApply(r: nat)
    | EndApply(r: nat)
    | StopRunner(r: nat)

  /** A runner's context is done if it was cancelled itself, or if the one of the watch loop is. */
  predicate Told(s: State, r: nat)
    requires r < |s.runners|
  {
    s.runners[r].cancelled || s.cancelled
  }

  predicate Enabled(s: State, a: Step) {
    match a
    case Start(_) => s.loop.Down?
    case ListNext => s.loop.Listing? && s.loop.n < |s.loop.dirs|
    case ListDone => s.loop.Listing? && s.loop.n >= |s.loop.dirs|
    case CreateEvent(_, _) => s.loop.Selecting?
    case RemoveEvent(path) => s.loop.Selecting? && (path in s.stacks ==> s.stacks[path] < |s.runners|)
    case CancelLoop => !s.loop.Down?
    case DoneSeen => s.loop.Selecting? && s.cancelled
    case RunnerStopped => s.loop.Removing? && s.loop.r < |s.runners| && s.runners[s.loop.r].work.Stopped?
    case DeleteReturns => s.loop.Deleting?
    case Drained =>
      && s.loop.Draining?
      && forall p :: p in s.stacks ==> s.stacks[p] < |s.runners| && s.runners[s.stacks[p]].work.Stopped?
    case BeginApply(r) => r < |s.runners| && s.runners[r].work.Resting?
    case EndApply(r) => r < |s.runners| && s.runners[r].work.Applying?
    case StopRunner(r) => r < |s.runners| && s.runners[r].work.Resting? && Told(s, r)
  }

  function CreateStack(s: State, ignored: Path -> bool, path: Path): State {
    if path in s.stacks || ignored(path) then s
    else
      s.(stacks := s.stacks[path := |s.runners|],
         runners := s.runners + [Runner(path, |s.log|, false, Resting)],
         log := s.log + [Created(path)])
  }

  function Update(s: State, r: nat, work: Work): State
    requires r < |s.runners|
  {
    s.(runners := s.runners[r := s.runners[r].(work := work)])
  }

  function Do(s: State, ignored: Path -> bool, a: Step): State
    requires Enabled(s, a)
  {
    match a
    case Start(dirs) => s.(loop := Listing(dirs, 0), cancelled := false, stacks := map[])
    case ListNext => CreateStack(s, ignored, s.loop.dirs[s.loop.n]).(loop := Listing(s.loop.dirs, s.loop.n + 1))
    case ListDone => s.(loop := Selecting)
    case CreateEvent(path, isDir) => if isDir then CreateStack(s, ignored, path) else s
    case RemoveEvent(path) =>
      if path !in s.stacks then s
      else
        var r := s.stacks[path];
        s.(stacks := s.stacks - {path},
           runners := s.runners[r := s.runners[r].(cancelled := true)],
           loop := Removing(r))
    case CancelLoop => s.(cancelled := true)
    case DoneSeen => s.(loop := Draining)
    case RunnerStopped =>
      var path := s.runners[s.loop.r].path;
      s.(loop := Deleting(path), log := s.log + [DeleteBegan(path)])
    case DeleteReturns => s.(loop := Selecting, log := s.log + [DeleteEnded(s.loop.path)])
    case Drained => s.(loop := Down)
    case BeginApply(r) => Update(s, r, Applying).(log := s.log + [ApplyBegan(s.runners[r].path)])
    case EndApply(r) => Update(s, r, Resting).(log := s.log + [ApplyEnded(s.runners[r].path)])
    case StopRunner(r) => Update(s, r, Stopped)
  }

  ghost predicate Next(ignored: Path -> bool, s: State, s': State) {
    exists a :: Enabled(s, a) && s' == Do(s, ignored, a)
  }

  // ------------------------------------------------------------------------------------------
  // Invariant

  predicate Active(s: State, r: nat) { r < |s.runners| && !s.runners[r].work.Stopped? }

  /** Every active runner is the one of its stack, or the loop is waiting for it. */
  predicate Known(s: State, r: nat)
    requires r < |s.runners|
  {
    || (s.runners[r].path in s.stacks && s.stacks[s.runners[r].path] == r)
    || (s.loop.Removing? && s.loop.r == r && s.runners[r].path !in s.stacks)
  }

  predicate RunnersOk(s: State, ignored: Path -> bool) {
    && (forall r :: 0 <= r < |s.runners| ==> !ignored(s.runners[r].path))
    && AllKnown(s)
  }

  predicate AllKnown(s: State) {
    forall r :: 0 <= r < |s.runners| && !s.runners[r].work.Stopped? ==> !s.loop.Down? && Known(s, r)
  }

  predicate StacksOk(s: State) {
    && (forall p :: p in s.stacks ==> s.stacks[p] < |s.runners| && s.runners[s.stacks[p]].path == p)
    && (s.loop.Removing? ==>
          s.loop.r < |s.runners| && s.runners[s.loop.r].cancelled && s.runners[s.loop.r].path !in s.stacks)
    && (s.loop.Deleting? ==> s.loop.path !in s.stacks)
    && (s.loop.Draining? ==> s.cancelled)
  }

  /** All directories that have been dealt with have a runner, or are ignored. */
  predicate ListingOk(s: State, ignored: Path -> bool) {
    s.loop.Listing? ==>
      && s.loop.n <= |s.loop.dirs|
      && forall j :: 0 <= j < s.loop.n ==> ignored(s.loop.dirs[j]) || s.loop.dirs[j] in s.stacks
  }

  /** The runners of the stacks are left alone until the loop ends. */
  predicate UndisturbedOk(s: State) {
    forall p :: p in s.stacks && s.stacks[p] < |s.runners| ==>
      && !s.runners[s.stacks[p]].cancelled
      && (s.runners[s.stacks[p]].work.Stopped? && !s.loop.Down? ==> s.cancelled)
  }

  /** An active runner was created, and its stack has not been deleted since. */
  predicate BornOk(s: State) {
    forall r :: 0 <= r < |s.runners| && !s.runners[r].work.Stopped? ==>
      Standing(s.log, s.runners[r].path, s.runners[r].born)
  }

  predicate Standing(log: seq<Event>, path: Path, born: nat) {
    && born < |log| && log[born] == Created(path)
    && forall i :: born <= i < |log| ==> log[i] != DeleteBegan(path)
  }

  lemma StandingGrows(log: seq<Event>, e: Event, path: Path, born: nat)
    requires Standing(log, path, born) && e != DeleteBegan(path)
    ensures Standing(log + [e], path, born)
  {
  }

  predicate CreatedBetween(log: seq<Event>, path: Path, i: nat, j: nat) {
    exists k :: i < k < j && k < |log| && log[k] == Created(path)
  }

  /** Between a delete and a later apply of the same stack, the stack was created again. */
  predicate LogOk(log: seq<Event>) {
    forall i, j :: 0 <= i < j < |log| && log[i].DeleteBegan? && log[j] == ApplyBegan(log[i].path) ==>
      CreatedBetween(log, log[i].path, i, j)
  }

  /** An apply of the stack has begun and not ended. */
  predicate Open(log: seq<Event>, path: Path) {
    exists i :: 0 <= i < |log| && OpenFrom(log, path, i)
  }

  predicate OpenFrom(log: seq<Event>, path: Path, i: nat)
    requires i < |log|
  {
    log[i] == ApplyBegan(path) && forall k :: i < k < |log| ==> log[k] != ApplyEnded(path)
  }

  predicate Busy(s: State, path: Path) {
    exists r :: 0 <= r < |s.runners| && s.runners[r].path == path && s.runners[r].work.Applying?
  }

  /** An open apply is one of a runner that is at it. */
  ghost predicate OpenOk(s: State) { forall p :: Open(s.log, p) ==> Busy(s, p) }

  /** No apply is open when a delete begins. */
  predicate ClosedOk(log: seq<Event>) {
    forall j :: 0 <= j < |log| && log[j].DeleteBegan? ==> !Open(log[..j], log[j].path)
  }

  ghost predicate Inv(ignored: Path -> bool, s: State) {
    && RunnersOk(s, ignored) && StacksOk(s) && BornOk(s) && LogOk(s.log)
    && ListingOk(s, ignored) && UndisturbedOk(s) && OpenOk(s) && ClosedOk(s.log)
  }

  lemma RunnersInductive(ignored: Path -> bool, s: State, a: Step)
    requires RunnersOk(s, ignored) && StacksOk(s) && Enabled(s, a)
    ensures RunnersOk(Do(s, ignored, a), ignored)
  {
    KnownInductive(ignored, s, a);
  }

  lemma KnownInductive(ignored: Path -> bool, s: State, a: Step)
    requires AllKnown(s) && StacksOk(s) && Enabled(s, a)
    ensures AllKnown(Do(s, ignored, a))
  {
  }

  lemma StacksInductive(ignored: Path -> bool, s: State, a: Step)
    requires StacksOk(s) && Enabled(s, a)
    ensures StacksOk(Do(s, ignored, a))
  {
  }

  lemma BornInductive(ignored: Path -> bool, s: State, a: Step)
    requires AllKnown(s) && StacksOk(s) && BornOk(s) && Enabled(s, a)
    ensures BornOk(Do(s, ignored, a))
  {
    var s' := Do(s, ignored, a);
    forall r | 0 <= r < |s.runners| && !s'.runners[r].work.Stopped?
      ensures Standing(s'.log, s.runners[r].path, s.runners[r].born)
    {
      if s'.log != s.log {
        StandingGrows(s.log, s'.log[|s.log|], s.runners[r].path, s.runners[r].born);
      }
    }
  }

  lemma LogGrows(log: seq<Event>, e: Event)
    requires LogOk(log)
    requires e.ApplyBegan? ==>
      forall i :: 0 <= i < |log| && log[i] == DeleteBegan(e.path) ==> CreatedBetween(log, e.path, i, |log|)
    ensures LogOk(log + [e])
  {
    var log' := log + [e];
    forall i, j | 0 <= i < j < |log'| && log'[i].DeleteBegan? && log'[j] == ApplyBegan(log'[i].path)
      ensures CreatedBetween(log', log'[i].path, i, j)
    {
      assert CreatedBetween(log, log[i].path, i, j);
      var k :| i < k < j && k < |log| && log[k] == Created(log[i].path);
      assert log'[k] == log[k];
    }
  }

  lemma LogInductive(ignored: Path -> bool, s: State, a: Step)
    requires BornOk(s) && LogOk(s.log) && Enabled(s, a)
    ensures LogOk(Do(s, ignored, a).log)
  {
    var log' := Do(s, ignored, a).log;
    if a.BeginApply? {
      var r := s.runners[a.r];
      forall i | 0 <= i < |s.log| && s.log[i] == DeleteBegan(r.path) ensures CreatedBetween(s.log, r.path, i, |s.log|) {
        assert i < r.born && s.log[r.born] == Created(r.path);
      }
    }
    if log' != s.log {
      var e := log'[|log'| - 1];
      assert log' == s.log + [e];
      LogGrows(s.log, e);
    }
  }

  lemma InvInductive(ignored: Path -> bool, s: State, a: Step)
    requires Inv(ignored, s) && Enabled(s, a)
    ensures Inv(ignored, Do(s, ignored, a))
  {
    RunnersInductive(ignored, s, a);
    StacksInductive(ignored, s, a);
    BornInductive(ignored, s, a);
    LogInductive(ignored, s, a);
    UndisturbedInductive(ignored, s, a);
    OpenInductive(ignored, s, a);
    ClosedInductive(ignored, s, a);
  }

  lemma OpenGrows(log: seq<Event>, e: Event, path: Path)
    ensures Open(log + [e], path) <==> e == ApplyBegan(path) || (Open(log, path) && e != ApplyEnded(path))
  {
    var log' := log + [e];
    if e == ApplyBegan(path) {
      assert OpenFrom(log', path, |log|);
    }
    if Open(log, path) && e != ApplyEnded(path) {
      var i :| 0 <= i < |log| && OpenFrom(log, path, i);
      assert OpenFrom(log', path, i);
    }
    if Open(log', path) && e != ApplyBegan(path) {
      var i :| 0 <= i < |log'| && OpenFrom(log', path, i);
      assert forall k :: 0 <= k < |log| ==> log[k] == log'[k];
      assert log'[|log|] == e;
      assert OpenFrom(log, path, i);
    }
  }

  lemma OpenInductive(ignored: Path -> bool, s: State, a: Step)
    requires AllKnown(s) && OpenOk(s) && Enabled(s, a)
    ensures OpenOk(Do(s, ignored, a))
  {
    var s' := Do(s, ignored, a);
    forall p | Open(s'.log, p) ensures Busy(s', p) {
      if s'.log != s.log {
        OpenGrows(s.log, s'.log[|s.log|], p);
        assert s'.log == s.log + [s'.log[|s.log|]];
      }
      StaysBusy(ignored, s, a, p);
    }
  }

  lemma StaysBusy(ignored: Path -> bool, s: State, a: Step, p: Path)
    requires AllKnown(s) && Enabled(s, a)
    requires Busy(s, p) || (a.BeginApply? && s.runners[a.r].path == p)
    requires !(a.EndApply? && s.runners[a.r].path == p)
    ensures Busy(Do(s, ignored, a), p)
  {
    var s' := Do(s, ignored, a);
    var r :| 0 <= r < |s.runners| && s.runners[r].path == p &&
      (s.runners[r].work.Applying? || (a.BeginApply? && a.r == r));
    assert s'.runners[r].path == p && s'.runners[r].work.Applying?;
  }

  lemma ClosedInductive(ignored: Path -> bool, s: State, a: Step)
    requires AllKnown(s) && StacksOk(s) && OpenOk(s) && ClosedOk(s.log) && Enabled(s, a)
    ensures ClosedOk(Do(s, ignored, a).log)
  {
    var log' := Do(s, ignored, a).log;
    forall j | 0 <= j < |log'| && log'[j].DeleteBegan? ensures !Open(log'[..j], log'[j].path) {
      if j < |s.log| {
        assert log'[..j] == s.log[..j];
      } else {
        assert log'[..j] == s.log;
        assert !Busy(s, log'[j].path);
      }
    }
  }

  lemma UndisturbedInductive(ignored: Path -> bool, s: State, a: Step)
    requires StacksOk(s) && UndisturbedOk(s) && Enabled(s, a)
    ensures UndisturbedOk(Do(s, ignored, a))
  {
  }

  ghost predicate IsManagerRun(ignored: Path -> bool, run: seq<State>) {
    IsRun(Init, (s, s') => Next(ignored, s, s'), run)
  }

  lemma RunsAreSound(ignored: Path -> bool, run: seq<State>, i: nat)
    requires IsManagerRun(ignored, run) && i < |run|
    ensures Inv(ignored, run[i])
  {
    forall s, s' | Inv(ignored, s) && Next(ignored, s, s') ensures Inv(ignored, s') {
      var a :| Enabled(s, a) && s' == Do(s, ignored, a);
      InvInductive(ignored, s, a);
    }
    InvariantOfRuns(Init, (s, s') => Next(ignored, s, s'), s => Inv(ignored, s), run, i);
  }

  // ------------------------------------------------------------------------------------------
  // Guarantees

  /** There is at most one active runner per stack path, none for an ignored one, and none when the loop is down. */
  lemma OneRunnerPerPath(ignored: Path -> bool, run: seq<State>, i: nat, r: nat, q: nat)
    requires IsManagerRun(ignored, run) && i < |run| && Active(run[i], r) && Active(run[i], q)
    ensures !run[i].loop.Down? && !ignored(run[i].runners[r].path)
    ensures run[i].runners[r].path == run[i].runners[q].path ==> r == q
  {
    RunsAreSound(ignored, run, i);
  }

  /** Every stack has a runner that is active, until it is removed or the watch loop is told to end. */
  lemma EveryStackRuns(ignored: Path -> bool, run: seq<State>, i: nat, p: Path)
    requires IsManagerRun(ignored, run) && i < |run| && !run[i].loop.Down? && !run[i].cancelled && p in run[i].stacks
    ensures Active(run[i], run[i].stacks[p]) && run[i].runners[run[i].stacks[p]].path == p
  {
    RunsAreSound(ignored, run, i);
  }

  /** Every directory that is found at the start or created later has a runner, unless it is ignored. */
  lemma EveryDirectoryGetsRunner(ignored: Path -> bool, run: seq<State>, i: nat, p: Path)
    requires IsManagerRun(ignored, run) && i < |run| && !ignored(p)
    ensures forall dirs :: Enabled(run[i], Start(dirs)) ==> Do(run[i], ignored, Start(dirs)).loop == Listing(dirs, 0)
    ensures Enabled(run[i], ListDone) && p in run[i].loop.dirs ==> p in Do(run[i], ignored, ListDone).stacks
    ensures Enabled(run[i], CreateEvent(p, true)) ==> p in Do(run[i], ignored, CreateEvent(p, true)).stacks
  {
    RunsAreSound(ignored, run, i);
  }

  /** A stack that is removed is deleted as soon as its runner has stopped. */
  lemma RemovedIsDeleted(ignored: Path -> bool, run: seq<State>, i: nat, p: Path)
    requires IsManagerRun(ignored, run) && i < |run|
    ensures Enabled(run[i], RemoveEvent(p)) && p in run[i].stacks ==>
              var s := Do(run[i], ignored, RemoveEvent(p));
              s.loop == Removing(run[i].stacks[p]) && s.loop.r < |s.runners| && s.runners[s.loop.r].path == p
    ensures Enabled(run[i], RunnerStopped) ==>
              Do(run[i], ignored, RunnerStopped).log == run[i].log + [DeleteBegan(run[i].runners[run[i].loop.r].path)]
  {
    RunsAreSound(ignored, run, i);
  }

  /** While a stack is being deleted, it has no active runner. */
  lemma DeleteAfterStop(ignored: Path -> bool, run: seq<State>, i: nat, r: nat)
    requires IsManagerRun(ignored, run) && i < |run| && run[i].loop.Deleting? && Active(run[i], r)
    ensures run[i].runners[r].path != run[i].loop.path
  {
    RunsAreSound(ignored, run, i);
  }

  /** No apply follows a delete until the stack has been created again. */
  lemma NoApplyAfterDelete(ignored: Path -> bool, run: seq<State>, n: nat, i: nat, j: nat)
    requires IsManagerRun(ignored, run) && n < |run| && i < j < |run[n].log|
    requires run[n].log[i].DeleteBegan? && run[n].log[j] == ApplyBegan(run[n].log[i].path)
    ensures CreatedBetween(run[n].log, run[n].log[i].path, i, j)
  {
    RunsAreSound(ignored, run, n);
  }

  /** No delete begins while an apply of the stack is going on: if one began before, then it has ended. */
  lemma NoDeleteDuringApply(ignored: Path -> bool, run: seq<State>, n: nat, i: nat, j: nat)
    requires IsManagerRun(ignored, run) && n < |run| && i < j < |run[n].log|
    requires run[n].log[j].DeleteBegan? && run[n].log[i] == ApplyBegan(run[n].log[j].path)
    ensures exists k :: i < k < j && run[n].log[k] == ApplyEnded(run[n].log[j].path)
  {
    RunsAreSound(ignored, run, n);
    var log, path := run[n].log[..j], run[n].log[j].path;
    assert !Open(log, path);
    assert !OpenFrom(log, path, i);
  }

  function Weight(work: Work): nat {
    match work
    case Stopped => 0
    case Resting => 1
    case Applying => 2
  }

  /** How much is left to do for the first n runners until they have stopped. */
  function Load(runners: seq<Runner>, n: nat): nat
    requires n <= |runners|
  {
    if n == 0 then 0 else Load(runners, n - 1) + Weight(runners[n - 1].work)
  }

  lemma {:induction false} LoadShrinks(runners: seq<Runner>, r: nat, work: Work, n: nat)
    requires r < |runners| && n <= |runners| && Weight(work) < Weight(runners[r].work)
    ensures Load(runners[r := runners[r].(work := work)], n) <= Load(runners, n)
    ensures r < n ==> Load(runners[r := runners[r].(work := work)], n) < Load(runners, n)
    decreases n
  {
    if n > 0 {
      LoadShrinks(runners, r, work, n - 1);
    }
  }

  /**
   The waits for runners never deadlock: either the wait is over, or one of the awaited runners has been told
   to stop and can get closer to it.
   */
  lemma WaitsEnd(ignored: Path -> bool, run: seq<State>, i: nat) returns (a: Step)
    requires IsManagerRun(ignored, run) && i < |run| && (run[i].loop.Removing? || run[i].loop.Draining?)
    ensures Enabled(run[i], a)
    ensures var s, s' := run[i], Do(run[i], ignored, a);
      s'.loop.Down? || s'.loop.Deleting? || Load(s'.runners, |s'.runners|) < Load(s.runners, |s.runners|)
  {
    RunsAreSound(ignored, run, i);
    var s := run[i];
    if s.loop.Removing? && s.runners[s.loop.r].work.Stopped? {
      a := RunnerStopped;
    } else if s.loop.Draining? && Enabled(s, Drained) {
      a := Drained;
    } else {
      var r := Awaited(s);
      a := if s.runners[r].work.Applying? then EndApply(r) else StopRunner(r);
      LoadShrinks(s.runners, r, if s.runners[r].work.Applying? then Resting else Stopped, |s.runners|);
    }
  }

  /** A runner that the loop is waiting for. */
  lemma Awaited(s: State) returns (r: nat)
    requires StacksOk(s) && (s.loop.Removing? || s.loop.Draining?)
    requires !Enabled(s, RunnerStopped) && !Enabled(s, Drained)
    ensures Active(s, r) && Told(s, r)
  {
    if s.loop.Removing? {
      r := s.loop.r;
    } else {
      var p :| p in s.stacks && !s.runners[s.stacks[p]].work.Stopped?;
      r := s.stacks[p];
    }
  }
}
