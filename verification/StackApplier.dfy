/**
 The stack applier: a goroutine watches a manifest directory, debounces its events with a timer, and
 fills a trigger slot; the runner takes from the slot and applies. A session is one call of Run; the
 manager starts the next one whenever a session ended, until the applier is cancelled.
 */
module StackApplier {

  import opened Basics

  datatype Runner =
    | Between                  // no session
    | Starting                 // the watcher exists, the directory has not been added to it
    | Selecting
    | Applying

  datatype Watching = NotStarted | Running | Returned

  datatype Timer = Disarmed | Armed | Ticked

  datatype State = State(
    runner: Runner,
    watching: Watching,
    timer: Timer,
    trigger: bool,             // the trigger slot is full
    queue: seq<bool>,          // events to be received; does the name match the manifest pattern?
    errors: bool,              // a watch error is to be received
    received: bool,            // a matching event was received in this session after the last apply began
    cancelled: bool,
    version: nat,              // number of changes to manifest files so far
    applied: nat)              // the version when the last apply began

  predicate Init(s: State) {
    s.runner.Between? && !s.received && !s.cancelled && s.applied == 0
  }

  datatype Step =
    | Change(manifest: bool, lost: bool)   // a file changes; the watcher may lose events, and says so
    | WatchError
    | Cancel
    | Begin
    | Add(ok: bool)
    | WatcherStarts
    | EventReceived
    | Expire
    | TickReceived
    | ErrorReceived
    | StopSeen
    | ApplyBegins
    | ApplyEnds
    | SessionEnds

  predicate Enabled(s: State, a: Step) {
    match a
    case Change(_, _) => true
    case WatchError => true
    case Cancel => true
    case Begin => s.runner.Between? && !s.cancelled
    case Add(_) => s.runner.Starting?
    case WatcherStarts => !s.runner.Between? && s.watching.NotStarted?
    case EventReceived => s.watching.Running? && s.queue != []
    case Expire => s.timer.Armed?
    case TickReceived => s.watching.Running? && s.timer.Ticked?
    case ErrorReceived => s.watching.Running? && s.errors
    case StopSeen => s.watching.Running? && s.cancelled
    case ApplyBegins => s.runner.Selecting? && s.trigger
    case ApplyEnds => s.runner.Applying?
    case SessionEnds => s.runner.Selecting? && s.watching.Returned?
  }

  function Do(s: State, a: Step): State
    requires Enabled(s, a)
  {
    match a
    case Change(manifest, lost) =>
      var watched := s.runner.Selecting? || s.runner.Applying?;
      s.(version := if manifest then s.version + 1 else s.version,
         queue := if watched && !lost then s.queue + [manifest] else s.queue,
         errors := s.errors || (watched && lost))
    case WatchError => s.(errors := true)
    case Cancel => s.(cancelled := true)
    case Begin =>
      s.(runner := Starting, watching := NotStarted, timer := Disarmed, trigger := false, queue := [], errors := false,
         received := false)
    case Add(ok) => s.(runner := if ok then Selecting else Between)
    case WatcherStarts => s.(watching := Running, timer := Armed)
    case EventReceived =>
      s.(queue := s.queue[1..], timer := if s.queue[0] then Armed else s.timer, received := s.received || s.queue[0])
    case Expire => s.(timer := Ticked)
    case TickReceived => s.(timer := Disarmed, trigger := true)
    case ErrorReceived => s.(errors := false, watching := Returned)
    case StopSeen => s.(watching := Returned)
    case ApplyBegins => s.(trigger := false, received := false, runner := Applying, applied := s.version)
    case ApplyEnds => s.(runner := Selecting)
    case SessionEnds => s.(runner := Between)
  }

  ghost predicate Next(s: State, s': State) { exists a :: Enabled(s, a) && s' == Do(s, a) }

  /** A manifest has changed after the last apply began. */
  predicate Dirty(s: State) { s.version != s.applied }

  /** Something is under way that leads to an apply. */
  predicate Promise(s: State) {
    || s.runner.Between?
    || s.watching.NotStarted? || s.watching.Returned?
    || s.errors
    || s.timer.Armed? || s.timer.Ticked?
    || s.trigger
    || true in s.queue
  }

  predicate Inv(s: State) {
    && s.applied <= s.version
    && (Dirty(s) || s.runner.Starting? ==> Promise(s))
    && (s.received ==> s.timer.Armed? || s.timer.Ticked? || s.trigger)
  }

  lemma InvInductive(s: State, a: Step)
    requires Inv(s) && Enabled(s, a)
    ensures Inv(Do(s, a))
  {
  }

  /**
   No change is lost: whenever a manifest changed after the last apply began, a matching event is queued,
   the timer is armed, a tick is waiting, the trigger slot is full, or the session is about to end or to
   begin, so that the next one starts with an armed timer.
   */
  lemma NoLostChange(run: seq<State>, i: nat)
    requires IsRun(Init, Next, run) && i < |run|
    ensures Dirty(run[i]) ==> Promise(run[i])
  {
    RunsAreSound(run, i);
  }

  /**
   If a matching event was received after the last apply of the session began, then the timer is armed,
   a tick is waiting, or the trigger slot is full.
   */
  lemma NoLostEvent(run: seq<State>, i: nat)
    requires IsRun(Init, Next, run) && i < |run| && run[i].received
    ensures run[i].timer.Armed? || run[i].timer.Ticked? || run[i].trigger
  {
    RunsAreSound(run, i);
  }

  lemma RunsAreSound(run: seq<State>, i: nat)
    requires IsRun(Init, Next, run) && i < |run|
    ensures Inv(run[i])
  {
    forall s, s' | Inv(s) && Next(s, s') ensures Inv(s') {
      var a :| Enabled(s, a) && s' == Do(s, a);
      InvInductive(s, a);
    }
    InvariantOfRuns(Init, Next, Inv, run, i);
  }

  /** The steps of the outside world. */
  predicate External(a: Step) { a.Change? || a.WatchError? || a.Cancel? }

  /** Upper bound on the number of steps until an apply begins that sees the latest change. */
  function Distance(s: State): nat {
    var busy := if s.runner.Selecting? then 0 else 1;
    if !Dirty(s) then 0
    else if s.runner.Between? then 6
    else if s.watching.NotStarted? then 4 + busy
    else if s.trigger then 1 + busy
    else if s.watching.Returned? then 7 + busy
    else if s.timer.Ticked? then 2 + busy
    else if s.timer.Armed? then 3 + busy
    else if s.errors then 8 + busy
    else 3 + |s.queue| + busy
  }

  /**
   As long as the applier is not cancelled, there is always a step of its own that gets closer to an apply
   that began after the last change. Thus, if nothing can happen, the last apply began after the last change.
   */
  lemma Progress(run: seq<State>, i: nat) returns (a: Step)
    requires IsRun(Init, Next, run) && i < |run|
    requires !run[i].cancelled && Dirty(run[i])
    ensures Enabled(run[i], a) && !External(a) && Distance(Do(run[i], a)) < Distance(run[i])
  {
    RunsAreSound(run, i);
    var s := run[i];
    if s.runner.Between? {
      a := Begin;
    } else if s.watching.NotStarted? {
      a := WatcherStarts;
    } else if s.trigger || s.watching.Returned? {
      a := if s.runner.Starting? then Add(true) else if s.runner.Applying? then ApplyEnds
      else if s.trigger then ApplyBegins else SessionEnds;
    } else {
      a := if s.timer.Ticked? then TickReceived else if s.timer.Armed? then Expire
      else if s.errors then ErrorReceived else EventReceived;
    }
  }

  /** At quiescence, the last apply began after the last change. */
  lemma Quiescence(run: seq<State>, i: nat)
    requires IsRun(Init, Next, run) && i < |run| && !run[i].cancelled
    requires forall a :: Enabled(run[i], a) ==> External(a)
    ensures run[i].applied == run[i].version
  {
    if Dirty(run[i]) {
      var a := Progress(run, i);
    }
  }

  /** How far the runner is from the end of its session once it is cancelled. */
  function Remaining(s: State): nat {
    if s.runner.Between? then 0
    else
      (match s.watching case NotStarted => 2 case Running => 1 case Returned => 0) +
      (if s.runner.Selecting? then 1 else 2)
  }

  /** Once cancelled, the runner can always get closer to the end of its session, and no other one begins. */
  lemma StopsWhenCancelled(run: seq<State>, i: nat) returns (a: Step)
    requires IsRun(Init, Next, run) && i < |run| && run[i].cancelled
    ensures !Enabled(run[i], Begin)
    ensures !run[i].runner.Between? ==>
              Enabled(run[i], a) && !External(a) && Remaining(Do(run[i], a)) < Remaining(run[i])
  {
    var s := run[i];
    a := if s.watching.NotStarted? then WatcherStarts
    else if s.watching.Running? then StopSeen
    else if s.runner.Starting? then Add(true)
    else if s.runner.Applying? then ApplyEnds
    else SessionEnds;
  }
}
