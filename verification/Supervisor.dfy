/**
 The process supervisor: a loop that spawns a process, waits for it, and spawns it again, until it is
 stopped. A goroutine per process waits for its end, removes the PID file, and reports to the loop.
 */
module Supervisor {

  import opened Basics

  datatype Waiter =
    | Idle_          // not started yet
    | Waiting        // inside cmd.Wait
    | Removing       // about to remove the PID file
    | Sending        // about to send the result
    | Sent

  /** A process; `stuck` tells that its PID file could not be removed. */
  datatype Process = Process(session: nat, alive: bool, waiter: Waiter, stuck: bool)

  datatype Loop =
    | Spawning                 // about to start the next process
    | Started(p: nat)          // started, the PID file has not been written yet
    | Recorded(p: nat)         // the PID file has been written
    | Watching(p: nat)         // inside processWaitQuit
    | Terminating(p: nat)      // inside terminateSupervisedProcess
    | Respawning               // waiting for the respawn timeout
    | Ended                    // the goroutine has returned

  /** The call in progress, if any: calls exclude each other. */
  datatype Api =
    | Free
    | Supervising              // Supervise waits for the first start
    | Failing                  // the first start failed, Supervise waits for the loop
    | Stopping                 // StopWith waits for the loop

  datatype State = State(
    session: nat,
    procs: seq<Process>,
    loop: Loop,
    restarts: nat,
    messages: seq<bool>,       // sent on the started channel in this session
    cancelled: bool,
    api: Api,
    stop: bool,                // the stop function is set
    pidFile: Option<nat>,      // whose PID is in the file
    recorded: bool,            // the last PID file was written successfully
    clean: bool)               // earlier sessions had removed their PID files when this one began

  predicate Init(s: State) {
    s == State(0, [], Ended, 0, [], false, Free, false, None, false, true)
  }

  datatype Step =
    | Supervise
    | SpawnFails
    | Spawn
    | WritePid(ok: bool)
    | Announce
    | ProcessExits(p: nat)
    | WaitReturns(p: nat)
    | RemovePid(p: nat, ok: bool)
    | SendResult(p: nat)
    | ResultReceived
    | CancellationSeen
    | TerminationEnds
    | RespawnCancelled
    | RespawnTimeout
    | StartReported
    | FailureReported
    | Stop
    | StopReturns

  predicate Enabled(s: State, a: Step) {
    match a
    case Supervise => s.api.Free? && !s.stop
    case SpawnFails => s.loop.Spawning?
    case Spawn => s.loop.Spawning?
    case WritePid(_) => s.loop.Started?
    case Announce => s.loop.Recorded? && s.loop.p < |s.procs|
    case ProcessExits(p) => p < |s.procs| && s.procs[p].alive
    case WaitReturns(p) => p < |s.procs| && s.procs[p].waiter.Waiting? && !s.procs[p].alive
    case RemovePid(p, _) => p < |s.procs| && s.procs[p].waiter.Removing?
    case SendResult(p) => p < |s.procs| && s.procs[p].waiter.Sending?
    case ResultReceived => s.loop.Watching? && s.loop.p < |s.procs| && s.procs[s.loop.p].waiter.Sent?
    case CancellationSeen => s.loop.Watching? && s.cancelled
    case TerminationEnds => s.loop.Terminating?
    case RespawnCancelled => s.loop.Respawning? && s.cancelled
    case RespawnTimeout => s.loop.Respawning?
    case StartReported => s.api.Supervising? && s.messages != []
    case FailureReported => s.api.Failing? && s.loop.Ended?
    case Stop => s.api.Free? && s.stop
    case StopReturns => s.api.Stopping? && s.loop.Ended?
  }

  function Update(s: State, p: nat, proc: Process): State
    requires p < |s.procs|
  {
    s.(procs := s.procs[p := proc])
  }

  function Do(s: State, a: Step): State
    requires Enabled(s, a)
  {
    match a
    case Supervise =>
      s.(session := s.session + 1, loop := Spawning, restarts := 0, messages := [], cancelled := false,
         api := Supervising,
         clean := forall p :: 0 <= p < |s.procs| ==> Removed(s.procs[p]))
    case SpawnFails =>
      if s.restarts == 0 then s.(messages := s.messages + [false], loop := Ended) else s.(loop := Respawning)
    case Spawn => s.(procs := s.procs + [Process(s.session, true, Idle_, false)], loop := Started(|s.procs|))
    case WritePid(ok) =>
      s.(pidFile := if ok then Some(s.loop.p) else s.pidFile, recorded := ok, loop := Recorded(s.loop.p))
    case Announce =>
      Update(s, s.loop.p, s.procs[s.loop.p].(waiter := Waiting)).(
        messages := if s.restarts == 0 then s.messages + [true] else s.messages,
        restarts := s.restarts + 1,
        loop := Watching(s.loop.p))
    case ProcessExits(p) => Update(s, p, s.procs[p].(alive := false))
    case WaitReturns(p) => Update(s, p, s.procs[p].(waiter := Removing))
    case RemovePid(p, ok) =>
      Update(s, p, s.procs[p].(waiter := Sending, stuck := !ok)).(pidFile := if ok then None else s.pidFile)
    case SendResult(p) => Update(s, p, s.procs[p].(waiter := Sent))
    case ResultReceived => s.(loop := Respawning)
    case CancellationSeen => s.(loop := Terminating(s.loop.p))
    case TerminationEnds => s.(loop := Ended)
    case RespawnCancelled => s.(loop := Ended)
    case RespawnTimeout => s.(loop := Spawning)
    case StartReported =>
      if s.messages[0] then s.(stop := true, api := Free) else s.(cancelled := true, api := Failing)
    case FailureReported => s.(api := Free)
    case Stop => s.(cancelled := true, api := Stopping)
    case StopReturns => s.(stop := false, api := Free)
  }

  ghost predicate Next(s: State, s': State) { exists a :: Enabled(s, a) && s' == Do(s, a) }

  // ------------------------------------------------------------------------------------------
  // Invariant

  predicate HasProcess(l: Loop) { l.Started? || l.Recorded? || l.Watching? || l.Terminating? }

  /** The process is over: it has exited, its PID file was removed, and the result was sent. */
  predicate Over(p: Process) { !p.alive && p.waiter.Sent? }

  /** The removal of the PID file on behalf of the process is behind it. */
  predicate Removed(p: Process) { p.waiter.Sending? || p.waiter.Sent? }

  /** The loop deals with the process, or it ended while doing so. */
  predicate Current(s: State, p: nat) { (HasProcess(s.loop) && s.loop.p == p) || s.loop.Ended? }

  /** Apart from the one the loop is dealing with, all processes of the session are over. */
  predicate Sequential(s: State) {
    forall p :: 0 <= p < |s.procs| && s.procs[p].session == s.session && !Current(s, p) ==> Over(s.procs[p])
  }

  predicate ProcsOk(s: State) {
    forall p :: 0 <= p < |s.procs| ==>
      && s.procs[p].session <= s.session
      && (s.procs[p].alive ==> s.procs[p].waiter.Idle_? || s.procs[p].waiter.Waiting?)
      && (s.procs[p].waiter.Idle_? ==> (s.loop.Started? || s.loop.Recorded?) && s.loop.p == p)
  }

  predicate LoopOk(s: State) {
    && (HasProcess(s.loop) ==>
          s.loop.p == |s.procs| - 1 && s.procs[s.loop.p].session == s.session
          && ((s.loop.Started? || s.loop.Recorded?) <==> s.procs[s.loop.p].waiter.Idle_?))
    && (s.restarts > 0 || s.api.Supervising? || s.api.Failing? || s.loop.Ended?)
    && (s.loop.Watching? || s.loop.Terminating? || s.loop.Respawning? ==> s.restarts > 0)
    && (s.loop.Terminating? ==> s.cancelled)
    && (s.restarts > 0 ==> s.messages == [true])
    && (s.restarts == 0 && !s.loop.Ended? ==> s.messages == [])
    && (s.restarts == 0 && s.loop.Ended? && s.session > 0 ==> s.messages == [false])
  }

  predicate ApiOk(s: State) {
    && |s.messages| <= 1
    && (s.api.Free? ==> (s.stop <==> !s.loop.Ended?) && (!s.loop.Ended? ==> !s.cancelled))
    && (s.api.Stopping? ==> s.stop && s.cancelled)
    && (s.api.Supervising? || s.api.Failing? ==> !s.stop)
    && (s.api.Supervising? ==> !s.cancelled && s.session > 0 && (s.loop.Ended? ==> s.messages == [false]))
    && (s.api.Failing? ==> s.loop.Ended? && s.cancelled)
    && (s.stop ==> s.restarts > 0)
  }

  predicate CleanOk(s: State) {
    s.clean ==> forall p :: 0 <= p < |s.procs| && s.procs[p].session < s.session ==> Removed(s.procs[p])
  }

  /** The process of the loop has been recorded, and nobody has had a reason to remove its PID file. */
  predicate Recording(s: State) {
    && s.clean && s.recorded
    && (s.loop.Recorded? || (s.loop.Watching? && s.loop.p < |s.procs| && s.procs[s.loop.p].waiter.Waiting?))
  }

  predicate PidOk(s: State) { Recording(s) ==> s.pidFile == Some(s.loop.p) }

  /** A PID file that is still there after its removal could not be removed. */
  predicate RemovalOk(s: State) {
    s.pidFile.Some? ==>
      s.pidFile.value < |s.procs| && (Removed(s.procs[s.pidFile.value]) ==> s.procs[s.pidFile.value].stuck)
  }

  predicate Inv(s: State) {
    Sequential(s) && ProcsOk(s) && LoopOk(s) && ApiOk(s) && CleanOk(s) && PidOk(s) && RemovalOk(s)
  }

  /** The steps of a process and of the goroutine that waits for it. */
  predicate ByProcess(a: Step) { a.ProcessExits? || a.WaitReturns? || a.RemovePid? || a.SendResult? }

  lemma SequentialByProcess(s: State, a: Step)
    requires Sequential(s) && ProcsOk(s) && Enabled(s, a) && ByProcess(a)
    ensures Sequential(Do(s, a)) && ProcsOk(Do(s, a))
  {
  }

  lemma SequentialByLoop(s: State, a: Step)
    requires Sequential(s) && ProcsOk(s) && LoopOk(s) && Enabled(s, a) && !ByProcess(a)
    ensures Sequential(Do(s, a))
  {
  }

  lemma ProcsByLoop(s: State, a: Step)
    requires ProcsOk(s) && LoopOk(s) && ApiOk(s) && Enabled(s, a) && !ByProcess(a)
    ensures ProcsOk(Do(s, a))
  {
  }

  lemma LoopInductive(s: State, a: Step)
    requires ProcsOk(s) && LoopOk(s) && ApiOk(s) && Enabled(s, a)
    ensures LoopOk(Do(s, a))
  {
  }

  lemma ApiInductive(s: State, a: Step)
    requires LoopOk(s) && ApiOk(s) && Enabled(s, a)
    ensures ApiOk(Do(s, a))
  {
  }

  lemma PidInductive(s: State, a: Step)
    requires Inv(s) && Enabled(s, a)
    ensures CleanOk(Do(s, a)) && PidOk(Do(s, a))
  {
  }

  lemma RemovalInductive(s: State, a: Step)
    requires ProcsOk(s) && LoopOk(s) && RemovalOk(s) && Enabled(s, a)
    ensures RemovalOk(Do(s, a))
  {
  }

  lemma InvInductive(s: State, a: Step)
    requires Inv(s) && Enabled(s, a)
    ensures Inv(Do(s, a))
  {
    if ByProcess(a) {
      SequentialByProcess(s, a);
    } else {
      SequentialByLoop(s, a);
      ProcsByLoop(s, a);
    }
    LoopInductive(s, a);
    ApiInductive(s, a);
    PidInductive(s, a);
    RemovalInductive(s, a);
  }

  lemma RunsAreSound(run: seq<State>, i: nat)
    requires IsRun(Init, Next, run) && i < |run|
    ensures Inv(run[i])
  {
    forall s, s' | Inv(s) && Next(s, s') ensures Inv(s') {
      var a :| Enabled(s, a) && s' == Do(s, a);
      InvInductive(s, a);
    }
    InvariantOfRuns(Init, Next, Inv, run, i);
  }

  // ------------------------------------------------------------------------------------------
  // Guarantees

  /**
   In every session, processes are strictly sequential: when one is spawned, all others of the session
   have exited, and the removal of their PID file is behind them.
   */
  lemma StrictlySequential(run: seq<State>, i: nat, p: nat)
    requires IsRun(Init, Next, run) && i < |run| && Enabled(run[i], Spawn)
    requires p < |run[i].procs| && run[i].procs[p].session == run[i].session
    ensures Over(run[i].procs[p])
  {
    RunsAreSound(run, i);
  }

  /** At most one message is sent on the started channel, and one has been when Supervise returns. */
  lemma OneStartMessage(run: seq<State>, i: nat)
    requires IsRun(Init, Next, run) && i < |run|
    ensures |run[i].messages| <= 1
    ensures run[i].api.Free? && run[i].session > 0 ==> |run[i].messages| == 1
  {
    RunsAreSound(run, i);
  }

  /** Between calls, the stop function is set exactly if the loop is alive. */
  lemma StopMeansAlive(run: seq<State>, i: nat)
    requires IsRun(Init, Next, run) && i < |run| && run[i].api.Free?
    ensures run[i].stop <==> !run[i].loop.Ended?
  {
    RunsAreSound(run, i);
  }

  /** No call is in progress, and the supervisor can be started. */
  predicate Stopped(s: State) { s.api.Free? && !s.stop }

  /** In the session of an earlier state, nothing has happened since, apart from the ends of processes. */
  predicate Quiet(s: State, s': State) {
    s'.session > s.session || (s'.session == s.session && Stopped(s') && |s'.procs| == |s.procs|)
  }

  lemma QuietStep(s: State, s': State, a: Step)
    requires ApiOk(s') && Quiet(s, s') && Enabled(s', a)
    ensures Quiet(s, Do(s', a))
  {
  }

  /** Nothing is spawned after StopWith has returned, until Supervise is called again. */
  lemma NothingSpawnedAfterStop(run: seq<State>, i: nat, j: nat)
    requires IsRun(Init, Next, run) && i <= j < |run|
    requires Stopped(run[i]) && run[j].session == run[i].session
    ensures |run[j].procs| == |run[i].procs| && Stopped(run[j])
  {
    forall k | 0 <= k < |run| ensures Inv(run[k]) {
      RunsAreSound(run, k);
    }
    forall s, s' | Inv(s) && Quiet(run[i], s) && Next(s, s') ensures Quiet(run[i], s') {
      var a :| Enabled(s, a) && s' == Do(s, a);
      QuietStep(run[i], s, a);
    }
    StableInRuns(Init, Next, Inv, s => Quiet(run[i], s), run, i, j);
  }

  /** When a process is about to be spawned, the PID file names none of the session, unless it could not be removed. */
  lemma PidFileIsRemoved(run: seq<State>, i: nat, p: nat)
    requires IsRun(Init, Next, run) && i < |run| && Enabled(run[i], Spawn)
    requires run[i].pidFile == Some(p)
    ensures p < |run[i].procs| && (run[i].procs[p].session == run[i].session ==> run[i].procs[p].stuck)
  {
    RunsAreSound(run, i);
  }

  /**
   If all processes of earlier sessions had had their PID file removed, then the PID file names the
   process that is being watched, from when it was written until that process has been waited for.
   */
  lemma PidFileNamesProcess(run: seq<State>, i: nat)
    requires IsRun(Init, Next, run) && i < |run| && Recording(run[i])
    ensures run[i].pidFile == Some(run[i].loop.p)
  {
    RunsAreSound(run, i);
  }

  /**
   That condition is necessary: if the goroutine of a single earlier process still has the removal ahead
   of it when Supervise is called, then there is a way to go on in which it removes the PID file of the
   new session's process right after it has been written.
   */
  lemma LateRemoval(s: State, p: nat) returns (steps: seq<Step>, s': State)
    requires Inv(s) && Enabled(s, Supervise) && p < |s.procs| && !Removed(s.procs[p])
    ensures Leads(s, steps, s') && Supervise in steps
    ensures s'.session == s.session + 1 && s'.loop.Recorded? && s'.loop.p > p && s'.recorded && s'.pidFile == None
    decreases s.procs[p].alive, s.procs[p].waiter.Waiting?
  {
    if !s.procs[p].alive && s.procs[p].waiter.Removing? {
      steps, s' := RemovalInNextSession(s, p);
    } else {
      var a := if s.procs[p].alive then ProcessExits(p) else WaitReturns(p);
      InvInductive(s, a);
      var rest;
      rest, s' := LateRemoval(Do(s, a), p);
      steps := [a] + rest;
      assert steps[1..] == rest;
    }
  }

  lemma RemovalInNextSession(s: State, p: nat) returns (steps: seq<Step>, s': State)
    requires Enabled(s, Supervise) && p < |s.procs| && s.procs[p].waiter.Removing?
    ensures Leads(s, steps, s') && Supervise in steps
    ensures s'.session == s.session + 1 && s'.loop.Recorded? && s'.loop.p > p && s'.recorded && s'.pidFile == None
  {
    var s1 := Do(s, Supervise);
    var s2 := Do(s1, Spawn);
    var s3 := Do(s2, WritePid(true));
    s' := Do(s3, RemovePid(p, true));
    assert Leads(s', [], s');
    LeadsOn(s3, RemovePid(p, true), [], s');
    LeadsOn(s2, WritePid(true), [RemovePid(p, true)], s');
    LeadsOn(s1, Spawn, [WritePid(true), RemovePid(p, true)], s');
    LeadsOn(s, Supervise, [Spawn, WritePid(true), RemovePid(p, true)], s');
    steps := [Supervise, Spawn, WritePid(true), RemovePid(p, true)];
  }

  /** And such a process may be left: a stop that times out returns while the process is still running. */
  lemma TimedOutStop(s: State) returns (steps: seq<Step>, s': State)
    requires Init(s)
    ensures Leads(s, steps, s') && Enabled(s', Supervise)
    ensures |s'.procs| == 1 && s'.procs[0].alive && !Removed(s'.procs[0])
  {
    var start, s1 := FirstStart(s);
    var stop;
    stop, s' := StopTimesOut(s1);
    LeadsThrough(s, start, s1, stop, s');
    steps := start + stop;
  }

  lemma FirstStart(s: State) returns (steps: seq<Step>, s': State)
    requires Init(s)
    ensures Leads(s, steps, s') && s'.api.Supervising? && s'.messages == [true] && s'.loop == Watching(0)
    ensures s'.procs == [Process(1, true, Waiting, false)]
  {
    var s1 := Do(s, Supervise);
    var s2 := Do(s1, Spawn);
    var s3 := Do(s2, WritePid(true));
    s' := Do(s3, Announce);
    assert Leads(s', [], s');
    LeadsOn(s3, Announce, [], s');
    LeadsOn(s2, WritePid(true), [Announce], s');
    LeadsOn(s1, Spawn, [WritePid(true), Announce], s');
    LeadsOn(s, Supervise, [Spawn, WritePid(true), Announce], s');
    steps := [Supervise, Spawn, WritePid(true), Announce];
  }

  lemma StopTimesOut(s: State) returns (steps: seq<Step>, s': State)
    requires s.api.Supervising? && s.messages == [true] && s.loop.Watching?
    ensures Leads(s, steps, s') && Enabled(s', Supervise) && s'.procs == s.procs
  {
    var s1 := Do(s, StartReported);
    var s2 := Do(s1, Stop);
    var s3 := Do(s2, CancellationSeen);
    var s4 := Do(s3, TerminationEnds);
    s' := Do(s4, StopReturns);
    assert Leads(s', [], s');
    LeadsOn(s4, StopReturns, [], s');
    LeadsOn(s3, TerminationEnds, [StopReturns], s');
    LeadsOn(s2, CancellationSeen, [TerminationEnds, StopReturns], s');
    LeadsOn(s1, Stop, [CancellationSeen, TerminationEnds, StopReturns], s');
    LeadsOn(s, StartReported, [Stop, CancellationSeen, TerminationEnds, StopReturns], s');
    steps := [StartReported, Stop, CancellationSeen, TerminationEnds, StopReturns];
  }

  lemma {:induction false} LeadsThrough(s: State, a: seq<Step>, s1: State, b: seq<Step>, s': State)
    requires Leads(s, a, s1) && Leads(s1, b, s')
    ensures Leads(s, a + b, s')
    decreases |a|
  {
    if a == [] {
      assert a + b == b;
    } else {
      LeadsThrough(Do(s, a[0]), a[1..], s1, b, s');
      assert (a + b)[1..] == a[1..] + b;
    }
  }

  /** The steps lead from one state to the other. */
  predicate Leads(s: State, steps: seq<Step>, s': State)
    decreases |steps|
  {
    if steps == [] then s' == s
    else Enabled(s, steps[0]) && Leads(Do(s, steps[0]), steps[1..], s')
  }

  lemma LeadsOn(s: State, a: Step, rest: seq<Step>, s': State)
    requires Enabled(s, a) && Leads(Do(s, a), rest, s')
    ensures Leads(s, [a] + rest, s')
  {
  }

  /** How far the loop is from having a process again. */
  function Downtime(s: State): nat {
    match s.loop
    case Spawning => 1
    case Respawning => 2
    case Watching(p) =>
      if p < |s.procs| && !s.procs[p].alive then
        match s.procs[p].waiter
        case Sent => 3
        case Sending => 4
        case Removing => 5
        case _ => 6
      else 0
    case _ => 0
  }

  /** A process that has ended is replaced: unless the loop is cancelled, it can get closer to the next one. */
  lemma Respawns(run: seq<State>, i: nat) returns (a: Step)
    requires IsRun(Init, Next, run) && i < |run| && !run[i].cancelled && Downtime(run[i]) > 0
    ensures Enabled(run[i], a) && Downtime(Do(run[i], a)) < Downtime(run[i])
    ensures a == Spawn ==> HasProcess(Do(run[i], a).loop) && Do(run[i], a).procs[|run[i].procs|].alive
  {
    RunsAreSound(run, i);
    var s := run[i];
    match s.loop
    case Spawning => a := Spawn;
    case Respawning => a := RespawnTimeout;
    case Watching(p) =>
      a := match s.procs[p].waiter
      case Sent => ResultReceived
      case Sending => SendResult(p)
      case Removing => RemovePid(p, true)
      case _ => WaitReturns(p);
  }

  /** How far the call in progress is from returning. */
  function Distance(s: State): nat {
    match s.api
    case Free => 0
    case Failing => 1
    case Supervising =>
      if s.messages != [] then 2
      else if s.loop.Recorded? then 3
      else if s.loop.Started? then 4
      else 5
    case Stopping =>
      match s.loop
      case Ended => 1
      case Terminating(_) => 2
      case Respawning => 2
      case Watching(_) => 3
      case Recorded(_) => 4
      case Started(_) => 5
      case Spawning => 6
  }

  /** No call blocks forever: there is always a step that brings it closer to its return. */
  lemma NoDeadlock(run: seq<State>, i: nat) returns (a: Step)
    requires IsRun(Init, Next, run) && i < |run| && !run[i].api.Free?
    ensures Enabled(run[i], a) && Distance(Do(run[i], a)) < Distance(run[i])
  {
    RunsAreSound(run, i);
    var s := run[i];
    if s.api.Supervising? && s.messages != [] {
      a := StartReported;
    } else {
      match s.loop
      case Spawning => a := Spawn;
      case Started(_) => a := WritePid(true);
      case Recorded(_) => a := Announce;
      case Watching(_) => a := CancellationSeen;
      case Terminating(_) => a := TerminationEnds;
      case Respawning => a := RespawnCancelled;
      case Ended => a := if s.api.Failing? then FailureReported else StopReturns;
    }
  }
}
