/**
 The event loop of autopilot's root controller: it keeps one generation of sub controllers running,
 in the mode that goes with the leader election status it has observed last.
 */
module RootController {

  import opened Basics
  import Board

  /** How far the goroutine of a generation has come; its error channel holds a value from Reported on. */
  datatype Phase = Active | Reported | Ended

  datatype Generation = Generation(leading: bool, cancelled: bool, phase: Phase)

  datatype Main =
    | Starting                 // about to peek for the first time
    | Selecting                // in the select statement
    | Peeking(since: nat)      // the status expired, about to peek again
    | Stopping                 // cancelled the last generation, waiting for its error channel
    | AwaitingElector          // the context is done, waiting for the elector
    | AwaitingGeneration       // the elector is done, waiting for the error channel
    | Returned

  /** True stands for Leading. `seen` is the cell that was peeked last. */
  datatype State = State(
    board: Board.Board<bool>,
    ctxDone: bool,
    electorDone: bool,
    main: Main,
    seen: nat,
    generations: seq<Generation>)

  /** The status starts out as Pending, and the elector is running. */
  predicate Init(s: State) {
    s.board == Board.Board([false], {}) && !s.ctxDone && !s.electorDone && s.main == Starting && s.generations == []
  }

  datatype Step =
    | Install(status: bool)
    | Expire(j: nat)
    | Cancel
    | ElectorReturns
    | FirstPeek(j: nat)
    | StatusExpired
    | NextPeek(j: nat)
    | GenerationStopped
    | ContextDone
    | ElectorAwaited
    | GenerationAwaited
    | RoutineReturns(g: nat)
    | GenerationEnds(g: nat)

  function Last(s: State): nat
    requires s.generations != []
  {
    |s.generations| - 1
  }

  /** Something can be received from the error channel of the last generation. */
  predicate ErrorAvailable(s: State) { s.generations != [] && !s.generations[Last(s)].phase.Active? }

  predicate Enabled(s: State, a: Step) {
    match a
    case Install(_) => !s.electorDone
    case Expire(j) => !s.electorDone && j + 1 < |s.board.values| && j !in s.board.expired
    case Cancel => true
    case ElectorReturns =>
      // Setting the status is part of running the elector, and it includes closing the old channel.
      s.ctxDone && !s.electorDone && forall j :: 0 <= j < |s.board.values| - 1 ==> j in s.board.expired
    case FirstPeek(j) => s.main.Starting? && j < |s.board.values|
    case StatusExpired => s.main.Selecting? && s.seen in s.board.expired
    case NextPeek(j) => s.main.Peeking? && s.main.since <= j + 1 && j < |s.board.values|
    case GenerationStopped => s.main.Stopping? && ErrorAvailable(s) && s.seen < |s.board.values|
    case ContextDone => s.main.Selecting? && s.ctxDone
    case ElectorAwaited => s.main.AwaitingElector? && s.electorDone
    case GenerationAwaited => s.main.AwaitingGeneration? && ErrorAvailable(s)
    case RoutineReturns(g) => g < |s.generations| && s.generations[g].phase.Active?
    case GenerationEnds(g) => g < |s.generations| && s.generations[g].phase.Reported?
  }

  function Start(s: State, leading: bool): State {
    s.(main := Selecting, generations := s.generations + [Generation(leading, false, Active)])
  }

  function Do(s: State, a: Step): State
    requires Enabled(s, a)
  {
    match a
    case Install(v) => s.(board := s.board.(values := s.board.values + [v]))
    case Expire(j) => s.(board := s.board.(expired := s.board.expired + {j}))
    case Cancel => s.(ctxDone := true)
    case ElectorReturns => s.(electorDone := true)
    case FirstPeek(j) => Start(s.(seen := j), s.board.values[j])
    case StatusExpired => s.(main := Peeking(|s.board.values|))
    case NextPeek(j) =>
      var last := s.seen < |s.board.values| && s.board.values[s.seen];
      if s.board.values[j] == last || s.generations == [] then s.(main := Selecting, seen := j)
      else
        s.(main := Stopping, seen := j,
           generations := s.generations[Last(s) := s.generations[Last(s)].(cancelled := true)])
    case GenerationStopped => Start(s, s.board.values[s.seen])
    case ContextDone => s.(main := AwaitingElector)
    case ElectorAwaited => s.(main := AwaitingGeneration)
    case GenerationAwaited => s.(main := Returned)
    case RoutineReturns(g) => s.(generations := s.generations[g := s.generations[g].(phase := Reported)])
    case GenerationEnds(g) =>
      s.(generations := s.generations[g := s.generations[g].(phase := Ended, cancelled := true)])
  }

  ghost predicate Next(s: State, s': State) { exists a :: Enabled(s, a) && s' == Do(s, a) }

  predicate Inv(s: State) {
    && Board.Valid(s.board)
    && s.board.values != []
    && (s.generations == [] <==> s.main.Starting?)
    // Only the last generation can be active.
    && (forall g :: 0 <= g < |s.generations| - 1 ==> !s.generations[g].phase.Active?)
    && (!s.main.Starting? ==> s.seen < |s.board.values|)
    // The last generation runs in the mode that was observed last, unless it is being replaced.
    && (!s.main.Starting? ==>
          (s.generations[Last(s)].leading == s.board.values[s.seen] <==> !s.main.Stopping?))
    && (s.main.Stopping? ==> s.generations[Last(s)].cancelled)
    && (s.main.Peeking? ==> s.seen + 1 < s.main.since <= |s.board.values|)
    && (s.main.AwaitingElector? || s.main.AwaitingGeneration? || s.main.Returned? ==> s.ctxDone)
    && (s.main.AwaitingGeneration? || s.main.Returned? ==> s.electorDone)
    && (s.main.Returned? ==> ErrorAvailable(s))
    && (s.electorDone ==> s.ctxDone && forall j :: 0 <= j < |s.board.values| - 1 ==> j in s.board.expired)
  }

  lemma InvInductive(s: State, a: Step)
    requires Inv(s) && Enabled(s, a)
    ensures Inv(Do(s, a))
  {
  }

  lemma RunsAreSound(run: seq<State>, i: nat)
    requires IsRun(Init, Next, run) && i < |run|
    ensures Inv(run[i])
  {
    forall s, s' | Inv(s) && Next(s, s') ensures Inv(s') {
      var a :| Enabled(s, a) && s' == Do(s, a);
      InvInductive(s, a);
    }
    InvariantOfRuns(Init, Next, Inv, run, i);
  }

  /**
   In every run: at most one generation is active, and it is the last one. While waiting for events, its
   mode is the status observed last. If that is outdated, then it has expired, or the elector is about to let
   it expire; once the elector is done, a status that has not expired is the current one.
   */
  lemma OneGenerationInTheObservedMode(run: seq<State>, i: nat, g: nat)
    requires IsRun(Init, Next, run) && i < |run| && g < |run[i].generations|
    ensures run[i].generations[g].phase.Active? ==> g == Last(run[i])
    ensures run[i].main.Selecting? ==>
              && run[i].seen < |run[i].board.values|
              && run[i].generations[Last(run[i])].leading == run[i].board.values[run[i].seen]
              && (run[i].seen + 1 < |run[i].board.values| ==>
                    run[i].seen in run[i].board.expired || Enabled(run[i], Expire(run[i].seen)))
              && (run[i].electorDone && run[i].seen !in run[i].board.expired ==>
                    run[i].seen == |run[i].board.values| - 1)
  {
    RunsAreSound(run, i);
  }

  /** Run returns only when the elector is done and no generation is active any more. */
  lemma ReturnsLast(run: seq<State>, i: nat, g: nat)
    requires IsRun(Init, Next, run) && i < |run| && run[i].main.Returned? && g < |run[i].generations|
    ensures run[i].electorDone && !run[i].generations[g].phase.Active?
  {
    RunsAreSound(run, i);
  }

  /** Steps that neither wait for somebody outside to act nor start anything new. */
  predicate Internal(a: Step) { !a.Install? && !a.Cancel? }

  /** The loop has nothing to do: the status is current, and nobody wants it to stop. */
  predicate Quiet(s: State) { s.main.Selecting? && !s.ctxDone && s.seen !in s.board.expired }

  /** How many of the first n values have not expired yet. */
  function Pending(expired: set<nat>, n: nat): nat {
    if n == 0 then 0 else Pending(expired, n - 1) + if n - 1 in expired then 0 else 1
  }

  lemma {:induction false} PendingShrinks(expired: set<nat>, j: nat, n: nat)
    requires j !in expired
    ensures Pending(expired + {j}, n) == Pending(expired, n) - if j < n then 1 else 0
    decreases n
  {
    if n > 0 {
      PendingShrinks(expired, j, n - 1);
    }
  }

  /** How far Run is from returning once its context is done, and from being quiet until then. */
  function Distance(s: State): nat {
    var active := if ErrorAvailable(s) then 0 else 1;
    var pending := if s.board.values == [] then 0 else Pending(s.board.expired, |s.board.values| - 1);
    if s.ctxDone then
      match s.main
      case Starting => 8 + pending
      case Peeking(_) => 8 + pending
      case Stopping => 6 + active + pending
      case Selecting => 5 + pending
      case AwaitingElector => if s.electorDone then 2 + active else 3 + active + pending
      case AwaitingGeneration => 1 + active
      case Returned => 0
    else
      match s.main
      case Starting => 1
      case Stopping => active + if s.seen in s.board.expired then 5 else 1
      case Selecting => if s.seen in s.board.expired then 4 else 0
      case _ => 3
  }

  /**
   There is no deadlock: unless the loop is quiet or has returned, a step is enabled that gets it closer to
   being quiet, or to its return once the context is done.
   */
  lemma NoDeadlock(run: seq<State>, i: nat) returns (a: Step)
    requires IsRun(Init, Next, run) && i < |run| && !run[i].main.Returned? && !Quiet(run[i])
    ensures Internal(a) && Enabled(run[i], a) && Distance(Do(run[i], a)) < Distance(run[i])
  {
    RunsAreSound(run, i);
    var s := run[i];
    match s.main
    case Starting => a := FirstPeek(|s.board.values| - 1);
    case Selecting => a := if s.ctxDone then ContextDone else StatusExpired;
    case Peeking(_) => a := NextPeek(|s.board.values| - 1);
    case Stopping => a := if ErrorAvailable(s) then GenerationStopped else RoutineReturns(Last(s));
    case AwaitingElector =>
      if s.electorDone {
        a := ElectorAwaited;
      } else if forall j :: 0 <= j < |s.board.values| - 1 ==> j in s.board.expired {
        a := ElectorReturns;
      } else {
        var j: nat :| j < |s.board.values| - 1 && j !in s.board.expired;
        a := Expire(j);
        PendingShrinks(s.board.expired, j, |s.board.values| - 1);
      }
    case AwaitingGeneration => a := if ErrorAvailable(s) then GenerationAwaited else RoutineReturns(Last(s));
  }
}
