/**
 The leader election client, one atomic operation at a time. Every round has a flag that is swapped
 both by the callback that announces the lead and at the end of the round, and a channel that is
 closed when the callback is done. Callbacks run on their own and may come as late as they like.
 */
module LeaderClient {

  import opened Basics

  datatype Status = Pending | Leading

  /** How far the callback of a round has come. */
  datatype Callback =
    | NotStarted     // the elector has not taken the lead in this round
    | Spawned        // the goroutine exists, but has not swapped the flag yet
    | Announcing     // it swapped first and is inside changed(StatusLeading)
    | Finished       // it is about to close the channel
    | Closed         // the channel is closed

  datatype Round = Round(flag: bool, callback: Callback)

  /** Where Run is, always with regard to the last round. */
  datatype Main =
    | Idle           // between rounds
    | Electing       // inside the elector
    | Ending         // the elector has returned, the flag has not been swapped yet
    | Waiting        // waiting for the channel
    | Retracting     // inside changed(StatusPending)
    | Returned

  /** A call of the changed callback, as seen by the caller of Run. */
  datatype Event = Begin(status: Status) | End(status: Status)

  datatype State = State(main: Main, rounds: seq<Round>, ctxDone: bool, history: seq<Event>)

  predicate Init(s: State) { s == State(Idle, [], false, []) }

  function WithRound(s: State, k: nat, r: Round): State
    requires k < |s.rounds|
  {
    s.(rounds := s.rounds[k := r])
  }

  /** The steps of Run, of the elector, and of the callbacks of the rounds so far. */
  datatype Step =
    | Cancel
    | Return
    | StartRound
    | TakeLead
    | ElectorReturns
    | EndSwap
    | ChannelReceived
    | RetractEnds
    | CallbackSwap(k: nat)
    | AnnounceEnds(k: nat)
    | CloseChannel(k: nat)

  predicate Enabled(s: State, a: Step) {
    var n := |s.rounds|;
    match a
    case Cancel => true
    case Return => s.main.Idle? && s.ctxDone
    case StartRound => s.main.Idle? && !s.ctxDone
    case TakeLead => s.main.Electing? && n > 0 && s.rounds[n - 1].callback.NotStarted?
    case ElectorReturns => s.main.Electing?
    case EndSwap => s.main.Ending? && n > 0
    case ChannelReceived => s.main.Waiting? && n > 0 && s.rounds[n - 1].callback.Closed?
    case RetractEnds => s.main.Retracting?
    case CallbackSwap(k) => k < n && s.rounds[k].callback.Spawned?
    case AnnounceEnds(k) => k < n && s.rounds[k].callback.Announcing?
    case CloseChannel(k) => k < n && s.rounds[k].callback.Finished?
  }

  function Do(s: State, a: Step): State
    requires Enabled(s, a)
  {
    var n := |s.rounds|;
    match a
    case Cancel => s.(ctxDone := true)
    case Return => s.(main := Returned)
    case StartRound => s.(main := Electing, rounds := s.rounds + [Round(false, NotStarted)])
    case TakeLead => WithRound(s, n - 1, s.rounds[n - 1].(callback := Spawned))
    case ElectorReturns => s.(main := Ending)
    case EndSwap =>
      var r := s.rounds[n - 1];
      WithRound(s, n - 1, r.(flag := true)).(main := if r.flag then Waiting else Idle)
    case ChannelReceived => s.(main := Retracting, history := s.history + [Begin(Pending)])
    case RetractEnds => s.(main := Idle, history := s.history + [End(Pending)])
    case CallbackSwap(k) =>
      if s.rounds[k].flag then WithRound(s, k, Round(true, Finished))
      else WithRound(s, k, Round(true, Announcing)).(history := s.history + [Begin(Leading)])
    case AnnounceEnds(k) =>
      WithRound(s, k, s.rounds[k].(callback := Finished)).(history := s.history + [End(Leading)])
    case CloseChannel(k) => WithRound(s, k, s.rounds[k].(callback := Closed))
  }

  ghost predicate Next(s: State, s': State) { exists a :: Enabled(s, a) && s' == Do(s, a) }

  // ------------------------------------------------------------------------------------------
  // The promised order of calls

  /** Calls that do not overlap, alternating between the two states and beginning with the lead. */
  predicate Alternating(h: seq<Event>) {
    forall i :: 0 <= i < |h| ==>
      h[i] == if i % 4 == 0 then Begin(Leading)
              else if i % 4 == 1 then End(Leading)
              else if i % 4 == 2 then Begin(Pending)
              else End(Pending)
  }

  /** The callback of the round swapped the flag before the end of the round did. */
  predicate Announced(r: Round) { r.flag && (r.callback.Announcing? || r.callback.Finished? || r.callback.Closed?) }

  /** How many events of the current cycle have happened, judging by where everybody is. */
  function Phase(s: State): nat {
    var n := |s.rounds|;
    if s.main.Retracting? then 3
    else if n > 0 && (s.main.Electing? || s.main.Ending? || s.main.Waiting?) && s.rounds[n - 1].flag then
      if s.rounds[n - 1].callback.Announcing? then 1 else 2
    else 0
  }

  predicate Inv(s: State) {
    var n := |s.rounds|;
    && (!s.main.Idle? && !s.main.Returned? ==> n > 0)
    // Rounds that are over: their flag is taken, and nobody is announcing.
    && (forall k :: 0 <= k < n && (k < n - 1 || s.main.Idle? || s.main.Returned?) ==>
          s.rounds[k].flag && !s.rounds[k].callback.Announcing?)
    // The round that is going on: only its callback can have taken the flag.
    && (n > 0 && (s.main.Electing? || s.main.Ending?) ==>
          (s.rounds[n - 1].flag <==> Announced(s.rounds[n - 1])) &&
          (s.rounds[n - 1].flag || s.rounds[n - 1].callback.NotStarted? || s.rounds[n - 1].callback.Spawned?))
    && (n > 0 && s.main.Waiting? ==> Announced(s.rounds[n - 1]))
    && (n > 0 && s.main.Retracting? ==> s.rounds[n - 1].flag && s.rounds[n - 1].callback.Closed?)
    && Alternating(s.history)
    && |s.history| % 4 == Phase(s)
  }

  lemma InvInductive(s: State, a: Step)
    requires Inv(s) && Enabled(s, a)
    ensures Inv(Do(s, a))
  {
  }

  /**
   In every run, however late the callbacks come: the calls never overlap, and they alternate between
   Leading and Pending, beginning with Leading. Between rounds, and once Run has returned, every lead
   that was announced has been retracted.
   */
  lemma CallsAlternate(run: seq<State>, i: nat)
    requires IsRun(Init, Next, run) && i < |run|
    ensures Alternating(run[i].history)
    ensures run[i].main.Idle? || run[i].main.Returned? ==> |run[i].history| % 4 == 0
  {
    RunsAreSound(run, i);
  }

  lemma RunsAreSound(run: seq<State>, i: nat)
    requires IsRun(Init, Next, run) && i < |run|
    ensures Inv(run[i])
  {
    forall s, s' | Inv(s) && Next(s, s') ensures Inv(s') {
      var a :| Enabled(s, a) && s' == Do(s, a);
      InvInductive(s, a);
    }
    InvariantOfRuns(Init, Next, Inv, run, i);
  }

  /**
   A callback announces the lead if and only if its round is still going on when it swaps the flag. In a round that
   is going on, the elector can take the lead as long as it has not done so.
   */
  lemma AnnouncesInTime(run: seq<State>, i: nat, k: nat)
    requires IsRun(Init, Next, run) && i < |run| && k < |run[i].rounds|
    ensures var s, current := run[i], k == |run[i].rounds| - 1 && (run[i].main.Electing? || run[i].main.Ending?);
            && (Enabled(s, CallbackSwap(k)) ==>
                  Do(s, CallbackSwap(k)).history == if current then s.history + [Begin(Leading)] else s.history)
            && (current && s.main.Electing? && s.rounds[k].callback.NotStarted? ==>
                  Enabled(s, TakeLead) && Enabled(Do(s, TakeLead), CallbackSwap(k)))
  {
    RunsAreSound(run, i);
  }

  /** Nothing is called after Run has returned. */
  lemma {:induction false} SilentAfterReturn(run: seq<State>, i: nat, j: nat)
    requires IsRun(Init, Next, run) && i <= j < |run| && run[i].main.Returned?
    ensures run[j].main.Returned? && run[j].history == run[i].history
    decreases j
  {
    if i < j {
      SilentAfterReturn(run, i, j - 1);
      RunsAreSound(run, j - 1);
      assert Next(run[j - 1], run[j - 1 + 1]);
    }
  }

  /** How many steps the callback has yet to make until its channel is closed. */
  function Lag(c: Callback): nat {
    if c.Announcing? then 2 else if c.Finished? then 1 else 0
  }

  /** How far Run is from returning, once its context is done. */
  function Distance(s: State): nat {
    match s.main
    case Electing => 8
    case Ending => 7
    case Waiting => 3 + if s.rounds == [] then 0 else Lag(s.rounds[|s.rounds| - 1].callback)
    case Retracting => 2
    case Idle => 1
    case Returned => 0
  }

  /** The step that brings Run closer to its end. */
  function Progress(s: State): Step {
    var n := |s.rounds|;
    match s.main
    case Electing => ElectorReturns
    case Ending => EndSwap
    case Waiting =>
      if n > 0 && s.rounds[n - 1].callback.Announcing? then AnnounceEnds(n - 1)
      else if n > 0 && s.rounds[n - 1].callback.Finished? then CloseChannel(n - 1)
      else ChannelReceived
    case Retracting => RetractEnds
    case _ => Return
  }

  /**
   There is no deadlock: until Run has returned, some step gets it closer to that, and no step of
   anybody else gets it further away. In particular, waiting for the channel always ends.
   */
  lemma NoDeadlock(run: seq<State>, i: nat, a: Step)
    requires IsRun(Init, Next, run) && i < |run| && !run[i].main.Returned?
    requires run[i].ctxDone || run[i].main.Waiting?
    ensures Enabled(run[i], Progress(run[i])) && Distance(Do(run[i], Progress(run[i]))) < Distance(run[i])
    ensures Enabled(run[i], a) ==> Distance(Do(run[i], a)) <= Distance(run[i])
  {
    RunsAreSound(run, i);
  }
}
