/** RunLeaderTasks: a loop that peeks at the status and runs a task for every cell that says Leading. */
module LeaderTasks {

  import opened Basics
  import Board

  /** A run of the tasks function with a context of its own, and the goroutine that cancels it. */
  datatype Task = Task(cell: nat, lost: bool, watching: bool)

  datatype Main =
    | Looping                  // at the head of the loop
    | Peeking(since: nat)      // inside statusFunc; so many values were installed when it was called
    | Running                  // inside the tasks function of the last task
    | Selecting                // waiting for the cell to expire or the context to be done
    | Returned

  /** True stands for Leading. `seen` is the cell that was peeked last. */
  datatype State = State(board: Board.Board<bool>, ctxDone: bool, main: Main, seen: nat, tasks: seq<Task>)

  predicate Init(s: State) {
    s.board == Board.Board([], {}) && !s.ctxDone && s.main == Looping && s.tasks == []
  }

  datatype Step =
    | Install(status: bool)
    | Expire(j: nat)
    | Cancel
    | CallStatus
    | StatusReturns(j: nat)
    | TaskReturns
    | StatusExpired
    | ContextDone
    | WatcherCancels(t: nat)
    | WatcherQuits(t: nat)

  /** The context of a task is done if the watcher cancelled it, or the outer one is. */
  predicate Cancelled(s: State, t: Task) { t.lost || s.ctxDone }

  predicate Enabled(s: State, a: Step) {
    match a
    case Install(_) => true
    case Expire(j) => j + 1 < |s.board.values| && j !in s.board.expired
    case Cancel => true
    case CallStatus => s.main.Looping?
    case StatusReturns(j) => s.main.Peeking? && s.main.since <= j + 1 && j < |s.board.values|
    case TaskReturns => s.main.Running?
    case StatusExpired => s.main.Selecting? && s.seen in s.board.expired
    case ContextDone => s.main.Selecting? && s.ctxDone
    case WatcherCancels(t) => t < |s.tasks| && s.tasks[t].watching && s.tasks[t].cell in s.board.expired
    case WatcherQuits(t) => t < |s.tasks| && s.tasks[t].watching && Cancelled(s, s.tasks[t])
  }

  function Do(s: State, a: Step): State
    requires Enabled(s, a)
  {
    match a
    case Install(v) => s.(board := s.board.(values := s.board.values + [v]))
    case Expire(j) => s.(board := s.board.(expired := s.board.expired + {j}))
    case Cancel => s.(ctxDone := true)
    case CallStatus => s.(main := Peeking(|s.board.values|))
    case StatusReturns(j) =>
      if s.board.values[j] then s.(main := Running, seen := j, tasks := s.tasks + [Task(j, false, true)])
      else s.(main := Selecting, seen := j)
    case TaskReturns => s.(main := Selecting)
    case StatusExpired => s.(main := Looping)
    case ContextDone => s.(main := Returned)
    case WatcherCancels(t) => s.(tasks := s.tasks[t := s.tasks[t].(lost := true, watching := false)])
    case WatcherQuits(t) => s.(tasks := s.tasks[t := s.tasks[t].(watching := false)])
  }

  ghost predicate Next(s: State, s': State) { exists a :: Enabled(s, a) && s' == Do(s, a) }

  /** Every task has a Leading cell of its own, and its watcher does not leave it alone. */
  predicate TasksOk(s: State) {
    && (forall t :: 0 <= t < |s.tasks| ==>
          && s.tasks[t].cell < |s.board.values|
          && s.board.values[s.tasks[t].cell]
          && (s.tasks[t].lost ==> s.tasks[t].cell in s.board.expired)
          && (s.tasks[t].watching || Cancelled(s, s.tasks[t])))
    && (forall t, u :: 0 <= t < u < |s.tasks| ==> s.tasks[t].cell < s.tasks[u].cell)
  }

  predicate Inv(s: State) {
    && Board.Valid(s.board)
    && TasksOk(s)
    && (s.main.Running? ==> s.tasks != [] && s.tasks[|s.tasks| - 1].cell == s.seen)
    && (s.main.Running? || s.main.Selecting? ==> s.seen < |s.board.values|)
    && (s.main.Selecting? && s.board.values[s.seen] ==> s.tasks != [] && s.tasks[|s.tasks| - 1].cell == s.seen)
    && (s.tasks != [] && (s.main.Running? || s.main.Selecting?) ==> s.tasks[|s.tasks| - 1].cell <= s.seen)
    && (s.tasks != [] && s.main.Looping? ==> s.tasks[|s.tasks| - 1].cell + 1 < |s.board.values|)
    && (s.main.Peeking? ==> s.main.since <= |s.board.values|)
    && (s.tasks != [] && s.main.Peeking? ==> s.tasks[|s.tasks| - 1].cell + 1 < s.main.since)
  }

  lemma InvAfterWatcher(s: State, t: nat, task: Task)
    requires Inv(s) && t < |s.tasks| && task.cell == s.tasks[t].cell && !task.watching
    requires task.lost ==> task.cell in s.board.expired
    requires Cancelled(s, task)
    ensures Inv(s.(tasks := s.tasks[t := task]))
  {
  }

  lemma InvAfterStatus(s: State, j: nat)
    requires Inv(s) && Enabled(s, StatusReturns(j))
    ensures Inv(Do(s, StatusReturns(j)))
  {
  }

  lemma InvAfterBoard(s: State, b: Board.Board<bool>)
    requires Inv(s) && Board.Valid(b) && s.board.values <= b.values && s.board.expired <= b.expired
    ensures Inv(s.(board := b))
  {
  }

  lemma InvInductive(s: State, a: Step)
    requires Inv(s) && Enabled(s, a)
    ensures Inv(Do(s, a))
  {
    match a
    case Install(_) => InvAfterBoard(s, Do(s, a).board);
    case Expire(_) => InvAfterBoard(s, Do(s, a).board);
    case StatusReturns(j) => InvAfterStatus(s, j);
    case WatcherCancels(t) => InvAfterWatcher(s, t, Do(s, a).tasks[t]);
    case WatcherQuits(t) => InvAfterWatcher(s, t, Do(s, a).tasks[t]);
    case _ =>
  }

  /** The environment may do to the board whatever a latest value does, and nothing else. */
  lemma BoardSteps(s: State, b: Board.Board<bool>)
    ensures Board.Next(s.board, b) <==> b == s.board || exists a :: Enabled(s, a) && s.(board := b) == Do(s, a)
  {
    if Board.Install(s.board, b) {
      var a := Install(b.values[|s.board.values|]);
      assert b.values == s.board.values + [a.status];
      assert Enabled(s, a) && Do(s, a) == s.(board := b);
    } else if j: nat :| Board.Expire(s.board, b, j) {
      assert Enabled(s, Expire(j)) && Do(s, Expire(j)) == s.(board := b);
    }
    forall a | Enabled(s, a) && s.(board := b) == Do(s, a) ensures Board.Next(s.board, b) {
      if a.Expire? { assert Board.Expire(s.board, b, a.j); }
    }
  }

  lemma RunsAreSound(run: seq<State>, i: nat)
    requires IsRun(Init, Next, run) && i < |run|
    ensures Inv(run[i])
  {
    forall s, s' | Inv(s) && Next(s, s') ensures Inv(s') {
      var a :| Enabled(s, a) && s' == Do(s, a);
      InvInductive(s, a);
    }
    InvariantOfRuns(Init, Next, Inv, run, i);
  }

  /**
   In every run: every task is for a Leading cell, and it is told that the lead is lost only after its cell has
   been replaced. Tasks run one at a time, and the one that is running is the last one, for the cell peeked last.
   */
  lemma TasksAreForLeadingCells(run: seq<State>, i: nat, t: nat)
    requires IsRun(Init, Next, run) && i < |run| && t < |run[i].tasks|
    ensures var s := run[i];
            && s.tasks[t].cell < |s.board.values| && s.board.values[s.tasks[t].cell]
            && (s.tasks[t].lost ==> s.tasks[t].cell + 1 < |s.board.values|)
            && (s.main.Running? ==> s.tasks[t].cell <= s.tasks[|s.tasks| - 1].cell == s.seen)
  {
    RunsAreSound(run, i);
  }

  /** No lead is missed: once a cell that says Leading has been peeked, there is a task for it. */
  lemma EveryLeadHasTask(run: seq<State>, i: nat)
    requires IsRun(Init, Next, run) && i < |run| && (run[i].main.Running? || run[i].main.Selecting?)
    ensures var s := run[i];
            && s.seen < |s.board.values|
            && (s.board.values[s.seen] ==> s.tasks != [] && s.tasks[|s.tasks| - 1].cell == s.seen)
  {
    RunsAreSound(run, i);
  }

  /** No two tasks are for the same cell; later ones are for later cells. */
  lemma OneTaskPerCell(run: seq<State>, i: nat, t: nat, u: nat)
    requires IsRun(Init, Next, run) && i < |run| && t < u < |run[i].tasks|
    ensures run[i].tasks[t].cell < run[i].tasks[u].cell
  {
    RunsAreSound(run, i);
  }

  /** How many steps it takes to cancel a task whose cell has been replaced. */
  function Delay(s: State, t: nat): nat
    requires t < |s.tasks|
  {
    if Cancelled(s, s.tasks[t]) then 0 else if s.tasks[t].cell in s.board.expired then 1 else 2
  }

  function Remedy(s: State, t: nat): Step
    requires t < |s.tasks|
  {
    if s.tasks[t].cell in s.board.expired then WatcherCancels(t) else Expire(s.tasks[t].cell)
  }

  /**
   Once its cell has been replaced, be it by another one that says Leading, the context of a task gets
   cancelled: a step towards that is enabled, and no step of anybody leads away from it.
   */
  lemma LostLeadCancels(run: seq<State>, i: nat, t: nat, a: Step)
    requires IsRun(Init, Next, run) && i < |run| && t < |run[i].tasks|
    requires run[i].tasks[t].cell + 1 < |run[i].board.values|
    ensures !Cancelled(run[i], run[i].tasks[t]) ==>
              && Enabled(run[i], Remedy(run[i], t))
              && Delay(Do(run[i], Remedy(run[i], t)), t) < Delay(run[i], t)
    ensures Enabled(run[i], a) ==> Delay(Do(run[i], a), t) <= Delay(run[i], t)
  {
    RunsAreSound(run, i);
  }

  /** How far the loop is from returning once its context is done. */
  function Distance(s: State): nat {
    match s.main
    case Looping => 4
    case Peeking(_) => 3
    case Running => 2
    case Selecting => 1
    case Returned => 0
  }

  /**
   Once the context is done, the loop can always get closer to its return, provided that there is a status. Until
   then, it can go on to the next status as soon as the one it has seen expires.
   */
  lemma ReturnsWhenDone(run: seq<State>, i: nat) returns (a: Step)
    requires IsRun(Init, Next, run) && i < |run| && run[i].board.values != [] && !run[i].main.Returned?
    requires run[i].ctxDone || !run[i].main.Selecting? || run[i].seen in run[i].board.expired
    ensures Enabled(run[i], a)
    ensures if run[i].ctxDone || !run[i].main.Selecting? then Distance(Do(run[i], a)) < Distance(run[i])
            else Do(run[i], a).main.Looping?
  {
    RunsAreSound(run, i);
    match run[i].main
    case Looping => a := CallStatus;
    case Peeking(_) => a := StatusReturns(|run[i].board.values| - 1);
    case Running => a := TaskReturns;
    case Selecting => a := if run[i].ctxDone then ContextDone else StatusExpired;
  }
}
