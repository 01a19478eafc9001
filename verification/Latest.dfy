/** What readers of a latest value can observe: values come one after the other, and expire once replaced. */
module Board {

  /** The values installed so far, and which of them have been announced to be outdated. */
  datatype Board<T> = Board(values: seq<T>, expired: set<nat>)

  predicate Install<T(==)>(b: Board<T>, b': Board<T>) {
    |b'.values| == |b.values| + 1 && b.values == b'.values[..|b.values|] && b'.expired == b.expired
  }

  /** Only a value that has been replaced expires, and it does so once. */
  predicate Expire<T(==)>(b: Board<T>, b': Board<T>, j: nat) {
    j + 1 < |b.values| && j !in b.expired && b' == b.(expired := b.expired + {j})
  }

  ghost predicate Next<T>(b: Board<T>, b': Board<T>) {
    b' == b || Install(b, b') || exists j :: Expire(b, b', j)
  }

  predicate Valid<T>(b: Board<T>) { forall j :: j in b.expired ==> j + 1 < |b.values| }
}

/**
 The lock-free latest value: a pointer that is loaded, compared and swapped, and one channel per
 installed value that is closed by whoever replaced it. Any number of calls may be in progress, and
 every atomic operation is a step of its own.
 */
module Latest {

  import opened Basics
  import Board

  datatype Cell<T> = Cell(value: T, closed: bool)

  /** A call in progress. `since` counts the values installed when it was made. */
  datatype Call<T> =
    | Loading(since: nat)                       // Peek: about to load the pointer
    | Comparing(cell: nat, since: nat)          // Peek: found nil, about to swap in a cell of its own
    | Reloading(since: nat)                     // Peek: lost the race, about to load again
    | Peeked(value: T, cell: nat, since: nat)   // Peek: returned a value and the channel of a cell
    | Swapping(newValue: T)                     // Set: about to swap in a new cell
    | Closing(cell: nat)                        // Set: about to close the channel of the old cell
    | SetDone

  datatype State<T> = State(
    zero: T,
    heap: seq<Cell<T>>,
    pointer: Option<nat>,
    calls: seq<Call<T>>,
    installed: seq<nat>,
    panicked: bool)

  predicate Init<T>(s: State<T>) {
    s.heap == [] && s.pointer.None? && s.calls == [] && s.installed == [] && !s.panicked
  }

  datatype Step<T> =
    | Peek
    | Set(value: T)
    | Load(c: nat)
    | CompareAndSwap(c: nat)
    | Reload(c: nat)
    | Swap(c: nat)
    | Close(c: nat)

  predicate Enabled<T>(s: State<T>, a: Step<T>) {
    match a
    case Peek => true
    case Set(_) => true
    case Load(c) => c < |s.calls| && s.calls[c].Loading?
    case CompareAndSwap(c) => c < |s.calls| && s.calls[c].Comparing?
    case Reload(c) => c < |s.calls| && s.calls[c].Reloading? && s.pointer.Some? && s.pointer.value < |s.heap|
    case Swap(c) => c < |s.calls| && s.calls[c].Swapping?
    case Close(c) => c < |s.calls| && s.calls[c].Closing? && s.calls[c].cell < |s.heap|
  }

  /** The pair returned for a loaded pointer. */
  function Returned<T>(s: State<T>, cell: nat, since: nat): Call<T>
    requires cell < |s.heap|
  {
    Peeked(s.heap[cell].value, cell, since)
  }

  function Do<T>(s: State<T>, a: Step<T>): State<T>
    requires Enabled(s, a)
  {
    var next := |s.heap|;
    match a
    case Peek => s.(calls := s.calls + [Loading(|s.installed|)])
    case Set(v) => s.(calls := s.calls + [Swapping(v)])
    case Load(c) =>
      var since := s.calls[c].since;
      if s.pointer.Some? && s.pointer.value < |s.heap| then
        s.(calls := s.calls[c := Returned(s, s.pointer.value, since)])
      else
        s.(heap := s.heap + [Cell(s.zero, false)], calls := s.calls[c := Comparing(next, since)])
    case CompareAndSwap(c) =>
      var Comparing(cell, since) := s.calls[c];
      if s.pointer.None? then
        s.(pointer := Some(cell), installed := s.installed + [cell], calls := s.calls[c := Peeked(s.zero, cell, since)])
      else
        s.(calls := s.calls[c := Reloading(since)])
    case Reload(c) => s.(calls := s.calls[c := Returned(s, s.pointer.value, s.calls[c].since)])
    case Swap(c) =>
      s.(heap := s.heap + [Cell(s.calls[c].newValue, false)],
         pointer := Some(next),
         installed := s.installed + [next],
         calls := s.calls[c := if s.pointer.Some? then Closing(s.pointer.value) else SetDone])
    case Close(c) =>
      var cell := s.calls[c].cell;
      s.(heap := s.heap[cell := s.heap[cell].(closed := true)],
         panicked := s.panicked || s.heap[cell].closed,
         calls := s.calls[c := SetDone])
  }

  ghost predicate Next<T(!new)>(s: State<T>, s': State<T>) { exists a :: Enabled(s, a) && s' == Do(s, a) }

  // ------------------------------------------------------------------------------------------
  // Invariant

  /** The installed cells, in order; the pointer is at the last one. */
  predicate Ordered<T>(s: State<T>) {
    && (forall i :: 0 <= i < |s.installed| ==> s.installed[i] < |s.heap|)
    && (forall i, j :: 0 <= i < j < |s.installed| ==> s.installed[i] != s.installed[j])
    && s.pointer == if s.installed == [] then None else Some(s.installed[|s.installed| - 1])
  }

  /** The channel of a cell is open, and nobody is going to close it. */
  predicate Untouched<T>(s: State<T>, cell: nat) {
    && (cell < |s.heap| ==> !s.heap[cell].closed)
    && forall c :: 0 <= c < |s.calls| ==> s.calls[c] != Closing(cell)
  }

  /** Either the channel is closed, or exactly one call is about to close it. */
  ghost predicate Outdated<T>(s: State<T>, cell: nat) {
    && cell < |s.heap|
    && (forall c, d :: 0 <= c < |s.calls| && 0 <= d < |s.calls| && s.calls[c] == s.calls[d] == Closing(cell) ==> c == d)
    && if s.heap[cell].closed then (forall c :: 0 <= c < |s.calls| ==> s.calls[c] != Closing(cell))
       else (exists c :: 0 <= c < |s.calls| && s.calls[c] == Closing(cell))
  }

  /** A returned pair belongs to one cell that was the installed one at some time during the call. */
  ghost predicate FromOneCell<T>(s: State<T>, p: Call<T>)
    requires p.Peeked?
  {
    exists i :: 0 <= i < |s.installed| && p.since <= i + 1 && s.installed[i] == p.cell
                && p.cell < |s.heap| && s.heap[p.cell].value == p.value
  }

  ghost predicate CallOk<T>(s: State<T>, call: Call<T>) {
    match call
    case Loading(since) => since <= |s.installed|
    case Comparing(cell, since) =>
      cell < |s.heap| && cell !in s.installed && since <= |s.installed| && s.heap[cell].value == s.zero
    case Reloading(since) => since <= |s.installed| && s.installed != []
    case Peeked(_, _, _) => FromOneCell(s, call)
    case Closing(cell) => exists i :: 0 <= i < |s.installed| - 1 && s.installed[i] == cell
    case _ => true
  }

  ghost predicate Inv<T>(s: State<T>) {
    && !s.panicked
    && Ordered(s)
    && (forall i :: 0 <= i < |s.installed| - 1 ==> Outdated(s, s.installed[i]))
    && (s.installed != [] ==> Untouched(s, s.installed[|s.installed| - 1]))
    && (forall cell :: 0 <= cell < |s.heap| && cell !in s.installed ==> Untouched(s, cell))
    && (forall c :: 0 <= c < |s.calls| ==> CallOk(s, s.calls[c]))
    && (forall c, d :: 0 <= c < d < |s.calls| && s.calls[c].Comparing? && s.calls[d].Comparing? ==>
          s.calls[c].cell != s.calls[d].cell)
  }

  /** A step that closes no channel and forgets no closing call keeps outdated cells outdated. */
  lemma KeepsOutdated<T>(s: State<T>, s': State<T>, cell: nat)
    requires Outdated(s, cell) && |s.heap| <= |s'.heap| && s'.heap[cell].closed == s.heap[cell].closed
    requires |s.calls| <= |s'.calls|
    requires forall c :: 0 <= c < |s.calls| ==> (s.calls[c] == Closing(cell) <==> s'.calls[c] == Closing(cell))
    requires forall c :: |s.calls| <= c < |s'.calls| ==> s'.calls[c] != Closing(cell)
    ensures Outdated(s', cell)
  {
  }

  /** More cells and more installations leave a returned pair as good as it was. */
  lemma KeepsCallOk<T>(s: State<T>, s': State<T>, call: Call<T>)
    requires CallOk(s, call) && s'.zero == s.zero
    requires |s.heap| <= |s'.heap| && s.installed <= s'.installed
    requires forall cell :: 0 <= cell < |s.heap| ==> s'.heap[cell].value == s.heap[cell].value
    requires call.Comparing? ==> call.cell !in s'.installed
    ensures CallOk(s', call)
  {
  }

  lemma InvAfterCall<T>(s: State<T>, call: Call<T>)
    requires Inv(s) && (call.Swapping? || call == Loading(|s.installed|))
    ensures Inv(s.(calls := s.calls + [call]))
  {
    var s' := s.(calls := s.calls + [call]);
    forall i | 0 <= i < |s'.installed| - 1 ensures Outdated(s', s'.installed[i]) {
      KeepsOutdated(s, s', s.installed[i]);
    }
    forall c | 0 <= c < |s'.calls| ensures CallOk(s', s'.calls[c]) {
      if c < |s.calls| { KeepsCallOk(s, s', s.calls[c]); }
    }
  }

  /** A call returns a pair, or goes on to load again, without changing anything shared. */
  lemma InvAfterReturn<T>(s: State<T>, c: nat, call: Call<T>)
    requires Inv(s) && c < |s.calls| && !s.calls[c].Closing?
    requires (call.Peeked? && FromOneCell(s, call)) || (call.Reloading? && CallOk(s, call))
    ensures Inv(s.(calls := s.calls[c := call]))
  {
    var s' := s.(calls := s.calls[c := call]);
    forall i | 0 <= i < |s'.installed| - 1 ensures Outdated(s', s'.installed[i]) {
      KeepsOutdated(s, s', s.installed[i]);
    }
    forall d | 0 <= d < |s'.calls| ensures CallOk(s', s'.calls[d]) {
      if d != c { KeepsCallOk(s, s', s.calls[d]); }
    }
  }

  lemma InvAfterAlloc<T>(s: State<T>, c: nat)
    requires Inv(s) && c < |s.calls| && s.calls[c].Loading? && s.pointer.None?
    ensures Inv(Do(s, Load(c)))
  {
  }

  lemma InvAfterInstall<T>(s: State<T>, c: nat)
    requires Inv(s) && c < |s.calls| && s.calls[c].Comparing? && s.pointer.None?
    ensures Inv(Do(s, CompareAndSwap(c)))
  {
  }

  lemma SwapOutdates<T>(s: State<T>, c: nat, i: nat)
    requires Inv(s) && c < |s.calls| && s.calls[c].Swapping? && i < |s.installed|
    ensures Outdated(Do(s, Swap(c)), s.installed[i])
  {
    var s' := Do(s, Swap(c));
    if i < |s.installed| - 1 {
      KeepsOutdated(s, s', s.installed[i]);
    } else {
      assert Untouched(s, s.installed[i]);
      assert s'.calls[c] == Closing(s.installed[i]);
    }
  }

  lemma SwapKeepsCalls<T>(s: State<T>, c: nat, d: nat)
    requires Inv(s) && c < |s.calls| && s.calls[c].Swapping? && d < |s.calls|
    ensures CallOk(Do(s, Swap(c)), Do(s, Swap(c)).calls[d])
    ensures s.calls[d].Closing? ==> s.calls[d].cell < |s.heap|
  {
    var s', n := Do(s, Swap(c)), |s.installed|;
    assert CallOk(s, s.calls[d]);
    if d != c {
      KeepsCallOk(s, s', s.calls[d]);
    } else if n > 0 {
      assert s'.installed[n - 1] == s.installed[n - 1];
    }
  }

  lemma InvAfterSwap<T>(s: State<T>, c: nat)
    requires Inv(s) && c < |s.calls| && s.calls[c].Swapping?
    ensures Inv(Do(s, Swap(c)))
  {
    var s' := Do(s, Swap(c));
    forall i | 0 <= i < |s.installed| ensures Outdated(s', s'.installed[i]) {
      SwapOutdates(s, c, i);
    }
    forall d | 0 <= d < |s'.calls|
      ensures CallOk(s', s'.calls[d]) && (s.calls[d].Closing? ==> s.calls[d].cell < |s.heap|)
    {
      SwapKeepsCalls(s, c, d);
    }
  }

  lemma CloseOutdates<T>(s: State<T>, c: nat, i: nat)
    requires Inv(s) && Enabled(s, Close(c)) && i < |s.installed| - 1
    ensures Outdated(Do(s, Close(c)), s.installed[i])
  {
    assert Outdated(s, s.installed[i]);
    if s.installed[i] != s.calls[c].cell {
      KeepsOutdated(s, Do(s, Close(c)), s.installed[i]);
    }
  }

  lemma CloseSpares<T>(s: State<T>, c: nat, other: nat)
    requires Enabled(s, Close(c)) && Untouched(s, other) && other != s.calls[c].cell
    ensures Untouched(Do(s, Close(c)), other)
  {
  }

  lemma CloseKeepsCalls<T>(s: State<T>, c: nat, d: nat)
    requires Inv(s) && Enabled(s, Close(c)) && d < |s.calls|
    ensures CallOk(Do(s, Close(c)), Do(s, Close(c)).calls[d])
  {
  }

  /** The channel that is about to be closed belongs to a replaced cell, and it is still open. */
  lemma ClosesOutdated<T>(s: State<T>, c: nat)
    requires Inv(s) && Enabled(s, Close(c))
    ensures !s.heap[s.calls[c].cell].closed
    ensures exists k :: 0 <= k < |s.installed| - 1 && s.installed[k] == s.calls[c].cell
  {
  }

  lemma InvAfterClose<T>(s: State<T>, c: nat)
    requires Inv(s) && Enabled(s, Close(c))
    ensures Inv(Do(s, Close(c)))
  {
    var s', cell := Do(s, Close(c)), s.calls[c].cell;
    ClosesOutdated(s, c);
    var k :| 0 <= k < |s.installed| - 1 && s.installed[k] == cell;
    forall x | 0 <= x < |s.heap| && Untouched(s, x) && x != cell ensures Untouched(s', x) {
      CloseSpares(s, c, x);
    }
    forall i | 0 <= i < |s.installed| - 1 ensures Outdated(s', s'.installed[i]) {
      CloseOutdates(s, c, i);
    }
    forall d | 0 <= d < |s.calls| ensures CallOk(s', s'.calls[d]) {
      CloseKeepsCalls(s, c, d);
    }
    assert s'.installed == s.installed && |s'.heap| == |s.heap| && |s'.calls| == |s.calls|;
  }

  lemma InvInductive<T>(s: State<T>, a: Step<T>)
    requires Inv(s) && Enabled(s, a)
    ensures Inv(Do(s, a))
  {
    match a
    case Peek => InvAfterCall(s, Loading(|s.installed|));
    case Set(v) => InvAfterCall(s, Swapping(v));
    case Load(c) =>
      if s.pointer.None? {
        InvAfterAlloc(s, c);
      } else {
        PointerIsFresh(s, c);
        InvAfterReturn(s, c, Returned(s, s.pointer.value, s.calls[c].since));
      }
    case CompareAndSwap(c) =>
      if s.pointer.None? {
        InvAfterInstall(s, c);
      } else {
        assert CallOk(s, s.calls[c]);
        InvAfterReturn(s, c, Reloading(s.calls[c].since));
      }
    case Reload(c) =>
      PointerIsFresh(s, c);
      InvAfterReturn(s, c, Returned(s, s.pointer.value, s.calls[c].since));
    case Swap(c) => InvAfterSwap(s, c);
    case Close(c) => InvAfterClose(s, c);
  }

  lemma PointerIsFresh<T>(s: State<T>, c: nat)
    requires Inv(s) && c < |s.calls| && (s.calls[c].Loading? || s.calls[c].Reloading?)
    requires s.pointer.Some? && s.pointer.value < |s.heap|
    ensures FromOneCell(s, Returned(s, s.pointer.value, s.calls[c].since))
  {
  }

  lemma RunsAreSound<T(!new)>(run: seq<State<T>>, i: nat)
    requires IsRun<State<T>>(Init, Next, run) && i < |run|
    ensures Inv(run[i])
  {
    forall s: State<T>, s': State<T> | Inv(s) && Next(s, s') ensures Inv(s') {
      var a :| Enabled(s, a) && s' == Do(s, a);
      InvInductive(s, a);
    }
    InvariantOfRuns<State<T>>(Init, Next, Inv, run, i);
  }

  // ------------------------------------------------------------------------------------------
  // Guarantees

  /**
   In every interleaving, no channel is closed twice, the channel of the installed cell is open, and the
   channel of every replaced cell is closed or has exactly one call about to close it.
   */
  lemma ChannelsAreSound<T(!new)>(run: seq<State<T>>, i: nat)
    requires IsRun<State<T>>(Init, Next, run) && i < |run|
    ensures !run[i].panicked
    ensures run[i].pointer.Some? ==> Untouched(run[i], run[i].pointer.value)
    ensures forall k :: 0 <= k < |run[i].installed| && run[i].pointer != Some(run[i].installed[k]) ==>
              Outdated(run[i], run[i].installed[k])
  {
    RunsAreSound(run, i);
  }

  /**
   A peeked value and channel belong to the same cell, which was installed at some time during the
   call. If the cell is not the installed one any more, then the channel is closed, or a call can
   close it in its next step: no reader waits forever on a stale value.
   */
  lemma PeekedPairs<T(!new)>(run: seq<State<T>>, i: nat, r: nat)
    requires IsRun<State<T>>(Init, Next, run) && i < |run| && r < |run[i].calls| && run[i].calls[r].Peeked?
    ensures FromOneCell(run[i], run[i].calls[r])
    ensures var s, cell := run[i], run[i].calls[r].cell;
            s.pointer != Some(cell) && !s.heap[cell].closed ==>
              exists c: nat :: Enabled(s, Close(c)) && s.calls[c] == Closing(cell) && Do(s, Close(c)).heap[cell].closed
  {
    RunsAreSound(run, i);
    var s, cell := run[i], run[i].calls[r].cell;
    assert CallOk(s, s.calls[r]);
    if s.pointer != Some(cell) && !s.heap[cell].closed {
      var k :| 0 <= k < |s.installed| && s.installed[k] == cell;
      assert Outdated(s, s.installed[k]);
      var c :| 0 <= c < |s.calls| && s.calls[c] == Closing(cell);
      assert Enabled(s, Close(c)) && Do(s, Close(c)).heap[cell].closed;
    }
  }

  // ------------------------------------------------------------------------------------------
  // Refinement

  /** What the state looks like to readers. */
  ghost function View<T>(s: State<T>): Board.Board<T>
    requires Ordered(s)
  {
    Board.Board(
      seq(|s.installed|, i requires 0 <= i < |s.installed| => s.heap[s.installed[i]].value),
      set i | 0 <= i < |s.installed| && s.heap[s.installed[i]].closed)
  }

  /** Every step installs a value, lets a replaced one expire, or is not visible. */
  lemma Refines<T>(s: State<T>, a: Step<T>)
    requires Inv(s) && Enabled(s, a)
    ensures Ordered(Do(s, a)) && Board.Next(View(s), View(Do(s, a)))
  {
    InvInductive(s, a);
    var s' := Do(s, a);
    var b, b' := View(s), View(s');
    match a
    case Swap(c) =>
      assert b'.values[..|b.values|] == b.values && b'.expired == b.expired;
      assert Board.Install(b, b');
    case CompareAndSwap(c) =>
      if s.pointer.None? {
        assert b'.values[..|b.values|] == b.values && b'.expired == b.expired;
        assert Board.Install(b, b');
      } else {
        assert b' == b;
      }
    case Close(c) =>
      ClosesOutdated(s, c);
      var k :| 0 <= k < |s.installed| - 1 && s.installed[k] == s.calls[c].cell;
      CloseExpires(s, c, k);
    case _ =>
      assert b'.values == b.values && b'.expired == b.expired;
  }

  /** Steps that a call in progress has yet to take. */
  function Left<T>(call: Call<T>): nat {
    match call
    case Loading(_) => 3
    case Comparing(_, _) => 2
    case Reloading(_) => 1
    case Swapping(_) => 2
    case Closing(_) => 1
    case _ => 0
  }

  /** Every call finishes in a few steps of its own, whatever the others do. */
  lemma CallsFinish<T>(s: State<T>, c: nat) returns (a: Step<T>)
    requires Inv(s) && c < |s.calls| && Left(s.calls[c]) > 0
    ensures Enabled(s, a) && |Do(s, a).calls| == |s.calls| && Left(Do(s, a).calls[c]) < Left(s.calls[c])
  {
    assert CallOk(s, s.calls[c]);
    match s.calls[c]
    case Loading(_) => a := Load(c);
    case Comparing(_, _) => a := CompareAndSwap(c);
    case Reloading(_) => a := Reload(c);
    case Swapping(_) => a := Swap(c);
    case Closing(_) => a := Close(c);
  }

  /** A peek that finds a value returns it right away; one that installs the zero value returns that. */
  lemma PeekReturns<T>(s: State<T>, c: nat)
    requires Inv(s) && c < |s.calls|
    ensures Enabled(s, Load(c)) && s.pointer.Some? ==>
              var cell := s.pointer.value;
              && cell < |s.heap|
              && Do(s, Load(c)).calls[c] == Peeked(s.heap[cell].value, cell, s.calls[c].since)
    ensures Enabled(s, CompareAndSwap(c)) && s.pointer.None? ==>
              Do(s, CompareAndSwap(c)).calls[c] == Peeked(s.zero, s.calls[c].cell, s.calls[c].since)
  {
  }

  /** What Set installs is the value it was given, and what Peek installs, if nothing was there, is the zero value. */
  lemma InstallsGiven<T>(s: State<T>, a: Step<T>)
    requires Inv(s) && Enabled(s, a)
    ensures Ordered(Do(s, a))
    ensures a.Set? ==> Do(s, a).calls == s.calls + [Swapping(a.value)]
    ensures a.Swap? ==> View(Do(s, a)).values == View(s).values + [s.calls[a.c].newValue]
    ensures a.CompareAndSwap? ==>
              View(Do(s, a)).values == if s.pointer.None? then View(s).values + [s.zero] else View(s).values
    ensures a.Peek? || a.Set? || a.Load? || a.Reload? || a.Close? ==> View(Do(s, a)).values == View(s).values
  {
    InvInductive(s, a);
  }

  lemma CloseExpires<T>(s: State<T>, c: nat, k: nat)
    requires Inv(s) && Enabled(s, Close(c)) && k < |s.installed| - 1 && s.installed[k] == s.calls[c].cell
    ensures Ordered(Do(s, Close(c))) && Board.Expire(View(s), View(Do(s, Close(c))), k)
  {
  }

  /** A value that has been replaced and not expired yet can always do so. */
  lemma ExpiryIsEnabled<T>(s: State<T>, k: nat)
    requires Inv(s) && k + 1 < |View(s).values| && k !in View(s).expired
    ensures exists c: nat ::
      Enabled(s, Close(c)) && Ordered(Do(s, Close(c))) && Board.Expire(View(s), View(Do(s, Close(c))), k)
  {
    assert Outdated(s, s.installed[k]);
    var c :| 0 <= c < |s.calls| && s.calls[c] == Closing(s.installed[k]);
    CloseExpires(s, c, k);
  }
}
