/**
 The debouncer: a loop over a select statement that forwards an item to its callback once no newer item
 has been accepted for a full timeout. What the select statement is offered is given as a list of
 stimuli with times; a tick is received only if the timer has one.
 */
module Debounce {

  import opened Basics

  datatype Stimulus<T> =
    | Item(time: nat, item: T)     // an item is read from the input
    | Tick(time: nat)              // the timer's channel is polled
    | Closed(time: nat)            // the input has been closed
    | Done(time: nat)              // the context is done

  /** A timer whose Stop and Reset discard a tick that has not been received. */
  class Timer {
    var deadline: Option<nat>      // when the tick that has not been received is due

    constructor (due: nat)
      ensures deadline == Some(due)
    {
      deadline := Some(due);
    }

    predicate Ready(now: nat)
      reads this
    {
      deadline.Some? && deadline.value <= now
    }

    /** Receives the tick. */
    method Receive(now: nat)
      requires Ready(now)
      modifies this
      ensures deadline == None
    {
      deadline := None;
    }

    /** Returns true if the call stopped the timer, that is, if no tick can be received any more because of it. */
    method Stop() returns (stopped: bool)
      modifies this
      ensures stopped == old(deadline).Some? && deadline == None
    {
      stopped := deadline.Some?;
      deadline := None;
    }

    method Reset(due: nat)
      modifies this
      ensures deadline == Some(due)
    {
      deadline := Some(due);
    }
  }

  /** A call of the callback: with the item of stimulus `item`, upon the stimulus `tick`. */
  datatype Call = Call(item: nat, tick: nat)

  datatype Outcome = Pending | InputClosed | ContextDone

  predicate Accepted<T>(filter: T -> bool, s: Stimulus<T>) { s.Item? && filter(s.item) }

  predicate Over<T>(s: Stimulus<T>) { s.Closed? || s.Done? }

  /** The poll comes late enough for the item. */
  predicate Due<T>(timeout: nat, s: Stimulus<T>, t: Stimulus<T>) { t.Tick? && s.time + timeout <= t.time }

  /**
   What the debouncer promises, without reference to its timer: the item is accepted, no other one is
   accepted until the tick, and the tick is the first poll after a full timeout.
   */
  predicate Delivers<T>(filter: T -> bool, timeout: nat, stimuli: seq<Stimulus<T>>, c: Call) {
    && c.item < c.tick < |stimuli|
    && Accepted(filter, stimuli[c.item])
    && Due(timeout, stimuli[c.item], stimuli[c.tick])
    && (forall i :: c.item < i < c.tick ==>
          !Accepted(filter, stimuli[i]) && !Due(timeout, stimuli[c.item], stimuli[i]))
    && (forall i :: 0 <= i < c.tick ==> !Over(stimuli[i]))
  }

  /** The calls are in the order of the items, and of the ticks. */
  predicate InOrder(calls: seq<Call>) {
    forall i, j :: 0 <= i < j < |calls| ==> calls[i].tick <= calls[j].item && calls[i].tick < calls[j].tick
  }

  /** The item of stimulus `item` awaits its timeout. */
  predicate Awaits<T>(filter: T -> bool, timeout: nat, stimuli: seq<Stimulus<T>>, item: nat, n: nat)
    requires n <= |stimuli|
  {
    && item < n
    && Accepted(filter, stimuli[item])
    && forall i :: item < i < n ==> !Accepted(filter, stimuli[i]) && !Due(timeout, stimuli[item], stimuli[i])
  }

  /** After n stimuli, the calls are the ones that are promised, and `pending` is the item that awaits its timeout. */
  ghost predicate Exact<T(!new)>(
      filter: T -> bool, timeout: nat, stimuli: seq<Stimulus<T>>, n: nat, calls: seq<Call>, pending: Option<nat>)
  {
    && n <= |stimuli|
    && (forall i :: 0 <= i < n ==> !Over(stimuli[i]))
    && (forall k :: 0 <= k < n ==> (pending == Some(k) <==> Awaits(filter, timeout, stimuli, k, n)))
    && (pending.Some? ==> pending.value < n)
    && (forall c :: c in calls <==> c.tick < n && Delivers(filter, timeout, stimuli, c))
    && InOrder(calls)
    && (forall c :: c in calls && pending.Some? ==> c.tick <= pending.value)
  }

  /** The next stimulus makes an item wait, or makes the waiting end. */
  lemma AwaitsStep<T(!new)>(filter: T -> bool, timeout: nat, stimuli: seq<Stimulus<T>>, n: nat, k: nat)
    requires n < |stimuli|
    ensures Awaits(filter, timeout, stimuli, k, n + 1) <==>
      || (k == n && Accepted(filter, stimuli[n]))
      || (&& Awaits(filter, timeout, stimuli, k, n)
          && !Accepted(filter, stimuli[n]) && !Due(timeout, stimuli[k], stimuli[n]))
  {
  }

  /** An item is delivered when its timeout has passed while it was waiting. */
  lemma DeliversStep<T(!new)>(
      filter: T -> bool, timeout: nat, stimuli: seq<Stimulus<T>>, n: nat, calls: seq<Call>, pending: Option<nat>,
      k: nat)
    requires Exact(filter, timeout, stimuli, n, calls, pending) && n < |stimuli|
    ensures Delivers(filter, timeout, stimuli, Call(k, n)) <==>
      pending == Some(k) && Due(timeout, stimuli[k], stimuli[n])
  {
  }

  lemma Skip<T(!new)>(
      filter: T -> bool, timeout: nat, stimuli: seq<Stimulus<T>>, n: nat, calls: seq<Call>, pending: Option<nat>)
    requires Exact(filter, timeout, stimuli, n, calls, pending) && n < |stimuli| && !Over(stimuli[n])
    requires !Accepted(filter, stimuli[n])
    requires pending.Some? ==> !Due(timeout, stimuli[pending.value], stimuli[n])
    ensures Exact(filter, timeout, stimuli, n + 1, calls, pending)
  {
    forall k: nat | k <= n ensures pending == Some(k) <==> Awaits(filter, timeout, stimuli, k, n + 1) {
      AwaitsStep(filter, timeout, stimuli, n, k);
    }
    forall c ensures c in calls <==> c.tick < n + 1 && Delivers(filter, timeout, stimuli, c) {
      DeliversStep(filter, timeout, stimuli, n, calls, pending, c.item);
      assert c == Call(c.item, c.tick);
    }
  }

  lemma Accept<T(!new)>(
      filter: T -> bool, timeout: nat, stimuli: seq<Stimulus<T>>, n: nat, calls: seq<Call>, pending: Option<nat>)
    requires Exact(filter, timeout, stimuli, n, calls, pending) && n < |stimuli|
    requires Accepted(filter, stimuli[n])
    ensures Exact(filter, timeout, stimuli, n + 1, calls, Some(n))
  {
  }

  lemma Fire<T(!new)>(filter: T -> bool, timeout: nat, stimuli: seq<Stimulus<T>>, n: nat, calls: seq<Call>, item: nat)
    requires Exact(filter, timeout, stimuli, n, calls, Some(item)) && n < |stimuli|
    requires Due(timeout, stimuli[item], stimuli[n])
    ensures Exact(filter, timeout, stimuli, n + 1, calls + [Call(item, n)], None)
  {
  }

  /**
   Runs the debouncer, and returns the calls of the callback: exactly those that are promised, in order.
   In particular, an item that awaits its timeout is there whenever a tick is received.
   */
  method Run<T(!new)>(filter: T -> bool, timeout: nat, stimuli: seq<Stimulus<T>>)
    returns (calls: seq<Call>, outcome: Outcome)
    ensures forall c :: c in calls <==> Delivers(filter, timeout, stimuli, c)
    ensures InOrder(calls)
    ensures outcome.Pending? <==> forall i :: 0 <= i < |stimuli| ==> !Over(stimuli[i])
  {
    var timer := new Timer(0);
    timer.Receive(0);

    var pending: Option<nat> := None;
    calls, outcome := [], Pending;
    var n := 0;
    while n < |stimuli|
      invariant Exact(filter, timeout, stimuli, n, calls, pending)
      invariant timer.deadline == if pending.Some? then Some(stimuli[pending.value].time + timeout) else None
      invariant fresh(timer)
      decreases |stimuli| - n
    {
      match stimuli[n] {
      case Done(_) =>
        outcome := ContextDone;
        return;
      case Closed(_) =>
        outcome := InputClosed;
        return;
      case Item(now, item) =>
        if filter(item) {
          if pending.Some? {
            var stopped := timer.Stop();
            if !stopped {
              assert false; // an item is pending only as long as the timer's tick has not been received
            }
          }
          timer.Reset(now + timeout);
          Accept(filter, timeout, stimuli, n, calls, pending);
          pending := Some(n);
          timer.Reset(now + timeout);
        } else {
          Skip(filter, timeout, stimuli, n, calls, pending);
        }
      case Tick(now) =>
        if timer.Ready(now) {
          timer.Receive(now);
          Fire(filter, timeout, stimuli, n, calls, pending.value);
          calls := calls + [Call(pending.value, n)];
          pending := None;
        } else {
          Skip(filter, timeout, stimuli, n, calls, pending);
        }
      }
      n := n + 1;
    }
  }

  // ------------------------------------------------------------------------------------------
  // What follows from the promise

  /** Every item is delivered at most once, and every tick delivers at most one item: the latest one accepted. */
  lemma DeliveredOnce<T>(filter: T -> bool, timeout: nat, stimuli: seq<Stimulus<T>>, c: Call, d: Call)
    requires Delivers(filter, timeout, stimuli, c) && Delivers(filter, timeout, stimuli, d)
    ensures c.item == d.item || c.tick == d.tick ==> c == d
  {
  }

  /** The position of a stimulus once the one at x is left out. */
  function Shifted(x: nat, i: nat): nat
    requires i != x
  {
    if i < x then i else i - 1
  }

  function Without<T>(stimuli: seq<Stimulus<T>>, x: nat): seq<Stimulus<T>>
    requires x < |stimuli|
  {
    stimuli[..x] + stimuli[x + 1..]
  }

  /** An item that is filtered out might as well not be there: the same items are delivered upon the same ticks. */
  lemma FilteredItemsDontMatter<T>(filter: T -> bool, timeout: nat, stimuli: seq<Stimulus<T>>, x: nat, c: Call)
    requires x < |stimuli| && stimuli[x].Item? && !filter(stimuli[x].item)
    requires c.item != x && c.tick != x
    ensures Delivers(filter, timeout, stimuli, c) <==>
      Delivers(filter, timeout, Without(stimuli, x), Call(Shifted(x, c.item), Shifted(x, c.tick)))
  {
    var rest := Without(stimuli, x);
    var c' := Call(Shifted(x, c.item), Shifted(x, c.tick));
    if Delivers(filter, timeout, stimuli, c) {
      forall j: nat | j < c'.tick
        ensures !Over(rest[j])
        ensures c'.item < j ==> !Accepted(filter, rest[j]) && !Due(timeout, stimuli[c.item], rest[j])
      {
        WithoutAt(stimuli, x, if j < x then j else j + 1);
      }
      WithoutAt(stimuli, x, c.item);
      WithoutAt(stimuli, x, c.tick);
    }
    if Delivers(filter, timeout, rest, c') {
      forall i: nat | i < c.tick && i != x
        ensures !Over(stimuli[i])
        ensures c.item < i ==> !Accepted(filter, stimuli[i]) && !Due(timeout, rest[c'.item], stimuli[i])
      {
        WithoutAt(stimuli, x, i);
      }
      WithoutAt(stimuli, x, c.item);
      WithoutAt(stimuli, x, c.tick);
    }
  }

  lemma WithoutAt<T>(stimuli: seq<Stimulus<T>>, x: nat, i: nat)
    requires x < |stimuli| && i < |stimuli| && i != x
    ensures Shifted(x, i) < |Without(stimuli, x)| && Without(stimuli, x)[Shifted(x, i)] == stimuli[i]
  {
  }
}
