/** Small datatypes and the induction principle shared by the models. */
module Basics {

  datatype Option<+T> = None | Some(value: T)

  predicate Increasing(idx: seq<nat>) { forall i, j :: 0 <= i < j < |idx| ==> idx[i] < idx[j] }

  /** One step at a time: `run` starts in an initial state and every later state follows from the one before it. */
  ghost predicate IsRun<S(!new)>(init: S -> bool, next: (S, S) -> bool, run: seq<S>) {
    && |run| > 0
    && init(run[0])
    && forall i :: 0 <= i < |run| - 1 ==> next(run[i], run[i + 1])
  }

  /** An inductive predicate holds in every state of every run. */
  lemma {:induction false} InvariantOfRuns<S(!new)>(
      init: S -> bool, next: (S, S) -> bool, inv: S -> bool, run: seq<S>, n: nat)
    requires IsRun(init, next, run) && n < |run|
    requires forall s :: init(s) ==> inv(s)
    requires forall s, s' :: inv(s) && next(s, s') ==> inv(s')
    ensures inv(run[n])
  {
    if n > 0 {
      InvariantOfRuns(init, next, inv, run, n - 1);
      assert next(run[n - 1], run[n - 1 + 1]);
    }
  }

  /** What holds in one state of a run, and is kept by every step from an invariant state, holds from there on. */
  lemma {:induction false} StableInRuns<S(!new)>(
      init: S -> bool, next: (S, S) -> bool, inv: S -> bool, stable: S -> bool, run: seq<S>, m: nat, n: nat)
    requires IsRun(init, next, run) && m <= n < |run|
    requires forall i :: 0 <= i < |run| ==> inv(run[i])
    requires forall s, s' :: inv(s) && stable(s) && next(s, s') ==> stable(s')
    requires stable(run[m])
    ensures stable(run[n])
    decreases n
  {
    if m < n {
      StableInRuns(init, next, inv, stable, run, m, n - 1);
      assert next(run[n - 1], run[n - 1 + 1]);
    }
  }

  /** The state after the first `n` inputs. */
  function FoldTo<S, T>(f: (S, T) -> S, s: S, xs: seq<T>, n: nat): S
    requires n <= |xs|
  {
    if n == 0 then s else f(FoldTo(f, s, xs, n - 1), xs[n - 1])
  }

  function Fold<S, T>(f: (S, T) -> S, s: S, xs: seq<T>): S { FoldTo(f, s, xs, |xs|) }

  lemma {:induction false} FoldPortion<S, T>(f: (S, T) -> S, s: S, xs: seq<T>, k: nat, part: seq<T>, n: nat)
    requires k + |part| <= |xs| && part == xs[k..k + |part|] && n <= |part|
    ensures FoldTo(f, s, xs, k + n) == FoldTo(f, FoldTo(f, s, xs, k), part, n)
    decreases n
  {
    if n > 0 {
      FoldPortion(f, s, xs, k, part, n - 1);
    }
  }

  /** If every input extends what `g` makes of the inputs so far, then so do all of them. */
  lemma {:induction false} FoldInto<S, T>(f: (S, T) -> S, g: seq<T> -> S, s: S, xs: seq<T>, k: nat, n: nat)
    requires k <= n <= |xs| && FoldTo(f, s, xs, k) == g([])
    requires forall m :: k <= m < n ==> f(g(xs[k..m]), xs[m]) == g(xs[k..m + 1])
    ensures FoldTo(f, s, xs, n) == g(xs[k..n])
    decreases n
  {
    if k < n {
      FoldInto(f, g, s, xs, k, n - 1);
      assert f(g(xs[k..n - 1]), xs[n - 1]) == g(xs[k..n - 1 + 1]);
    } else {
      assert xs[k..n] == [];
    }
  }

  /** Inputs may be processed in portions. */
  lemma FoldSplit<S, T>(f: (S, T) -> S, s: S, xs: seq<T>, k: nat, part: seq<T>)
    requires k + |part| <= |xs| && part == xs[k..k + |part|]
    ensures FoldTo(f, s, xs, k + |part|) == Fold(f, FoldTo(f, s, xs, k), part)
  {
    FoldPortion(f, s, xs, k, part, |part|);
  }

  lemma FoldConcat<S, T>(f: (S, T) -> S, s: S, a: seq<T>, b: seq<T>)
    ensures Fold(f, s, a + b) == Fold(f, Fold(f, s, a), b)
  {
    FoldSplit(f, s, a + b, 0, a);
    FoldSplit(f, s, a + b, |a|, b);
  }
}
