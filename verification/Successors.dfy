/**
 The selection of successors when an artifact is copied: everything without a platform, the best
 match among what has one, and whatever else refers to something selected.
 */
module Successors {

  import opened Basics
  import opened OciArchive

  datatype Desc<P> = Desc(digest: Digest, mediaType: string, platform: Option<P>, reference: Option<string>)

  /** Which platforms match, and which of two is the better one. */
  datatype Matcher<!P> = Matcher(match_: P -> bool, better: (P, P) -> bool)

  ghost predicate StrictWeakOrder<P(!new)>(better: (P, P) -> bool) {
    && (forall p :: !better(p, p))
    && (forall p, q, r :: better(p, q) && better(q, r) ==> better(p, r))
    && (forall p, q, r :: better(p, r) ==> better(p, q) || better(q, r))
  }

  const IMAGE_TYPES := [
    "application/vnd.oci.image.manifest.v1+json",
    "application/vnd.docker.distribution.manifest.v2+json"]

  predicate IsImage<P>(d: Desc<P>) { d.mediaType in IMAGE_TYPES }

  predicate Selectable<P>(m: Matcher<P>, d: Desc<P>) { d.platform.None? || m.match_(d.platform.value) }

  /** Those for which `want` holds, in order. */
  function Filter<P>(descs: seq<Desc<P>>, want: Desc<P> -> bool): seq<Desc<P>> {
    if descs == [] then [] else
    var before, d := Filter(descs[..|descs| - 1], want), descs[|descs| - 1];
    if want(d) then before + [d] else before
  }

  /** Platformless descriptors first, then better platforms first. */
  function Compare<P>(better: (P, P) -> bool, l: Desc<P>, r: Desc<P>): int {
    if l.platform.None? then if r.platform.None? then 0 else -1
    else if r.platform.None? then 1
    else if better(l.platform.value, r.platform.value) then -1
    else if better(r.platform.value, l.platform.value) then 1
    else 0
  }

  /** What any sorting function yields; equal descriptors may end up in any order. */
  predicate IsSorting<P(==)>(better: (P, P) -> bool, xs: seq<Desc<P>>, ys: seq<Desc<P>>) {
    && multiset(ys) == multiset(xs)
    && forall i, j :: 0 <= i < j < |ys| ==> Compare(better, ys[i], ys[j]) <= 0
  }

  function FirstWithPlatform<P>(descs: seq<Desc<P>>, i: nat): (n: nat)
    requires i <= |descs|
    ensures i <= n <= |descs|
    ensures forall k :: i <= k < n ==> descs[k].platform.None?
    ensures n < |descs| ==> descs[n].platform.Some?
    decreases |descs| - i
  {
    if i == |descs| || descs[i].platform.Some? then i else FirstWithPlatform(descs, i + 1)
  }

  /** All that come without a platform, plus the first one that has one. */
  function Retain<P>(sorted: seq<Desc<P>>): seq<Desc<P>> {
    var n := FirstWithPlatform(sorted, 0);
    if n < |sorted| then sorted[..n + 1] else sorted
  }

  predicate RefersTo<P>(d: Desc<P>, target: Desc<P>) {
    d.reference.Some? && Validate(d.reference.value) && target.digest == d.reference.value
  }

  predicate RefersToAny<P>(d: Desc<P>, targets: seq<Desc<P>>) {
    exists k :: 0 <= k < |targets| && RefersTo(d, targets[k])
  }

  /** One discarded descriptor after the other gets another chance. */
  function Readd<P>(kept: seq<Desc<P>>, discarded: seq<Desc<P>>): seq<Desc<P>> {
    if discarded == [] then kept else
    var before, d := Readd(kept, discarded[..|discarded| - 1]), discarded[|discarded| - 1];
    if RefersToAny(d, before) then before + [d] else before
  }

  predicate AnyImage<P>(descs: seq<Desc<P>>) { exists i :: 0 <= i < |descs| && IsImage(descs[i]) }

  function Wants<P>(m: Matcher<P>): Desc<P> -> bool { d => Selectable(m, d) }

  function Rejects<P>(m: Matcher<P>): Desc<P> -> bool { d => !Selectable(m, d) }

  function Kept<P>(m: Matcher<P>, sort: seq<Desc<P>> -> seq<Desc<P>>, descs: seq<Desc<P>>): seq<Desc<P>> {
    Retain(sort(Filter(descs, Wants(m))))
  }

  /** The successors to copy, or none if all images have been filtered out. */
  function Spec<P>(m: Matcher<P>, sort: seq<Desc<P>> -> seq<Desc<P>>, descs: seq<Desc<P>>): Option<seq<Desc<P>>> {
    var kept := Kept(m, sort, descs);
    if AnyImage(descs) && !AnyImage(kept) then None else Some(Readd(kept, Filter(descs, Rejects(m))))
  }

  method FindSuccessors<P(==)>(m: Matcher<P>, sort: seq<Desc<P>> -> seq<Desc<P>>, descs: seq<Desc<P>>)
    returns (r: Option<seq<Desc<P>>>)
    ensures r == Spec(m, sort, descs)
  {
    var selected: seq<Desc<P>>, discarded: seq<Desc<P>> := [], [];
    for i := 0 to |descs|
      invariant selected == Filter(descs[..i], Wants(m)) && discarded == Filter(descs[..i], Rejects(m))
    {
      assert descs[..i + 1][..i] == descs[..i];
      if Selectable(m, descs[i]) {
        selected := selected + [descs[i]];
      } else {
        discarded := discarded + [descs[i]];
      }
    }
    assert descs[..|descs|] == descs;
    selected := RetainBestPlatformOnly(sort, selected);
    if AnyImage(descs) && !AnyImage(selected) {
      return None;
    }
    ghost var kept := selected;
    for i := 0 to |discarded|
      invariant selected == Readd(kept, discarded[..i])
    {
      assert discarded[..i + 1][..i] == discarded[..i];
      if RefersToAny(discarded[i], selected) {
        selected := selected + [discarded[i]];
      }
    }
    assert discarded[..|discarded|] == discarded;
    return Some(selected);
  }

  method RetainBestPlatformOnly<P>(sort: seq<Desc<P>> -> seq<Desc<P>>, descs: seq<Desc<P>>) returns (r: seq<Desc<P>>)
    ensures r == Retain(sort(descs))
  {
    r := sort(descs);
    var best := FirstWithPlatform(r, 0);
    if best < |r| {
      r := r[..best + 1];
    }
  }

  // ------------------------------------------------------------------------------------------
  // What is kept

  lemma {:induction false} FilterCounts<P>(descs: seq<Desc<P>>, want: Desc<P> -> bool, d: Desc<P>)
    ensures multiset(Filter(descs, want))[d] == if want(d) then multiset(descs)[d] else 0
  {
    if descs != [] {
      FilterCounts(descs[..|descs| - 1], want, d);
      assert descs == descs[..|descs| - 1] + [descs[|descs| - 1]];
    }
  }

  /** In a sorted sequence, everything behind the first platform has one, and none of them is better. */
  lemma BehindTheBest<P(!new)>(better: (P, P) -> bool, xs: seq<Desc<P>>, ys: seq<Desc<P>>, j: nat)
    requires StrictWeakOrder(better) && IsSorting(better, xs, ys)
    requires FirstWithPlatform(ys, 0) <= j < |ys|
    ensures ys[j].platform.Some?
    ensures !better(ys[j].platform.value, ys[FirstWithPlatform(ys, 0)].platform.value)
  {
  }

  lemma RetainCounts<P(!new)>(better: (P, P) -> bool, xs: seq<Desc<P>>, ys: seq<Desc<P>>, d: Desc<P>)
    requires StrictWeakOrder(better) && IsSorting(better, xs, ys) && d.platform.None?
    ensures multiset(Retain(ys))[d] == multiset(xs)[d]
  {
    var n := FirstWithPlatform(ys, 0);
    if n < |ys| {
      var rest := ys[n + 1..];
      assert ys == ys[..n + 1] + rest;
      assert d !in rest by {
        forall j | 0 <= j < |rest| ensures rest[j] != d { BehindTheBest(better, xs, ys, n + 1 + j); }
      }
    }
  }

  /** All platformless successors are kept, as often as they occur. */
  lemma KeepsPlatformless<P(!new)>(m: Matcher<P>, sort: seq<Desc<P>> -> seq<Desc<P>>, descs: seq<Desc<P>>, d: Desc<P>)
    requires StrictWeakOrder(m.better) && IsSorting(m.better, Filter(descs, Wants(m)), sort(Filter(descs, Wants(m))))
    requires d.platform.None?
    ensures multiset(Kept(m, sort, descs))[d] == multiset(descs)[d]
  {
    RetainCounts(m.better, Filter(descs, Wants(m)), sort(Filter(descs, Wants(m))), d);
    FilterCounts(descs, Wants(m), d);
  }

  predicate HasMatch<P>(m: Matcher<P>, d: Desc<P>) { d.platform.Some? && m.match_(d.platform.value) }

  /** `best` matches, and nothing that matches is better. */
  ghost predicate IsBest<P>(m: Matcher<P>, descs: seq<Desc<P>>, best: Desc<P>) {
    && best in descs && HasMatch(m, best)
    && forall d :: d in descs && HasMatch(m, d) ==> !m.better(d.platform.value, best.platform.value)
  }

  lemma SortedMembers<P>(m: Matcher<P>, descs: seq<Desc<P>>, ys: seq<Desc<P>>, d: Desc<P>)
    requires multiset(ys) == multiset(Filter(descs, Wants(m)))
    ensures d in ys <==> d in descs && Selectable(m, d)
  {
    FilterCounts(descs, Wants(m), d);
    assert d in ys <==> multiset(ys)[d] > 0;
    assert d in descs <==> multiset(descs)[d] > 0;
  }

  /** If anything with a platform matches, then exactly one best match is kept, and none otherwise. */
  lemma KeepsOneBest<P(!new)>(m: Matcher<P>, sort: seq<Desc<P>> -> seq<Desc<P>>, descs: seq<Desc<P>>)
    requires StrictWeakOrder(m.better) && IsSorting(m.better, Filter(descs, Wants(m)), sort(Filter(descs, Wants(m))))
    ensures var kept := Kept(m, sort, descs);
            if exists d :: d in descs && HasMatch(m, d) then
              && kept != [] && IsBest(m, descs, kept[|kept| - 1])
              && forall i :: 0 <= i < |kept| - 1 ==> kept[i].platform.None?
            else
              forall i :: 0 <= i < |kept| ==> kept[i].platform.None?
  {
    var xs := Filter(descs, Wants(m));
    var ys := sort(xs);
    var n := FirstWithPlatform(ys, 0);
    forall d ensures d in ys <==> d in descs && Selectable(m, d) {
      SortedMembers(m, descs, ys, d);
    }
    if n < |ys| {
      assert ys[n] in ys;
      assert IsBest(m, descs, ys[n]) by {
        forall j | n <= j < |ys| ensures ys[j].platform.Some? && !m.better(ys[j].platform.value, ys[n].platform.value) {
          BehindTheBest(m.better, xs, ys, j);
        }
      }
    }
  }

  /** An image is kept if one without a platform is among the successors, or the best match is one. */
  lemma KeepsImage<P(!new)>(
      m: Matcher<P>, sort: seq<Desc<P>> -> seq<Desc<P>>, descs: seq<Desc<P>>, image: Desc<P> -> bool)
    requires StrictWeakOrder(m.better) && IsSorting(m.better, Filter(descs, Wants(m)), sort(Filter(descs, Wants(m))))
    ensures var kept := Kept(m, sort, descs);
            (exists d :: d in kept && image(d)) <==>
              || (exists d :: d in descs && d.platform.None? && image(d))
              || ((exists d :: d in descs && HasMatch(m, d)) && kept != [] && image(kept[|kept| - 1]))
  {
    var kept := Kept(m, sort, descs);
    KeepsOneBest(m, sort, descs);
    forall d: Desc<P> | d.platform.None? ensures d in kept <==> d in descs {
      KeepsPlatformless(m, sort, descs, d);
      assert d in kept <==> multiset(kept)[d] > 0;
      assert d in descs <==> multiset(descs)[d] > 0;
    }
    if kept != [] {
      assert kept[|kept| - 1] in kept;
    }
  }

  /** It fails exactly if there are images, but none without a platform, and the best match is no image. */
  lemma FailsWithoutImages<P(!new)>(m: Matcher<P>, sort: seq<Desc<P>> -> seq<Desc<P>>, descs: seq<Desc<P>>)
    requires StrictWeakOrder(m.better) && IsSorting(m.better, Filter(descs, Wants(m)), sort(Filter(descs, Wants(m))))
    ensures var kept := Kept(m, sort, descs);
            Spec(m, sort, descs).None? <==>
              && (exists d :: d in descs && IsImage(d))
              && (forall d :: d in descs && d.platform.None? ==> !IsImage(d))
              && ((exists d :: d in descs && HasMatch(m, d)) ==> kept != [] && !IsImage(kept[|kept| - 1]))
  {
    var kept := Kept(m, sort, descs);
    KeepsImage(m, sort, descs, IsImage);
    KeepsOneBest(m, sort, descs);
    AnyImageIsMember(descs);
    AnyImageIsMember(kept);
  }

  lemma AnyImageIsMember<P>(descs: seq<Desc<P>>)
    ensures AnyImage(descs) <==> exists d :: d in descs && IsImage(d)
  {
  }

  // ------------------------------------------------------------------------------------------
  // What is added again

  /** The n-th discarded descriptor is added again when its turn comes. */
  predicate Taken<P>(kept: seq<Desc<P>>, discarded: seq<Desc<P>>, n: nat)
    requires n < |discarded|
  {
    RefersToAny(discarded[n], Readd(kept, discarded[..n]))
  }

  /** What is there after `n` turns: what was kept, and what was taken. */
  lemma {:induction false} ReaddMembers<P>(kept: seq<Desc<P>>, discarded: seq<Desc<P>>, n: nat, d: Desc<P>)
    requires n <= |discarded|
    ensures d in Readd(kept, discarded[..n]) <==>
            d in kept || exists j :: 0 <= j < n && Taken(kept, discarded, j) && discarded[j] == d
    decreases n
  {
    if n > 0 {
      ReaddMembers(kept, discarded, n - 1, d);
      assert discarded[..n][..n - 1] == discarded[..n - 1] && discarded[..n][n - 1] == discarded[n - 1];
    } else {
      assert discarded[..n] == [];
    }
  }

  /** References that lead from the n-th discarded descriptor to a kept one, always to an earlier one. */
  ghost predicate Chain<P>(kept: seq<Desc<P>>, discarded: seq<Desc<P>>, path: seq<nat>, n: nat) {
    && path != [] && path[|path| - 1] == n
    && (forall k :: 0 <= k < |path| ==> path[k] < |discarded|)
    && RefersToAny(discarded[path[0]], kept)
    && forall k :: 0 < k < |path| ==> path[k - 1] < path[k] && RefersTo(discarded[path[k]], discarded[path[k - 1]])
  }

  lemma RefersToMember<P>(d: Desc<P>, targets: seq<Desc<P>>)
    ensures RefersToAny(d, targets) <==> exists t :: t in targets && RefersTo(d, t)
  {
  }

  lemma {:induction false} TakenHasChain<P>(kept: seq<Desc<P>>, discarded: seq<Desc<P>>, n: nat)
    returns (path: seq<nat>)
    requires n < |discarded| && Taken(kept, discarded, n)
    ensures Chain(kept, discarded, path, n)
    decreases n
  {
    var d, there := discarded[n], Readd(kept, discarded[..n]);
    RefersToMember(d, there);
    RefersToMember(d, kept);
    var t :| t in there && RefersTo(d, t);
    ReaddMembers(kept, discarded, n, t);
    if t in kept {
      path := [n];
    } else {
      var j: nat :| j < n && Taken(kept, discarded, j) && discarded[j] == t;
      var p := TakenHasChain(kept, discarded, j);
      path := p + [n];
      ChainGrows(kept, discarded, p, j, n);
    }
  }

  lemma ChainGrows<P>(kept: seq<Desc<P>>, discarded: seq<Desc<P>>, path: seq<nat>, j: nat, n: nat)
    requires Chain(kept, discarded, path, j) && j < n < |discarded| && RefersTo(discarded[n], discarded[j])
    ensures Chain(kept, discarded, path + [n], n)
  {
    assert forall k :: 0 <= k < |path| ==> (path + [n])[k] == path[k];
  }

  lemma {:induction false} ChainIsTaken<P>(kept: seq<Desc<P>>, discarded: seq<Desc<P>>, path: seq<nat>, n: nat)
    requires n < |discarded| && Chain(kept, discarded, path, n)
    ensures Taken(kept, discarded, n)
    decreases |path|
  {
    var there := Readd(kept, discarded[..n]);
    RefersToMember(discarded[n], there);
    if |path| == 1 {
      RefersToMember(discarded[n], kept);
      var t :| t in kept && RefersTo(discarded[n], t);
      ReaddMembers(kept, discarded, n, t);
    } else {
      var last := |path| - 1;
      var j := path[last - 1];
      ChainIsTaken(kept, discarded, path[..last], j);
      ReaddMembers(kept, discarded, n, discarded[j]);
    }
  }

  /**
   A discarded descriptor is added again exactly if a chain of references leads from it, always to an
   earlier one, to something that was kept.
   */
  lemma TakenIffChain<P>(kept: seq<Desc<P>>, discarded: seq<Desc<P>>, n: nat)
    requires n < |discarded|
    ensures Taken(kept, discarded, n) <==> exists path :: Chain(kept, discarded, path, n)
  {
    if Taken(kept, discarded, n) {
      var path := TakenHasChain(kept, discarded, n);
    } else if path :| Chain(kept, discarded, path, n) {
      ChainIsTaken(kept, discarded, path, n);
    }
  }

  /** The successors begin with what was kept, and the rest of them was taken from the discarded ones. */
  lemma {:induction false} ReaddExtends<P>(kept: seq<Desc<P>>, discarded: seq<Desc<P>>)
    ensures kept <= Readd(kept, discarded)
    ensures forall n :: 0 <= n < |discarded| && RefersToAny(discarded[n], kept) ==>
              discarded[n] in Readd(kept, discarded)
    decreases |discarded|
  {
    if discarded != [] {
      ReaddExtends(kept, discarded[..|discarded| - 1]);
    }
    forall n | 0 <= n < |discarded| && RefersToAny(discarded[n], kept) ensures discarded[n] in Readd(kept, discarded) {
      ChainIsTaken(kept, discarded, [n], n);
      ReaddMembers(kept, discarded, |discarded|, discarded[n]);
      assert discarded[..|discarded|] == discarded;
    }
  }

  // ------------------------------------------------------------------------------------------
  // The answer

  /** The elements at some positions. */
  predicate Picked<T(==)>(xs: seq<T>, idx: seq<nat>, ys: seq<T>) {
    |ys| == |idx| && forall k :: 0 <= k < |idx| ==> idx[k] < |xs| && ys[k] == xs[idx[k]]
  }

  lemma IncreasingAppend(idx: seq<nat>, n: nat)
    requires Increasing(idx) && forall k :: k in idx ==> k < n
    ensures Increasing(idx + [n])
  {
    forall i | 0 <= i < |idx| ensures idx[i] < n {
      assert idx[i] in idx;
    }
  }

  /** The positions are those before n that fit. */
  ghost predicate Positioned(idx: seq<nat>, n: nat, fits: nat -> bool) {
    Increasing(idx) && forall k: nat :: k in idx <==> k < n && fits(k)
  }

  function Fitting(fits: nat -> bool, n: nat): seq<nat> {
    if n == 0 then [] else Fitting(fits, n - 1) + if fits(n - 1) then [n - 1] else []
  }

  lemma {:induction false} FittingPositioned(fits: nat -> bool, n: nat)
    ensures Positioned(Fitting(fits, n), n, fits)
  {
    if n > 0 {
      FittingPositioned(fits, n - 1);
      IncreasingAppend(Fitting(fits, n - 1), n - 1);
    }
  }

  function Chosen<T>(xs: seq<T>, fits: nat -> bool, n: nat): seq<T>
    requires n <= |xs|
  {
    if n == 0 then [] else Chosen(xs, fits, n - 1) + if fits(n - 1) then [xs[n - 1]] else []
  }

  lemma {:induction false} ChosenPicked<T>(xs: seq<T>, fits: nat -> bool, n: nat)
    requires n <= |xs|
    ensures Picked(xs, Fitting(fits, n), Chosen(xs, fits, n))
  {
    if n > 0 {
      ChosenPicked(xs, fits, n - 1);
    }
  }

  /** With every element that fits, the list grows by it. */
  predicate GrowsAt<T(==)>(xs: seq<T>, fits: nat -> bool, lists: nat -> seq<T>, k: nat)
    requires k < |xs|
  {
    lists(k + 1) == lists(k) + if fits(k) then [xs[k]] else []
  }

  lemma {:induction false} GrowsByChosen<T>(xs: seq<T>, fits: nat -> bool, lists: nat -> seq<T>, n: nat)
    requires n <= |xs| && forall k: nat :: k < n ==> GrowsAt(xs, fits, lists, k)
    ensures lists(n) == lists(0) + Chosen(xs, fits, n)
  {
    if n > 0 {
      GrowsByChosen(xs, fits, lists, n - 1);
      assert GrowsAt(xs, fits, lists, n - 1);
    }
  }

  /** A list that grows by the elements that fit ends up with those behind what it started with. */
  lemma Picks<T>(xs: seq<T>, fits: nat -> bool, lists: nat -> seq<T>) returns (idx: seq<nat>, added: seq<T>)
    requires forall k: nat :: k < |xs| ==> GrowsAt(xs, fits, lists, k)
    ensures lists(|xs|) == lists(0) + added && Picked(xs, idx, added) && Positioned(idx, |xs|, fits)
  {
    idx, added := Fitting(fits, |xs|), Chosen(xs, fits, |xs|);
    FittingPositioned(fits, |xs|);
    ChosenPicked(xs, fits, |xs|);
    GrowsByChosen(xs, fits, lists, |xs|);
  }

  lemma FilterPicks<P>(descs: seq<Desc<P>>, want: Desc<P> -> bool) returns (idx: seq<nat>)
    ensures Picked(descs, idx, Filter(descs, want))
    ensures Increasing(idx) && forall n: nat :: n in idx <==> n < |descs| && want(descs[n])
  {
    var fits := (k: nat) => k < |descs| && want(descs[k]);
    var lists := (k: nat) => if k <= |descs| then Filter(descs[..k], want) else [];
    forall k: nat | k < |descs| ensures GrowsAt(descs, fits, lists, k) {
      assert descs[..k + 1][..k] == descs[..k] && descs[..k + 1][k] == descs[k];
    }
    var added;
    idx, added := Picks(descs, fits, lists);
    assert lists(0) == [] && lists(|descs|) == added;
    assert descs[..|descs|] == descs;
  }

  lemma ReaddPicks<P>(kept: seq<Desc<P>>, discarded: seq<Desc<P>>) returns (idx: seq<nat>, added: seq<Desc<P>>)
    ensures Readd(kept, discarded) == kept + added && Picked(discarded, idx, added)
    ensures Increasing(idx) && forall k: nat :: k in idx <==> k < |discarded| && Taken(kept, discarded, k)
  {
    var fits := (k: nat) => k < |discarded| && Taken(kept, discarded, k);
    var lists := (k: nat) => if k <= |discarded| then Readd(kept, discarded[..k]) else [];
    forall k: nat | k < |discarded| ensures GrowsAt(discarded, fits, lists, k) {
      assert discarded[..k + 1][..k] == discarded[..k] && discarded[..k + 1][k] == discarded[k];
    }
    idx, added := Picks(discarded, fits, lists);
    assert lists(0) == kept;
    assert discarded[..|discarded|] == discarded;
  }

  /** References that lead from the n-th descriptor to a kept one, always to an earlier one that was not selected. */
  ghost predicate Leads<P>(m: Matcher<P>, kept: seq<Desc<P>>, descs: seq<Desc<P>>, path: seq<nat>, n: nat) {
    Chain(kept, descs, path, n) && forall k :: 0 <= k < |path| ==> !Selectable(m, descs[path[k]])
  }

  function At(idx: seq<nat>, path: seq<nat>): seq<nat>
    requires forall k :: 0 <= k < |path| ==> path[k] < |idx|
  {
    seq(|path|, k requires 0 <= k < |path| => idx[path[k]])
  }

  lemma InAt(idx: seq<nat>, path: seq<nat>, k: nat)
    requires (forall i :: 0 <= i < |path| ==> path[i] < |idx|) && Increasing(idx) && k < |idx|
    ensures idx[k] in At(idx, path) <==> k in path
  {
    if k in path {
      var i :| 0 <= i < |path| && path[i] == k;
      assert At(idx, path)[i] == idx[k];
    }
    if idx[k] in At(idx, path) {
      var i :| 0 <= i < |path| && At(idx, path)[i] == idx[k];
      assert idx[path[i]] == idx[k];
    }
  }

  lemma ChainLeads<P>(m: Matcher<P>, kept: seq<Desc<P>>, descs: seq<Desc<P>>, out: seq<Desc<P>>, idx: seq<nat>,
                      path: seq<nat>, k: nat)
    requires Picked(descs, idx, out) && Increasing(idx) && Chain(kept, out, path, k)
    requires forall n :: n in idx ==> n < |descs| && !Selectable(m, descs[n])
    ensures k < |idx| && Leads(m, kept, descs, At(idx, path), idx[k])
  {
    forall i | 0 <= i < |path| ensures idx[path[i]] in idx {
    }
  }

  /** The positions in the filtered list. */
  lemma {:induction false} Positions(idx: seq<nat>, path: seq<nat>) returns (positions: seq<nat>)
    requires forall k :: 0 <= k < |path| ==> path[k] in idx
    ensures |positions| == |path|
    ensures forall k :: 0 <= k < |path| ==> positions[k] < |idx| && idx[positions[k]] == path[k]
    decreases |path|
  {
    if path == [] {
      positions := [];
    } else {
      var last := |path| - 1;
      var before := Positions(idx, path[..last]);
      var p :| 0 <= p < |idx| && idx[p] == path[last];
      positions := before + [p];
    }
  }

  lemma LeadsChain<P>(m: Matcher<P>, kept: seq<Desc<P>>, descs: seq<Desc<P>>, out: seq<Desc<P>>, idx: seq<nat>,
                      path: seq<nat>, k: nat) returns (positions: seq<nat>)
    requires Picked(descs, idx, out) && Increasing(idx) && k < |idx| && Leads(m, kept, descs, path, idx[k])
    requires forall n: nat :: n in idx <==> n < |descs| && !Selectable(m, descs[n])
    ensures Chain(kept, out, positions, k)
  {
    positions := Positions(idx, path);
    forall i | 0 < i < |path| ensures positions[i - 1] < positions[i] {
      assert idx[positions[i - 1]] < idx[positions[i]];
    }
    assert idx[positions[|path| - 1]] == idx[k];
  }

  /** What is kept: everything without a platform, and one best match if there is any. */
  ghost predicate BestSelection<P(!new)>(m: Matcher<P>, descs: seq<Desc<P>>, kept: seq<Desc<P>>) {
    && (forall d: Desc<P> :: d.platform.None? ==> multiset(kept)[d] == multiset(descs)[d])
    && if exists d :: d in descs && HasMatch(m, d) then
         && kept != [] && IsBest(m, descs, kept[|kept| - 1])
         && forall i :: 0 <= i < |kept| - 1 ==> kept[i].platform.None?
       else
         forall i :: 0 <= i < |kept| ==> kept[i].platform.None?
  }

  lemma SelectionIsBest<P(!new)>(m: Matcher<P>, sort: seq<Desc<P>> -> seq<Desc<P>>, descs: seq<Desc<P>>)
    requires StrictWeakOrder(m.better) && IsSorting(m.better, Filter(descs, Wants(m)), sort(Filter(descs, Wants(m))))
    ensures BestSelection(m, descs, Kept(m, sort, descs))
  {
    KeepsOneBest(m, sort, descs);
    forall d: Desc<P> | d.platform.None? ensures multiset(Kept(m, sort, descs))[d] == multiset(descs)[d] {
      KeepsPlatformless(m, sort, descs, d);
    }
  }

  /**
   The successors are the best selection, followed by those descriptors that do not match and from which a chain of
   references leads to the selection, always to an earlier one of their kind; these are all there, in order.
   */
  lemma SuccessorsExactly<P(!new)>(m: Matcher<P>, sort: seq<Desc<P>> -> seq<Desc<P>>, descs: seq<Desc<P>>)
    returns (kept: seq<Desc<P>>, idx: seq<nat>, added: seq<Desc<P>>)
    requires StrictWeakOrder(m.better) && IsSorting(m.better, Filter(descs, Wants(m)), sort(Filter(descs, Wants(m))))
    requires Spec(m, sort, descs).Some?
    ensures Spec(m, sort, descs).value == kept + added && BestSelection(m, descs, kept)
    ensures Picked(descs, idx, added) && Increasing(idx)
    ensures forall n: nat :: n in idx <==>
              n < |descs| && !Selectable(m, descs[n]) && exists path :: Leads(m, kept, descs, path, n)
  {
    kept := Kept(m, sort, descs);
    SelectionIsBest(m, sort, descs);
    var out := Filter(descs, Rejects(m));
    var outs := FilterPicks(descs, Rejects(m));
    var taken;
    taken, added := ReaddPicks(kept, out);
    idx := At(outs, taken);
    forall n: nat ensures n in idx <==>
      n < |descs| && !Selectable(m, descs[n]) && exists path :: Leads(m, kept, descs, path, n)
    {
      AddedIffLeads(m, kept, descs, out, outs, taken, n);
    }
  }

  lemma AddedIffLeads<P>(m: Matcher<P>, kept: seq<Desc<P>>, descs: seq<Desc<P>>, out: seq<Desc<P>>, outs: seq<nat>,
                         taken: seq<nat>, n: nat)
    requires Picked(descs, outs, out) && Increasing(outs)
    requires forall n: nat :: n in outs <==> n < |descs| && !Selectable(m, descs[n])
    requires forall k: nat :: k in taken <==> k < |out| && Taken(kept, out, k)
    requires forall i :: 0 <= i < |taken| ==> taken[i] < |outs|
    ensures n in At(outs, taken) <==>
            n < |descs| && !Selectable(m, descs[n]) && exists path :: Leads(m, kept, descs, path, n)
  {
    if n in At(outs, taken) {
      var i :| 0 <= i < |taken| && At(outs, taken)[i] == n;
      assert taken[i] in taken && outs[taken[i]] == n;
    }
    if n in outs {
      var k: nat :| k < |outs| && outs[k] == n;
      TakenIffChain(kept, out, k);
      InAt(outs, taken, k);
      if k in taken {
        var path :| Chain(kept, out, path, k);
        ChainLeads(m, kept, descs, out, outs, path, k);
      } else if path :| Leads(m, kept, descs, path, n) {
        var positions := LeadsChain(m, kept, descs, out, outs, path, k);
      }
    }
  }

  /** Descriptors without a reference, or with one that is no valid digest, are not added again. */
  lemma BadReferencesAreIgnored<P>(m: Matcher<P>, kept: seq<Desc<P>>, descs: seq<Desc<P>>, path: seq<nat>, n: nat)
    requires n < |descs| && Leads(m, kept, descs, path, n)
    ensures descs[n].reference.Some? && Validate(descs[n].reference.value)
    ensures exists d :: (d in kept || d in descs[..n]) && d.digest == descs[n].reference.value
  {
    if |path| == 1 {
      RefersToMember(descs[n], kept);
    } else {
      var j := path[|path| - 2];
      assert RefersTo(descs[n], descs[j]) && descs[j] in descs[..n];
    }
  }

  /** A reference to a descriptor that is added later is not followed. */
  lemma LaterReferencesAreIgnored<P>(kept: Desc<P>, a: Desc<P>, b: Desc<P>)
    requires RefersTo(b, kept) && RefersTo(a, b) && a.reference != b.reference
    ensures Readd([kept], [a, b]) == [kept, b]
    ensures Readd([kept], [b, a]) == [kept, b, a]
  {
    assert [a, b][..1] == [a] && [b, a][..1] == [b] && [a][..0] == [] && [b][..0] == [];
    assert Readd([kept], []) == [kept];
    assert RefersToAny(b, [kept]) by { assert RefersTo(b, [kept][0]); }
    assert Readd([kept], [a]) == [kept];
    assert Readd([kept], [b]) == [kept, b];
    assert RefersToAny(a, [kept, b]) by { assert RefersTo(a, [kept, b][1]); }
  }
}
