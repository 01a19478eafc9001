/** What an apply does under arbitrary faults: resource identifiers, searching, deleting, and prune safety. */
module StackProofs {

  import opened Json
  import opened StackModel

  // ------------------------------------------------------------------------------------------
  // Resource identifiers

  lemma {:induction false} SplitAtFirst(x: string, y: string, x': string, y': string, c: char)
    requires x + [c] + y == x' + [c] + y'
    requires c !in x && c !in x'
    ensures x == x' && y == y'
  {
    var s := x + [c] + y;
    assert forall i :: 0 <= i < |x| ==> s[i] == x[i];
    assert forall i :: 0 <= i < |x'| ==> s[i] == x'[i];
    assert s[|x|] == c && s[|x'|] == c;
    assert s[..|x|] == x && s[..|x'|] == x' && s[|x| + 1..] == y && s[|x'| + 1..] == y';
  }

  lemma {:induction false} SplitAtLast(x: string, y: string, x': string, y': string, c: char)
    requires x + [c] + y == x' + [c] + y'
    requires c !in y && c !in y'
    ensures x == x' && y == y'
  {
    var s := x + [c] + y;
    assert forall i :: |x| < i < |s| ==> s[i] == y[i - |x| - 1];
    assert forall i :: |x'| < i < |s| ==> s[i] == y'[i - |x'| - 1];
    assert s[|x|] == c && s[|x'|] == c;
    assert s[..|x|] == x && s[..|x'|] == x' && s[|x| + 1..] == y && s[|x'| + 1..] == y';
  }

  /** API groups have no slash, kinds no colon, namespaces no at sign. Names may have any of them. */
  predicate Named(id: Id) {
    '/' !in id.group && ':' !in id.kind && '@' !in id.namespace
  }

  lemma IdStringInjective(a: Id, b: Id)
    requires Named(a) && Named(b)
    requires IdString(a) == IdString(b)
    ensures a == b
  {
    var ra, rb := a.kind + ":" + a.name + "@" + a.namespace, b.kind + ":" + b.name + "@" + b.namespace;
    assert IdString(a) == a.group + ['/'] + ra && IdString(b) == b.group + ['/'] + rb;
    SplitAtFirst(a.group, ra, b.group, rb, '/');
    var na, nb := a.name + "@" + a.namespace, b.name + "@" + b.namespace;
    assert ra == a.kind + [':'] + na && rb == b.kind + [':'] + nb;
    SplitAtFirst(a.kind, na, b.kind, nb, ':');
    assert na == a.name + ['@'] + a.namespace && nb == b.name + ['@'] + b.namespace;
    SplitAtLast(a.name, a.namespace, b.name, b.namespace, '@');
  }

  /** Each of the three conditions is needed. */
  lemma IdStringCollisions()
    ensures IdString(Id("g", "K", "n", "x@y")) == IdString(Id("g", "K", "n@x", "y"))
    ensures IdString(Id("g", "K:n", "x", "y")) == IdString(Id("g", "K", "n:x", "y"))
    ensures IdString(Id("g/h", "K", "n", "y")) == IdString(Id("g", "h/K", "n", "y"))
  {
  }

  // ------------------------------------------------------------------------------------------
  // Safety

  /** Where a resource of the stack lives on the server. */
  function Target(env: Env, r: Resource): Id {
    if (r.id.group, r.id.kind) in env.scopes then Scoped(r, env.scopes[(r.id.group, r.id.kind)]).id else r.id
  }

  predicate IsWrite(c: Call) { c.Create? || c.Update? || c.Patch? || c.Delete? }

  /** `b` continues `a` without deleting anything. */
  predicate ContinuesWithoutDelete(a: Api, b: Api) {
    && a.calls <= b.calls
    && forall i :: |a.calls| <= i < |b.calls| ==> !b.calls[i].Delete?
  }

  lemma PerformSafe(env: Env, api: Api, id: Id, doc: Json, d: Decision)
    ensures ContinuesWithoutDelete(api, Perform(env, api, id, doc, d).0)
  {
  }

  lemma ApplyOneSafe(env: Env, name: string, api: Api, r: Resource)
    ensures var (api', kept) := ApplyOne(env, name, api, r);
            && ContinuesWithoutDelete(api, api')
            && (kept.Some? ==> kept.value == Target(env, r))
  {
    var (api1, scope) := FindScope(env, api, r.id.group, r.id.kind);
    if scope.Some? {
      var s := Scoped(r, scope.value);
      var doc := Prepare(env.codec, name, s.doc);
      var (api2, found) := GetObject(env, api1, s.id);
      PerformSafe(env, api2, s.id, doc, Decide(env.codec, name, found, doc));
    }
  }

  lemma {:induction false} ApplyAllSafe(env: Env, name: string, api: Api, rs: seq<Resource>)
    ensures var p := ApplyAll(env, name, api, rs);
            && ContinuesWithoutDelete(api, p.api)
            && (p.errs == 0 ==> forall r :: r in rs ==> IdString(Target(env, r)) in p.keep)
  {
    if rs != [] {
      var last := |rs| - 1;
      ApplyAllSafe(env, name, api, rs[..last]);
      ApplyOneSafe(env, name, ApplyAll(env, name, api, rs[..last]).api, rs[last]);
      assert rs == rs[..last] + [rs[last]];
    }
  }

  /** Searching neither changes nor deletes anything. */
  predicate OnlyReads(a: Api, b: Api) {
    && b.objects == a.objects
    && a.calls <= b.calls
    && forall i :: |a.calls| <= i < |b.calls| ==> !IsWrite(b.calls[i])
  }

  lemma {:induction false} PickPrunableSound(name: string, keep: seq<string>, api: Api, ids: seq<Id>)
    ensures forall id :: id in PickPrunable(name, keep, api, ids) <==> id in ids && ShouldPrune(name, keep, api, id)
  {
    if ids != [] {
      PickPrunableSound(name, keep, api, ids[..|ids| - 1]);
      assert ids == ids[..|ids| - 1] + [ids[|ids| - 1]];
    }
  }

  predicate OfKind(id: Id, k: ApiKind) { id.group == k.group && id.kind == k.kind }

  lemma {:induction false} FindPrunableSound(env: Env, name: string, keep: seq<string>, api: Api, kinds: seq<ApiKind>)
    requires forall s, id :: id in env.order(s) ==> id in s
    ensures var (api', ids) := FindPrunable(env, name, keep, api, kinds);
            && OnlyReads(api, api')
            && forall id :: id in ids ==>
                 && ShouldPrune(name, keep, api, id)
                 && exists k :: k in kinds && OfKind(id, k)
  {
    if kinds != [] {
      var last := |kinds| - 1;
      FindPrunableSound(env, name, keep, api, kinds[..last]);
      var (api1, before) := FindPrunable(env, name, keep, api, kinds[..last]);
      var k := kinds[last];
      var (api2, scope) := FindScope(env, api1, k.group, k.kind);
      var (api3, listed) := ListObjects(env, api2, k.group, k.kind, name);
      PickPrunableSound(name, keep, api3, listed);
      assert kinds == kinds[..last] + [k];
      var (api', ids) := FindPrunable(env, name, keep, api, kinds);
      forall id | id in ids ensures ShouldPrune(name, keep, api, id) && exists k :: k in kinds && OfKind(id, k) {
        if id !in before {
          assert OfKind(id, k) && k in kinds;
        } else {
          var k' :| k' in kinds[..last] && OfKind(id, k');
          assert k' in kinds;
        }
      }
    }
  }

  lemma {:induction false} FirstPerKeySound(kinds: seq<ApiKind>, wanted: ApiKind -> bool, key: ApiKind -> string)
    ensures forall k :: k in FirstPerKey(kinds, wanted, key) ==> k in kinds && wanted(k)
    ensures forall k :: k in kinds && wanted(k) ==>
              exists k' :: k' in FirstPerKey(kinds, wanted, key) && key(k') == key(k)
  {
    if kinds != [] {
      var last := |kinds| - 1;
      FirstPerKeySound(kinds[..last], wanted, key);
      assert kinds == kinds[..last] + [kinds[last]];
      var before, all := FirstPerKey(kinds[..last], wanted, key), FirstPerKey(kinds, wanted, key);
      forall k | k in kinds && wanted(k) ensures exists k' :: k' in all && key(k') == key(k) {
        if k in kinds[..last] {
          var k' :| k' in before && key(k') == key(k);
          assert k' in all;
        } else if k !in all {
          var i :| 0 <= i < |before| && key(before[i]) == key(k);
          assert before[i] in all;
        }
      }
    }
  }

  lemma {:induction false} SelectSound(ids: seq<Id>, namespaced: bool)
    ensures forall id :: id in Select(ids, namespaced) <==> id in ids && (id.namespace != "") == namespaced
  {
    if ids != [] {
      SelectSound(ids[..|ids| - 1], namespaced);
      assert ids == ids[..|ids| - 1] + [ids[|ids| - 1]];
    }
  }

  lemma {:induction false} DeleteAllSound(env: Env, api: Api, ids: seq<Id>)
    ensures var (api', ok) := DeleteAll(env, api, ids);
            && api.calls <= api'.calls
            && (forall i :: |api.calls| <= i < |api'.calls| && IsWrite(api'.calls[i]) ==>
                  api'.calls[i].Delete? && api'.calls[i].id in ids)
            && api'.objects.Keys <= api.objects.Keys
            && (forall id :: id in api'.objects ==> api'.objects[id] == api.objects[id])
            && (forall id :: id in api.objects && id !in ids ==> id in api'.objects)
            && (ok ==> forall id :: id in ids ==> id !in api'.objects)
  {
    if ids != [] {
      DeleteAllSound(env, api, ids[..|ids| - 1]);
      assert ids == ids[..|ids| - 1] + [ids[|ids| - 1]];
    }
  }

  /** Why an object may be deleted by the apply of a stack. */
  ghost predicate MayDelete(env: Env, name: string, rs: seq<Resource>, api: Api, id: Id) {
    && id in api.objects
    && StackName(api.objects[id]) == name
    && Owners(api.objects[id]) == 0
    && (forall r :: r in rs ==> id != Target(env, r))
    && env.discovery.Some?
    && exists k :: k in env.discovery.value && OfKind(id, k) && Prunable(k)
  }

  lemma {:induction false} SortedSound(rs: seq<Resource>, namespaced: bool)
    ensures forall r :: r in Sorted(rs, namespaced) <==> r in rs && (r.id.namespace != "") == namespaced
  {
    if rs != [] {
      SortedSound(rs[..|rs| - 1], namespaced);
      assert rs == rs[..|rs| - 1] + [rs[|rs| - 1]];
    }
  }

  lemma ApplyOrderSound(rs: seq<Resource>)
    ensures forall r :: r in ApplyOrder(rs) <==> r in rs
  {
    SortedSound(rs, false);
    SortedSound(rs, true);
  }

  /**
   Whatever calls fail, and whatever is on the server: an apply deletes only objects with the stack's
   label, without owners, of a prunable kind, that are not in the stack; and nothing at all if it was
   not asked to, or a resource could not be applied.
   */
  lemma PruneSafety(env: Env, name: string, api: Api, rs: seq<Resource>, prune: bool, i: nat)
    requires forall s, id :: id in env.order(s) ==> id in s
    requires |api.calls| <= i < |ApplySpec(env, name, api, rs, prune).0.calls|
    requires ApplySpec(env, name, api, rs, prune).0.calls[i].Delete?
    ensures prune
    ensures var p := ApplyAll(env, name, api, ApplyOrder(rs));
            p.errs == 0 && MayDelete(env, name, rs, p.api, ApplySpec(env, name, api, rs, prune).0.calls[i].id)
  {
    ApplyAllSafe(env, name, api, ApplyOrder(rs));
    ApplyOrderSound(rs);
    var p := ApplyAll(env, name, api, ApplyOrder(rs));
    PruneExtends(env, name, p.keep, p.api);
    if p.errs == 0 && prune && |p.api.calls| <= i {
      PruneDeletes(env, name, p.keep, p.api, i);
    }
  }

  lemma PruneExtends(env: Env, name: string, keep: seq<string>, api: Api)
    requires forall s, id :: id in env.order(s) ==> id in s
    ensures api.calls <= PruneSpec(env, name, keep, api).0.calls
  {
    if env.discovery.Some? {
      var kinds := KindsToPrune(env.discovery.value);
      FindPrunableSound(env, name, keep, api, kinds);
      var (api1, ids) := FindPrunable(env, name, keep, api, kinds);
      DeleteAllSound(env, api1, Select(ids, true) + Select(ids, false));
    }
  }

  /** What is deleted when pruning has to be pruned, and is of a prunable kind. */
  lemma PruneDeletes(env: Env, name: string, keep: seq<string>, api: Api, i: nat)
    requires forall s, id :: id in env.order(s) ==> id in s
    requires |api.calls| <= i < |PruneSpec(env, name, keep, api).0.calls|
    requires PruneSpec(env, name, keep, api).0.calls[i].Delete?
    ensures env.discovery.Some?
    ensures var id := PruneSpec(env, name, keep, api).0.calls[i].id;
            ShouldPrune(name, keep, api, id) && exists k :: k in env.discovery.value && OfKind(id, k) && Prunable(k)
  {
    if env.discovery.Some? {
      var kinds := KindsToPrune(env.discovery.value);
      FirstPerKeySound(env.discovery.value, Prunable, Key);
      FindPrunableSound(env, name, keep, api, kinds);
      var (api1, ids) := FindPrunable(env, name, keep, api, kinds);
      SelectSound(ids, true);
      SelectSound(ids, false);
      DeleteAllSound(env, api1, Select(ids, true) + Select(ids, false));
      var id := PruneSpec(env, name, keep, api).0.calls[i].id;
      assert id in ids;
      var k :| k in kinds && OfKind(id, k);
      assert k in env.discovery.value && Prunable(k);
    }
  }
}
