/** Which calls an apply sends, in which order, when it succeeds, and which objects it spares. */
module StackCalls {

  import opened Basics
  import opened Json
  import opened StackModel
  import opened StackProofs
  import opened StackConvergence

  // ------------------------------------------------------------------------------------------
  // Success

  ghost predicate NoFaults(env: Env) { forall n :: env.fault(n).Fine? }

  /** There is nothing on the server that an apply would fail on. */
  ghost predicate Applicable(env: Env, name: string, objects: map<Id, Json>, r: Resource) {
    var kind, id := (r.id.group, r.id.kind), Target(env, r);
    && kind in env.scopes
    && if id in objects then ResourceInSync(env, name, objects, r) || Recorded(env.codec, objects[id])
       else env.scopes[kind].Namespaced? ==> id.namespace != ""
  }

  lemma ReconcileSucceeds(env: Env, name: string, api: Api, id: Id, doc: Json)
    requires NoFaults(env) && HasMetadata(doc)
    ensures Reconcile(env, name, api, id, Prepare(env.codec, name, doc)).1 <==>
            if id in api.objects then
              InSync(env.codec, name, api.objects, id, doc) || Recorded(env.codec, api.objects[id])
            else Creatable(env, api, id)
  {
    PreparedChecksum(env.codec, name, doc);
  }

  /** Without failing calls, a resource is applied if and only if nothing is in its way. */
  lemma ApplyOneSucceeds(env: Env, name: string, api: Api, r: Resource)
    requires NoFaults(env) && HasMetadata(r.doc)
    ensures ApplyOne(env, name, api, r).1.Some? <==> Applicable(env, name, api.objects, r)
  {
    var (api1, scope) := FindScope(env, api, r.id.group, r.id.kind);
    if scope.Some? {
      ReconcileSucceeds(env, name, api1, Target(env, r), Wanted(env, r));
    }
  }

  lemma {:induction false} ApplyAllSucceeds(env: Env, name: string, api: Api, rs: seq<Resource>)
    requires NoFaults(env) && Lawful(env.codec) && Distinct(env, rs) && AllAdmitted(env, api.objects, rs)
    requires forall r :: r in rs ==> Applicable(env, name, api.objects, r)
    ensures ApplyAll(env, name, api, rs).errs == 0
  {
    if rs != [] {
      var last := |rs| - 1;
      var before, r := ApplyAll(env, name, api, rs[..last]).api, rs[last];
      assert rs == rs[..last] + [r];
      ApplyAllSucceeds(env, name, api, rs[..last]);
      LastAdmitted(env, name, api, rs);
      if r in rs[..last] {
        ApplyAllConverges(env, name, api, rs[..last], r);
      }
      StaysApplicable(env, name, api.objects, before.objects, r, r in rs[..last]);
      ApplyOneSucceeds(env, name, before, r);
    }
  }

  lemma StaysApplicable(env: Env, name: string, start: map<Id, Json>, objects: map<Id, Json>, r: Resource, again: bool)
    requires if again then Settled(env, name, objects, r) else SameAt(start, objects, Target(env, r))
    requires Applicable(env, name, start, r)
    ensures Applicable(env, name, objects, r)
  {
  }

  lemma FoundKindsAreKnown(env: Env, name: string, keep: seq<string>, api: Api, k: ApiKind, id: Id)
    requires forall s, id :: id in env.order(s) ==> id in s
    requires id in FindInKind(env, name, keep, api, k).1
    ensures (id.group, id.kind) in env.scopes
  {
    var (api1, scope) := FindScope(env, api, k.group, k.kind);
    var (api2, ids) := ListObjects(env, api1, k.group, k.kind, name);
    PickPrunableSound(name, keep, api2, ids);
  }

  lemma {:induction false} FoundIdsAreKnown(env: Env, name: string, keep: seq<string>, api: Api, kinds: seq<ApiKind>)
    requires forall s, id :: id in env.order(s) ==> id in s
    ensures forall id :: id in FindPrunable(env, name, keep, api, kinds).1 ==> (id.group, id.kind) in env.scopes
  {
    if kinds != [] {
      var last := |kinds| - 1;
      FoundIdsAreKnown(env, name, keep, api, kinds[..last]);
      var api1 := FindPrunable(env, name, keep, api, kinds[..last]).0;
      forall id | id in FindInKind(env, name, keep, api1, kinds[last]).1 ensures (id.group, id.kind) in env.scopes {
        FoundKindsAreKnown(env, name, keep, api1, kinds[last], id);
      }
    }
  }

  lemma {:induction false} DeleteAllSucceeds(env: Env, api: Api, ids: seq<Id>)
    requires NoFaults(env) && forall id :: id in ids ==> (id.group, id.kind) in env.scopes
    ensures DeleteAll(env, api, ids).1
  {
    if ids != [] {
      DeleteAllSucceeds(env, api, ids[..|ids| - 1]);
      assert ids[|ids| - 1] in ids;
    }
  }

  /** Without failing calls, an apply succeeds if nothing is in the way of any resource, and discovery works. */
  lemma ApplySucceeds(env: Env, name: string, api: Api, rs: seq<Resource>, prune: bool)
    requires NoFaults(env) && LawfulEnv(env) && Distinct(env, rs) && AllAdmitted(env, api.objects, rs)
    requires (forall r :: r in rs ==> Applicable(env, name, api.objects, r)) && (prune ==> env.discovery.Some?)
    ensures ApplySpec(env, name, api, rs, prune).1
  {
    var sorted := ApplyOrder(rs);
    ApplyOrderSound(rs);
    ApplyAllSucceeds(env, name, api, sorted);
    if prune {
      var p, kinds := ApplyAll(env, name, api, sorted), KindsToPrune(env.discovery.value);
      FoundIdsAreKnown(env, name, p.keep, p.api, kinds);
      var (api1, ids) := FindPrunable(env, name, p.keep, p.api, kinds);
      SelectSound(ids, true);
      SelectSound(ids, false);
      DeleteAllSucceeds(env, api1, Select(ids, true) + Select(ids, false));
    }
  }

  // ------------------------------------------------------------------------------------------
  // Failure

  /** None of the calls since then has failed. */
  predicate AllFine(env: Env, api: Api, api': Api) {
    api.calls <= api'.calls && forall i :: |api.calls| <= i < |api'.calls| ==> env.fault(i).Fine?
  }

  lemma PerformNoticesFailures(env: Env, api: Api, id: Id, doc: Json, d: Decision)
    ensures Perform(env, api, id, doc, d).1 ==> AllFine(env, api, Perform(env, api, id, doc, d).0)
  {
  }

  lemma ApplyOneNoticesFailures(env: Env, name: string, api: Api, r: Resource)
    ensures ApplyOne(env, name, api, r).1.Some? ==> AllFine(env, api, ApplyOne(env, name, api, r).0)
  {
    var (api1, scope) := FindScope(env, api, r.id.group, r.id.kind);
    if scope.Some? {
      var m := Prepare(env.codec, name, Wanted(env, r));
      var (api2, found) := GetObject(env, api1, Target(env, r));
      PerformNoticesFailures(env, api2, Target(env, r), m, Decide(env.codec, name, found, m));
    }
  }

  lemma {:induction false} ApplyAllNoticesFailures(env: Env, name: string, api: Api, rs: seq<Resource>)
    ensures ApplyAll(env, name, api, rs).errs == 0 ==> AllFine(env, api, ApplyAll(env, name, api, rs).api)
  {
    if rs != [] {
      var last := |rs| - 1;
      ApplyAllNoticesFailures(env, name, api, rs[..last]);
      ApplyOneNoticesFailures(env, name, ApplyAll(env, name, api, rs[..last]).api, rs[last]);
    }
  }

  lemma {:induction false} DeleteAllNoticesFailures(env: Env, api: Api, ids: seq<Id>)
    ensures DeleteAll(env, api, ids).1 ==> AllFine(env, api, DeleteAll(env, api, ids).0)
  {
    if ids != [] {
      DeleteAllNoticesFailures(env, api, ids[..|ids| - 1]);
    }
  }

  /** No failure is hidden: an apply succeeds only if all calls that apply or delete something did. */
  lemma FailuresAreReported(env: Env, name: string, api: Api, rs: seq<Resource>, prune: bool)
    requires ApplySpec(env, name, api, rs, prune).1
    ensures var p := ApplyAll(env, name, api, ApplyOrder(rs));
            && AllFine(env, api, p.api)
            && (prune ==>
                  && env.discovery.Some?
                  && var found := FindPrunable(env, name, p.keep, p.api, KindsToPrune(env.discovery.value));
                     AllFine(env, found.0, ApplySpec(env, name, api, rs, prune).0))
  {
    ApplyAllNoticesFailures(env, name, api, ApplyOrder(rs));
    var p := ApplyAll(env, name, api, ApplyOrder(rs));
    if prune {
      var (api1, ids) := FindPrunable(env, name, p.keep, p.api, KindsToPrune(env.discovery.value));
      DeleteAllNoticesFailures(env, api1, Select(ids, true) + Select(ids, false));
    }
  }

  // ------------------------------------------------------------------------------------------
  // Calls

  /** The write that goes with what is on the server. */
  function WriteFor(c: Codec, name: string, objects: map<Id, Json>, id: Id, doc: Json): seq<Call> {
    if id !in objects then [Create(id)]
    else if InSync(c, name, objects, id, doc) then []
    else if LastConfig(objects[id]) == "" then [Update(id)]
    else if Recorded(c, objects[id]) then [Patch(id)]
    else []
  }

  lemma ReconcileCalls(env: Env, name: string, api: Api, id: Id, doc: Json)
    requires env.fault(|api.calls|).Fine? && HasMetadata(doc)
    ensures Reconcile(env, name, api, id, Prepare(env.codec, name, doc)).0.calls ==
            api.calls + [Get(id)] + WriteFor(env.codec, name, api.objects, id, doc)
  {
    var m := Prepare(env.codec, name, doc);
    PreparedChecksum(env.codec, name, doc);
    var (api1, found) := GetObject(env, api, id);
    DecisionCalls(env, name, api1, id, m, doc);
  }

  lemma DecisionCalls(env: Env, name: string, api: Api, id: Id, m: Json, doc: Json)
    requires m.Obj? && Checksum(m) == env.codec.hash(env.codec.encode(doc))
    ensures var found := if id in api.objects then Found(api.objects[id]) else Missing;
            Perform(env, api, id, m, Decide(env.codec, name, found, m)).0.calls ==
            api.calls + WriteFor(env.codec, name, api.objects, id, doc)
  {
    assert api.calls + [] == api.calls;
  }

  /** For every resource, its kind is looked up, then its object, and then at most one write is sent that fits. */
  lemma ApplyOneCalls(env: Env, name: string, api: Api, r: Resource)
    requires NoFaults(env) && HasMetadata(r.doc) && (r.id.group, r.id.kind) in env.scopes
    ensures ApplyOne(env, name, api, r).0.calls ==
            api.calls + [Discover(r.id.group, r.id.kind)] + [Get(Target(env, r))] +
            WriteFor(env.codec, name, api.objects, Target(env, r), Wanted(env, r))
  {
    var (api1, scope) := FindScope(env, api, r.id.group, r.id.kind);
    ReconcileCalls(env, name, api1, Target(env, r), Wanted(env, r));
  }

  // ------------------------------------------------------------------------------------------
  // Order

  /** The resources with, or without, a namespace, all of them in order. */
  lemma {:induction false} SortedPicks(rs: seq<Resource>, namespaced: bool) returns (idx: seq<nat>)
    ensures |idx| == |Sorted(rs, namespaced)| && Increasing(idx)
    ensures forall k :: 0 <= k < |idx| ==> idx[k] < |rs| && Sorted(rs, namespaced)[k] == rs[idx[k]]
    ensures forall n: nat :: n in idx <==> n < |rs| && (rs[n].id.namespace != "") == namespaced
    decreases |rs|
  {
    if rs == [] {
      idx := [];
    } else {
      var last := |rs| - 1;
      idx := SortedPicks(rs[..last], namespaced);
      if (rs[last].id.namespace != "") == namespaced {
        forall i | 0 <= i < |idx| ensures idx[i] < last {
          assert idx[i] in idx;
        }
        idx := idx + [last];
      }
    }
  }

  /**
   Resources without a namespace are applied first, then those with one, and otherwise in the order of the stack:
   `cluster` and `namespaced` are their positions.
   */
  lemma ApplyOrderExactly(rs: seq<Resource>) returns (cluster: seq<nat>, namespaced: seq<nat>)
    ensures |cluster| + |namespaced| == |ApplyOrder(rs)| && Increasing(cluster) && Increasing(namespaced)
    ensures forall k :: 0 <= k < |cluster| ==> cluster[k] < |rs| && ApplyOrder(rs)[k] == rs[cluster[k]]
    ensures forall k :: 0 <= k < |namespaced| ==>
              namespaced[k] < |rs| && ApplyOrder(rs)[|cluster| + k] == rs[namespaced[k]]
    ensures forall i: nat :: i in cluster <==> i < |rs| && rs[i].id.namespace == ""
    ensures forall i: nat :: i in namespaced <==> i < |rs| && rs[i].id.namespace != ""
  {
    cluster := SortedPicks(rs, false);
    namespaced := SortedPicks(rs, true);
  }

  /** Deletions of objects with a namespace come before those of the others. */
  predicate NamespacedFirst(api: Api, api': Api) {
    forall i, j :: |api.calls| <= i < j < |api'.calls| && api'.calls[i].Delete? && api'.calls[j].Delete? ==>
      api'.calls[j].id.namespace != "" ==> api'.calls[i].id.namespace != ""
  }

  /** The deletions go through the list in order. */
  lemma {:induction false} DeleteAllInOrder(env: Env, api: Api, ids: seq<Id>, n: nat)
    requires n <= |ids| && (forall i :: 0 <= i < n ==> ids[i].namespace != "")
    requires forall i :: n <= i < |ids| ==> ids[i].namespace == ""
    ensures NamespacedFirst(api, DeleteAll(env, api, ids).0)
    decreases |ids|
  {
    if ids != [] {
      var last := |ids| - 1;
      var before := DeleteAll(env, api, ids[..last]);
      DeleteAllInOrder(env, api, ids[..last], if n <= last then n else last);
      DeleteAllSound(env, api, ids[..last]);
      if n == |ids| {
        forall i | |api.calls| <= i < |before.0.calls| && before.0.calls[i].Delete?
          ensures before.0.calls[i].id.namespace != ""
        {
          assert before.0.calls[i].id in ids[..last];
        }
      }
    }
  }

  predicate AllNamespaced(ids: seq<Id>, namespaced: bool) {
    forall i :: 0 <= i < |ids| ==> (ids[i].namespace != "") == namespaced
  }

  lemma {:induction false} SelectedNamespaces(ids: seq<Id>, namespaced: bool)
    ensures AllNamespaced(Select(ids, namespaced), namespaced)
  {
    if ids != [] {
      SelectedNamespaces(ids[..|ids| - 1], namespaced);
    }
  }

  /** A prune deletes objects with a namespace before those without one. */
  lemma PruneOrder(env: Env, name: string, keep: seq<string>, api: Api)
    requires forall s, id :: id in env.order(s) ==> id in s
    ensures NamespacedFirst(api, PruneSpec(env, name, keep, api).0)
  {
    if env.discovery.Some? {
      var kinds := KindsToPrune(env.discovery.value);
      FindPrunableSound(env, name, keep, api, kinds);
      var (api1, ids) := FindPrunable(env, name, keep, api, kinds);
      SelectedNamespaces(ids, true);
      SelectedNamespaces(ids, false);
      var chosen := Select(ids, true) + Select(ids, false);
      DeleteAllInOrder(env, api1, chosen, |Select(ids, true)|);
      DeleteAllSound(env, api1, chosen);
      forall i | |api.calls| <= i < |api1.calls| ensures !api1.calls[i].Delete? {
      }
    }
  }

  // ------------------------------------------------------------------------------------------
  // What is spared

  /** Endpoints of the core group, and endpoint slices, both in their first version. */
  predicate Ignored(k: ApiKind) {
    || (k.group == "" && k.version == "v1" && k.kind == "Endpoints")
    || (k.group == "discovery.k8s.io" && k.version == "v1" && k.kind == "EndpointSlice")
  }

  lemma KeyExactly(a: ApiKind, b: ApiKind)
    requires ProperKind(a) && ProperKind(b) && Key(a) == Key(b)
    ensures a.group == b.group && a.version == b.version && a.kind == b.kind
  {
    KeyInjective(a, b);
    assert Key(a) == GroupVersion(a) + [':'] + a.kind && Key(b) == GroupVersion(b) + [':'] + b.kind;
    SplitAtLast(GroupVersion(a), a.kind, GroupVersion(b), b.kind, ':');
    if a.group != "" {
      assert GroupVersion(a) == a.group + ['/'] + a.version && GroupVersion(b) == b.group + ['/'] + b.version;
      SplitAtFirst(a.group, a.version, b.group, b.version, '/');
    }
  }

  const ENDPOINTS := ApiKind("", "v1", "Endpoints", [])
  const ENDPOINT_SLICES := ApiKind("discovery.k8s.io", "v1", "EndpointSlice", [])

  lemma EndpointsKey()
    ensures ProperKind(ENDPOINTS) && Key(ENDPOINTS) == IGNORED[0]
  {
  }

  lemma EndpointSlicesKey()
    ensures Key(ENDPOINT_SLICES) == IGNORED[1]
  {
  }

  lemma EndpointSlicesProper()
    ensures ProperKind(ENDPOINT_SLICES)
  {
  }

  lemma SameKey(a: ApiKind, b: ApiKind)
    requires ProperKind(a) && ProperKind(b)
    ensures Key(a) == Key(b) <==> a.group == b.group && a.version == b.version && a.kind == b.kind
  {
    if Key(a) == Key(b) {
      KeyExactly(a, b);
    }
  }

  lemma InIgnored(key: string, ignored: seq<string>)
    requires |ignored| == 2
    ensures key in ignored <==> key == ignored[0] || key == ignored[1]
  {
  }

  /** A kind is pruned if and only if its objects can be deleted, and it is not an ignored one. */
  lemma PrunableExactly(k: ApiKind)
    requires ProperKind(k)
    ensures Prunable(k) <==> "delete" in k.verbs && !Ignored(k)
  {
    EndpointsKey();
    EndpointSlicesKey();
    EndpointSlicesProper();
    SameKey(k, ENDPOINTS);
    SameKey(k, ENDPOINT_SLICES);
    InIgnored(Key(k), IGNORED);
  }

  /** An object has as many owners as it has owner references. */
  lemma OwnersExactly(doc: Json, refs: seq<Json>)
    requires HasMetadata(doc) && forall i :: 0 <= i < |refs| ==> refs[i].Obj?
    ensures Lookup(doc, ["metadata", "ownerReferences"]) == Some(Arr(refs)) ==> Owners(doc) == |refs|
    ensures Lookup(doc, ["metadata", "ownerReferences"]).None? ==> Owners(doc) == 0
  {
  }

  /**
   Whatever fails: an object is deleted only if it has the stack's label, no owner references, is not in the stack,
   and is of a discovered kind that can be deleted and is not ignored.
   */
  lemma Spared(env: Env, name: string, api: Api, rs: seq<Resource>, prune: bool, i: nat, refs: seq<Json>)
    requires forall s, id :: id in env.order(s) ==> id in s
    requires |api.calls| <= i < |ApplySpec(env, name, api, rs, prune).0.calls|
    requires ApplySpec(env, name, api, rs, prune).0.calls[i].Delete?
    requires env.discovery.Some? ==> forall k :: k in env.discovery.value ==> ProperKind(k)
    ensures var id, objects := ApplySpec(env, name, api, rs, prune).0.calls[i].id,
                               ApplyAll(env, name, api, ApplyOrder(rs)).api.objects;
            && prune && id in objects && StackName(objects[id]) == name
            && (forall r :: r in rs ==> id != Target(env, r))
            && (HasMetadata(objects[id]) && refs != [] && (forall n :: 0 <= n < |refs| ==> refs[n].Obj?) ==>
                  Lookup(objects[id], ["metadata", "ownerReferences"]) != Some(Arr(refs)))
            && env.discovery.Some?
            && exists k :: k in env.discovery.value && OfKind(id, k) && "delete" in k.verbs && !Ignored(k)
  {
    PruneSafety(env, name, api, rs, prune, i);
    var id, objects := ApplySpec(env, name, api, rs, prune).0.calls[i].id,
                       ApplyAll(env, name, api, ApplyOrder(rs)).api.objects;
    var k :| k in env.discovery.value && OfKind(id, k) && Prunable(k);
    PrunableExactly(k);
    if HasMetadata(objects[id]) && (forall n :: 0 <= n < |refs| ==> refs[n].Obj?) {
      OwnersExactly(objects[id], refs);
    }
  }
}
