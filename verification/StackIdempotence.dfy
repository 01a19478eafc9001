/** What a second apply does, and what a retry with annotated copies does. */
module StackIdempotence {

  import opened Basics
  import opened Json
  import opened StackModel
  import opened StackProofs
  import opened StackConvergence

  // ------------------------------------------------------------------------------------------
  // Nothing to do

  lemma ReconcileSkips(env: Env, name: string, api: Api, id: Id, doc: Json)
    requires id in api.objects && StackName(api.objects[id]) == name && Checksum(api.objects[id]) == Checksum(doc)
    ensures OnlyReads(api, Reconcile(env, name, api, id, doc).0)
  {
  }

  /** Applying a resource of a known kind is reconciling it. */
  lemma ApplyOneIs(env: Env, name: string, api: Api, r: Resource)
    ensures var (api1, scope) := FindScope(env, api, r.id.group, r.id.kind);
            var (api2, ok) := Reconcile(env, name, api1, Target(env, r), Prepare(env.codec, name, Wanted(env, r)));
            ApplyOne(env, name, api, r) ==
            if scope.None? then (api1, None) else (api2, if ok then Some(Target(env, r)) else None)
  {
  }

  lemma ApplyOneSkips(env: Env, name: string, api: Api, r: Resource)
    requires HasMetadata(r.doc) && ResourceInSync(env, name, api.objects, r)
    ensures OnlyReads(api, ApplyOne(env, name, api, r).0)
  {
    var api1 := FindScope(env, api, r.id.group, r.id.kind).0;
    ApplyOneIs(env, name, api, r);
    PreparedChecksum(env.codec, name, Wanted(env, r));
    ReconcileSkips(env, name, api1, Target(env, r), Prepare(env.codec, name, Wanted(env, r)));
  }

  lemma {:induction false} ApplyAllSkips(env: Env, name: string, api: Api, rs: seq<Resource>)
    requires forall r :: r in rs ==> HasMetadata(r.doc) && ResourceInSync(env, name, api.objects, r)
    ensures OnlyReads(api, ApplyAll(env, name, api, rs).api)
  {
    if rs != [] {
      var last := |rs| - 1;
      assert rs == rs[..last] + [rs[last]];
      ApplyAllSkips(env, name, api, rs[..last]);
      ApplyOneSkips(env, name, ApplyAll(env, name, api, rs[..last]).api, rs[last]);
    }
  }

  /** All resources are in sync, and nothing else has to be pruned. */
  ghost predicate Tidy(env: Env, name: string, objects: map<Id, Json>, rs: seq<Resource>) {
    && (forall r :: r in rs ==> HasMetadata(r.doc) && ResourceInSync(env, name, objects, r))
    && forall id :: Leftover(env, name, objects, rs, id) ==> Shares(env, rs, id)
  }

  lemma NothingToDo(env: Env, name: string, api: Api, rs: seq<Resource>)
    requires LawfulEnv(env) && Tidy(env, name, api.objects, rs)
    ensures OnlyReads(api, ApplySpec(env, name, api, rs, true).0)
  {
    var sorted := ApplyOrder(rs);
    ApplyOrderSound(rs);
    ApplyAllSkips(env, name, api, sorted);
    ApplyAllSafe(env, name, api, sorted);
    var p := ApplyAll(env, name, api, sorted);
    if p.errs == 0 && env.discovery.Some? {
      NothingFound(env, name, p, rs);
      var (api1, ids) := FindPrunable(env, name, p.keep, p.api, KindsToPrune(env.discovery.value));
      SelectSound(ids, true);
      SelectSound(ids, false);
      DeleteAllSound(env, api1, Select(ids, true) + Select(ids, false));
      var api2 := DeleteAll(env, api1, Select(ids, true) + Select(ids, false)).0;
      assert api2.objects == api1.objects;
    }
  }

  lemma NothingFound(env: Env, name: string, p: Progress, rs: seq<Resource>)
    requires LawfulEnv(env) && env.discovery.Some?
    requires forall r :: r in rs ==> IdString(Target(env, r)) in p.keep
    requires forall id :: Leftover(env, name, p.api.objects, rs, id) ==> Shares(env, rs, id)
    ensures var (api1, ids) := FindPrunable(env, name, p.keep, p.api, KindsToPrune(env.discovery.value));
            OnlyReads(p.api, api1) && forall id :: id !in ids
  {
    var kinds := KindsToPrune(env.discovery.value);
    FirstPerKeySound(env.discovery.value, Prunable, Key);
    FindPrunableSound(env, name, p.keep, p.api, kinds);
    forall id | ShouldPrune(name, p.keep, p.api, id)
      ensures !exists k :: k in kinds && OfKind(id, k)
    {
      assert !Leftover(env, name, p.api.objects, rs, id);
    }
  }

  // ------------------------------------------------------------------------------------------
  // Something to do

  /** `b` continues `a` with at least one write. */
  predicate Writes(a: Api, b: Api) {
    && a.calls <= b.calls
    && exists i :: |a.calls| <= i < |b.calls| && IsWrite(b.calls[i])
  }

  lemma WritesOn(a: Api, b: Api, c: Api)
    requires a.calls <= b.calls <= c.calls && (Writes(a, b) || Writes(b, c))
    ensures Writes(a, c)
  {
    if Writes(a, b) {
      var i :| |a.calls| <= i < |b.calls| && IsWrite(b.calls[i]);
      assert c.calls[i] == b.calls[i];
    }
  }

  /** An object that is there, out of sync, and can be updated or patched, is written to. */
  lemma ReconcileWrites(env: Env, name: string, api: Api, id: Id, doc: Json)
    requires env.fault(|api.calls|).Fine? && id in api.objects && doc.Obj? && Recorded(env.codec, api.objects[id])
    requires StackName(api.objects[id]) != name || Checksum(api.objects[id]) != Checksum(doc)
    ensures Writes(api, Reconcile(env, name, api, id, doc).0)
  {
    var (api1, found) := GetObject(env, api, id);
    var d := Decide(env.codec, name, found, doc);
    assert d.DoUpdate? || d.DoPatch?;
    var after := Perform(env, api1, id, doc, d).0;
    assert IsWrite(after.calls[|api1.calls|]);
  }

  lemma ApplyOneWrites(env: Env, name: string, api: Api, r: Resource)
    requires (forall n :: env.fault(n).Fine?) && HasMetadata(r.doc)
    requires Settled(env, name, api.objects, r) && !ResourceInSync(env, name, api.objects, r)
    ensures Writes(api, ApplyOne(env, name, api, r).0)
  {
    var api1 := FindScope(env, api, r.id.group, r.id.kind).0;
    ApplyOneIs(env, name, api, r);
    PreparedChecksum(env.codec, name, Wanted(env, r));
    ReconcileWrites(env, name, api1, Target(env, r), Prepare(env.codec, name, Wanted(env, r)));
    WritesOn(api, api1, Reconcile(env, name, api1, Target(env, r), Prepare(env.codec, name, Wanted(env, r))).0);
  }

  lemma {:induction false} ApplyAllWrites(env: Env, name: string, api: Api, rs: seq<Resource>, r: Resource)
    requires Lawful(env.codec) && (forall n :: env.fault(n).Fine?)
    requires Distinct(env, rs) && AllAdmitted(env, api.objects, rs) && r in rs
    requires Settled(env, name, api.objects, r) && !ResourceInSync(env, name, api.objects, r)
    ensures Writes(api, ApplyAll(env, name, api, rs).api)
  {
    var last := |rs| - 1;
    var before := ApplyAll(env, name, api, rs[..last]).api;
    var after := ApplyOne(env, name, before, rs[last]).0;
    assert rs == rs[..last] + [rs[last]];
    ApplyAllSafe(env, name, api, rs[..last]);
    ApplyOneSafe(env, name, before, rs[last]);
    if r in rs[..last] {
      ApplyAllWrites(env, name, api, rs[..last], r);
    } else {
      LastAdmitted(env, name, api, rs);
      ApplyOneWrites(env, name, before, r);
    }
    WritesOn(api, before, after);
  }

  // ------------------------------------------------------------------------------------------
  // Idempotence

  ghost predicate AllYield(env: Env, name: string, objects: map<Id, Json>, rs: seq<Resource>) {
    forall r :: r in rs ==> ResourceYields(env, name, objects, r)
  }

  /**
   After a successful apply to objects that all yield, applying copies of the same resources once more sends
   nothing but reads, even if any of those should fail this time.
   */
  lemma Idempotence(env: Env, name: string, api: Api, rs: seq<Resource>, fault: nat -> Fault)
    requires Convergent(env, name, api, rs) && AllYield(env, name, api.objects, rs)
    requires ApplySpec(env, name, api, rs, true).1
    ensures var api' := ApplySpec(env, name, api, rs, true).0;
            OnlyReads(api', ApplySpec(env.(fault := fault), name, api', rs, true).0)
  {
    Convergence(env, name, api, rs);
    var api' := ApplySpec(env, name, api, rs, true).0;
    var env' := env.(fault := fault);
    SameEnv(env, env', name, api'.objects, rs);
    NothingToDo(env', name, api', rs);
  }

  /** Failures play no role for what is in sync. */
  lemma SameEnv(env: Env, env': Env, name: string, objects: map<Id, Json>, rs: seq<Resource>)
    requires env' == env.(fault := env'.fault)
    ensures forall r :: Target(env', r) == Target(env, r) && Wanted(env', r) == Wanted(env, r)
    ensures forall r :: ResourceInSync(env', name, objects, r) <==> ResourceInSync(env, name, objects, r)
    ensures forall r :: Settled(env', name, objects, r) <==> Settled(env, name, objects, r)
    ensures forall id :: Leftover(env', name, objects, rs, id) <==> Leftover(env, name, objects, rs, id)
    ensures forall id :: Shares(env', rs, id) <==> Shares(env, rs, id)
  {
  }

  /**
   That condition is exact: if one object does not yield, then the second apply writes again, provided that no
   call fails.
   */
  lemma NotIdempotent(env: Env, name: string, api: Api, rs: seq<Resource>, fault: nat -> Fault)
    requires Convergent(env, name, api, rs) && NoDuplicates(rs) && !AllYield(env, name, api.objects, rs)
    requires ApplySpec(env, name, api, rs, true).1 && forall n :: fault(n).Fine?
    ensures var api' := ApplySpec(env, name, api, rs, true).0;
            Writes(api', ApplySpec(env.(fault := fault), name, api', rs, true).0)
  {
    Convergence(env, name, api, rs);
    var api' := ApplySpec(env, name, api, rs, true).0;
    var env' := env.(fault := fault);
    SameEnv(env, env', name, api'.objects, rs);
    var r :| r in rs && !ResourceYields(env, name, api.objects, r);
    assert Converged(env, name, false, api'.objects, r, true);
    ApplyWrites(env', name, api', rs, r);
  }

  lemma ApplyWrites(env: Env, name: string, api: Api, rs: seq<Resource>, r: Resource)
    requires LawfulEnv(env) && (forall n :: env.fault(n).Fine?)
    requires Distinct(env, rs) && AllAdmitted(env, api.objects, rs) && r in rs
    requires Settled(env, name, api.objects, r) && !ResourceInSync(env, name, api.objects, r)
    ensures Writes(api, ApplySpec(env, name, api, rs, true).0)
  {
    var sorted := ApplyOrder(rs);
    ApplyOrderSound(rs);
    ApplyAllWrites(env, name, api, sorted, r);
    var p := ApplyAll(env, name, api, sorted);
    PruneExtends(env, name, p.keep, p.api);
    WritesOn(api, p.api, ApplySpec(env, name, api, rs, true).0);
  }

  // ------------------------------------------------------------------------------------------
  // Retries with annotated copies

  /** The hash tells the document from its annotated copy. */
  predicate Told(c: Codec, name: string, doc: Json) {
    c.hash(c.encode(Prepare(c, name, doc))) != c.hash(c.encode(doc))
  }

  /** It does so unless it collides: an annotated copy is another document. */
  lemma AnnotatedIsOther(c: Codec, name: string, doc: Json)
    requires Lawful(c) && HasMetadata(doc) && Untagged(doc)
    ensures c.encode(Prepare(c, name, doc)) != c.encode(doc)
    ensures (forall a, b :: c.hash(a) == c.hash(b) ==> a == b) ==> Told(c, name, doc)
  {
    PrepareTags(c, name, doc);
    assert c.decode(c.encode(doc)) == Some(doc);
    assert c.decode(c.encode(Prepare(c, name, doc))) == Some(Prepare(c, name, doc));
  }

  /** A resource that already got its label and annotations is not skipped once its object is in sync. */
  lemma AnnotatedCopies(c: Codec, name: string, doc: Json, obj: Json)
    requires HasMetadata(doc) && Tagged(c, name, c.encode(doc), obj)
    ensures Decide(c, name, Found(obj), Prepare(c, name, Prepare(c, name, doc))).Skip? <==> !Told(c, name, doc)
  {
    PrepareTags(c, name, doc);
    PrepareTags(c, name, Prepare(c, name, doc));
  }

  /**
   Applying the annotated copy of a resource whose object is in sync sends a write if and only if the hash tells
   the copy from the original. This is what happens to the resources applied first when ApplyStack retries.
   */
  lemma AnnotatedApply(env: Env, name: string, api: Api, copy: Resource, doc: Json)
    requires Lawful(env.codec) && (forall n :: env.fault(n).Fine?) && HasMetadata(doc)
    requires (copy.id.group, copy.id.kind) in env.scopes && Wanted(env, copy) == Prepare(env.codec, name, doc)
    requires Target(env, copy) in api.objects
    requires Tagged(env.codec, name, env.codec.encode(doc), api.objects[Target(env, copy)])
    ensures var api' := ApplyOne(env, name, api, copy).0;
            if Told(env.codec, name, doc) then Writes(api, api') else OnlyReads(api, api')
  {
    var api1 := FindScope(env, api, copy.id.group, copy.id.kind).0;
    ApplyOneIs(env, name, api, copy);
    ReconcileAnnotated(env, name, api1, Target(env, copy), doc);
    if Told(env.codec, name, doc) {
      WritesOn(api, api1, ApplyOne(env, name, api, copy).0);
    }
  }

  lemma ReconcileAnnotated(env: Env, name: string, api: Api, id: Id, doc: Json)
    requires Lawful(env.codec) && (forall n :: env.fault(n).Fine?) && HasMetadata(doc)
    requires id in api.objects && Tagged(env.codec, name, env.codec.encode(doc), api.objects[id])
    ensures var m := Prepare(env.codec, name, Prepare(env.codec, name, doc));
            var api' := Reconcile(env, name, api, id, m).0;
            if Told(env.codec, name, doc) then Writes(api, api') else OnlyReads(api, api')
  {
    var sent := Prepare(env.codec, name, doc);
    PrepareTags(env.codec, name, doc);
    PrepareTags(env.codec, name, sent);
    if Told(env.codec, name, doc) {
      ReconcileWrites(env, name, api, id, Prepare(env.codec, name, sent));
    } else {
      ReconcileSkips(env, name, api, id, Prepare(env.codec, name, sent));
    }
  }

  /**
   What an annotated copy leaves on the server does not yield to the original, unless the hash cannot tell them
   apart: the patch is empty, so it succeeds and changes nothing.
   */
  lemma RetriedObject(c: Codec, name: string, doc: Json)
    requires Lawful(c) && HasMetadata(doc)
    ensures var sent := Prepare(c, name, doc);
            var obj := Prepare(c, name, sent);
            var d := Decide(c, name, Found(obj), sent);
            && Admitted(obj)
            && (Yields(c, name, obj, doc) <==> !Told(c, name, doc))
            && (Told(c, name, doc) ==>
                  d.DoPatch? && MergePatch(obj, d.patch) == obj && Checksum(obj) != c.hash(c.encode(doc)))
  {
    var sent := Prepare(c, name, doc);
    var obj := Prepare(c, name, sent);
    PrepareTags(c, name, doc);
    PrepareTags(c, name, sent);
    DiffSame(sent);
    assert MergePatch(obj, Obj(map[])).fields == obj.fields;
  }

  /** So no apply of the original ever gets it in sync, although each of them succeeds and sends a patch. */
  lemma StuckForever(env: Env, name: string, api: Api, r: Resource)
    requires Lawful(env.codec) && (forall n :: env.fault(n).Fine?) && HasMetadata(r.doc)
    requires (r.id.group, r.id.kind) in env.scopes && Target(env, r) in api.objects
    requires api.objects[Target(env, r)] == Prepare(env.codec, name, Prepare(env.codec, name, Wanted(env, r)))
    requires Told(env.codec, name, Wanted(env, r))
    ensures var (api', kept) := ApplyOne(env, name, api, r);
            && kept.Some? && api'.objects == api.objects && Writes(api, api')
            && !ResourceInSync(env, name, api'.objects, r)
  {
    var api1 := FindScope(env, api, r.id.group, r.id.kind).0;
    ApplyOneIs(env, name, api, r);
    ReconcileStuck(env, name, api1, Target(env, r), Wanted(env, r));
    WritesOn(api, api1, Reconcile(env, name, api1, Target(env, r), Prepare(env.codec, name, Wanted(env, r))).0);
  }

  lemma ReconcileStuck(env: Env, name: string, api: Api, id: Id, doc: Json)
    requires Lawful(env.codec) && (forall n :: env.fault(n).Fine?) && HasMetadata(doc)
    requires id in api.objects && api.objects[id] == Prepare(env.codec, name, Prepare(env.codec, name, doc))
    requires Told(env.codec, name, doc)
    ensures var (api', ok) := Reconcile(env, name, api, id, Prepare(env.codec, name, doc));
            && ok && api'.objects == api.objects && Writes(api, api')
            && !InSync(env.codec, name, api.objects, id, doc)
  {
    RetriedObject(env.codec, name, doc);
    ReconcileInVain(env, name, api, id, Prepare(env.codec, name, doc));
  }

  /** A patch that changes nothing succeeds, too. */
  lemma ReconcileInVain(env: Env, name: string, api: Api, id: Id, m: Json)
    requires (forall n :: env.fault(n).Fine?) && id in api.objects
    requires var d := Decide(env.codec, name, Found(api.objects[id]), m);
      d.DoPatch? && MergePatch(api.objects[id], d.patch) == api.objects[id]
    ensures var (api', ok) := Reconcile(env, name, api, id, m);
            ok && api'.objects == api.objects && Writes(api, api')
  {
    assert api.objects[id := api.objects[id]] == api.objects;
    var api' := Reconcile(env, name, api, id, m).0;
    assert IsWrite(api'.calls[|api.calls| + 1]);
  }

  /**
   In general, an object that did not yield will do so next time if and only if the patch replaced the recorded
   configuration.
   */
  lemma YieldsNextTime(c: Codec, name: string, obj: Json, doc: Json)
    requires Lawful(c) && HasMetadata(doc) && Untagged(doc) && Admitted(obj) && !Yields(c, name, obj, doc)
    ensures var o, d := c.decode(LastConfig(obj)).value, Decide(c, name, Found(obj), Prepare(c, name, doc));
            && d.DoPatch?
            && (Yields(c, name, MergePatch(obj, d.patch), doc) <==>
                Lookup(o, LAST_CONFIG_PATH) != Some(Str(c.encode(doc))))
  {
    PrepareTags(c, name, doc);
    PatchTags(c, name, obj, c.decode(LastConfig(obj)).value, doc);
  }

  /** The configuration recorded on the object, if any, does not carry the tags. */
  predicate RecordsUntagged(c: Codec, obj: Json) {
    var o := c.decode(LastConfig(obj));
    LastConfig(obj) != "" && o.Some? ==> Untagged(o.value)
  }

  /**
   As long as only untagged documents are applied, this does not happen: whatever fails, an object that records
   no tags keeps doing so, and it yields to every document of every stack.
   */
  lemma UntaggedStaysUntagged(env: Env, name: string, api: Api, id: Id, doc: Json, name': string, doc': Json)
    requires Lawful(env.codec) && HasMetadata(doc) && Untagged(doc) && AdmittedAt(api.objects, id)
    requires id in api.objects ==> RecordsUntagged(env.codec, api.objects[id])
    ensures var api' := Reconcile(env, name, api, id, Prepare(env.codec, name, doc)).0;
            && (id in api'.objects ==> RecordsUntagged(env.codec, api'.objects[id]))
            && YieldsAt(env.codec, name', api'.objects, id, doc')
  {
    var m := Prepare(env.codec, name, doc);
    var (api1, found) := GetObject(env, api, id);
    PrepareTags(env.codec, name, doc);
    PerformEffect(env, api1, id, m, Decide(env.codec, name, found, m));
    if Decide(env.codec, name, found, m).DoPatch? {
      PatchTags(env.codec, name, found.doc, env.codec.decode(LastConfig(found.doc)).value, doc);
    }
  }
}
