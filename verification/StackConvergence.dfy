/** Convergence: what an apply leaves on the server, and what its patches do to the tags of an object. */
module StackConvergence {

  import opened Basics
  import opened Json
  import opened StackModel
  import opened StackProofs

  // ------------------------------------------------------------------------------------------
  // Documents

  const LABEL_PATH := ["metadata", "labels", NAME_LABEL]
  const CHECKSUM_PATH := ["metadata", "annotations", CHECKSUM_ANNOTATION]
  const LAST_CONFIG_PATH := ["metadata", "annotations", LAST_CONFIG_ANNOTATION]

  /** The document does not carry the label and annotations of the applier. */
  predicate Untagged(doc: Json) {
    && Lookup(doc, LABEL_PATH).None?
    && Lookup(doc, CHECKSUM_PATH).None?
    && Lookup(doc, LAST_CONFIG_PATH).None?
  }

  /** If there is an object at `path`, it maps to strings only. */
  predicate StringsAt(j: Json, path: seq<string>) {
    Lookup(j, path).Some? && Lookup(j, path).value.Obj? ==> StringMap(Lookup(j, path).value)
  }

  /** The server admits no labels or annotations other than strings. */
  predicate Admitted(doc: Json) {
    doc.Obj? && StringsAt(doc, ["metadata", "labels"]) && StringsAt(doc, ["metadata", "annotations"])
  }

  lemma LookupThree(j: Json, a: string, b: string, c: string)
    ensures Lookup(j, [a, b, c]) ==
      (if Lookup(j, [a, b]).None? then None else Lookup(Lookup(j, [a, b]).value, [c]))
  {
    assert [a, b, c][1..] == [b, c] && [b, c][1..] == [c] && [a, b][1..] == [b] && [b][1..] == [];
    if a in Fields(j) {
      assert Lookup(j, [a, b, c]) == Lookup(j.fields[a], [b, c]);
      assert Lookup(j, [a, b]) == Lookup(j.fields[a], [b]);
      if b in Fields(j.fields[a]) {
        assert Lookup(j.fields[a], [b]) == Lookup(j.fields[a].fields[b], []) == Some(j.fields[a].fields[b]);
      }
    }
  }

  /** The text at a path; anything but a string counts as none. */
  function Text(v: Option<Json>): string { if v.Some? && v.value.Str? then v.value.s else "" }

  lemma AtIsLookup(doc: Json, field: string, key: string)
    requires StringsAt(doc, ["metadata", field])
    ensures At(GetMap(doc, field), key) == Text(Lookup(doc, ["metadata", field, key]))
  {
    LookupThree(doc, "metadata", field, key);
    assert [key][1..] == [];
  }

  function Strings(m: map<string, string>): Json { Obj(map k | k in m :: Str(m[k])) }

  predicate HasMetadata(doc: Json) { doc.Obj? && "metadata" in doc.fields && doc.fields["metadata"].Obj? }

  lemma LookupTwo(doc: Json, field: string)
    requires HasMetadata(doc)
    ensures Lookup(doc, ["metadata", field]) ==
      (if field in doc.fields["metadata"].fields then Some(doc.fields["metadata"].fields[field]) else None)
  {
    assert ["metadata", field][1..] == [field] && [field][1..] == [];
    var meta := doc.fields["metadata"];
    assert Lookup(doc, ["metadata", field]) == Lookup(meta, [field]);
    if field in meta.fields {
      assert Lookup(meta, [field]) == Lookup(meta.fields[field], []);
    }
  }

  lemma SetMapLookup(doc: Json, field: string, m: map<string, string>, other: string)
    requires HasMetadata(doc)
    ensures HasMetadata(SetMap(doc, field, m))
    ensures Lookup(SetMap(doc, field, m), ["metadata", field]) == Some(Strings(m))
    ensures other != field ==> Lookup(SetMap(doc, field, m), ["metadata", other]) == Lookup(doc, ["metadata", other])
  {
    LookupTwo(doc, other);
    LookupTwo(SetMap(doc, field, m), field);
    LookupTwo(SetMap(doc, field, m), other);
  }

  lemma StringsLookup(doc: Json, field: string, m: map<string, string>, key: string)
    requires Lookup(doc, ["metadata", field]) == Some(Strings(m)) && key in m
    ensures Lookup(doc, ["metadata", field, key]) == Some(Str(m[key]))
    ensures At(GetMap(doc, field), key) == m[key]
  {
    LookupThree(doc, "metadata", field, key);
    assert [key][1..] == [];
    assert Lookup(Strings(m), [key]) == Some(Str(m[key]));
  }

  /** The document carries the label and annotations of a stack that was applied with the text `text`. */
  predicate Tagged(c: Codec, name: string, text: string, doc: Json) {
    StackName(doc) == name && Checksum(doc) == c.hash(text) && LastConfig(doc) == text
  }

  predicate TaggedPaths(c: Codec, name: string, text: string, doc: Json) {
    && Lookup(doc, LABEL_PATH) == Some(Str(name))
    && Lookup(doc, CHECKSUM_PATH) == Some(Str(c.hash(text)))
    && Lookup(doc, LAST_CONFIG_PATH) == Some(Str(text))
  }

  lemma PrepareTags(c: Codec, name: string, doc: Json)
    requires HasMetadata(doc)
    ensures var d := Prepare(c, name, doc);
            && HasMetadata(d) && Admitted(d)
            && Lookup(d, ["metadata", "labels"]).Some? && Lookup(d, ["metadata", "annotations"]).Some?
            && Lookup(d, ["metadata", "labels"]).value.Obj? && Lookup(d, ["metadata", "annotations"]).value.Obj?
            && TaggedPaths(c, name, c.encode(doc), d)
            && Tagged(c, name, c.encode(doc), d)
  {
    var text := c.encode(doc);
    var labels := GetMap(doc, "labels")[NAME_LABEL := name];
    SetMapLookup(doc, "labels", labels, "annotations");
    var labelled := SetMap(doc, "labels", labels);
    var annotations :=
      GetMap(labelled, "annotations")[CHECKSUM_ANNOTATION := c.hash(text)][LAST_CONFIG_ANNOTATION := text];
    SetMapLookup(labelled, "annotations", annotations, "labels");
    var d := SetMap(labelled, "annotations", annotations);
    StringsLookup(d, "labels", labels, NAME_LABEL);
    StringsLookup(d, "annotations", annotations, CHECKSUM_ANNOTATION);
    StringsLookup(d, "annotations", annotations, LAST_CONFIG_ANNOTATION);
  }

  lemma PreparedChecksum(c: Codec, name: string, doc: Json)
    requires HasMetadata(doc)
    ensures Checksum(Prepare(c, name, doc)) == c.hash(c.encode(doc)) && Prepare(c, name, doc).Obj?
  {
    PrepareTags(c, name, doc);
  }

  lemma {:induction false} MergeKeepsStrings(t: Json, x: Json, path: seq<string>)
    requires Lookup(x, path).Some? && StringMap(Lookup(x, path).value) && StringsAt(t, path)
    ensures StringsAt(MergePatch(t, x), path)
    decreases path
  {
    if path != [] {
      var k := path[0];
      var t' := if k in Fields(t) then Fields(t)[k] else Null;
      if path[1..] == [] || k !in Fields(t) {
        assert StringsAt(t', path[1..]);
      }
      MergeKeepsStrings(t', x.fields[k], path[1..]);
    }
  }

  /** A patch between documents with proper labels leaves an object with proper labels. */
  lemma {:induction false} PatchKeepsStrings(t: Json, o: Json, m: Json, path: seq<string>)
    requires o.Obj? && m.Obj?
    requires Lookup(m, path).Some? && StringMap(Lookup(m, path).value) && StringsAt(t, path)
    ensures StringsAt(MergePatch(t, Diff(o, m)), path)
    decreases path
  {
    var d := Diff(o, m);
    if path == [] {
      assert forall k :: k in d.fields ==> d.fields[k].Null? || d.fields[k].Str?;
    } else {
      var k := path[0];
      var t' := if k in Fields(t) then Fields(t)[k] else Null;
      assert StringsAt(t', path[1..]);
      if k in d.fields {
        if k in o.fields && o.fields[k].Obj? && m.fields[k].Obj? {
          PatchKeepsStrings(t', o.fields[k], m.fields[k], path[1..]);
        } else {
          MergeKeepsStrings(t', m.fields[k], path[1..]);
        }
      }
    }
  }

  /** A patched object has the label or annotation, unless the recorded configuration had it already. */
  lemma PatchedText(t: Json, o: Json, m: Json, field: string, key: string, v: string)
    requires o.Obj? && m.Obj? && StringsAt(t, ["metadata", field])
    requires Lookup(m, ["metadata", field]).Some? && StringMap(Lookup(m, ["metadata", field]).value)
    requires Lookup(m, ["metadata", field, key]) == Some(Str(v))
    ensures var r, path := MergePatch(t, Diff(o, m)), ["metadata", field, key];
            && StringsAt(r, ["metadata", field])
            && At(GetMap(r, field), key) == if Lookup(o, path) == Some(Str(v)) then At(GetMap(t, field), key) else v
  {
    var r, path := MergePatch(t, Diff(o, m)), ["metadata", field, key];
    PatchKeepsStrings(t, o, m, ["metadata", field]);
    AtIsLookup(t, field, key);
    AtIsLookup(r, field, key);
    if Lookup(o, path) == Some(Str(v)) {
      PatchIgnoresEqual(t, o, m, path);
    } else {
      PatchDelivers(t, o, m, path);
    }
  }

  /** A patched object gets exactly those tags that the recorded configuration did not have. */
  lemma PatchTags(c: Codec, name: string, t: Json, o: Json, doc: Json)
    requires Admitted(t) && o.Obj? && HasMetadata(doc)
    ensures var text, r := c.encode(doc), MergePatch(t, Diff(o, Prepare(c, name, doc)));
            && Admitted(r)
            && StackName(r) == (if Lookup(o, LABEL_PATH) == Some(Str(name)) then StackName(t) else name)
            && Checksum(r) ==
               (if Lookup(o, CHECKSUM_PATH) == Some(Str(c.hash(text))) then Checksum(t) else c.hash(text))
            && LastConfig(r) == (if Lookup(o, LAST_CONFIG_PATH) == Some(Str(text)) then LastConfig(t) else text)
  {
    var text, m := c.encode(doc), Prepare(c, name, doc);
    PrepareTags(c, name, doc);
    PatchedText(t, o, m, "labels", NAME_LABEL, name);
    PatchedText(t, o, m, "annotations", CHECKSUM_ANNOTATION, c.hash(text));
    PatchedText(t, o, m, "annotations", LAST_CONFIG_ANNOTATION, text);
  }

  // ------------------------------------------------------------------------------------------
  // Convergence

  predicate InSync(c: Codec, name: string, objects: map<Id, Json>, id: Id, doc: Json) {
    id in objects && StackName(objects[id]) == name && Checksum(objects[id]) == c.hash(c.encode(doc))
  }

  /**
   An apply that succeeds brings the object in sync: a tag that its recorded configuration has already
   is not part of the patch, so it must be on the object itself.
   */
  predicate Yields(c: Codec, name: string, obj: Json, doc: Json) {
    var h, o := c.hash(c.encode(doc)), c.decode(LastConfig(obj));
    LastConfig(obj) != "" && o.Some? && o.value.Obj? ==>
      && (Lookup(o.value, LABEL_PATH) == Some(Str(name)) ==> StackName(obj) == name)
      && (Lookup(o.value, CHECKSUM_PATH) == Some(Str(h)) ==> Checksum(obj) == h)
  }

  predicate YieldsAt(c: Codec, name: string, objects: map<Id, Json>, id: Id, doc: Json) {
    id in objects ==> Yields(c, name, objects[id], doc)
  }

  predicate AdmittedAt(objects: map<Id, Json>, id: Id) { id in objects ==> Admitted(objects[id]) }

  /** The configuration on the object can be patched. */
  predicate Recorded(c: Codec, obj: Json) {
    var o := c.decode(LastConfig(obj));
    LastConfig(obj) == "" || (o.Some? && o.value.Obj?)
  }

  ghost predicate SameBut(a: map<Id, Json>, b: map<Id, Json>, id: Id) {
    forall i :: i != id ==> (i in a <==> i in b) && (i in a ==> a[i] == b[i])
  }

  /** The document an object gets when a decision is carried out. */
  function NewDoc(doc: Json, was: Json, d: Decision): Json {
    if d.DoPatch? then MergePatch(was, d.patch) else doc
  }

  /** A decision changes at most the object it is about, and it does so if it succeeds. */
  lemma PerformEffect(env: Env, api: Api, id: Id, doc: Json, d: Decision)
    ensures var (api', ok) := Perform(env, api, id, doc, d);
            var was := if id in api.objects then api.objects[id] else Null;
            var written := api.objects[id := NewDoc(doc, was, d)];
            && (api'.objects == api.objects || (api'.objects == written && !d.Skip? && !d.GiveUp?))
            && (ok && !d.Skip? ==> api'.objects == written)
            && (d.DoPatch? && id !in api.objects ==> !ok && api'.objects == api.objects)
            && (d.GiveUp? ==> !ok)
  {
  }

  /** What is written is in sync, but for a patch of an object that does not yield. */
  lemma WrittenDoc(c: Codec, name: string, found: Found, doc: Json)
    requires Lawful(c) && HasMetadata(doc) && (found.Found? ==> Admitted(found.doc))
    ensures var m := Prepare(c, name, doc);
            var d := Decide(c, name, found, m);
            var x := NewDoc(m, if found.Found? then found.doc else Null, d);
            && (d.Skip? ==>
                  found.Found? && StackName(found.doc) == name && Checksum(found.doc) == c.hash(c.encode(doc)))
            && (d.DoPatch? ==> found.Found?)
            && (!d.Skip? && !d.GiveUp? ==>
                  && Admitted(x) && Recorded(c, x)
                  && (StackName(x) == name && Checksum(x) == c.hash(c.encode(doc)) <==>
                      found.Found? ==> Yields(c, name, found.doc, doc)))
  {
    PrepareTags(c, name, doc);
    if Decide(c, name, found, Prepare(c, name, doc)).DoPatch? {
      PatchTags(c, name, found.doc, c.decode(LastConfig(found.doc)).value, doc);
    }
  }

  /** A resource that was reconciled successfully is in sync if and only if the object that was there yields. */
  lemma ReconcileConverges(env: Env, name: string, api: Api, id: Id, doc: Json)
    requires Lawful(env.codec) && HasMetadata(doc) && AdmittedAt(api.objects, id)
    ensures var (api', ok) := Reconcile(env, name, api, id, Prepare(env.codec, name, doc));
            && AdmittedAt(api'.objects, id) && SameBut(api.objects, api'.objects, id)
            && (ok ==>
                  && (InSync(env.codec, name, api'.objects, id, doc) <==>
                      YieldsAt(env.codec, name, api.objects, id, doc))
                  && id in api'.objects
                  && (InSync(env.codec, name, api'.objects, id, doc) || Recorded(env.codec, api'.objects[id])))
  {
    var m := Prepare(env.codec, name, doc);
    var (api1, found) := GetObject(env, api, id);
    WrittenDoc(env.codec, name, found, doc);
    PerformEffect(env, api1, id, m, Decide(env.codec, name, found, m));
  }

  /** The document of a stack resource as it is hashed and sent. */
  function Wanted(env: Env, r: Resource): Json {
    if (r.id.group, r.id.kind) in env.scopes then Scoped(r, env.scopes[(r.id.group, r.id.kind)]).doc else r.doc
  }

  ghost predicate ResourceInSync(env: Env, name: string, objects: map<Id, Json>, r: Resource) {
    InSync(env.codec, name, objects, Target(env, r), Wanted(env, r))
  }

  ghost predicate ResourceYields(env: Env, name: string, objects: map<Id, Json>, r: Resource) {
    YieldsAt(env.codec, name, objects, Target(env, r), Wanted(env, r))
  }

  /** Resources have metadata, and there is one resource per identity. */
  ghost predicate Distinct(env: Env, rs: seq<Resource>) {
    && (forall r :: r in rs ==> HasMetadata(r.doc))
    && forall r, r' :: r in rs && r' in rs && Target(env, r) == Target(env, r') ==> r == r'
  }

  /** No resource is listed twice. */
  predicate NoDuplicates(rs: seq<Resource>) { forall i, j :: 0 <= i < j < |rs| ==> rs[i] != rs[j] }

  ghost predicate AllAdmitted(env: Env, objects: map<Id, Json>, rs: seq<Resource>) {
    forall r :: r in rs ==> AdmittedAt(objects, Target(env, r))
  }

  lemma ApplyOneConverges(env: Env, name: string, api: Api, r: Resource)
    requires Lawful(env.codec) && HasMetadata(r.doc) && AdmittedAt(api.objects, Target(env, r))
    ensures var (api', kept) := ApplyOne(env, name, api, r);
            && AdmittedAt(api'.objects, Target(env, r)) && SameBut(api.objects, api'.objects, Target(env, r))
            && (kept.Some? ==>
                  && (ResourceInSync(env, name, api'.objects, r) <==> ResourceYields(env, name, api.objects, r))
                  && Settled(env, name, api'.objects, r))
  {
    var (api1, scope) := FindScope(env, api, r.id.group, r.id.kind);
    if scope.Some? {
      ReconcileConverges(env, name, api1, Target(env, r), Wanted(env, r));
    }
  }

  /** What is left of a resource that has been applied: it is in sync, or it will be patched again. */
  ghost predicate Settled(env: Env, name: string, objects: map<Id, Json>, r: Resource) {
    && (r.id.group, r.id.kind) in env.scopes
    && Target(env, r) in objects
    && (ResourceInSync(env, name, objects, r) || Recorded(env.codec, objects[Target(env, r)]))
  }

  predicate SameAt(a: map<Id, Json>, b: map<Id, Json>, id: Id) {
    (id in a <==> id in b) && (id in a ==> a[id] == b[id])
  }

  ghost predicate IsTarget(env: Env, rs: seq<Resource>, id: Id) { exists r :: r in rs && Target(env, r) == id }

  /** Applying touches no objects but those of the stack, and leaves proper labels and annotations behind. */
  lemma {:induction false} ApplyAllTouches(env: Env, name: string, api: Api, rs: seq<Resource>, id: Id)
    requires Lawful(env.codec) && Distinct(env, rs) && AllAdmitted(env, api.objects, rs)
    ensures var objects := ApplyAll(env, name, api, rs).api.objects;
            && (AdmittedAt(api.objects, id) ==> AdmittedAt(objects, id))
            && (!IsTarget(env, rs, id) ==> SameAt(api.objects, objects, id))
  {
    if rs != [] {
      var last := |rs| - 1;
      var before := ApplyAll(env, name, api, rs[..last]).api;
      assert rs == rs[..last] + [rs[last]];
      ApplyAllTouches(env, name, api, rs[..last], id);
      ApplyAllTouches(env, name, api, rs[..last], Target(env, rs[last]));
      ApplyOneConverges(env, name, before, rs[last]);
      TargetsGrow(env, rs, id);
    }
  }

  lemma TargetsGrow(env: Env, rs: seq<Resource>, id: Id)
    requires rs != []
    ensures IsTarget(env, rs, id) <==> IsTarget(env, rs[..|rs| - 1], id) || Target(env, rs[|rs| - 1]) == id
  {
    assert rs == rs[..|rs| - 1] + [rs[|rs| - 1]];
  }

  /** When its turn comes, the object of the last resource is admitted, and untouched if it is its first turn. */
  lemma LastAdmitted(env: Env, name: string, api: Api, rs: seq<Resource>)
    requires Lawful(env.codec) && Distinct(env, rs) && AllAdmitted(env, api.objects, rs) && rs != []
    ensures var last := |rs| - 1;
            var before := ApplyAll(env, name, api, rs[..last]).api.objects;
            && AdmittedAt(before, Target(env, rs[last]))
            && (rs[last] !in rs[..last] ==> SameAt(api.objects, before, Target(env, rs[last])))
  {
    var last := |rs| - 1;
    assert rs == rs[..last] + [rs[last]];
    ApplyAllTouches(env, name, api, rs[..last], Target(env, rs[last]));
  }

  /** What became of a resource: it is in sync if its object yields, and only then if so stated. */
  ghost predicate Converged(
      env: Env, name: string, due: bool, objects: map<Id, Json>, r: Resource, exactly: bool)
  {
    && Settled(env, name, objects, r)
    && (due ==> ResourceInSync(env, name, objects, r))
    && (exactly && ResourceInSync(env, name, objects, r) ==> due)
  }

  /** Once all resources were applied, those whose objects yield are in sync, and no others. */
  lemma {:induction false} ApplyAllConverges(env: Env, name: string, api: Api, rs: seq<Resource>, r: Resource)
    requires Lawful(env.codec) && Distinct(env, rs) && AllAdmitted(env, api.objects, rs) && r in rs
    requires ApplyAll(env, name, api, rs).errs == 0
    ensures Converged(env, name, ResourceYields(env, name, api.objects, r), ApplyAll(env, name, api, rs).api.objects, r,
                      NoDuplicates(rs))
  {
    var last := |rs| - 1;
    var before, due := ApplyAll(env, name, api, rs[..last]).api, ResourceYields(env, name, api.objects, r);
    assert rs == rs[..last] + [rs[last]];
    LastStep(env, name, api, rs);
    LastAdmitted(env, name, api, rs);
    PrefixDistinct(rs);
    if r in rs[..last] {
      ApplyAllConverges(env, name, api, rs[..last], r);
    } else {
      SameYields(env, name, api.objects, before.objects, r);
    }
    StepConverges(env, name, due, before, rs[last], r, r in rs[..last], NoDuplicates(rs[..last]), NoDuplicates(rs));
  }

  /** One more resource: `again` tells if r has been applied before, and the rest what is known about it. */
  lemma StepConverges(env: Env, name: string, due: bool, before: Api, last: Resource, r: Resource,
                      again: bool, exactly: bool, exactly': bool)
    requires Lawful(env.codec) && HasMetadata(last.doc) && AdmittedAt(before.objects, Target(env, last))
    requires ApplyOne(env, name, before, last).1.Some? && (Target(env, r) == Target(env, last) ==> r == last)
    requires if again then Converged(env, name, due, before.objects, r, exactly)
             else r == last && due == ResourceYields(env, name, before.objects, r)
    requires exactly' ==> exactly && !(again && r == last)
    ensures Converged(env, name, due, ApplyOne(env, name, before, last).0.objects, r, exactly')
  {
    if r == last {
      TurnConverges(env, name, due, before, r, !again);
    } else {
      CarriesOver(env, name, due, before, r, last, exactly);
    }
  }

  lemma PrefixDistinct(rs: seq<Resource>)
    requires rs != []
    ensures NoDuplicates(rs) <==> NoDuplicates(rs[..|rs| - 1]) && rs[|rs| - 1] !in rs[..|rs| - 1]
  {
    var last := |rs| - 1;
    if rs[last] in rs[..last] {
      var i :| 0 <= i < last && rs[i] == rs[last];
    }
  }

  lemma LastStep(env: Env, name: string, api: Api, rs: seq<Resource>)
    requires rs != [] && ApplyAll(env, name, api, rs).errs == 0
    ensures var before, r := ApplyAll(env, name, api, rs[..|rs| - 1]), rs[|rs| - 1];
            && before.errs == 0 && ApplyOne(env, name, before.api, r).1.Some?
            && ApplyAll(env, name, api, rs).api == ApplyOne(env, name, before.api, r).0
  {
  }

  /** Applying a resource is of no concern to the others. */
  lemma CarriesOver(env: Env, name: string, due: bool, before: Api, r: Resource, other: Resource, exactly: bool)
    requires Lawful(env.codec) && HasMetadata(other.doc) && AdmittedAt(before.objects, Target(env, other))
    requires Target(env, r) != Target(env, other) && Converged(env, name, due, before.objects, r, exactly)
    ensures Converged(env, name, due, ApplyOne(env, name, before, other).0.objects, r, exactly)
  {
    ApplyOneConverges(env, name, before, other);
  }

  /** The turn of a resource: the first one finds what was there at the start, and later ones keep it in sync. */
  lemma TurnConverges(env: Env, name: string, due: bool, before: Api, r: Resource, first: bool)
    requires Lawful(env.codec) && HasMetadata(r.doc) && AdmittedAt(before.objects, Target(env, r))
    requires ApplyOne(env, name, before, r).1.Some?
    requires if first then due == ResourceYields(env, name, before.objects, r)
             else Converged(env, name, due, before.objects, r, false)
    ensures Converged(env, name, due, ApplyOne(env, name, before, r).0.objects, r, first)
  {
    ApplyOneConverges(env, name, before, r);
    InSyncYields(env, name, before.objects, r);
  }

  lemma InSyncYields(env: Env, name: string, objects: map<Id, Json>, r: Resource)
    ensures ResourceInSync(env, name, objects, r) ==> ResourceYields(env, name, objects, r)
  {
  }

  lemma SameYields(env: Env, name: string, a: map<Id, Json>, b: map<Id, Json>, r: Resource)
    requires SameAt(a, b, Target(env, r))
    ensures ResourceYields(env, name, a, r) <==> ResourceYields(env, name, b, r)
  {
  }

  /** Every kept identifier is that of a resource in the stack. */
  lemma {:induction false} ApplyAllKeeps(env: Env, name: string, api: Api, rs: seq<Resource>)
    ensures forall s :: s in ApplyAll(env, name, api, rs).keep ==> exists r :: r in rs && s == IdString(Target(env, r))
  {
    if rs != [] {
      var last := |rs| - 1;
      assert rs == rs[..last] + [rs[last]];
      ApplyAllKeeps(env, name, api, rs[..last]);
      var before, p := ApplyAll(env, name, api, rs[..last]), ApplyAll(env, name, api, rs);
      ApplyOneSafe(env, name, before.api, rs[last]);
      forall s | s in p.keep ensures exists r :: r in rs && s == IdString(Target(env, r)) {
        if s in before.keep {
          var r :| r in rs[..last] && s == IdString(Target(env, r));
          assert r in rs;
        } else {
          assert rs[last] in rs;
        }
      }
    }
  }

  /** No discovery or list call fails while searching, and all searched kinds are known. */
  predicate SearchSucceeds(env: Env, name: string, keep: seq<string>, api: Api, kinds: seq<ApiKind>) {
    && (forall k :: k in kinds ==> (k.group, k.kind) in env.scopes)
    && var n := |FindPrunable(env, name, keep, api, kinds).0.calls|;
       forall i :: |api.calls| <= i < n ==> env.fault(i).Fine?
  }

  lemma {:induction false} FindPrunableComplete(
      env: Env, name: string, keep: seq<string>, api: Api, kinds: seq<ApiKind>)
    requires forall s, id :: id in env.order(s) <==> id in s
    requires SearchSucceeds(env, name, keep, api, kinds)
    ensures forall id, k :: k in kinds && OfKind(id, k) && ShouldPrune(name, keep, api, id) ==>
              id in FindPrunable(env, name, keep, api, kinds).1
  {
    if kinds != [] {
      var last := |kinds| - 1;
      var k := kinds[last];
      assert kinds == kinds[..last] + [k];
      FindPrunableSound(env, name, keep, api, kinds[..last]);
      var (api1, before) := FindPrunable(env, name, keep, api, kinds[..last]);
      FindPrunableComplete(env, name, keep, api, kinds[..last]);
      var (api2, scope) := FindScope(env, api1, k.group, k.kind);
      var (api3, listed) := ListObjects(env, api2, k.group, k.kind, name);
      PickPrunableSound(name, keep, api3, listed);
    }
  }

  predicate ProperKind(k: ApiKind) {
    && '/' !in k.group && ':' !in k.group
    && '/' !in k.version && ':' !in k.version
    && ':' !in k.kind
  }

  lemma SlashOfGroup(k: ApiKind)
    requires ProperKind(k)
    ensures k.group != "" <==> '/' in GroupVersion(k)
  {
  }

  /** Kinds with the same key have the same group and kind. */
  lemma KeyInjective(a: ApiKind, b: ApiKind)
    requires ProperKind(a) && ProperKind(b) && Key(a) == Key(b)
    ensures a.group == b.group && a.kind == b.kind
  {
    assert Key(a) == GroupVersion(a) + [':'] + a.kind && Key(b) == GroupVersion(b) + [':'] + b.kind;
    SplitAtLast(GroupVersion(a), a.kind, GroupVersion(b), b.kind, ':');
    SlashOfGroup(a);
    SlashOfGroup(b);
    if a.group != "" && b.group != "" {
      assert GroupVersion(a) == a.group + ['/'] + a.version && GroupVersion(b) == b.group + ['/'] + b.version;
      SplitAtFirst(a.group, a.version, b.group, b.version, '/');
    }
  }

  /** The object has the stack's label, no owners, and a prunable kind. */
  ghost predicate Claimed(env: Env, name: string, objects: map<Id, Json>, id: Id) {
    && id in objects
    && StackName(objects[id]) == name
    && Owners(objects[id]) == 0
    && env.discovery.Some?
    && exists k :: k in env.discovery.value && OfKind(id, k) && Prunable(k)
  }

  /** The objects that carry the stack's label but do not belong to the stack. */
  ghost predicate Leftover(env: Env, name: string, objects: map<Id, Json>, rs: seq<Resource>, id: Id) {
    Claimed(env, name, objects, id) && forall r :: r in rs ==> id != Target(env, r)
  }

  /** Discovery reported everything, and the search for leftovers ran into no failure. */
  predicate CompleteSearch(env: Env, name: string, p: Progress) {
    && env.discovery.Some?
    && (forall k :: k in env.discovery.value ==> ProperKind(k))
    && SearchSucceeds(env, name, p.keep, p.api, KindsToPrune(env.discovery.value))
  }

  lemma FirstOfKey(kinds: seq<ApiKind>, wanted: ApiKind -> bool, key: ApiKind -> string, k: ApiKind)
    returns (k': ApiKind)
    requires k in kinds && wanted(k)
    ensures k' in FirstPerKey(kinds, wanted, key) && k' in kinds && key(k') == key(k)
  {
    FirstPerKeySound(kinds, wanted, key);
    k' :| k' in FirstPerKey(kinds, wanted, key) && key(k') == key(k);
  }

  lemma SearchedKind(kinds: seq<ApiKind>, id: Id, k: ApiKind) returns (k': ApiKind)
    requires forall k :: k in kinds ==> ProperKind(k)
    requires k in kinds && OfKind(id, k) && Prunable(k)
    ensures k' in KindsToPrune(kinds) && OfKind(id, k')
  {
    k' := FirstOfKey(kinds, Prunable, Key, k);
    KeyInjective(k, k');
  }

  lemma ClaimedIsFound(env: Env, name: string, p: Progress, id: Id)
    requires LawfulEnv(env) && CompleteSearch(env, name, p) && Claimed(env, name, p.api.objects, id)
    requires IdString(id) !in p.keep
    ensures id in FindPrunable(env, name, p.keep, p.api, KindsToPrune(env.discovery.value)).1
  {
    var k :| k in env.discovery.value && OfKind(id, k) && Prunable(k);
    var k' := SearchedKind(env.discovery.value, id, k);
    FindPrunableComplete(env, name, p.keep, p.api, KindsToPrune(env.discovery.value));
  }

  /** What is there after a prune was there before, and everything with a kept identifier still is. */
  lemma PruneKeeps(env: Env, name: string, p: Progress)
    requires LawfulEnv(env)
    ensures var objects := PruneSpec(env, name, p.keep, p.api).0.objects;
            && (forall id :: id in objects ==> id in p.api.objects && objects[id] == p.api.objects[id])
            && (forall id :: id in p.api.objects && IdString(id) in p.keep ==> id in objects)
  {
    if env.discovery.Some? {
      var kinds := KindsToPrune(env.discovery.value);
      FindPrunableSound(env, name, p.keep, p.api, kinds);
      var (api1, ids) := FindPrunable(env, name, p.keep, p.api, kinds);
      SelectSound(ids, true);
      SelectSound(ids, false);
      DeleteAllSound(env, api1, Select(ids, true) + Select(ids, false));
    }
  }

  /**
   After a successful prune with a complete search, an object with the label, no owners, and a prunable kind
   is still there if and only if its identifier was kept.
   */
  lemma PruneSurvivors(env: Env, name: string, p: Progress, id: Id)
    requires LawfulEnv(env) && CompleteSearch(env, name, p) && Claimed(env, name, p.api.objects, id)
    requires PruneSpec(env, name, p.keep, p.api).1
    ensures id in PruneSpec(env, name, p.keep, p.api).0.objects <==> IdString(id) in p.keep
  {
    PruneKeeps(env, name, p);
    if IdString(id) !in p.keep {
      ClaimedIsFound(env, name, p, id);
      var kinds := KindsToPrune(env.discovery.value);
      var (api1, ids) := FindPrunable(env, name, p.keep, p.api, kinds);
      SelectSound(ids, true);
      SelectSound(ids, false);
      DeleteAllSound(env, api1, Select(ids, true) + Select(ids, false));
    }
  }

  /** Leftovers survive a successful prune exactly if they share the identifier of a resource in the stack. */
  lemma PruneConverges(env: Env, name: string, p: Progress, rs: seq<Resource>, id: Id)
    requires LawfulEnv(env) && CompleteSearch(env, name, p) && PruneSpec(env, name, p.keep, p.api).1
    requires forall s :: s in p.keep <==> exists r :: r in rs && s == IdString(Target(env, r))
    ensures Leftover(env, name, PruneSpec(env, name, p.keep, p.api).0.objects, rs, id) <==>
            Leftover(env, name, p.api.objects, rs, id) && Shares(env, rs, id)
  {
    PruneKeeps(env, name, p);
    if Claimed(env, name, p.api.objects, id) {
      PruneSurvivors(env, name, p, id);
    }
  }

  ghost predicate Shares(env: Env, rs: seq<Resource>, id: Id) {
    exists r :: r in rs && IdString(id) == IdString(Target(env, r))
  }

  /**
   The conditions under which an apply converges: one resource per identity, a server that admits only proper
   labels and annotations, and a search for leftovers without failures.
   */
  ghost predicate Convergent(env: Env, name: string, api: Api, rs: seq<Resource>) {
    && LawfulEnv(env)
    && Distinct(env, rs)
    && AllAdmitted(env, api.objects, rs)
    && CompleteSearch(env, name, ApplyAll(env, name, api, ApplyOrder(rs)))
  }

  lemma {:induction false} SortedDistinct(rs: seq<Resource>, namespaced: bool)
    requires NoDuplicates(rs)
    ensures NoDuplicates(Sorted(rs, namespaced))
  {
    if rs != [] {
      SortedDistinct(rs[..|rs| - 1], namespaced);
      SortedSound(rs[..|rs| - 1], namespaced);
      assert rs[|rs| - 1] !in rs[..|rs| - 1];
    }
  }

  lemma ApplyOrderDistinct(rs: seq<Resource>)
    requires NoDuplicates(rs)
    ensures NoDuplicates(ApplyOrder(rs))
  {
    SortedDistinct(rs, false);
    SortedDistinct(rs, true);
    SortedSound(rs, false);
    SortedSound(rs, true);
    var a, b := Sorted(rs, false), Sorted(rs, true);
    forall i, j | 0 <= i < |a| && 0 <= j < |b| ensures a[i] != b[j] {
      assert a[i] in a && b[j] in b;
    }
  }

  /** Pruning is of no concern to the resources of the stack. */
  lemma StackConverges(env: Env, name: string, api: Api, rs: seq<Resource>, r: Resource)
    requires Convergent(env, name, api, rs) && r in rs
    requires ApplySpec(env, name, api, rs, true).1
    ensures var objects := ApplySpec(env, name, api, rs, true).0.objects;
            && Converged(env, name, ResourceYields(env, name, api.objects, r), objects, r, NoDuplicates(rs))
            && AdmittedAt(objects, Target(env, r))
  {
    var sorted := ApplyOrder(rs);
    ApplyOrderSound(rs);
    if NoDuplicates(rs) {
      ApplyOrderDistinct(rs);
    }
    var p := ApplyAll(env, name, api, sorted);
    ApplyAllSafe(env, name, api, sorted);
    ApplyAllTouches(env, name, api, sorted, Target(env, r));
    ApplyAllConverges(env, name, api, sorted, r);
    PruneKeeps(env, name, p);
    assert SameAt(p.api.objects, PruneSpec(env, name, p.keep, p.api).0.objects, Target(env, r));
  }

  lemma LeftoversExactly(env: Env, name: string, api: Api, rs: seq<Resource>, id: Id)
    requires Convergent(env, name, api, rs) && ApplySpec(env, name, api, rs, true).1
    ensures Leftover(env, name, ApplySpec(env, name, api, rs, true).0.objects, rs, id) <==>
            Leftover(env, name, api.objects, rs, id) && Shares(env, rs, id)
  {
    var sorted := ApplyOrder(rs);
    ApplyOrderSound(rs);
    ApplyAllKeeps(env, name, api, sorted);
    ApplyAllSafe(env, name, api, sorted);
    ApplyAllTouches(env, name, api, sorted, id);
    PruneConverges(env, name, ApplyAll(env, name, api, sorted), rs, id);
  }

  /**
   After a successful apply with pruning, a resource of the stack is on the server with the stack's label and its
   checksum if and only if the object that was there before, if any, yields. Other objects that have the label, no
   owners, and a prunable kind are left if and only if they were there and share the identifier of a resource.
   */
  lemma Convergence(env: Env, name: string, api: Api, rs: seq<Resource>)
    requires Convergent(env, name, api, rs)
    requires ApplySpec(env, name, api, rs, true).1
    ensures var objects := ApplySpec(env, name, api, rs, true).0.objects;
            && (forall r :: r in rs ==>
                  && Converged(env, name, ResourceYields(env, name, api.objects, r), objects, r, NoDuplicates(rs))
                  && AdmittedAt(objects, Target(env, r)))
            && (forall id :: Leftover(env, name, objects, rs, id) <==>
                  Leftover(env, name, api.objects, rs, id) && Shares(env, rs, id))
  {
    forall r | r in rs
      ensures Converged(env, name, ResourceYields(env, name, api.objects, r),
                        ApplySpec(env, name, api, rs, true).0.objects, r, NoDuplicates(rs))
      ensures AdmittedAt(ApplySpec(env, name, api, rs, true).0.objects, Target(env, r))
    {
      StackConverges(env, name, api, rs, r);
    }
    forall id ensures Leftover(env, name, ApplySpec(env, name, api, rs, true).0.objects, rs, id) <==>
                      Leftover(env, name, api.objects, rs, id) && Shares(env, rs, id) {
      LeftoversExactly(env, name, api, rs, id);
    }
  }

  ghost predicate ProperNames(env: Env, objects: map<Id, Json>, rs: seq<Resource>) {
    (forall id :: id in objects ==> Named(id)) && forall r :: r in rs ==> Named(Target(env, r))
  }

  /** With names as Kubernetes allows them, nothing is left. */
  lemma NoLeftovers(env: Env, name: string, api: Api, rs: seq<Resource>, id: Id)
    requires Convergent(env, name, api, rs) && ProperNames(env, api.objects, rs)
    requires ApplySpec(env, name, api, rs, true).1
    ensures !Leftover(env, name, ApplySpec(env, name, api, rs, true).0.objects, rs, id)
  {
    Convergence(env, name, api, rs);
    if Leftover(env, name, api.objects, rs, id) && Shares(env, rs, id) {
      var r :| r in rs && IdString(id) == IdString(Target(env, r));
      IdStringInjective(id, Target(env, r));
    }
  }
}
