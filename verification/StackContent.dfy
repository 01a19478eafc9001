/** What arrives on the server: everything that the manifest says, and nothing but the tags besides. */
module StackContent {

  import opened Basics
  import opened Json
  import opened StackModel
  import opened StackProofs
  import opened StackConvergence

  // ------------------------------------------------------------------------------------------
  // Prepared documents

  /** The path is of no concern to the applier: it leads to none of its tags, nor to what holds them. */
  predicate Own(path: seq<string>) {
    && path != []
    && (path[0] == "metadata" ==>
          && |path| > 1
          && (path[1] == "labels" ==> |path| > 2 && path[2] != NAME_LABEL)
          && (path[1] == "annotations" ==>
                |path| > 2 && path[2] != CHECKSUM_ANNOTATION && path[2] != LAST_CONFIG_ANNOTATION))
  }

  /** Setting labels or annotations leaves everything else alone. */
  lemma SetMapElsewhere(doc: Json, field: string, m: map<string, string>, path: seq<string>)
    requires HasMetadata(doc) && path != [] && (path[0] == "metadata" ==> |path| > 1 && path[1] != field)
    ensures Lookup(SetMap(doc, field, m), path) == Lookup(doc, path)
  {
    var d := SetMap(doc, field, m);
    if path[0] == "metadata" {
      var rest := path[1..];
      assert rest[0] == path[1];
      assert Lookup(d, path) == Lookup(d.fields["metadata"], rest);
      assert Lookup(doc, path) == Lookup(doc.fields["metadata"], rest);
    }
  }

  /** What is behind the labels or annotations. */
  lemma BehindField(doc: Json, field: string, path: seq<string>)
    requires HasMetadata(doc) && |path| > 2 && path[0] == "metadata" && path[1] == field
    ensures var v := Lookup(doc, ["metadata", field]);
            Lookup(doc, path) == if v.None? then None else Lookup(v.value, path[2..])
  {
    LookupTwo(doc, field);
    var meta := doc.fields["metadata"];
    assert path[1..][1..] == path[2..] && path[1..][0] == field;
    assert Lookup(doc, path) == Lookup(meta, path[1..]);
  }

  /** A label or annotation that stays the same is found as before. */
  lemma SetMapKeeps(doc: Json, field: string, m: map<string, string>, path: seq<string>)
    requires HasMetadata(doc) && StringsAt(doc, ["metadata", field])
    requires |path| > 2 && path[0] == "metadata" && path[1] == field
    requires path[2] in m <==> path[2] in GetMap(doc, field)
    requires path[2] in m ==> m[path[2]] == GetMap(doc, field)[path[2]]
    ensures Lookup(SetMap(doc, field, m), path) == Lookup(doc, path)
  {
    SetMapLookup(doc, field, m, field);
    BehindField(doc, field, path);
    BehindField(SetMap(doc, field, m), field, path);
    var rest := path[2..];
    assert rest[0] == path[2];
  }

  /** Preparing a document leaves all paths alone that are of no concern to the applier. */
  lemma PrepareKeeps(c: Codec, name: string, doc: Json, path: seq<string>)
    requires HasMetadata(doc) && Admitted(doc) && Own(path)
    ensures Lookup(Prepare(c, name, doc), path) == Lookup(doc, path)
  {
    var text := c.encode(doc);
    var labels := GetMap(doc, "labels")[NAME_LABEL := name];
    var labelled := SetMap(doc, "labels", labels);
    var annotations :=
      GetMap(labelled, "annotations")[CHECKSUM_ANNOTATION := c.hash(text)][LAST_CONFIG_ANNOTATION := text];
    SetMapLookup(doc, "labels", labels, "annotations");
    if path[0] == "metadata" && path[1] == "labels" {
      SetMapKeeps(doc, "labels", labels, path);
    } else {
      SetMapElsewhere(doc, "labels", labels, path);
    }
    if path[0] == "metadata" && path[1] == "annotations" {
      SetMapKeeps(labelled, "annotations", annotations, path);
    } else {
      SetMapElsewhere(labelled, "annotations", annotations, path);
    }
  }

  /** Labels that are not all strings do not survive: then the stack label is the only one. */
  lemma PrepareDrops(c: Codec, name: string, doc: Json)
    requires HasMetadata(doc) && Lookup(doc, ["metadata", "labels"]).Some?
    requires !StringMap(Lookup(doc, ["metadata", "labels"]).value)
    ensures Lookup(Prepare(c, name, doc), ["metadata", "labels"]) == Some(Obj(map[NAME_LABEL := Str(name)]))
  {
    var labels := map[NAME_LABEL := name];
    assert GetMap(doc, "labels")[NAME_LABEL := name] == labels;
    var labelled := SetMap(doc, "labels", labels);
    SetMapLookup(doc, "labels", labels, "annotations");
    var text := c.encode(doc);
    var annotations :=
      GetMap(labelled, "annotations")[CHECKSUM_ANNOTATION := c.hash(text)][LAST_CONFIG_ANNOTATION := text];
    SetMapElsewhere(labelled, "annotations", annotations, ["metadata", "labels"]);
    assert Strings(labels) == Obj(map[NAME_LABEL := Str(name)]);
  }

  /** The document as it is sent is the one of the manifest, without its namespace if the kind has none. */
  lemma WantedKeeps(env: Env, r: Resource, path: seq<string>)
    requires HasMetadata(r.doc) && path != [] && (path[0] == "metadata" ==> |path| > 1)
    ensures var kind := (r.id.group, r.id.kind);
            if kind in env.scopes && env.scopes[kind].Cluster? then
              && Target(env, r) == r.id.(namespace := "")
              && Lookup(Wanted(env, r), path) ==
                 if path[0] == "metadata" && path[1] == "namespace" then None else Lookup(r.doc, path)
            else
              Target(env, r) == r.id && Wanted(env, r) == r.doc
  {
    var w := WithoutNamespace(r.doc);
    if path[0] == "metadata" {
      assert path[1..][0] == path[1];
      assert Lookup(w, path) == Lookup(w.fields["metadata"], path[1..]);
      assert Lookup(r.doc, path) == Lookup(r.doc.fields["metadata"], path[1..]);
    }
  }

  // ------------------------------------------------------------------------------------------
  // What becomes of an object

  function FoundAt(objects: map<Id, Json>, id: Id): Found { if id in objects then Found(objects[id]) else Missing }

  /** The object after a resource was applied successfully, given what was there. */
  function Becomes(c: Codec, name: string, found: Found, doc: Json): Json {
    var m := Prepare(c, name, doc);
    var d := Decide(c, name, found, m);
    if found.Found? then if d.Skip? then found.doc else NewDoc(m, found.doc, d) else m
  }

  lemma ReconcileBecomes(env: Env, name: string, api: Api, id: Id, doc: Json)
    requires Reconcile(env, name, api, id, Prepare(env.codec, name, doc)).1
    ensures var objects := Reconcile(env, name, api, id, Prepare(env.codec, name, doc)).0.objects;
            id in objects && objects[id] == Becomes(env.codec, name, FoundAt(api.objects, id), doc)
  {
    var m := Prepare(env.codec, name, doc);
    var (api1, found) := GetObject(env, api, id);
    PerformEffect(env, api1, id, m, Decide(env.codec, name, found, m));
  }

  ghost predicate HasBecome(env: Env, name: string, found: Found, objects: map<Id, Json>, r: Resource) {
    Target(env, r) in objects && objects[Target(env, r)] == Becomes(env.codec, name, found, Wanted(env, r))
  }

  lemma ApplyOneBecomes(env: Env, name: string, api: Api, r: Resource)
    requires ApplyOne(env, name, api, r).1.Some?
    ensures HasBecome(env, name, FoundAt(api.objects, Target(env, r)), ApplyOne(env, name, api, r).0.objects, r)
  {
    var (api1, scope) := FindScope(env, api, r.id.group, r.id.kind);
    ReconcileBecomes(env, name, api1, Target(env, r), Wanted(env, r));
  }

  lemma {:induction false} ApplyAllBecomes(env: Env, name: string, api: Api, rs: seq<Resource>, r: Resource)
    requires Lawful(env.codec) && Distinct(env, rs) && AllAdmitted(env, api.objects, rs) && NoDuplicates(rs) && r in rs
    requires ApplyAll(env, name, api, rs).errs == 0
    ensures HasBecome(env, name, FoundAt(api.objects, Target(env, r)), ApplyAll(env, name, api, rs).api.objects, r)
  {
    var last := |rs| - 1;
    var before := ApplyAll(env, name, api, rs[..last]).api;
    assert rs == rs[..last] + [rs[last]];
    LastStep(env, name, api, rs);
    LastAdmitted(env, name, api, rs);
    PrefixDistinct(rs);
    if r == rs[last] {
      ApplyOneBecomes(env, name, before, r);
    } else {
      ApplyAllBecomes(env, name, api, rs[..last], r);
      ApplyOneConverges(env, name, before, rs[last]);
    }
  }

  /** After a successful apply, every resource has become what it should, given what was there before. */
  lemma Delivery(env: Env, name: string, api: Api, rs: seq<Resource>, prune: bool, r: Resource)
    requires LawfulEnv(env) && Distinct(env, rs) && AllAdmitted(env, api.objects, rs) && NoDuplicates(rs) && r in rs
    requires ApplySpec(env, name, api, rs, prune).1
    ensures var api' := ApplySpec(env, name, api, rs, prune).0;
            HasBecome(env, name, FoundAt(api.objects, Target(env, r)), api'.objects, r)
  {
    var sorted := ApplyOrder(rs);
    ApplyOrderSound(rs);
    ApplyOrderDistinct(rs);
    var p := ApplyAll(env, name, api, sorted);
    ApplyAllSafe(env, name, api, sorted);
    ApplyAllBecomes(env, name, api, sorted, r);
    if prune {
      PruneKeeps(env, name, p);
      assert SameAt(p.api.objects, PruneSpec(env, name, p.keep, p.api).0.objects, Target(env, r));
    }
  }

  // ------------------------------------------------------------------------------------------
  // Path by path

  /** An object that is created or updated says what the manifest says. */
  lemma CreatedContent(c: Codec, name: string, found: Found, doc: Json, path: seq<string>)
    requires HasMetadata(doc) && Admitted(doc) && Own(path)
    requires found.Found? ==>
      LastConfig(found.doc) == "" && !(StackName(found.doc) == name && Checksum(found.doc) == c.hash(c.encode(doc)))
    ensures Lookup(Becomes(c, name, found, doc), path) == Lookup(doc, path)
  {
    PreparedChecksum(c, name, doc);
    PrepareKeeps(c, name, doc, path);
  }

  /** An object that is in sync stays as it is. */
  lemma SkippedContent(c: Codec, name: string, was: Json, doc: Json)
    requires HasMetadata(doc) && StackName(was) == name && Checksum(was) == c.hash(c.encode(doc))
    ensures Becomes(c, name, Found(was), doc) == was
  {
    PreparedChecksum(c, name, doc);
  }

  /**
   An object that is patched ends up with the three-way merge of what it was, what was applied last,
   and what is applied now.
   */
  lemma ThreeWayMerge(c: Codec, name: string, was: Json, doc: Json, path: seq<string>)
    requires HasMetadata(doc) && Decide(c, name, Found(was), Prepare(c, name, doc)).DoPatch?
    ensures var last, now := c.decode(LastConfig(was)).value, Prepare(c, name, doc);
            var r := MergePatch(was, Decide(c, name, Found(was), now).patch);
            && (Lookup(now, path).Some? && Leaf(Lookup(now, path).value) ==>
                  (Lookup(r, path) == Lookup(now, path) <==>
                   Lookup(last, path) != Lookup(now, path) || Lookup(was, path) == Lookup(now, path)))
            && (Lookup(last, path).Some? && Lookup(now, path).None? ==> Lookup(r, path).None?)
            && (Foreign(last, now, path) && Lookup(was, path).Some? ==> Lookup(r, path) == Lookup(was, path))
  {
    var last, now := c.decode(LastConfig(was)).value, Prepare(c, name, doc);
    if Lookup(now, path).Some? && Leaf(Lookup(now, path).value) {
      PatchSetsExactly(was, last, now, path);
    }
    if Lookup(last, path).Some? && Lookup(now, path).None? {
      PatchRemoves(was, last, now, path);
    }
    if Foreign(last, now, path) && Lookup(was, path).Some? {
      PatchKeepsForeign(was, last, now, path);
    }
  }

  /**
   In particular, on the paths that are of no concern to the applier, it is the merge with what the manifest says: a
   plain value of the manifest is there if and only if it changed or was there already, what the
   manifest does not say any more is gone, and what neither has a say in stays.
   */
  lemma PatchedContent(c: Codec, name: string, was: Json, doc: Json, path: seq<string>)
    requires HasMetadata(doc) && Admitted(doc) && Own(path)
    requires Decide(c, name, Found(was), Prepare(c, name, doc)).DoPatch?
    ensures var last, r := c.decode(LastConfig(was)).value, Becomes(c, name, Found(was), doc);
            && (Lookup(doc, path).Some? && Leaf(Lookup(doc, path).value) ==>
                  (Lookup(r, path) == Lookup(doc, path) <==>
                   Lookup(last, path) != Lookup(doc, path) || Lookup(was, path) == Lookup(doc, path)))
            && (Lookup(last, path).Some? && Lookup(doc, path).None? ==> Lookup(r, path).None?)
            && (Foreign(last, Prepare(c, name, doc), path) && Lookup(was, path).Some? ==>
                  Lookup(r, path) == Lookup(was, path))
  {
    PrepareKeeps(c, name, doc, path);
    ThreeWayMerge(c, name, was, doc, path);
  }
}
