/**
 The stack reconciler: a stack's resources are created, updated, patched or skipped one after the
 other, and whatever else carries the stack's label is pruned afterwards. The API server is a map
 from identities to documents; every call to it may get lost, or take effect without being
 acknowledged.
 */
module StackModel {

  import opened Basics
  import opened Json

  const NAME_LABEL := "k0s.k0sproject.io/stack"
  const CHECKSUM_ANNOTATION := "k0s.k0sproject.io/stack-checksum"
  const LAST_CONFIG_ANNOTATION := "k0s.k0sproject.io/last-applied-configuration"

  /** What identifies an object on the server; the namespace is empty for cluster scoped kinds. */
  datatype Id = Id(group: string, kind: string, name: string, namespace: string)

  datatype Resource = Resource(id: Id, doc: Json)

  /** Serialization, parsing and hashing of documents. */
  datatype Codec = Codec(encode: Json -> string, decode: string -> Option<Json>, hash: string -> string)

  ghost predicate Lawful(c: Codec) {
    forall j :: c.encode(j) != "" && c.decode(c.encode(j)) == Some(j)
  }

  datatype Scope = Namespaced | Cluster

  /** An entry of the server's list of preferred resources. */
  datatype ApiKind = ApiKind(group: string, version: string, kind: string, verbs: seq<string>)

  /** The fate of a call: it succeeds, never reaches the server, or its response gets lost. */
  datatype Fault = Fine | Lost | Unacked

  datatype Call =
    | Discover(group: string, kind: string)
    | Get(id: Id)
    | Create(id: Id)
    | Update(id: Id)
    | Patch(id: Id)
    | List(group: string, kind: string)
    | Delete(id: Id)

  /** The environment of an apply: `fault` decides about the n-th call, `order` about how lists are ordered. */
  datatype Env = Env(
    codec: Codec,
    scopes: map<(string, string), Scope>,
    discovery: Option<seq<ApiKind>>,
    lax: set<(string, string)>,
    order: set<Id> -> seq<Id>,
    fault: nat -> Fault)

  ghost predicate LawfulEnv(env: Env) {
    && Lawful(env.codec)
    && forall s :: (forall id :: id in env.order(s) <==> id in s)
  }

  datatype Api = Api(objects: map<Id, Json>, calls: seq<Call>)

  // ------------------------------------------------------------------------------------------
  // Documents

  predicate StringMap(j: Json) {
    j.Obj? && forall k :: k in j.fields ==> j.fields[k].Str?
  }

  /** The labels or annotations of a document; a map with anything but strings in it counts as none. */
  function GetMap(doc: Json, field: string): map<string, string> {
    var v := Lookup(doc, ["metadata", field]);
    if v.Some? && StringMap(v.value) then map k | k in v.value.fields :: v.value.fields[k].s else map[]
  }

  function SetMap(doc: Json, field: string, m: map<string, string>): Json {
    if !doc.Obj? then doc else
    var meta := if "metadata" in doc.fields then doc.fields["metadata"] else Obj(map[]);
    if !meta.Obj? then doc else
    Obj(doc.fields["metadata" := Obj(meta.fields[field := Obj(map k | k in m :: Str(m[k]))])])
  }

  function At(m: map<string, string>, k: string): string {
    if k in m then m[k] else ""
  }

  function StackName(doc: Json): string { At(GetMap(doc, "labels"), NAME_LABEL) }
  function Checksum(doc: Json): string { At(GetMap(doc, "annotations"), CHECKSUM_ANNOTATION) }
  function LastConfig(doc: Json): string { At(GetMap(doc, "annotations"), LAST_CONFIG_ANNOTATION) }

  function Owners(doc: Json): nat {
    var v := Lookup(doc, ["metadata", "ownerReferences"]);
    if v.Some? && v.value.Arr? && (forall i :: 0 <= i < |v.value.items| ==> v.value.items[i].Obj?)
    then |v.value.items| else 0
  }

  function WithoutNamespace(doc: Json): Json {
    if doc.Obj? && "metadata" in doc.fields && doc.fields["metadata"].Obj?
    then Obj(doc.fields["metadata" := Obj(doc.fields["metadata"].fields - {"namespace"})])
    else doc
  }

  /** The resource as it is sent to the server before it gets its label and annotations. */
  function Scoped(r: Resource, scope: Scope): Resource {
    if scope.Cluster? then Resource(r.id.(namespace := ""), WithoutNamespace(r.doc)) else r
  }

  /** Adds the stack label, and the checksum and text of the document as it was before. */
  function Prepare(c: Codec, name: string, doc: Json): Json {
    var text := c.encode(doc);
    var labelled := SetMap(doc, "labels", GetMap(doc, "labels")[NAME_LABEL := name]);
    SetMap(labelled, "annotations",
           GetMap(labelled, "annotations")[CHECKSUM_ANNOTATION := c.hash(text)][LAST_CONFIG_ANNOTATION := text])
  }

  function IdString(id: Id): string {
    id.group + "/" + id.kind + ":" + id.name + "@" + id.namespace
  }

  // ------------------------------------------------------------------------------------------
  // Calls to the server

  function Fate(env: Env, api: Api): Fault { env.fault(|api.calls|) }

  function Log(api: Api, c: Call): Api { api.(calls := api.calls + [c]) }

  function FindScope(env: Env, api: Api, group: string, kind: string): (Api, Option<Scope>) {
    (Log(api, Discover(group, kind)),
     if Fate(env, api).Fine? && (group, kind) in env.scopes then Some(env.scopes[(group, kind)]) else None)
  }

  datatype Found = Found(doc: Json) | Missing | Failed

  function GetObject(env: Env, api: Api, id: Id): (Api, Found) {
    (Log(api, Get(id)),
     if !Fate(env, api).Fine? then Failed
     else if id in api.objects then Found(api.objects[id]) else Missing)
  }

  /** A namespaced object cannot be created without a namespace. */
  predicate Creatable(env: Env, api: Api, id: Id) {
    && id !in api.objects
    && !((id.group, id.kind) in env.scopes && env.scopes[(id.group, id.kind)].Namespaced? && id.namespace == "")
  }

  function CreateObject(env: Env, api: Api, id: Id, doc: Json): (Api, bool) {
    var fate, logged := Fate(env, api), Log(api, Create(id));
    if fate.Lost? || !Creatable(env, api, id) then (logged, false)
    else (logged.(objects := api.objects[id := doc]), fate.Fine?)
  }

  function UpdateObject(env: Env, api: Api, id: Id, doc: Json): (Api, bool) {
    var fate, logged := Fate(env, api), Log(api, Update(id));
    if fate.Lost? || id !in api.objects then (logged, false)
    else (logged.(objects := api.objects[id := doc]), fate.Fine?)
  }

  function PatchObject(env: Env, api: Api, id: Id, patch: Json): (Api, bool) {
    var fate, logged := Fate(env, api), Log(api, Patch(id));
    if fate.Lost? || id !in api.objects then (logged, false)
    else (logged.(objects := api.objects[id := MergePatch(api.objects[id], patch)]), fate.Fine?)
  }

  function DeleteObject(env: Env, api: Api, id: Id): (Api, bool) {
    var fate, logged := Fate(env, api), Log(api, Delete(id));
    if fate.Lost? then (logged, false) else (logged.(objects := api.objects - {id}), fate.Fine?)
  }

  /** The objects of a kind with the stack's label; some servers ignore the selector. */
  function ListObjects(env: Env, api: Api, group: string, kind: string, name: string): (Api, seq<Id>) {
    (Log(api, List(group, kind)),
     if !Fate(env, api).Fine? then [] else
     env.order(set id | id in api.objects && id.group == group && id.kind == kind
                        && (StackName(api.objects[id]) == name || (group, kind) in env.lax)))
  }

  // ------------------------------------------------------------------------------------------
  // Specification of the apply

  datatype Decision = Skip | DoCreate | DoUpdate | DoPatch(patch: Json) | GiveUp

  /** What to do about a resource, given what the server has. */
  function Decide(c: Codec, name: string, found: Found, doc: Json): Decision {
    match found
    case Missing => DoCreate
    case Failed => GiveUp
    case Found(server) =>
      if Checksum(server) == Checksum(doc) && StackName(server) == name then Skip
      else if LastConfig(server) == "" then DoUpdate
      else
        var original := c.decode(LastConfig(server));
        if original.Some? && original.value.Obj? && doc.Obj? then DoPatch(Diff(original.value, doc)) else GiveUp
  }

  function Perform(env: Env, api: Api, id: Id, doc: Json, d: Decision): (Api, bool) {
    match d
    case Skip => (api, true)
    case DoCreate => CreateObject(env, api, id, doc)
    case DoUpdate => UpdateObject(env, api, id, doc)
    case DoPatch(patch) => PatchObject(env, api, id, patch)
    case GiveUp => (api, false)
  }

  function Reconcile(env: Env, name: string, api: Api, id: Id, doc: Json): (Api, bool) {
    var (api', found) := GetObject(env, api, id);
    Perform(env, api', id, doc, Decide(env.codec, name, found, doc))
  }

  /** Applies one resource; the result is the identity of the resource to keep, or none on failure. */
  function ApplyOne(env: Env, name: string, api: Api, r: Resource): (Api, Option<Id>) {
    var (api', scope) := FindScope(env, api, r.id.group, r.id.kind);
    if scope.None? then (api', None) else
    var s := Scoped(r, scope.value);
    var (api'', ok) := Reconcile(env, name, api', s.id, Prepare(env.codec, name, s.doc));
    (api'', if ok then Some(s.id) else None)
  }

  datatype Progress = Progress(api: Api, keep: seq<string>, errs: nat)

  function ApplyAll(env: Env, name: string, api: Api, rs: seq<Resource>): Progress {
    if rs == [] then Progress(api, [], 0) else
    var p := ApplyAll(env, name, api, rs[..|rs| - 1]);
    var (api', kept) := ApplyOne(env, name, p.api, rs[|rs| - 1]);
    if kept.None? then Progress(api', p.keep, p.errs + 1)
    else Progress(api', p.keep + [IdString(kept.value)], p.errs)
  }

  function GroupVersion(k: ApiKind): string {
    if k.group == "" then k.version else k.group + "/" + k.version
  }

  function Key(k: ApiKind): string { GroupVersion(k) + ":" + k.kind }

  const IGNORED := ["v1:Endpoints", "discovery.k8s.io/v1:EndpointSlice"]

  predicate Prunable(k: ApiKind) { "delete" in k.verbs && Key(k) !in IGNORED }

  /** The first of the wanted kinds for each key. */
  function FirstPerKey(kinds: seq<ApiKind>, wanted: ApiKind -> bool, key: ApiKind -> string): seq<ApiKind> {
    if kinds == [] then [] else
    var before, k := FirstPerKey(kinds[..|kinds| - 1], wanted, key), kinds[|kinds| - 1];
    if wanted(k) && (forall i :: 0 <= i < |before| ==> key(before[i]) != key(k)) then before + [k] else before
  }

  /** The kinds to search. */
  function KindsToPrune(kinds: seq<ApiKind>): seq<ApiKind> { FirstPerKey(kinds, Prunable, Key) }

  predicate ShouldPrune(name: string, keep: seq<string>, api: Api, id: Id) {
    && id in api.objects
    && IdString(id) !in keep
    && Owners(api.objects[id]) == 0
    && StackName(api.objects[id]) == name
  }

  function PickPrunable(name: string, keep: seq<string>, api: Api, ids: seq<Id>): seq<Id> {
    if ids == [] then [] else
    var before, id := PickPrunable(name, keep, api, ids[..|ids| - 1]), ids[|ids| - 1];
    if ShouldPrune(name, keep, api, id) then before + [id] else before
  }

  /** One kind: a kind without mapping, or whose list call fails, yields nothing. */
  function FindInKind(env: Env, name: string, keep: seq<string>, api: Api, k: ApiKind): (Api, seq<Id>) {
    var (api1, scope) := FindScope(env, api, k.group, k.kind);
    if scope.None? then (api1, []) else
    var (api2, ids) := ListObjects(env, api1, k.group, k.kind, name);
    (api2, PickPrunable(name, keep, api2, ids))
  }

  function FindPrunable(env: Env, name: string, keep: seq<string>, api: Api, kinds: seq<ApiKind>): (Api, seq<Id>) {
    if kinds == [] then (api, []) else
    var (api1, before) := FindPrunable(env, name, keep, api, kinds[..|kinds| - 1]);
    var (api2, ids) := FindInKind(env, name, keep, api1, kinds[|kinds| - 1]);
    (api2, before + ids)
  }

  function DeleteOne(env: Env, api: Api, id: Id): (Api, bool) {
    var (api1, scope) := FindScope(env, api, id.group, id.kind);
    if scope.None? then (api1, false) else DeleteObject(env, api1, id)
  }

  /** Deletes in order and stops at the first failure. */
  function DeleteAll(env: Env, api: Api, ids: seq<Id>): (Api, bool) {
    if ids == [] then (api, true) else
    var (api', ok) := DeleteAll(env, api, ids[..|ids| - 1]);
    if !ok then (api', false) else DeleteOne(env, api', ids[|ids| - 1])
  }

  function Select(ids: seq<Id>, namespaced: bool): seq<Id> {
    if ids == [] then [] else
    var before, id := Select(ids[..|ids| - 1], namespaced), ids[|ids| - 1];
    if (id.namespace != "") == namespaced then before + [id] else before
  }

  function PruneSpec(env: Env, name: string, keep: seq<string>, api: Api): (Api, bool) {
    if env.discovery.None? then (api, false) else
    var (api1, ids) := FindPrunable(env, name, keep, api, KindsToPrune(env.discovery.value));
    DeleteAll(env, api1, Select(ids, true) + Select(ids, false))
  }

  function Sorted(rs: seq<Resource>, namespaced: bool): seq<Resource> {
    if rs == [] then [] else
    var before, r := Sorted(rs[..|rs| - 1], namespaced), rs[|rs| - 1];
    if (r.id.namespace != "") == namespaced then before + [r] else before
  }

  function ApplyOrder(rs: seq<Resource>): seq<Resource> { Sorted(rs, false) + Sorted(rs, true) }

  /** The whole apply with an empty list of kept resources to start with. */
  function ApplySpec(env: Env, name: string, api: Api, rs: seq<Resource>, prune: bool): (Api, bool) {
    var p := ApplyAll(env, name, api, ApplyOrder(rs));
    if p.errs > 0 then (p.api, false)
    else if !prune then (p.api, true)
    else PruneSpec(env, name, p.keep, p.api)
  }
}
