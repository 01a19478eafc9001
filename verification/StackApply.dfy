/** The stack as an object whose methods talk to the server, proved against the specification. */
module StackApply {

  import opened Basics
  import opened StackModel

  /** The server as the clients see it: its objects change with the calls they make. */
  class ApiServer {
    var state: Api

    constructor (api: Api)
      ensures state == api
    {
      state := api;
    }
  }

  class Stack {
    const env: Env
    const server: ApiServer
    const name: string
    const resources: seq<Resource>
    var keep: seq<string>

    constructor (env: Env, server: ApiServer, name: string, resources: seq<Resource>)
      ensures this.env == env && this.server == server && this.name == name && this.resources == resources
      ensures keep == []
    {
      this.env, this.server, this.name, this.resources, this.keep := env, server, name, resources, [];
    }

    /** What Apply does to the server, given the identifiers kept so far. */
    ghost function Outcome(before: Api, kept: seq<string>, prune: bool): (Api, bool) {
      var p := ApplyAll(env, name, before, ApplyOrder(resources));
      if p.errs > 0 then (p.api, false)
      else if !prune then (p.api, true)
      else PruneSpec(env, name, kept + p.keep, p.api)
    }

    /** The identifiers kept after pruning: none if something was deleted, and all of it was. */
    ghost function KeptAfterPrune(before: Api, kept: seq<string>): seq<string> {
      if env.discovery.Some?
         && FindPrunable(env, name, kept, before, KindsToPrune(env.discovery.value)).1 != []
         && PruneSpec(env, name, kept, before).1
      then [] else kept
    }

    ghost function KeptAfterApply(before: Api, kept: seq<string>, prune: bool): seq<string> {
      var p := ApplyAll(env, name, before, ApplyOrder(resources));
      if p.errs > 0 || !prune then kept + p.keep else KeptAfterPrune(p.api, kept + p.keep)
    }

    method Apply(prune: bool) returns (ok: bool)
      modifies this`keep, server
      ensures (server.state, ok) == Outcome(old(server.state), old(keep), prune)
      ensures keep == KeptAfterApply(old(server.state), old(keep), prune)
      ensures old(keep) == [] ==> (server.state, ok) == ApplySpec(env, name, old(server.state), resources, prune)
    {
      var sorted: seq<Resource> := [];
      for i := 0 to |resources|
        invariant sorted == Sorted(resources[..i], false)
      {
        assert resources[..i + 1][..i] == resources[..i];
        if resources[i].id.namespace == "" {
          sorted := sorted + [resources[i]];
        }
      }
      assert resources[..|resources|] == resources;
      ghost var first := sorted;
      for i := 0 to |resources|
        invariant sorted == first + Sorted(resources[..i], true)
      {
        assert resources[..i + 1][..i] == resources[..i];
        if resources[i].id.namespace != "" {
          sorted := sorted + [resources[i]];
        }
      }
      var errs := ApplyResources(sorted);
      if errs > 0 {
        return false;
      }
      assert old(keep) == [] ==> old(keep) + ApplyAll(env, name, old(server.state), sorted).keep
                                 == ApplyAll(env, name, old(server.state), sorted).keep;
      if !prune {
        return true;
      }
      ok := Prune();
    }

    method ApplyResources(sorted: seq<Resource>) returns (errs: nat)
      modifies this`keep, server
      ensures var p := ApplyAll(env, name, old(server.state), sorted);
              server.state == p.api && keep == old(keep) + p.keep && errs == p.errs
    {
      errs := 0;
      for i := 0 to |sorted|
        invariant var p := ApplyAll(env, name, old(server.state), sorted[..i]);
                  server.state == p.api && keep == old(keep) + p.keep && errs == p.errs
      {
        assert sorted[..i + 1][..i] == sorted[..i];
        var kept := ApplyResource(sorted[i]);
        if kept.None? {
          errs := errs + 1;
        } else {
          keep := keep + [IdString(kept.value)];
        }
      }
      assert sorted[..|sorted|] == sorted;
    }

    /** The body of the loop over the resources. */
    method ApplyResource(r: Resource) returns (kept: Option<Id>)
      modifies server
      ensures (server.state, kept) == ApplyOne(env, name, old(server.state), r)
    {
      var (api1, scope) := FindScope(env, server.state, r.id.group, r.id.kind);
      server.state := api1;
      if scope.None? {
        return None;
      }
      var resource := Scoped(r, scope.value);
      var doc := Prepare(env.codec, name, resource.doc);
      var (api2, found) := GetObject(env, server.state, resource.id);
      server.state := api2;
      var decision := Decide(env.codec, name, found, doc);
      var (api3, ok) := Perform(env, server.state, resource.id, doc, decision);
      server.state := api3;
      kept := if ok then Some(resource.id) else None;
    }

    method Prune() returns (ok: bool)
      modifies this`keep, server
      ensures (server.state, ok) == PruneSpec(env, name, old(keep), old(server.state))
      ensures keep == KeptAfterPrune(old(server.state), old(keep))
    {
      if env.discovery.None? {
        return false;
      }
      var kinds := CollectKinds(env.discovery.value);
      var ids := FindPruneableResources(kinds);
      if |ids| == 0 {
        return true;
      }
      ok := DeleteResources(ids);
      if ok {
        keep := [];
      }
    }

    method FindPruneableResources(kinds: seq<ApiKind>) returns (ids: seq<Id>)
      modifies server
      ensures (server.state, ids) == FindPrunable(env, name, keep, old(server.state), kinds)
    {
      ids := [];
      for i := 0 to |kinds|
        invariant (server.state, ids) == FindPrunable(env, name, keep, old(server.state), kinds[..i])
      {
        assert kinds[..i + 1][..i] == kinds[..i];
        var found := GetPruneableResources(kinds[i]);
        ids := ids + found;
      }
      assert kinds[..|kinds|] == kinds;
    }

    method GetPruneableResources(k: ApiKind) returns (found: seq<Id>)
      modifies server
      ensures (server.state, found) == FindInKind(env, name, keep, old(server.state), k)
    {
      var (api1, scope) := FindScope(env, server.state, k.group, k.kind);
      server.state := api1;
      found := [];
      if scope.None? {
        return;
      }
      var (api2, listed) := ListObjects(env, server.state, k.group, k.kind, name);
      server.state := api2;
      for i := 0 to |listed|
        invariant server.state == api2 && found == PickPrunable(name, keep, api2, listed[..i])
      {
        assert listed[..i + 1][..i] == listed[..i];
        if ShouldPrune(name, keep, server.state, listed[i]) {
          found := found + [listed[i]];
        }
      }
      assert listed[..|listed|] == listed;
    }

    /** The deletable kinds that are not ignored, each key once. */
    method CollectKinds(kinds: seq<ApiKind>) returns (wanted: seq<ApiKind>)
      ensures wanted == KindsToPrune(kinds)
    {
      wanted := CollectPerKey(kinds, Prunable, Key);
    }

    static method CollectPerKey(kinds: seq<ApiKind>, prunable: ApiKind -> bool, key: ApiKind -> string)
      returns (wanted: seq<ApiKind>)
      ensures wanted == FirstPerKey(kinds, prunable, key)
    {
      wanted := [];
      for i := 0 to |kinds|
        invariant wanted == FirstPerKey(kinds[..i], prunable, key)
      {
        assert kinds[..i + 1][..i] == kinds[..i];
        if prunable(kinds[i]) && forall j :: 0 <= j < |wanted| ==> key(wanted[j]) != key(kinds[i]) {
          wanted := wanted + [kinds[i]];
        }
      }
      assert kinds[..|kinds|] == kinds;
    }

    /** Namespaced resources first. */
    method DeleteResources(ids: seq<Id>) returns (ok: bool)
      modifies server
      ensures (server.state, ok) == DeleteAll(env, old(server.state), Select(ids, true) + Select(ids, false))
    {
      DeleteAllSplit(env, server.state, Select(ids, true), Select(ids, false));
      ok := DeleteSelected(ids, true);
      if ok {
        ok := DeleteSelected(ids, false);
      }
    }

    method DeleteSelected(ids: seq<Id>, namespaced: bool) returns (ok: bool)
      modifies server
      ensures (server.state, ok) == DeleteAll(env, old(server.state), Select(ids, namespaced))
    {
      for i := 0 to |ids|
        invariant (server.state, true) == DeleteAll(env, old(server.state), Select(ids[..i], namespaced))
      {
        assert ids[..i + 1][..i] == ids[..i];
        if (ids[i].namespace != "") == namespaced {
          ghost var done := Select(ids[..i], namespaced);
          assert (done + [ids[i]])[..|done|] == done;
          ok := DeleteResource(ids[i]);
          if !ok {
            SelectSplit(ids, i, namespaced);
            DeleteAllSplit(env, old(server.state), done + [ids[i]], Select(ids[i + 1..], namespaced));
            return;
          }
        }
      }
      assert ids[..|ids|] == ids;
      ok := true;
    }

    method DeleteResource(id: Id) returns (ok: bool)
      modifies server
      ensures (server.state, ok) == DeleteOne(env, old(server.state), id)
    {
      var (api1, scope) := FindScope(env, server.state, id.group, id.kind);
      server.state := api1;
      if scope.None? {
        return false;
      }
      var (api2, deleted) := DeleteObject(env, server.state, id);
      server.state := api2;
      ok := deleted;
    }
  }

  lemma {:induction false} SelectSplit(ids: seq<Id>, i: nat, namespaced: bool)
    requires i < |ids|
    ensures Select(ids, namespaced) == Select(ids[..i + 1], namespaced) + Select(ids[i + 1..], namespaced)
    decreases |ids|
  {
    if i + 1 == |ids| {
      assert ids[..i + 1] == ids;
    } else {
      var last := |ids| - 1;
      SelectSplit(ids[..last], i, namespaced);
      assert ids[..last][..i + 1] == ids[..i + 1];
      assert ids[i + 1..][..last - i - 1] == ids[..last][i + 1..];
    }
  }

  /** Deleting stops at the first failure. */
  lemma {:induction false} DeleteAllSplit(env: Env, api: Api, ids: seq<Id>, more: seq<Id>)
    ensures var (api', ok) := DeleteAll(env, api, ids);
            DeleteAll(env, api, ids + more) == if ok then DeleteAll(env, api', more) else (api', ok)
    decreases |more|
  {
    if more == [] {
      assert ids + more == ids;
    } else {
      var last := |more| - 1;
      DeleteAllSplit(env, api, ids, more[..last]);
      assert (ids + more)[..|ids| + last] == ids + more[..last];
    }
  }
}
