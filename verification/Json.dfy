/**
 JSON documents, the merge patches of section 2 of RFC 7396, and the computation of the patch that
 leads from one document to another. The applier sends such patches to bring an object on the
 server from the configuration it applied last to the configuration it applies now.
 */
module Json {

  import opened Basics

  datatype Json =
    | Null
    | Bool(b: bool)
    | Num(n: int)
    | Str(s: string)
    | Arr(items: seq<Json>)
    | Obj(fields: map<string, Json>)

  function Fields(j: Json): map<string, Json> {
    if j.Obj? then j.fields else map[]
  }

  /** The MergePatch procedure of section 2 of RFC 7396. */
  function MergePatch(target: Json, patch: Json): Json
    decreases patch
  {
    if !patch.Obj? then patch else
    var t := Fields(target);
    Obj(map k | k in t.Keys + patch.fields.Keys && !(k in patch.fields && patch.fields[k].Null?) ::
      if k in patch.fields then MergePatch(if k in t then t[k] else Null, patch.fields[k]) else t[k])
  }

  /** The patch from `o` to `m`: what was added or changed, and a null for everything that went away. */
  function Diff(o: Json, m: Json): (d: Json)
    requires o.Obj? && m.Obj?
    ensures d.Obj?
    decreases m
  {
    Obj(map k | k in o.fields.Keys + m.fields.Keys && Changed(o, m, k) ::
      if k !in m.fields then Null
      else if k in o.fields && o.fields[k].Obj? && m.fields[k].Obj? then Diff(o.fields[k], m.fields[k])
      else m.fields[k])
  }

  predicate Changed(o: Json, m: Json, k: string)
    requires o.Obj? && m.Obj?
    decreases m, 0
  {
    if k !in m.fields || k !in o.fields then true
    else if o.fields[k].Obj? && m.fields[k].Obj? then Diff(o.fields[k], m.fields[k]).fields != map[]
    else o.fields[k] != m.fields[k]
  }

  /** The value at a path of field names. */
  function Lookup(j: Json, path: seq<string>): Option<Json> {
    if path == [] then Some(j)
    else if path[0] in Fields(j) then Lookup(j.fields[path[0]], path[1..])
    else None
  }

  /** No object in `j` has a null field; nulls inside arrays are plain values. */
  predicate NoNulls(j: Json) {
    !j.Null? && (j.Obj? ==> forall k :: k in j.fields ==> NoNulls(j.fields[k]))
  }

  lemma {:induction false} MergeIntoOther(t: Json, x: Json)
    requires NoNulls(x) && !(t.Obj? && x.Obj?)
    ensures MergePatch(t, x) == x
    decreases x
  {
    if x.Obj? {
      forall k | k in x.fields ensures MergePatch(Null, x.fields[k]) == x.fields[k] {
        MergeIntoOther(Null, x.fields[k]);
      }
      assert MergePatch(t, x).fields == x.fields;
    }
  }

  /** Patching a document with the difference to another one yields the other one. */
  lemma {:induction false} PatchRoundTrip(o: Json, m: Json)
    requires o.Obj? && m.Obj? && NoNulls(m)
    ensures MergePatch(o, Diff(o, m)) == m
    decreases m
  {
    var d, r := Diff(o, m).fields, MergePatch(o, Diff(o, m)).fields;
    forall k ensures (k in r) == (k in m.fields) && (k in m.fields ==> r[k] == m.fields[k]) {
      assert k in d <==> ((k in o.fields || k in m.fields) && Changed(o, m, k));
      if k !in m.fields {
        assert k in o.fields ==> k in d && d[k].Null?;
      } else if k in o.fields && o.fields[k].Obj? && m.fields[k].Obj? {
        PatchRoundTrip(o.fields[k], m.fields[k]);
        if k !in d {
          DiffEmpty(o.fields[k], m.fields[k]);
        }
      } else if k in d {
        assert d[k] == m.fields[k];
        MergeIntoOther(if k in o.fields then o.fields[k] else Null, m.fields[k]);
      }
    }
    assert r == m.fields;
  }

  predicate Leaf(j: Json) { !j.Obj? && !j.Null? }

  lemma {:induction false} MergeDelivers(t: Json, x: Json, path: seq<string>)
    requires Lookup(x, path).Some? && Leaf(Lookup(x, path).value)
    ensures Lookup(MergePatch(t, x), path) == Lookup(x, path)
    decreases path
  {
    if path != [] {
      var k := path[0];
      assert !x.fields[k].Null? by {
        if path[1..] == [] { assert Lookup(x, path) == Some(x.fields[k]); }
      }
      MergeDelivers(if k in Fields(t) then Fields(t)[k] else Null, x.fields[k], path[1..]);
    }
  }

  /** A plain value that is new or different in `m` ends up in the patched document, whatever was there. */
  lemma {:induction false} PatchDelivers(t: Json, o: Json, m: Json, path: seq<string>)
    requires o.Obj? && m.Obj?
    requires Lookup(m, path).Some? && Leaf(Lookup(m, path).value)
    requires Lookup(o, path) != Lookup(m, path)
    ensures Lookup(MergePatch(t, Diff(o, m)), path) == Lookup(m, path)
    decreases path
  {
    var k := path[0];
    var t' := if k in Fields(t) then Fields(t)[k] else Null;
    assert !m.fields[k].Null? by {
      if path[1..] == [] { assert Lookup(m, path) == Some(m.fields[k]); }
    }
    if k in o.fields && o.fields[k].Obj? && m.fields[k].Obj? {
      PatchDelivers(t', o.fields[k], m.fields[k], path[1..]);
      DiffOfChange(o.fields[k], m.fields[k], path[1..]);
      assert k in Diff(o, m).fields;
    } else {
      assert k in Diff(o, m).fields && Diff(o, m).fields[k] == m.fields[k] by {
        assert k in o.fields && o.fields[k] == m.fields[k] ==> Lookup(o, path) == Lookup(m, path);
      }
      MergeDelivers(t', m.fields[k], path[1..]);
    }
  }

  /** Documents that differ at some path have a non-empty patch. */
  lemma {:induction false} DiffOfChange(o: Json, m: Json, path: seq<string>)
    requires o.Obj? && m.Obj? && path != []
    requires Lookup(o, path) != Lookup(m, path)
    ensures Diff(o, m).fields != map[]
    decreases path
  {
    var k := path[0];
    if k in o.fields && k in m.fields && o.fields[k].Obj? && m.fields[k].Obj? {
      if path[1..] == [] {
        if Diff(o.fields[k], m.fields[k]).fields == map[] {
          DiffEmpty(o.fields[k], m.fields[k]);
        }
      } else {
        DiffOfChange(o.fields[k], m.fields[k], path[1..]);
      }
    }
    assert k in Diff(o, m).fields;
  }

  /** Only equal documents have an empty patch. */
  lemma {:induction false} DiffEmpty(o: Json, m: Json)
    requires o.Obj? && m.Obj? && Diff(o, m).fields == map[]
    ensures o == m
    decreases m
  {
    forall k ensures (k in o.fields) == (k in m.fields) && (k in m.fields ==> o.fields[k] == m.fields[k]) {
      assert k !in Diff(o, m).fields;
      if k in o.fields && k in m.fields && o.fields[k].Obj? && m.fields[k].Obj? {
        DiffEmpty(o.fields[k], m.fields[k]);
      }
    }
    assert o.fields == m.fields;
  }

  /** And equal documents do. */
  lemma {:induction false} DiffSame(o: Json)
    requires o.Obj?
    ensures Diff(o, o).fields == map[]
    decreases o
  {
    forall k | k in o.fields && o.fields[k].Obj? ensures Diff(o.fields[k], o.fields[k]).fields == map[] {
      DiffSame(o.fields[k]);
    }
  }

  lemma {:induction false} PatchIgnoresEqual(t: Json, o: Json, m: Json, path: seq<string>)
    requires o.Obj? && m.Obj?
    requires Lookup(m, path).Some? && Leaf(Lookup(m, path).value) && Lookup(o, path) == Lookup(m, path)
    ensures Lookup(MergePatch(t, Diff(o, m)), path) == Lookup(t, path)
    decreases path
  {
    var k := path[0];
    if path[1..] == [] {
      assert Lookup(m, path) == Some(m.fields[k]) && Lookup(o, path) == Some(o.fields[k]);
    } else {
      PatchIgnoresEqual(if k in Fields(t) then Fields(t)[k] else Null, o.fields[k], m.fields[k], path[1..]);
    }
  }

  /** The patched document has the value of `m` exactly if that changed, or was there already. */
  lemma PatchSetsExactly(t: Json, o: Json, m: Json, path: seq<string>)
    requires o.Obj? && m.Obj?
    requires Lookup(m, path).Some? && Leaf(Lookup(m, path).value)
    ensures Lookup(MergePatch(t, Diff(o, m)), path) == Lookup(m, path) <==>
            Lookup(o, path) != Lookup(m, path) || Lookup(t, path) == Lookup(m, path)
  {
    if Lookup(o, path) != Lookup(m, path) {
      PatchDelivers(t, o, m, path);
    } else {
      PatchIgnoresEqual(t, o, m, path);
    }
  }

  /** What the last configuration had and the new one lacks is gone from the patched document. */
  lemma {:induction false} PatchRemoves(t: Json, o: Json, m: Json, path: seq<string>)
    requires o.Obj? && m.Obj?
    requires Lookup(o, path).Some? && Lookup(m, path).None?
    ensures Lookup(MergePatch(t, Diff(o, m)), path).None?
    decreases path
  {
    var k := path[0];
    var t' := if k in Fields(t) then Fields(t)[k] else Null;
    if k in m.fields {
      if o.fields[k].Obj? && m.fields[k].Obj? {
        assert path[1..] != [];
        PatchRemoves(t', o.fields[k], m.fields[k], path[1..]);
        DiffOfChange(o.fields[k], m.fields[k], path[1..]);
        assert k in Diff(o, m).fields;
      } else {
        assert path[1..] != [] && o.fields[k].Obj? && !m.fields[k].Obj?;
        assert k in Diff(o, m).fields;
      }
    } else {
      assert k in Diff(o, m).fields;
    }
  }

  /** Neither configuration has anything to say about `path`: they have no value there, nor one in its way. */
  predicate Foreign(o: Json, m: Json, path: seq<string>)
    requires m.Obj?
    decreases path
  {
    && path != []
    && var k := path[0];
       if k in m.fields then
         && m.fields[k].Obj?
         && Foreign(if k in Fields(o) then Fields(o)[k] else Null, m.fields[k], path[1..])
       else k !in Fields(o)
  }

  lemma {:induction false} MergeKeepsForeign(t: Json, x: Json, path: seq<string>)
    requires x.Obj? && Foreign(Null, x, path) && Lookup(t, path).Some?
    ensures Lookup(MergePatch(t, x), path) == Lookup(t, path)
    decreases path
  {
    var k := path[0];
    if k in x.fields {
      MergeKeepsForeign(t.fields[k], x.fields[k], path[1..]);
    }
  }

  /** What others have put into the object stays as it is. */
  lemma {:induction false} PatchKeepsForeign(t: Json, o: Json, m: Json, path: seq<string>)
    requires o.Obj? && m.Obj? && Foreign(o, m, path) && Lookup(t, path).Some?
    ensures Lookup(MergePatch(t, Diff(o, m)), path) == Lookup(t, path)
    decreases path
  {
    var k := path[0];
    if k in m.fields {
      if k in o.fields && o.fields[k].Obj? {
        PatchKeepsForeign(t.fields[k], o.fields[k], m.fields[k], path[1..]);
      } else if k in Diff(o, m).fields {
        ForeignToAnything(if k in o.fields then o.fields[k] else Null, m.fields[k], path[1..]);
        MergeKeepsForeign(t.fields[k], m.fields[k], path[1..]);
      }
    }
  }

  lemma {:induction false} ForeignToAnything(o: Json, m: Json, path: seq<string>)
    requires m.Obj? && Foreign(o, m, path)
    ensures Foreign(Null, m, path)
    decreases path
  {
    var k := path[0];
    if k in m.fields {
      ForeignToAnything(if k in Fields(o) then Fields(o)[k] else Null, m.fields[k], path[1..]);
    }
  }
}
