/** The downloader as a client of the atomic writer: what it returns has been checked. */
module Download {

  import opened Basics
  import opened AtomicFile

  /** A hash function, and what has been written to the hasher so far. */
  class Hasher {
    const sum: Bytes -> Bytes
    var fed: Bytes

    constructor (sum: Bytes -> Bytes)
      ensures this.sum == sum && fed == []
    {
      this.sum, this.fed := sum, [];
    }

    method Write(p: Bytes)
      modifies this
      ensures fed == old(fed) + p
    {
      fed := fed + p;
    }
  }

  /** The expected hash as it is configured, and as it is decoded. */
  datatype Expectation = NoHash | Undecodable | Decoded(hash: Bytes)

  /** What comes over the wire: the portions, the suggested file name, and how it ends. */
  datatype Response = Response(portions: seq<(Bytes, nat)>, suggestedName: Option<string>, completes: bool)

  function Concat(portions: seq<(Bytes, nat)>): Bytes {
    if portions == [] then [] else Concat(portions[..|portions| - 1]) + portions[|portions| - 1].0
  }

  /** Everything that can go wrong besides the download itself. */
  datatype Circumstances = Circumstances(tmp: Path, openFails: bool, finish: Faults, close: Faults)

  predicate CheckEnabled(hasher: Hasher?, expected: Expectation) { hasher != null && !expected.NoHash? }

  /** The path that a file name leads to in a directory; only proper names lead into it. */
  ghost predicate Joins(join: (string, string) -> Path) {
    forall dir, base :: ValidBaseName(base) ==> join(dir, base) == Path(dir, base)
  }

  /** The file has been stored: it is complete, and it has the expected hash if there is one. */
  ghost predicate StoredAndChecked(
      before: Files, after: Files, path: Path, content: Bytes, hasher: Hasher?, fedBefore: Bytes, expected: Expectation)
  {
    && path in after && after[path].content == content
    && after == before[path := after[path]]
    && (CheckEnabled(hasher, expected) ==> expected.Decoded? && hasher.sum(fedBefore + content) == expected.hash)
  }

  /** The name under which the file is stored in the end. */
  function FinalName(fileName: string, response: Response): string {
    if fileName != "" then fileName
    else if response.suggestedName.Some? then response.suggestedName.value
    else "download"
  }

  /** Everything works out: names, the transfer, the hash, and the file operations. */
  ghost predicate WorksOut(
      hasher: Hasher?, fedBefore: Bytes, expected: Expectation, fileName: string, dir: string, response: Response,
      c: Circumstances)
  {
    && (CheckEnabled(hasher, expected) ==>
          expected.Decoded? && hasher.sum(fedBefore + Concat(response.portions)) == expected.hash)
    && ('/' !in fileName || fileName == "/")
    && !c.openFails
    && AllAccepted(response.portions) && response.completes
    && (fileName == "" ==> response.suggestedName.Some?)
    && AcceptsBaseName(dir, FinalName(fileName, response))
    && !FinishFails(PLAIN, c.finish)
  }

  predicate AllAccepted(portions: seq<(Bytes, nat)>) {
    forall i :: 0 <= i < |portions| ==> |portions[i].0| <= portions[i].1
  }

  /**
   Succeeds if and only if everything works out, and then with hash-checked content at the returned path, and
   without any other change; fails
   without any change, unless the temporary file could not be removed.
   */
  method Download(
      fs: FileSystem, hasher: Hasher?, expected: Expectation, dir: string, fileName: string,
      join: (string, string) -> Path, response: Response, c: Circumstances)
    returns (path: Option<Path>)
    requires c.tmp !in fs.disk.files && Joins(join)
    modifies fs, hasher
    ensures path.Some? <==>
              WorksOut(hasher, if hasher == null then [] else old(hasher.fed), expected, fileName,
                       join(dir, if fileName == "" then "download" else fileName).dir, response, c)
    ensures path.Some? ==> path.value.base == FinalName(fileName, response)
    ensures path.Some? ==>
              StoredAndChecked(old(fs.disk.files), fs.disk.files, path.value, Concat(response.portions),
                               hasher, if hasher == null then [] else old(hasher.fed), expected)
    ensures path.Some? ==> path.value.dir == join(dir, if fileName == "" then "download" else fileName).dir
    ensures path.Some? ==> AcceptsBaseName(path.value.dir, path.value.base)
    ensures path.None? ==> fs.disk.files - {c.tmp} == old(fs.disk.files)
    ensures path.None? && c.tmp in fs.disk.files ==> c.finish.remove || c.close.remove
  {
    if CheckEnabled(hasher, expected) && expected.Undecodable? {
      assert fs.disk.files - {c.tmp} == fs.disk.files;
      return None;
    }
    var name := fileName;
    if fileName == "" {
      name := "download";
    } else if '/' in fileName && fileName != "/" {
      assert fs.disk.files - {c.tmp} == fs.disk.files;
      return None;
    }
    if c.openFails {
      assert fs.disk.files - {c.tmp} == fs.disk.files;
      return None;
    }
    var target := new Atomic(fs, join(dir, name), PLAIN, c.tmp);
    ghost var before := old(fs.disk);
    OpenedInv(before, join(dir, name), PLAIN, c.tmp);
    ghost var fed := if hasher == null then [] else old(hasher.fed);

    var ok := Receive(before, target, if CheckEnabled(hasher, expected) then hasher else null, response.portions);
    ok := ok && response.completes;
    if ok && fileName == "" {
      if response.suggestedName.None? {
        ok := false;
      } else {
        name := response.suggestedName.value;
      }
    }
    if ok && CheckEnabled(hasher, expected) {
      ok := hasher.sum(hasher.fed) == expected.hash;
    }
    ok := Conclude(before, target, ok, name, c);
    path := if ok then Some(Path(target.target.dir, name)) else None;
  }

  /** Finishes the file if it is wanted, and closes it in any case. */
  method Conclude(ghost before: Disk, target: Atomic, wanted: bool, name: string, c: Circumstances) returns (ok: bool)
    requires Inv(before, target.target.dir, target.Model()) && !target.closed
    modifies target, target.fs
    ensures ok <==>
              wanted && AcceptsBaseName(target.target.dir, name) && !FinishFails(target.wanted, c.finish)
    ensures ok ==>
              var path, files := Path(target.target.dir, name), target.fs.disk.files;
              && wanted && AcceptsBaseName(path.dir, name)
              && path in files && files[path].content == old(target.written)
              && files == before.files[path := files[path]]
    ensures !ok ==>
              && target.fs.disk.files - {target.tmp} == before.files
              && (target.tmp in target.fs.disk.files ==> c.finish.remove || c.close.remove)
  {
    ok := wanted;
    if ok {
      if AcceptsBaseName(target.target.dir, name) {
        FinishStep(before, target.target.dir, target.Model(), Path(target.target.dir, name), c.finish);
        FinishSucceeds(before, target.target.dir, target.Model(), Path(target.target.dir, name), c.finish);
      }
      ok := target.FinishWithBaseName(name, c.finish);
    }
    CloseStep(before, target.target.dir, target.Model(), c.close);
    var closed := target.Close(c.close);
    ok := ok && closed;
  }

  /** Copies everything into the hasher, if there is one, and the file; the first short write ends it. */
  method Receive(ghost before: Disk, target: Atomic, hasher: Hasher?, portions: seq<(Bytes, nat)>) returns (ok: bool)
    requires Inv(before, target.target.dir, target.Model()) && !target.closed && target.written == []
    modifies target, target.fs, hasher
    ensures Inv(before, target.target.dir, target.Model()) && !target.closed
    ensures ok <==> AllAccepted(portions)
    ensures ok ==> target.written == Concat(portions)
    ensures ok && hasher != null ==> hasher.fed == old(hasher.fed) + Concat(portions)
  {
    for i := 0 to |portions|
      invariant Inv(before, target.target.dir, target.Model()) && !target.closed
      invariant target.written == Concat(portions[..i]) && AllAccepted(portions[..i])
      invariant hasher != null ==> hasher.fed == old(hasher.fed) + Concat(portions[..i])
    {
      assert portions[..i + 1][..i] == portions[..i];
      if hasher != null {
        hasher.Write(portions[i].0);
      }
      WriteStep(before, target.target.dir, target.Model(), portions[i].0, portions[i].1);
      var written := target.Write(portions[i].0, portions[i].1);
      if !written {
        return false;
      }
      assert portions[i].0[..|portions[i].0|] == portions[i].0;
    }
    assert portions[..|portions|] == portions;
    return true;
  }
}
