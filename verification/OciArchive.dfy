/**
 The OCI layout archive: blobs are appended to a tar stream, and a sorted index of their digests
 tells which of them exist, and whether a directory for their algorithm has been written already.
 */
module OciArchive {

  import opened Strings

  // ------------------------------------------------------------------------------------------
  // Digests

  type Digest = string

  /** The position of the first colon. */
  function Separator(d: Digest): (i: nat)
    ensures i <= |d|
    ensures i < |d| ==> d[i] == ':'
    ensures ':' !in d[..i]
  {
    if d == [] || d[0] == ':' then 0
    else
      var i := Separator(d[1..]) + 1;
      assert d[..i] == [d[0]] + d[1..][..i - 1];
      i
  }

  function Algorithm(d: Digest): string { d[..Separator(d)] }

  predicate IsHex(s: string) { forall i :: 0 <= i < |s| ==> '0' <= s[i] <= '9' || 'a' <= s[i] <= 'f' }

  function HexLength(algorithm: string): nat {
    if algorithm == "sha256" then 64
    else if algorithm == "sha384" then 96
    else if algorithm == "sha512" then 128
    else 0
  }

  predicate Validate(d: Digest) {
    && Separator(d) < |d|
    && HexLength(Algorithm(d)) > 0
    && |d| - Separator(d) - 1 == HexLength(Algorithm(d))
    && IsHex(d[Separator(d) + 1..])
  }

  /** An algorithm and hexadecimal digits make up a valid digest exactly if there are as many digits as it takes. */
  lemma ValidDigests(algorithm: string, hex: string)
    requires ':' !in algorithm
    ensures Algorithm(algorithm + ":" + hex) == algorithm
    ensures Validate(algorithm + ":" + hex) <==>
            && (algorithm, |hex|) in {("sha256", 64), ("sha384", 96), ("sha512", 128)}
            && forall i :: 0 <= i < |hex| ==> hex[i] in "0123456789abcdef"
  {
    var d := algorithm + ":" + hex;
    var i := Separator(d);
    assert d[|algorithm|] == ':' && d[..|algorithm|] == algorithm;
    assert i == |algorithm|;
    assert d[i + 1..] == hex;
    HexDigits(hex);
  }

  lemma HexDigits(s: string)
    ensures IsHex(s) <==> forall i :: 0 <= i < |s| ==> s[i] in "0123456789abcdef"
  {
    forall i | 0 <= i < |s| ensures s[i] in "0123456789abcdef" <==> '0' <= s[i] <= '9' || 'a' <= s[i] <= 'f' {
      HexDigit(s[i]);
    }
  }

  lemma HexDigit(c: char)
    ensures c in "0123456789abcdef" <==> '0' <= c <= '9' || 'a' <= c <= 'f'
  {
    var digits := "0123456789abcdef";
    if '0' <= c <= '9' {
      assert digits[(c - '0') as nat] == c;
    } else if 'a' <= c <= 'f' {
      assert digits[10 + (c - 'a') as nat] == c;
    }
  }

  /** Digests share their algorithm exactly if they begin alike, up to the colon. */
  lemma SameAlgorithm(a: Digest, b: Digest)
    requires Separator(a) < |a| && Separator(b) < |b|
    ensures Algorithm(a) == Algorithm(b) <==> Algorithm(a) + ":" <= b
  {
    var i, j := Separator(a), Separator(b);
    var p := Algorithm(a) + ":";
    if Algorithm(a) == Algorithm(b) {
      assert b[..i + 1] == p;
    }
    if p <= b {
      assert b[..i] == Algorithm(a) && b[i] == p[i] == ':';
      assert forall k :: 0 <= k < i ==> b[k] == b[..i][k] != ':';
      assert forall k :: 0 <= k < j ==> b[k] == b[..j][k] != ':';
      assert i == j;
    }
  }

  // ------------------------------------------------------------------------------------------
  // The index

  predicate StrictlySorted(blobs: seq<Digest>) {
    forall i, j :: 0 <= i < j < |blobs| ==> Less(blobs[i], blobs[j])
  }

  /** Where a digest is, or would have to be inserted: the result of a binary search. */
  function Position(blobs: seq<Digest>, d: Digest, i: nat): (idx: nat)
    requires i <= |blobs|
    ensures i <= idx <= |blobs|
    ensures forall k :: i <= k < idx ==> Less(blobs[k], d)
    ensures idx < |blobs| ==> !Less(blobs[idx], d)
    decreases |blobs| - i
  {
    if i < |blobs| && Less(blobs[i], d) then Position(blobs, d, i + 1) else i
  }

  function Found(blobs: seq<Digest>, d: Digest): bool {
    var idx := Position(blobs, d, 0);
    idx < |blobs| && blobs[idx] == d
  }

  /** In a sorted index, searching decides membership. */
  lemma FoundIsMembership(blobs: seq<Digest>, d: Digest)
    requires StrictlySorted(blobs)
    ensures Found(blobs, d) <==> d in blobs
  {
    var idx := Position(blobs, d, 0);
    if d in blobs {
      var k :| 0 <= k < |blobs| && blobs[k] == d;
      LessIrreflexive(d);
    }
  }

  function Insert(blobs: seq<Digest>, idx: nat, d: Digest): seq<Digest>
    requires idx <= |blobs|
  {
    blobs[..idx] + [d] + blobs[idx..]
  }

  lemma AboveRest(blobs: seq<Digest>, d: Digest, j: nat)
    requires StrictlySorted(blobs) && d !in blobs && Position(blobs, d, 0) <= j < |blobs|
    ensures Less(d, blobs[j])
  {
    var idx := Position(blobs, d, 0);
    LessTotal(d, blobs[idx]);
    if idx < j {
      LessTransitive(d, blobs[idx], blobs[j]);
    }
  }

  lemma InsertSorted(blobs: seq<Digest>, d: Digest)
    requires StrictlySorted(blobs) && d !in blobs
    ensures StrictlySorted(Insert(blobs, Position(blobs, d, 0), d))
    ensures forall x :: x in Insert(blobs, Position(blobs, d, 0), d) <==> x == d || x in blobs
  {
    var idx := Position(blobs, d, 0);
    var r := Insert(blobs, idx, d);
    forall j | idx <= j < |blobs| ensures Less(d, blobs[j]) {
      AboveRest(blobs, d, j);
    }
    forall i, j | 0 <= i < j < |r| ensures Less(r[i], r[j]) {
      InsertAt(blobs, idx, d, i);
      InsertAt(blobs, idx, d, j);
    }
    assert blobs == blobs[..idx] + blobs[idx..];
  }

  lemma InsertAt(blobs: seq<Digest>, idx: nat, d: Digest, i: nat)
    requires idx <= |blobs| && i <= |blobs|
    ensures Insert(blobs, idx, d)[i] == if i < idx then blobs[i] else if i == idx then d else blobs[i - 1]
  {
  }

  /** The check of the two neighbours of the position where a digest is to be inserted. */
  predicate NeighboursDiffer(blobs: seq<Digest>, d: Digest) {
    var idx := Position(blobs, d, 0);
    && (idx == 0 || Algorithm(blobs[idx - 1]) != Algorithm(d))
    && (idx >= |blobs| || Algorithm(blobs[idx]) != Algorithm(d))
  }

  predicate AllValid(blobs: seq<Digest>) { forall i :: 0 <= i < |blobs| ==> Validate(blobs[i]) }

  lemma NeighbourHasAlgorithm(blobs: seq<Digest>, d: Digest, k: nat)
    requires StrictlySorted(blobs) && AllValid(blobs) && Validate(d) && d !in blobs
    requires k < |blobs| && Algorithm(blobs[k]) == Algorithm(d)
    ensures !NeighboursDiffer(blobs, d)
  {
    var idx, p := Position(blobs, d, 0), Algorithm(d) + ":";
    SameAlgorithm(d, d);
    SameAlgorithm(d, blobs[k]);
    if k < idx {
      if k < idx - 1 {
        PrefixConvex(p, blobs[k], blobs[idx - 1], d);
      }
      SameAlgorithm(d, blobs[idx - 1]);
    } else {
      AboveRest(blobs, d, idx);
      if idx < k {
        PrefixConvex(p, d, blobs[idx], blobs[k]);
      }
      SameAlgorithm(d, blobs[idx]);
    }
  }

  /** Two neighbours tell whether any digest with the same algorithm has been stored. */
  lemma NeighboursDecide(blobs: seq<Digest>, d: Digest)
    requires StrictlySorted(blobs) && AllValid(blobs) && Validate(d) && d !in blobs
    ensures NeighboursDiffer(blobs, d) <==> forall b :: b in blobs ==> Algorithm(b) != Algorithm(d)
  {
    forall b | b in blobs && Algorithm(b) == Algorithm(d) ensures !NeighboursDiffer(blobs, d) {
      var k :| 0 <= k < |blobs| && blobs[k] == b;
      NeighbourHasAlgorithm(blobs, d, k);
    }
  }

  // ------------------------------------------------------------------------------------------
  // The archive

  type Bytes = seq<int>

  datatype TarEntry = RootDir | AlgorithmDir(algorithm: string) | Blob(digest: Digest, size: nat, content: Bytes) | Torn

  /** The archive writer: broken for good after the first failure. */
  datatype State = State(broken: bool, blobs: seq<Digest>, tar: seq<TarEntry>)

  const EMPTY := State(false, [], [])

  /** Which writes to the tar stream fail. */
  datatype Faults = Faults(rootDir: bool, algorithmDir: bool, file: bool)

  datatype Result = Pushed | InvalidDigest | WriterBroken | AlreadyExists | WriteFailed | NotVerified

  /** A blob to be pushed: what it is claimed to be, and what is read from the source. */
  datatype Request = Request(digest: Digest, size: nat, content: Bytes, faults: Faults)

  /** The content is what the descriptor says; `hash` is the digest of a content. */
  predicate Verified(hash: Bytes -> Digest, r: Request) {
    |r.content| == r.size && hash(r.content) == r.digest
  }

  function Break(s: State): State { s.(broken := true, tar := s.tar + [Torn]) }

  function WriteRootDir(s: State, r: Request): State {
    if s.blobs != [] then s else if r.faults.rootDir then Break(s) else s.(tar := s.tar + [RootDir])
  }

  function WriteAlgorithmDir(s: State, r: Request): State {
    if s.broken || !NeighboursDiffer(s.blobs, r.digest) then s
    else if r.faults.algorithmDir then Break(s)
    else s.(tar := s.tar + [AlgorithmDir(Algorithm(r.digest))])
  }

  function WriteBlob(hash: Bytes -> Digest, s: State, r: Request): (State, Result) {
    if s.broken then (s, WriteFailed)
    else if r.faults.file then (Break(s), WriteFailed)
    else
      var s' := s.(tar := s.tar + [Blob(r.digest, r.size, r.content)]);
      if !Verified(hash, r) then (s'.(broken := true), NotVerified)
      else (s'.(blobs := Insert(s.blobs, Position(s.blobs, r.digest, 0), r.digest)), Pushed)
  }

  function PushSpec(hash: Bytes -> Digest, s: State, r: Request): (State, Result) {
    if !Validate(r.digest) then (s, InvalidDigest)
    else if s.broken then (s, WriterBroken)
    else if Found(s.blobs, r.digest) then (s, AlreadyExists)
    else WriteBlob(hash, WriteAlgorithmDir(WriteRootDir(s, r), r), r)
  }

  class Archive {
    const hash: Bytes -> Digest
    var broken: bool
    var blobs: seq<Digest>
    var tar: seq<TarEntry>

    ghost function Model(): State
      reads this
    {
      State(broken, blobs, tar)
    }

    constructor (hash: Bytes -> Digest)
      ensures this.hash == hash && Model() == EMPTY
    {
      this.hash := hash;
      broken, blobs, tar := false, [], [];
    }

    method Push(r: Request) returns (result: Result)
      modifies this
      ensures (Model(), result) == PushSpec(hash, old(Model()), r)
    {
      if !Validate(r.digest) {
        return InvalidDigest;
      }
      if broken {
        return WriterBroken;
      }
      var idx := Position(blobs, r.digest, 0);
      if idx < |blobs| && blobs[idx] == r.digest {
        return AlreadyExists;
      }
      if |blobs| < 1 {
        var ok := WriteTar(RootDir, r.faults.rootDir);
        if !ok {
          return WriteFailed;
        }
      }
      if (idx == 0 || Algorithm(blobs[idx - 1]) != Algorithm(r.digest)) &&
         (idx >= |blobs| || Algorithm(blobs[idx]) != Algorithm(r.digest)) {
        var ok := WriteTar(AlgorithmDir(Algorithm(r.digest)), r.faults.algorithmDir);
        if !ok {
          return WriteFailed;
        }
      }
      var ok := WriteTar(Blob(r.digest, r.size, r.content), r.faults.file);
      if !ok {
        return WriteFailed;
      }
      if !Verified(hash, r) {
        broken := true;
        return NotVerified;
      }
      blobs := blobs[..idx] + [r.digest] + blobs[idx..];
      return Pushed;
    }

    /** A write that fails breaks the writer. */
    method WriteTar(e: TarEntry, fails: bool) returns (ok: bool)
      modifies this`tar, this`broken
      ensures ok == !fails && blobs == old(blobs)
      ensures tar == old(tar) + [if fails then Torn else e] && broken == (old(broken) || fails)
    {
      if fails {
        tar, broken := tar + [Torn], true;
      } else {
        tar := tar + [e];
      }
      return !fails;
    }

    /** Tells exactly which digests have been stored, unless the writer is broken. */
    method Exists(d: Digest) returns (exists_: bool, ok: bool)
      requires StrictlySorted(blobs)
      ensures ok == !broken
      ensures ok ==> (exists_ <==> d in blobs)
    {
      if broken {
        return false, false;
      }
      FoundIsMembership(blobs, d);
      return Found(blobs, d), true;
    }
  }

  // ------------------------------------------------------------------------------------------
  // What is in the tar stream

  predicate Has(tar: seq<TarEntry>, e: TarEntry) { exists i :: 0 <= i < |tar| && tar[i] == e }

  /** Directories come once, and before the blobs in them. */
  predicate WellLaidOut(tar: seq<TarEntry>) {
    && (forall i, j :: 0 <= i < j < |tar| && (tar[i].RootDir? || tar[i].AlgorithmDir?) ==> tar[i] != tar[j])
    && (forall i :: 0 <= i < |tar| && tar[i].AlgorithmDir? ==> Has(tar[..i], RootDir))
    && (forall i :: 0 <= i < |tar| && tar[i].Blob? ==> Has(tar[..i], AlgorithmDir(Algorithm(tar[i].digest))))
  }

  /** The digest is stored: its blob was written completely and verified. */
  predicate Stored(hash: Bytes -> Digest, tar: seq<TarEntry>, d: Digest) {
    exists i :: 0 <= i < |tar| && IsBlobOf(hash, tar[i], d)
  }

  predicate IsBlobOf(hash: Bytes -> Digest, e: TarEntry, d: Digest) {
    e.Blob? && e.digest == d && |e.content| == e.size && hash(e.content) == d
  }

  ghost predicate Inv(hash: Bytes -> Digest, s: State) {
    && StrictlySorted(s.blobs) && AllValid(s.blobs)
    && WellLaidOut(s.tar)
    && (forall d :: Stored(hash, s.tar, d) <==> d in s.blobs)
    && (!s.broken ==>
          && (forall i :: 0 <= i < |s.tar| && s.tar[i].Blob? ==> s.tar[i].digest in s.blobs)
          && (Has(s.tar, RootDir) <==> s.blobs != [])
          && (forall g :: Has(s.tar, AlgorithmDir(g)) <==> exists d :: d in s.blobs && Algorithm(d) == g))
  }

  lemma HasAppend(tar: seq<TarEntry>, e: TarEntry, x: TarEntry)
    ensures Has(tar + [e], x) <==> Has(tar, x) || x == e
  {
    var t := tar + [e];
    if Has(tar, x) {
      var i :| 0 <= i < |tar| && tar[i] == x;
      assert t[i] == x;
    }
    assert t[|tar|] == e;
  }

  lemma StoredAppend(hash: Bytes -> Digest, tar: seq<TarEntry>, e: TarEntry, d: Digest)
    ensures Stored(hash, tar + [e], d) <==>
            Stored(hash, tar, d) || IsBlobOf(hash, e, d)
  {
    var t := tar + [e];
    if Stored(hash, tar, d) {
      var i :| 0 <= i < |tar| && IsBlobOf(hash, tar[i], d);
      assert t[i] == tar[i];
    }
    assert t[|tar|] == e;
  }

  lemma LaidOutAppend(tar: seq<TarEntry>, e: TarEntry)
    requires WellLaidOut(tar)
    requires e.RootDir? || e.AlgorithmDir? ==> !Has(tar, e)
    requires e.AlgorithmDir? ==> Has(tar, RootDir)
    requires e.Blob? ==> Has(tar, AlgorithmDir(Algorithm(e.digest)))
    ensures WellLaidOut(tar + [e])
  {
    var t := tar + [e];
    forall i | 0 <= i < |t| ensures i < |tar| ==> t[i] == tar[i] && t[..i] == tar[..i] {
    }
    assert t[..|tar|] == tar;
  }

  /** An entry that is no verified blob does not affect what is stored. */
  lemma AppendKeepsStored(hash: Bytes -> Digest, s: State, e: TarEntry)
    requires forall d :: Stored(hash, s.tar, d) <==> d in s.blobs
    requires forall d :: !IsBlobOf(hash, e, d)
    ensures forall d :: Stored(hash, s.tar + [e], d) <==> d in s.blobs
  {
    forall d ensures Stored(hash, s.tar + [e], d) <==> d in s.blobs {
      StoredAppend(hash, s.tar, e, d);
    }
  }

  lemma BreakKeepsInv(hash: Bytes -> Digest, s: State)
    requires StrictlySorted(s.blobs) && AllValid(s.blobs) && WellLaidOut(s.tar)
    requires forall d :: Stored(hash, s.tar, d) <==> d in s.blobs
    ensures Inv(hash, Break(s))
  {
    LaidOutAppend(s.tar, Torn);
    AppendKeepsStored(hash, s, Torn);
  }

  /** Ready for a blob: like the invariant, but its directory may be there before it. */
  ghost predicate Ready(hash: Bytes -> Digest, s: State, root: bool, extra: seq<string>) {
    && StrictlySorted(s.blobs) && AllValid(s.blobs) && !s.broken
    && WellLaidOut(s.tar)
    && (forall d :: Stored(hash, s.tar, d) <==> d in s.blobs)
    && (forall i :: 0 <= i < |s.tar| && s.tar[i].Blob? ==> s.tar[i].digest in s.blobs)
    && (Has(s.tar, RootDir) <==> root)
    && (forall g :: Has(s.tar, AlgorithmDir(g)) <==> g in extra || exists d :: d in s.blobs && Algorithm(d) == g)
  }

  lemma AppendDir(hash: Bytes -> Digest, s: State, e: TarEntry, root: bool, extra: seq<string>)
    requires Ready(hash, s, root, [])
    requires
      || (e == RootDir && !root && extra == [])
      || (e.AlgorithmDir? && root && !Has(s.tar, e) && extra == [e.algorithm])
    ensures Ready(hash, s.(tar := s.tar + [e]), true, extra)
  {
    LaidOutAppend(s.tar, e);
    HasAppend(s.tar, e, RootDir);
    forall d ensures Stored(hash, s.tar + [e], d) <==> d in s.blobs {
      StoredAppend(hash, s.tar, e, d);
    }
    forall g
      ensures Has(s.tar + [e], AlgorithmDir(g)) <==> g in extra || exists d :: d in s.blobs && Algorithm(d) == g
    {
      HasAppend(s.tar, e, AlgorithmDir(g));
    }
  }

  lemma RootDirStep(hash: Bytes -> Digest, s: State, r: Request)
    requires Inv(hash, s) && !s.broken
    ensures var s' := WriteRootDir(s, r);
            s'.blobs == s.blobs && (if s'.broken then Inv(hash, s') else Ready(hash, s', true, []))
  {
    assert Ready(hash, s, s.blobs != [], []);
    if s.blobs == [] {
      if r.faults.rootDir {
        BreakKeepsInv(hash, s);
      } else {
        AppendDir(hash, s, RootDir, false, []);
      }
    }
  }

  lemma AlgorithmDirStep(hash: Bytes -> Digest, s: State, r: Request)
    requires Ready(hash, s, true, []) && Validate(r.digest) && r.digest !in s.blobs
    ensures var s' := WriteAlgorithmDir(s, r);
            && s'.blobs == s.blobs
            && if s'.broken then Inv(hash, s') else Ready(hash, s', true, [Algorithm(r.digest)])
  {
    NeighboursDecide(s.blobs, r.digest);
    var g := Algorithm(r.digest);
    if NeighboursDiffer(s.blobs, r.digest) {
      if r.faults.algorithmDir {
        BreakKeepsInv(hash, s);
      } else {
        AppendDir(hash, s, AlgorithmDir(g), true, [g]);
      }
    } else {
      assert exists d :: d in s.blobs && Algorithm(d) == g;
    }
  }

  lemma BlobStep(hash: Bytes -> Digest, s: State, r: Request)
    requires Ready(hash, s, true, [Algorithm(r.digest)]) && Validate(r.digest) && r.digest !in s.blobs
    ensures Inv(hash, WriteBlob(hash, s, r).0)
  {
    if r.faults.file {
      BreakKeepsInv(hash, s);
    } else {
      var e := Blob(r.digest, r.size, r.content);
      var tar := s.tar + [e];
      LaidOutAppend(s.tar, e);
      if Verified(hash, r) {
        BlobStored(hash, s, r);
      } else {
        AppendKeepsStored(hash, s, e);
      }
    }
  }

  lemma BlobStored(hash: Bytes -> Digest, s: State, r: Request)
    requires Ready(hash, s, true, [Algorithm(r.digest)]) && Validate(r.digest) && r.digest !in s.blobs
    requires !r.faults.file && Verified(hash, r) && WellLaidOut(s.tar + [Blob(r.digest, r.size, r.content)])
    ensures Inv(hash, WriteBlob(hash, s, r).0)
  {
    InsertSorted(s.blobs, r.digest);
    BlobIndexed(hash, s, r, Insert(s.blobs, Position(s.blobs, r.digest, 0), r.digest));
  }

  lemma BlobIndexed(hash: Bytes -> Digest, s: State, r: Request, blobs: seq<Digest>)
    requires Ready(hash, s, true, [Algorithm(r.digest)]) && Validate(r.digest)
    requires Verified(hash, r) && WellLaidOut(s.tar + [Blob(r.digest, r.size, r.content)])
    requires StrictlySorted(blobs) && forall d :: d in blobs <==> d == r.digest || d in s.blobs
    ensures Inv(hash, State(false, blobs, s.tar + [Blob(r.digest, r.size, r.content)]))
  {
    var e := Blob(r.digest, r.size, r.content);
    forall i | 0 <= i < |blobs| ensures Validate(blobs[i]) {
      assert blobs[i] in blobs;
    }
    forall d ensures Stored(hash, s.tar + [e], d) <==> d in blobs {
      StoredAppend(hash, s.tar, e, d);
    }
    HasAppend(s.tar, e, RootDir);
    assert r.digest in blobs;
    forall g ensures Has(s.tar + [e], AlgorithmDir(g)) <==> exists d :: d in blobs && Algorithm(d) == g {
      DirIndexed(hash, s, r, blobs, g);
    }
  }

  lemma DirIndexed(hash: Bytes -> Digest, s: State, r: Request, blobs: seq<Digest>, g: string)
    requires
      Has(s.tar, AlgorithmDir(g)) <==> g in [Algorithm(r.digest)] || exists d :: d in s.blobs && Algorithm(d) == g
    requires forall d :: d in blobs <==> d == r.digest || d in s.blobs
    ensures Has(s.tar + [Blob(r.digest, r.size, r.content)], AlgorithmDir(g)) <==>
            exists d :: d in blobs && Algorithm(d) == g
  {
    HasAppend(s.tar, Blob(r.digest, r.size, r.content), AlgorithmDir(g));
    if g == Algorithm(r.digest) {
      assert r.digest in blobs;
    } else if Has(s.tar, AlgorithmDir(g)) {
      var d :| d in s.blobs && Algorithm(d) == g;
      assert d in blobs;
    }
  }

  /** Every push keeps the archive in order, whatever fails. */
  lemma PushKeepsInv(hash: Bytes -> Digest, s: State, r: Request)
    requires Inv(hash, s)
    ensures Inv(hash, PushSpec(hash, s, r).0)
    ensures s.broken ==> PushSpec(hash, s, r).0 == s
  {
    FoundIsMembership(s.blobs, r.digest);
    if Validate(r.digest) && !s.broken && r.digest !in s.blobs {
      RootDirStep(hash, s, r);
      var s1 := WriteRootDir(s, r);
      if !s1.broken {
        AlgorithmDirStep(hash, s1, r);
        var s2 := WriteAlgorithmDir(s1, r);
        if !s2.broken {
          BlobStep(hash, s2, r);
        }
      }
    }
  }

  // ------------------------------------------------------------------------------------------
  // What a push returns, and what it stores

  /** The digest is valid, the writer is in order, and the digest has not been stored yet. */
  predicate Wanted(s: State, r: Request) { Validate(r.digest) && !s.broken && r.digest !in s.blobs }

  /** No digest with the algorithm has been stored. */
  predicate NewAlgorithm(s: State, r: Request) {
    forall i :: 0 <= i < |s.blobs| ==> Algorithm(s.blobs[i]) != Algorithm(r.digest)
  }

  /** None of the writes fails that are needed for the blob. */
  predicate Writable(s: State, r: Request) {
    && (s.blobs == [] ==> !r.faults.rootDir)
    && (NewAlgorithm(s, r) ==> !r.faults.algorithmDir)
    && !r.faults.file
  }

  /** What a blob adds to the stream: the directories that are missing, and the blob itself. */
  function Additions(s: State, r: Request): seq<TarEntry> {
    (if s.blobs == [] then [RootDir] else []) +
    (if NewAlgorithm(s, r) then [AlgorithmDir(Algorithm(r.digest))] else []) +
    [Blob(r.digest, r.size, r.content)]
  }

  /**
   A blob is pushed if and only if it is wanted, all writes succeed, and its content has the size and the digest
   that it should have; then exactly it is stored, behind the directories that were missing. All other results
   have their reason, too, and leave the index as it is.
   */
  lemma PushResult(hash: Bytes -> Digest, s: State, r: Request)
    requires Inv(hash, s)
    ensures var (s', result) := PushSpec(hash, s, r);
            var verified := |r.content| == r.size && hash(r.content) == r.digest;
            && (result.Pushed? <==> Wanted(s, r) && Writable(s, r) && verified)
            && (result.Pushed? ==>
                  && !s'.broken && s'.tar == s.tar + Additions(s, r)
                  && forall d :: d in s'.blobs <==> d == r.digest || d in s.blobs)
            && (result.NotVerified? <==> Wanted(s, r) && Writable(s, r) && !verified)
            && (result.WriteFailed? <==> Wanted(s, r) && !Writable(s, r))
            && (result.NotVerified? || result.WriteFailed? ==> s'.broken && s'.blobs == s.blobs)
  {
    FoundIsMembership(s.blobs, r.digest);
    if Wanted(s, r) {
      NeighboursDecide(s.blobs, r.digest);
      assert NewAlgorithm(s, r) <==> NeighboursDiffer(s.blobs, r.digest);
      DirectoriesResult(s, r);
      InsertSorted(s.blobs, r.digest);
    }
  }

  /** The directories that are missing are written, unless that fails. */
  lemma DirectoriesResult(s: State, r: Request)
    requires Wanted(s, r) && (NewAlgorithm(s, r) <==> NeighboursDiffer(s.blobs, r.digest))
    ensures var s' := WriteAlgorithmDir(WriteRootDir(s, r), r);
            && s'.blobs == s.blobs
            && (s'.broken <==> (s.blobs == [] && r.faults.rootDir) || (NewAlgorithm(s, r) && r.faults.algorithmDir))
            && (!s'.broken ==> s'.tar + [Blob(r.digest, r.size, r.content)] == s.tar + Additions(s, r))
  {
  }

  /** What is not wanted is turned down for the reason that applies, without any change. */
  lemma PushRefused(hash: Bytes -> Digest, s: State, r: Request)
    requires StrictlySorted(s.blobs)
    ensures var (s', result) := PushSpec(hash, s, r);
            && (result.InvalidDigest? <==> !Validate(r.digest))
            && (result.WriterBroken? <==> Validate(r.digest) && s.broken)
            && (result.AlreadyExists? <==> Validate(r.digest) && !s.broken && r.digest in s.blobs)
            && (!Wanted(s, r) ==> s' == s)
  {
    FoundIsMembership(s.blobs, r.digest);
  }

  function PushAll(hash: Bytes -> Digest, rs: seq<Request>): State {
    if rs == [] then EMPTY else PushSpec(hash, PushAll(hash, rs[..|rs| - 1]), rs[|rs| - 1]).0
  }

  /**
   After any sequence of pushes, failing or not, and broken or not: the index is strictly sorted and holds
   exactly the digests of the blobs that were written completely and verified, and directories come once and
   before their blobs. Unless the writer is broken, a directory is there for exactly their algorithms.
   */
  lemma {:induction false} ArchiveIsSound(hash: Bytes -> Digest, rs: seq<Request>)
    ensures Inv(hash, PushAll(hash, rs))
  {
    if rs != [] {
      ArchiveIsSound(hash, rs[..|rs| - 1]);
      PushKeepsInv(hash, PushAll(hash, rs[..|rs| - 1]), rs[|rs| - 1]);
    }
  }

  /** Once broken, nothing more is emitted. */
  lemma {:induction false} BrokenForGood(hash: Bytes -> Digest, rs: seq<Request>, n: nat)
    requires n <= |rs| && PushAll(hash, rs[..n]).broken
    ensures PushAll(hash, rs) == PushAll(hash, rs[..n])
    decreases |rs|
  {
    if n < |rs| {
      var last := |rs| - 1;
      assert rs[..last][..n] == rs[..n];
      BrokenForGood(hash, rs[..last], n);
    } else {
      assert rs[..n] == rs;
    }
  }
}
