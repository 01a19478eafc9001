/**
 The atomic file writer: bytes go into a temporary file, which is renamed to the target once it is
 complete. Any of the calls to the operating system may fail.
 */
module AtomicFile {

  import opened Basics

  type Bytes = seq<int>

  datatype Path = Path(dir: string, base: string)

  /** The properties of a file that can be asked for; none of them is set on a temporary file at first. */
  datatype Attributes = Attributes(
    mode: Option<nat>, mtime: Option<int>, owner: Option<(int, int)>, context: Option<string>)

  const PLAIN := Attributes(None, None, None, None)

  datatype File = File(content: Bytes, attributes: Attributes)

  type Files = map<Path, File>

  datatype ChownFault = ChownFine | ChownUnsupported | ChownFailed
  datatype LabelFault = LabelFine | LabelDisabled | LabelInvalid | LabelFailed

  /** Which of the calls that are made while finishing or closing fail. */
  datatype Faults = Faults(
    sync: bool, close: bool, chmod: bool, chtimes: bool,
    chown: ChownFault, relabel: LabelFault, rename: bool, remove: bool)

  /** The disk with all the renames so far. */
  datatype Disk = Disk(files: Files, renames: nat)

  /** An opened writer and what has been accepted by it. */
  datatype Handle = Handle(target: Path, wanted: Attributes, tmp: Path, open: bool, closed: bool, written: Bytes)

  datatype State = State(disk: Disk, handle: Handle)

  // ------------------------------------------------------------------------------------------
  // Specification

  function SetFile(s: State, f: File): State { s.(disk := s.disk.(files := s.disk.files[s.handle.tmp := f])) }

  /** Writes what the operating system accepts. */
  function WriteSpec(s: State, p: Bytes, accepted: nat): (State, bool)
  {
    if !s.handle.open then (s, false) else
    var n := if accepted < |p| then accepted else |p|;
    var h := s.handle.(written := s.handle.written + p[..n]);
    var old_ := if h.tmp in s.disk.files then s.disk.files[h.tmp] else File([], PLAIN);
    (SetFile(s.(handle := h), old_.(content := old_.content + p[..n])), n == |p|)
  }

  /** Failing to remove a file that does not exist is no failure. */
  function RemoveTmp(s: State, faults: Faults): State {
    if faults.remove then s else s.(disk := s.disk.(files := s.disk.files - {s.handle.tmp}))
  }

  /**
   Everything that is done to the temporary file before it is renamed: what it has got at the end, or at
   the first failure. Owners that are not supported and labels that are not known are left out.
   */
  function Prepare(a: Attributes, wanted: Attributes, faults: Faults): (Attributes, bool) {
    if wanted.mode.Some? && faults.chmod then (a, false) else
    var a1 := if wanted.mode.Some? then a.(mode := wanted.mode) else a;
    if wanted.mtime.Some? && faults.chtimes then (a1, false) else
    var a2 := if wanted.mtime.Some? then a1.(mtime := wanted.mtime) else a1;
    if wanted.owner.Some? && faults.chown.ChownFailed? then (a2, false) else
    var a3 := if wanted.owner.Some? && faults.chown.ChownFine? then a2.(owner := wanted.owner) else a2;
    if wanted.context.Some? && faults.relabel.LabelFailed? then (a3, false) else
    (if wanted.context.Some? && faults.relabel.LabelFine? then a3.(context := wanted.context) else a3, true)
  }

  function FinishSpec(s: State, target: Path, faults: Faults): (State, bool) {
    if s.handle.closed then (s, false) else
    var s1 := s.(handle := s.handle.(closed := true, open := false));
    if faults.sync || faults.close || s.handle.tmp !in s.disk.files then (RemoveTmp(s1, faults), false) else
    var f := s.disk.files[s.handle.tmp];
    var (attributes, ok) := Prepare(f.attributes, s.handle.wanted, faults);
    var f' := f.(attributes := attributes);
    if !ok || faults.rename then (RemoveTmp(SetFile(s1, f'), faults), false)
    else (s1.(disk := Disk((s.disk.files - {s.handle.tmp})[target := f'], s.disk.renames + 1)), true)
  }

  /** A name that stands for a file in the same directory. */
  predicate ValidBaseName(base: string) { base != "" && base != "." && base != ".." && '/' !in base }

  /** The names that are accepted: those, and the root directory as its own base name. */
  predicate AcceptsBaseName(dir: string, base: string) { ValidBaseName(base) || (base == "/" && dir == "/") }

  function FinishWithBaseNameSpec(s: State, base: string, faults: Faults): (State, bool) {
    if !AcceptsBaseName(s.handle.target.dir, base) then (s, false)
    else FinishSpec(s, Path(s.handle.target.dir, base), faults)
  }

  function CloseSpec(s: State, faults: Faults): (State, bool) {
    if s.handle.closed then (s, true) else
    (RemoveTmp(s.(handle := s.handle.(closed := true, open := false)), faults), !faults.close && !faults.remove)
  }

  // ------------------------------------------------------------------------------------------
  // The writer

  class FileSystem {
    var disk: Disk

    constructor (disk: Disk)
      ensures this.disk == disk
    {
      this.disk := disk;
    }

    method Rename(from: Path, to: Path, fails: bool) returns (ok: bool)
      modifies this
      ensures ok <==> !fails && from in old(disk).files
      ensures ok ==> disk == Disk((old(disk).files - {from})[to := old(disk).files[from]], old(disk).renames + 1)
      ensures !ok ==> disk == old(disk)
    {
      if fails || from !in disk.files {
        return false;
      }
      disk := Disk((disk.files - {from})[to := disk.files[from]], disk.renames + 1);
      return true;
    }

    /** Changes the properties of a file. */
    method SetAttributes(p: Path, attributes: Attributes)
      requires p in disk.files
      modifies this
      ensures disk == old(disk).(files := old(disk).files[p := old(disk).files[p].(attributes := attributes)])
    {
      disk := disk.(files := disk.files[p := disk.files[p].(attributes := attributes)]);
    }

    method Remove(p: Path, fails: bool) returns (ok: bool)
      modifies this
      ensures ok == !fails
      ensures disk == if fails then old(disk) else old(disk).(files := old(disk).files - {p})
    {
      if !fails {
        disk := disk.(files := disk.files - {p});
      }
      return !fails;
    }
  }

  class Atomic {
    const fs: FileSystem
    const target: Path
    const wanted: Attributes
    const tmp: Path
    var open: bool
    var closed: bool
    var written: Bytes

    ghost function Model(): State
      reads this, fs
    {
      State(fs.disk, Handle(target, wanted, tmp, open, closed, written))
    }

    /** Creates the temporary file under a name that is not in use. */
    constructor (fs: FileSystem, target: Path, wanted: Attributes, tmp: Path)
      requires tmp !in fs.disk.files
      modifies fs
      ensures Model() == State(old(fs.disk).(files := old(fs.disk).files[tmp := File([], PLAIN)]),
                               Handle(target, wanted, tmp, true, false, []))
      ensures this.fs == fs
    {
      this.fs, this.target, this.wanted, this.tmp := fs, target, wanted, tmp;
      open, closed, written := true, false, [];
      new;
      fs.disk := fs.disk.(files := fs.disk.files[tmp := File([], PLAIN)]);
    }

    method Write(p: Bytes, accepted: nat) returns (ok: bool)
      modifies this, fs
      ensures (Model(), ok) == WriteSpec(old(Model()), p, accepted)
    {
      if !open {
        return false;
      }
      var n := if accepted < |p| then accepted else |p|;
      var f := if tmp in fs.disk.files then fs.disk.files[tmp] else File([], PLAIN);
      fs.disk := fs.disk.(files := fs.disk.files[tmp := f.(content := f.content + p[..n])]);
      written := written + p[..n];
      return n == |p|;
    }

    method Finish(faults: Faults) returns (ok: bool)
      modifies this, fs
      ensures (Model(), ok) == FinishSpec(old(Model()), target, faults)
    {
      ok := FinishAt(target, faults);
    }

    method FinishWithBaseName(base: string, faults: Faults) returns (ok: bool)
      modifies this, fs
      ensures (Model(), ok) == FinishWithBaseNameSpec(old(Model()), base, faults)
    {
      if !AcceptsBaseName(target.dir, base) {
        return false;
      }
      ok := FinishAt(Path(target.dir, base), faults);
    }

    method FinishAt(target: Path, faults: Faults) returns (ok: bool)
      modifies this, fs
      ensures (Model(), ok) == FinishSpec(old(Model()), target, faults)
    {
      if closed {
        return false;
      }
      closed, open := true, false;
      if faults.sync || faults.close || tmp !in fs.disk.files {
        var removed := fs.Remove(tmp, faults.remove);
        return false;
      }
      ok := ApplyAttributes(faults);
      assert fs.disk.files - {tmp} == old(fs.disk).files - {tmp};
      if ok {
        ok := fs.Rename(tmp, target, faults.rename);
      }
      if !ok {
        var removed := fs.Remove(tmp, faults.remove);
      }
    }

    /** The steps between closing the file and the rename; the first failure ends them. */
    method ApplyAttributes(faults: Faults) returns (ok: bool)
      requires tmp in fs.disk.files
      modifies fs
      ensures var f := old(fs.disk).files[tmp];
              var (a, done) := Prepare(f.attributes, wanted, faults);
              ok == done && fs.disk == old(fs.disk).(files := old(fs.disk).files[tmp := f.(attributes := a)])
    {
      var a := fs.disk.files[tmp].attributes;
      if wanted.mode.Some? {
        if faults.chmod {
          fs.SetAttributes(tmp, a);
          return false;
        }
        a := a.(mode := wanted.mode);
      }
      if wanted.mtime.Some? {
        if faults.chtimes {
          fs.SetAttributes(tmp, a);
          return false;
        }
        a := a.(mtime := wanted.mtime);
      }
      if wanted.owner.Some? {
        if faults.chown.ChownFailed? {
          fs.SetAttributes(tmp, a);
          return false;
        }
        if faults.chown.ChownFine? {
          a := a.(owner := wanted.owner);
        }
      }
      if wanted.context.Some? && !faults.relabel.LabelDisabled? {
        if faults.relabel.LabelFailed? {
          fs.SetAttributes(tmp, a);
          return false;
        }
        if faults.relabel.LabelFine? {
          a := a.(context := wanted.context);
        }
      }
      fs.SetAttributes(tmp, a);
      return true;
    }

    method Close(faults: Faults) returns (ok: bool)
      modifies this, fs
      ensures (Model(), ok) == CloseSpec(old(Model()), faults)
    {
      if closed {
        return true;
      }
      closed, open := true, false;
      var removed := fs.Remove(tmp, faults.remove);
      return !faults.close && removed;
    }
  }

  /** The content that the callback of Do writes, portion by portion, and what it returns in the end. */
  datatype Script = Script(portions: seq<(Bytes, nat)>, succeeds: bool)

  function WriteAll(s: State, portions: seq<(Bytes, nat)>): State {
    if portions == [] then s else
    var last := portions[|portions| - 1];
    WriteSpec(WriteAll(s, portions[..|portions| - 1]), last.0, last.1).0
  }

  /** What has been accepted of the portions. */
  function Accepted(portions: seq<(Bytes, nat)>): Bytes {
    if portions == [] then [] else
    var (p, n) := portions[|portions| - 1];
    Accepted(portions[..|portions| - 1]) + p[..if n < |p| then n else |p|]
  }

  /** The state right after a writer has been opened. */
  function Opened(disk: Disk, target: Path, wanted: Attributes, tmp: Path): State {
    State(disk.(files := disk.files[tmp := File([], PLAIN)]), Handle(target, wanted, tmp, true, false, []))
  }

  function DoSpec(s: State, script: Script, finish: Faults, close: Faults): (State, bool) {
    var s1 := WriteAll(s, script.portions);
    var (s2, finished) := if script.succeeds then FinishSpec(s1, s1.handle.target, finish) else (s1, false);
    var (s3, closed) := CloseSpec(s2, close);
    (s3, finished && closed)
  }

  /** The whole of an atomic write. */
  method Do(fs: FileSystem, target: Path, wanted: Attributes, tmp: Path, script: Script, finish: Faults, close: Faults)
    returns (ok: bool)
    requires tmp !in fs.disk.files
    modifies fs
    ensures var (s, done) := DoSpec(Opened(old(fs.disk), target, wanted, tmp), script, finish, close);
            fs.disk == s.disk && ok == done
  {
    var f := new Atomic(fs, target, wanted, tmp);
    ghost var start := Opened(old(fs.disk), target, wanted, tmp);
    for i := 0 to |script.portions|
      invariant f.fs == fs && fresh(f)
      invariant f.Model() == WriteAll(start, script.portions[..i])
    {
      assert script.portions[..i + 1][..i] == script.portions[..i];
      var accepted := f.Write(script.portions[i].0, script.portions[i].1);
    }
    assert script.portions[..|script.portions|] == script.portions;
    WriteAllTarget(start, script.portions);
    ok := script.succeeds;
    if ok {
      ok := f.Finish(finish);
    }
    var closed := f.Close(close);
    ok := ok && closed;
  }

  lemma {:induction false} WriteAllTarget(s: State, portions: seq<(Bytes, nat)>)
    ensures WriteAll(s, portions).handle.target == s.handle.target
  {
    if portions != [] {
      WriteAllTarget(s, portions[..|portions| - 1]);
    }
  }

  // ------------------------------------------------------------------------------------------
  // What any sequence of calls amounts to

  datatype Call =
    | Write(p: Bytes, accepted: nat)
    | Finish(faults: Faults)
    | FinishWithBaseName(base: string, faults: Faults)
    | Close(faults: Faults)

  function Step(s: State, c: Call): (State, bool) {
    match c
    case Write(p, n) => WriteSpec(s, p, n)
    case Finish(faults) => FinishSpec(s, s.handle.target, faults)
    case FinishWithBaseName(base, faults) => FinishWithBaseNameSpec(s, base, faults)
    case Close(faults) => CloseSpec(s, faults)
  }

  function Steps(s: State, calls: seq<Call>): State {
    if calls == [] then s else Step(Steps(s, calls[..|calls| - 1]), calls[|calls| - 1]).0
  }

  /** The file appeared: it replaced `path` completely, and the temporary file is gone. */
  predicate Appeared(before: Disk, s: State, path: Path) {
    && s.disk.renames == before.renames + 1
    && path in s.disk.files && s.disk.files[path].content == s.handle.written
    && s.disk.files == before.files[path := s.disk.files[path]]
  }

  /** Nothing appeared: all files are as before, but for the temporary file that may be left. */
  predicate Untouched(before: Disk, s: State, leftover: bool) {
    && s.disk.renames == before.renames
    && s.disk.files - {s.handle.tmp} == before.files
    && (s.handle.tmp in s.disk.files <==> leftover)
  }

  /** What can have become of the disk `before` since a writer was opened with the given target directory. */
  ghost predicate Inv(before: Disk, dir: string, s: State) {
    && s.handle.tmp !in before.files && s.handle.target.dir == dir
    && (s.handle.open <==> !s.handle.closed)
    && if !s.handle.closed then
         Untouched(before, s, true) && s.disk.files[s.handle.tmp] == File(s.handle.written, PLAIN)
       else
         || (exists leftover :: Untouched(before, s, leftover))
         || (exists base :: Appeared(before, s, Path(dir, base)))
  }

  lemma OpenedInv(before: Disk, target: Path, wanted: Attributes, tmp: Path)
    requires tmp !in before.files
    ensures Inv(before, target.dir, Opened(before, target, wanted, tmp))
  {
  }

  lemma WriteStep(before: Disk, dir: string, s: State, p: Bytes, n: nat)
    requires Inv(before, dir, s)
    ensures Inv(before, dir, WriteSpec(s, p, n).0)
  {
  }

  lemma RemoveStep(before: Disk, dir: string, s: State, faults: Faults)
    requires s.handle.tmp !in before.files && s.handle.target.dir == dir && s.handle.closed && !s.handle.open
    requires Untouched(before, s, true)
    ensures Untouched(before, RemoveTmp(s, faults), faults.remove)
    ensures Inv(before, dir, RemoveTmp(s, faults))
  {
    var s' := RemoveTmp(s, faults);
    assert s'.disk.files - {s.handle.tmp} == before.files;
    assert Untouched(before, s', faults.remove);
  }

  lemma FinishStep(before: Disk, dir: string, s: State, target: Path, faults: Faults)
    requires Inv(before, dir, s) && target.dir == dir
    ensures var (s', ok) := FinishSpec(s, target, faults);
            && Inv(before, dir, s')
            && (ok ==> Appeared(before, s', target))
            && (!ok && !s.handle.closed ==> Untouched(before, s', faults.remove))
  {
    if !s.handle.closed {
      var s1 := s.(handle := s.handle.(closed := true, open := false));
      var f := s.disk.files[s.handle.tmp];
      var (attributes, prepared) := Prepare(f.attributes, s.handle.wanted, faults);
      var s2 := SetFile(s1, f.(attributes := attributes));
      assert s2.disk.files - {s.handle.tmp} == s.disk.files - {s.handle.tmp};
      RemoveStep(before, dir, s1, faults);
      RemoveStep(before, dir, s2, faults);
      var (s', ok) := FinishSpec(s, target, faults);
      if ok {
        assert s'.disk.files == before.files[target := s'.disk.files[target]];
        assert Appeared(before, s', Path(dir, target.base));
      }
    }
  }

  lemma CloseStep(before: Disk, dir: string, s: State, faults: Faults)
    requires Inv(before, dir, s)
    ensures var (s', ok) := CloseSpec(s, faults);
            && Inv(before, dir, s')
            && (s.handle.closed ==> s' == s && ok)
            && (!s.handle.closed ==> Untouched(before, s', faults.remove))
  {
    if !s.handle.closed {
      RemoveStep(before, dir, s.(handle := s.handle.(closed := true, open := false)), faults);
    }
  }

  /**
   Whatever is called in whatever order, and whatever fails: at most one rename happens, it puts exactly
   what was written at a path in the target's directory, and no other file is ever touched.
   */
  lemma {:induction false} AnyCalls(before: Disk, target: Path, wanted: Attributes, tmp: Path, calls: seq<Call>)
    requires tmp !in before.files
    ensures Inv(before, target.dir, Steps(Opened(before, target, wanted, tmp), calls))
    ensures Steps(Opened(before, target, wanted, tmp), calls).disk.renames <= before.renames + 1
  {
    var start := Opened(before, target, wanted, tmp);
    if calls == [] {
      OpenedInv(before, target, wanted, tmp);
    } else {
      var last := |calls| - 1;
      AnyCalls(before, target, wanted, tmp, calls[..last]);
      var s := Steps(start, calls[..last]);
      match calls[last]
      case Write(p, n) => WriteStep(before, target.dir, s, p, n);
      case Finish(faults) => FinishStep(before, target.dir, s, s.handle.target, faults);
      case FinishWithBaseName(base, faults) =>
        if AcceptsBaseName(target.dir, base) { FinishStep(before, target.dir, s, Path(target.dir, base), faults); }
      case Close(faults) => CloseStep(before, target.dir, s, faults);
    }
  }

  lemma {:induction false} WriteAllInv(before: Disk, s: State, portions: seq<(Bytes, nat)>)
    requires Inv(before, s.handle.target.dir, s) && !s.handle.closed && s.handle.written == []
    ensures var s' := WriteAll(s, portions);
            && Inv(before, s.handle.target.dir, s') && !s'.handle.closed
            && s'.handle.target == s.handle.target && s'.handle.tmp == s.handle.tmp
            && s'.handle.wanted == s.handle.wanted
            && s'.handle.written == Accepted(portions)
  {
    if portions != [] {
      var last := portions[|portions| - 1];
      WriteAllInv(before, s, portions[..|portions| - 1]);
      WriteStep(before, s.handle.target.dir, WriteAll(s, portions[..|portions| - 1]), last.0, last.1);
    }
  }

  /** Something that has to be done when finishing fails. What is not supported or not known does not count. */
  predicate FinishFails(wanted: Attributes, faults: Faults) {
    || faults.sync || faults.close || faults.rename
    || (wanted.mode.Some? && faults.chmod)
    || (wanted.mtime.Some? && faults.chtimes)
    || (wanted.owner.Some? && faults.chown.ChownFailed?)
    || (wanted.context.Some? && faults.relabel.LabelFailed?)
  }

  /** Finishing succeeds if and only if the file has not been closed, and nothing fails that has to be done. */
  lemma FinishSucceeds(before: Disk, dir: string, s: State, target: Path, faults: Faults)
    requires Inv(before, dir, s)
    ensures FinishSpec(s, target, faults).1 <==> !s.handle.closed && !FinishFails(s.handle.wanted, faults)
  {
  }

  /** An atomic write succeeds if and only if the content was written, and nothing fails that has to be done. */
  lemma DoSucceeds(
      before: Disk, target: Path, wanted: Attributes, tmp: Path, script: Script, finish: Faults, close: Faults)
    requires tmp !in before.files
    ensures DoSpec(Opened(before, target, wanted, tmp), script, finish, close).1 <==>
            script.succeeds && !FinishFails(wanted, finish)
  {
    var start := Opened(before, target, wanted, tmp);
    OpenedInv(before, target, wanted, tmp);
    WriteAllInv(before, start, script.portions);
    FinishSucceeds(before, target.dir, WriteAll(start, script.portions), target, finish);
  }

  /** The permissions and the time are as wanted, and so are the owner and the label, if they could be set at all. */
  predicate HasWanted(a: Attributes, wanted: Attributes, faults: Faults) {
    && a.mode == wanted.mode && a.mtime == wanted.mtime
    && a.owner == (if faults.chown.ChownUnsupported? then None else wanted.owner)
    && a.context == (if faults.relabel.LabelDisabled? || faults.relabel.LabelInvalid? then None else wanted.context)
  }

  /**
   For every pattern of failures: Do succeeds only if the target holds exactly the accepted bytes, with
   all the wanted attributes that are supported, and no other file has changed. Otherwise nothing has
   changed at all, unless the temporary file could not be removed.
   */
  lemma DoIsAtomic(
      before: Disk, target: Path, wanted: Attributes, tmp: Path, script: Script, finish: Faults, close: Faults)
    requires tmp !in before.files
    ensures var (s, ok) := DoSpec(Opened(before, target, wanted, tmp), script, finish, close);
            if ok then
              && target in s.disk.files
              && s.disk.files == before.files[target := s.disk.files[target]]
              && s.disk.files[target].content == Accepted(script.portions)
              && HasWanted(s.disk.files[target].attributes, wanted, finish)
            else
              && s.disk.renames == before.renames
              && s.disk.files - {tmp} == before.files
              && (tmp in s.disk.files ==> if script.succeeds then finish.remove else close.remove)
  {
    var start := Opened(before, target, wanted, tmp);
    OpenedInv(before, target, wanted, tmp);
    WriteAllInv(before, start, script.portions);
    var s1 := WriteAll(start, script.portions);
    if script.succeeds {
      FinishStep(before, target.dir, s1, target, finish);
      var s2 := FinishSpec(s1, target, finish).0;
      CloseStep(before, target.dir, s2, close);
    } else {
      CloseStep(before, target.dir, s1, close);
    }
  }
}
