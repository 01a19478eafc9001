/**
 The log writer: bytes are collected in a fixed buffer and logged line by line. A line that does not
 fit into the buffer is logged in numbered chunks, cut between runes where possible.
 */
module LogWriter {

  import opened Basics
  import opened Utf8

  /** A log entry; chunk 0 stands for a line that was not chunked. */
  datatype Entry = Entry(chunk: nat, text: seq<Byte>)

  const LF: Byte := 10
  const CR: Byte := 13
  const MAX_RUNE := 0x10FFFF

  /** The length of the first `n` bytes without trailing carriage returns. */
  function TrimmedLength(s: seq<Byte>, n: nat): (m: nat)
    requires n <= |s|
    ensures m <= n
  {
    if n > 0 && s[n - 1] == CR then TrimmedLength(s, n - 1) else n
  }

  function TrimCR(s: seq<Byte>): seq<Byte> { s[..TrimmedLength(s, |s|)] }

  // ------------------------------------------------------------------------------------------
  // The specification: one byte at a time

  /** What is buffered, how many chunks of the current line have been logged, and everything logged. */
  datatype State = State(buf: seq<Byte>, chunkNo: nat, log: seq<Entry>)

  const EMPTY := State([], 0, [])

  /** How far to step back from the end of a full buffer until a rune can be decoded. */
  function StepBack(ends: seq<Byte> -> bool, buf: seq<Byte>, i: nat): nat
    requires i <= |buf|
    decreases |buf| - i
  {
    if i < MAX_RUNE && i < |buf| then
      if ends(buf[..|buf| - i]) then i else StepBack(ends, buf, i + 1)
    else 0
  }

  /** Where to cut a full buffer, given how to tell that a rune ends. */
  function CutOf(ends: seq<Byte> -> bool, buf: seq<Byte>): (c: nat)
    ensures c <= |buf|
    ensures buf != [] ==> c > 0
  {
    StepBackBound(ends, buf, 0);
    |buf| - StepBack(ends, buf, 0)
  }

  function Cut(buf: seq<Byte>): (c: nat)
    ensures c <= |buf|
    ensures buf != [] ==> c > 0
  {
    CutOf(EndsInRune, buf)
  }

  lemma {:induction false} StepBackBound(ends: seq<Byte> -> bool, buf: seq<Byte>, i: nat)
    requires i <= |buf|
    ensures StepBack(ends, buf, i) == 0 || i <= StepBack(ends, buf, i) < |buf|
    decreases |buf| - i
  {
    if i < MAX_RUNE && i < |buf| && !ends(buf[..|buf| - i]) {
      StepBackBound(ends, buf, i + 1);
    }
  }

  /** A rule where to cut a full buffer: behind its first byte at the earliest. */
  type CutRule = f: seq<Byte> -> nat | forall s :: f(s) <= |s| && (s != [] ==> f(s) > 0) witness (s: seq<Byte>) => |s|

  /** The chunk length and the place of the cuts. */
  datatype Rules = Rules(cap: nat, cut: CutRule)

  function WriterRules(cap: nat): Rules { Rules(cap, Cut) }

  /** The end of a line: what is left of it is logged, unless it is an empty rest of a chunked line. */
  function EndLine(s: State): State {
    var text := TrimCR(s.buf);
    var entries :=
      if s.chunkNo == 0 then [Entry(0, text)]
      else if |text| > 0 then [Entry(s.chunkNo + 1, text)]
      else [];
    State([], 0, s.log + entries)
  }

  /** The buffer is full. */
  function EndChunk(r: Rules, s: State): State {
    var c := r.cut(s.buf);
    State(s.buf[c..], s.chunkNo + 1, s.log + [Entry(s.chunkNo + 1, TrimCR(s.buf[..c]))])
  }

  function Put(r: Rules, s: State, b: Byte): State {
    if b == LF then EndLine(s)
    else
      var s' := s.(buf := s.buf + [b]);
      if |s'.buf| == r.cap then EndChunk(r, s') else s'
  }

  function Step(r: Rules): (State, Byte) -> State { (s, b) => Put(r, s, b) }

  /** The state after the first `n` of the given bytes. */
  function FeedTo(r: Rules, s: State, bytes: seq<Byte>, n: nat): State
    requires n <= |bytes|
  {
    FoldTo(Step(r), s, bytes, n)
  }

  function Feed(r: Rules, s: State, bytes: seq<Byte>): State { FeedTo(r, s, bytes, |bytes|) }

  lemma FeedPortion(r: Rules, s: State, bytes: seq<Byte>, k: nat, part: seq<Byte>)
    requires k + |part| <= |bytes| && part == bytes[k..k + |part|]
    ensures FeedTo(r, s, bytes, k + |part|) == Feed(r, FeedTo(r, s, bytes, k), part)
  {
    FoldSplit(Step(r), s, bytes, k, part);
  }

  lemma FeedConcat(r: Rules, s: State, a: seq<Byte>, b: seq<Byte>)
    ensures Feed(r, s, a + b) == Feed(r, Feed(r, s, a), b)
  {
    FoldConcat(Step(r), s, a, b);
  }

  /** The steps `f` buffer everything but newlines as long as the buffer does not get full. */
  ghost predicate Buffering(f: (State, Byte) -> State, cap: nat) {
    forall s: State, b: Byte :: b != LF && |s.buf| + 1 < cap ==> f(s, b) == State(s.buf + [b], s.chunkNo, s.log)
  }

  lemma StepBuffers(r: Rules)
    ensures Buffering(Step(r), r.cap)
  {
  }

  lemma BufferOne(f: (State, Byte) -> State, cap: nat, s: State, b: Byte)
    requires Buffering(f, cap) && b != LF && |s.buf| + 1 < cap
    ensures f(s, b) == State(s.buf + [b], s.chunkNo, s.log)
  {
  }

  lemma Stretch(f: (State, Byte) -> State, cap: nat, s: State, bytes: seq<Byte>, k: nat, n: nat, at: State)
    requires Buffering(f, cap) && k <= n <= |bytes|
    requires forall i :: k <= i < n ==> bytes[i] != LF
    requires at == FoldTo(f, s, bytes, k) && at.buf == [] && n - k < cap
    ensures FoldTo(f, s, bytes, n) == State(bytes[k..n], at.chunkNo, at.log)
  {
    var g := (part: seq<Byte>) => State(part, at.chunkNo, at.log);
    forall m | k <= m < n ensures f(g(bytes[k..m]), bytes[m]) == g(bytes[k..m + 1]) {
      BufferOne(f, cap, g(bytes[k..m]), bytes[m]);
      assert bytes[k..m] + [bytes[m]] == bytes[k..m + 1];
    }
    FoldInto(f, g, s, bytes, k, n);
  }

  /** A stretch without a newline is just buffered as long as the buffer does not get full. */
  lemma FeedStretch(r: Rules, s: State, bytes: seq<Byte>, k: nat, n: nat)
    requires k <= n <= |bytes|
    requires forall i :: k <= i < n ==> bytes[i] != LF
    requires FeedTo(r, s, bytes, k).buf == [] && n - k < r.cap
    ensures var at := FeedTo(r, s, bytes, k);
            FeedTo(r, s, bytes, n) == State(bytes[k..n], at.chunkNo, at.log)
  {
    StepBuffers(r);
    Stretch(Step(r), r.cap, s, bytes, k, n, FeedTo(r, s, bytes, k));
  }

  /** The byte behind such a stretch. */
  lemma StretchThen(f: (State, Byte) -> State, cap: nat, s: State, bytes: seq<Byte>, k: nat, n: nat, at: State)
    requires k <= n < |bytes| && n - k < cap && Buffering(f, cap)
    requires forall i :: k <= i < n ==> bytes[i] != LF
    requires FoldTo(f, s, bytes, k) == at && at.buf == []
    ensures FoldTo(f, s, bytes, n + 1) == f(State(bytes[k..n], at.chunkNo, at.log), bytes[n])
  {
    Stretch(f, cap, s, bytes, k, n, at);
  }

  /** The steps `f` treat the buffer as a line when a newline comes. */
  ghost predicate Ending(f: (State, Byte) -> State) { forall s: State :: f(s, LF) == EndLine(s) }

  lemma StepEnds(r: Rules)
    ensures Ending(Step(r))
  {
  }

  /** From one newline to the next. */
  lemma FeedLine(r: Rules, s: State, bytes: seq<Byte>, k: nat, n: nat)
    requires k <= n < |bytes| && n - k < r.cap && bytes[n] == LF
    requires forall i :: k <= i < n ==> bytes[i] != LF
    requires FeedTo(r, s, bytes, k).buf == []
    ensures var at := FeedTo(r, s, bytes, k);
            FeedTo(r, s, bytes, n + 1) == EndLine(State(bytes[k..n], at.chunkNo, at.log))
  {
    StepBuffers(r);
    StretchThen(Step(r), r.cap, s, bytes, k, n, FeedTo(r, s, bytes, k));
  }

  /** From the last newline to the end. */
  lemma FeedRest(r: Rules, s: State, bytes: seq<Byte>, k: nat)
    requires k <= |bytes| && |bytes| - k <= r.cap && r.cap > 0
    requires forall i :: k <= i < |bytes| ==> bytes[i] != LF
    requires FeedTo(r, s, bytes, k).buf == []
    ensures var at := FeedTo(r, s, bytes, k);
            var rest := State(bytes[k..], at.chunkNo, at.log);
            Feed(r, s, bytes) == if |bytes| - k == r.cap then EndChunk(r, rest) else rest
  {
    if |bytes| - k < r.cap {
      FeedStretch(r, s, bytes, k, |bytes|);
      assert bytes[k..|bytes|] == bytes[k..];
    } else {
      FeedFull(r, s, bytes, k);
    }
  }

  lemma FeedFull(r: Rules, s: State, bytes: seq<Byte>, k: nat)
    requires k < |bytes| && |bytes| - k == r.cap
    requires forall i :: k <= i < |bytes| ==> bytes[i] != LF
    requires FeedTo(r, s, bytes, k).buf == []
    ensures var at := FeedTo(r, s, bytes, k);
            Feed(r, s, bytes) == EndChunk(r, State(bytes[k..], at.chunkNo, at.log))
  {
    StepBuffers(r);
    StepFills(r);
    StretchFull(Step(r), x => EndChunk(r, x), r.cap, s, bytes, k, FeedTo(r, s, bytes, k));
  }

  /** The steps `f` treat the buffer with `g` when it gets full. */
  ghost predicate Filling(f: (State, Byte) -> State, g: State -> State, cap: nat) {
    forall s: State, b: Byte :: b != LF && |s.buf| + 1 == cap ==> f(s, b) == g(State(s.buf + [b], s.chunkNo, s.log))
  }

  lemma StepFills(r: Rules)
    ensures Filling(Step(r), x => EndChunk(r, x), r.cap)
  {
  }

  lemma StretchFull(
      f: (State, Byte) -> State, g: State -> State, cap: nat, s: State, bytes: seq<Byte>, k: nat, at: State)
    requires k < |bytes| && |bytes| - k == cap && Buffering(f, cap) && Filling(f, g, cap)
    requires forall i :: k <= i < |bytes| ==> bytes[i] != LF
    requires FoldTo(f, s, bytes, k) == at && at.buf == []
    ensures FoldTo(f, s, bytes, |bytes|) == g(State(bytes[k..], at.chunkNo, at.log))
  {
    var n := |bytes| - 1;
    StretchThen(f, cap, s, bytes, k, n, at);
    assert bytes[k..] == bytes[k..n] + [bytes[n]];
  }

  /** A buffer that is not full may as well be fed again, together with what follows. */
  lemma FeedAgain(r: Rules, s: State, input: seq<Byte>)
    requires LF !in s.buf && |s.buf| < r.cap
    ensures Feed(r, State([], s.chunkNo, s.log), s.buf + input) == Feed(r, s, input)
  {
    var s0 := State([], s.chunkNo, s.log);
    FoldConcat(Step(r), s0, s.buf, input);
    FeedStretch(r, s0, s.buf, 0, |s.buf|);
    assert s.buf[0..|s.buf|] == s.buf;
  }

  // ------------------------------------------------------------------------------------------
  // The writer

  /** The position of the first newline at or after `off`, or the end. */
  function IndexLF(s: seq<Byte>, off: nat): (idx: nat)
    requires off <= |s|
    ensures off <= idx <= |s|
    ensures forall i :: off <= i < idx ==> s[i] != LF
    ensures idx < |s| ==> s[idx] == LF
    decreases |s| - off
  {
    if off == |s| || s[off] == LF then off else IndexLF(s, off + 1)
  }

  predicate CutsLikeWriter(cut: CutRule, buf: seq<Byte>) { cut(buf) == Cut(buf) }

  class Writer {
    const buf: array<Byte>
    var len: nat
    var chunkNo: nat
    var log: seq<Entry>

    ghost predicate Valid()
      reads this, buf
    {
      len < buf.Length && LF !in buf[..len]
    }

    ghost function Model(): State
      requires len <= buf.Length
      reads this, buf
    {
      State(buf[..len], chunkNo, log)
    }

    constructor (chunkLen: nat)
      requires chunkLen >= 1
      ensures Valid() && fresh(buf) && buf.Length == chunkLen && Model() == EMPTY
    {
      buf := new Byte[chunkLen](_ => 0);
      len, chunkNo, log := 0, 0, [];
    }

    /** Whatever way the input is cut into writes, it is logged as if it came byte by byte. */
    method Write(input: seq<Byte>) returns (n: nat)
      requires Valid()
      modifies this, buf
      ensures Valid()
      ensures Model() == Feed(WriterRules(buf.Length), old(Model()), input)
      ensures n == |input|
    {
      ghost var r := WriterRules(buf.Length);
      WriteBytes(r, input);
      n := |input|;
    }

    method WriteBytes(ghost r: Rules, input: seq<Byte>)
      requires Valid() && r.cap == buf.Length && forall s :: CutsLikeWriter(r.cut, s)
      modifies this, buf
      ensures Valid()
      ensures Model() == Feed(r, old(Model()), input)
    {
      var k := 0;
      while k < |input|
        invariant Valid() && k <= |input|
        invariant Model() == FeedTo(r, old(Model()), input, k)
      {
        var m := Min(buf.Length - len, |input| - k);
        var part := input[k..k + m];
        FeedPortion(r, old(Model()), input, k, part);
        FillAndDrain(r, part);
        k := k + m;
      }
    }

    /** One round: fill the buffer, log its lines, and log a chunk if it is still full. */
    method FillAndDrain(ghost r: Rules, part: seq<Byte>)
      requires Valid() && len + |part| <= buf.Length
      requires r.cap == buf.Length && forall s :: CutsLikeWriter(r.cut, s)
      modifies this, buf
      ensures Valid()
      ensures Model() == Feed(r, old(Model()), part)
    {
      FeedAgain(r, Model(), part);
      Fill(part);
      DrainLines(r);
      if len == buf.Length {
        LogChunk(r);
      }
    }

    /** Copies input behind what is in the buffer. */
    method Fill(input: seq<Byte>)
      requires len + |input| <= buf.Length
      modifies this`len, buf
      ensures len == old(len) + |input| && buf[..len] == old(buf[..len]) + input
    {
      forall i | 0 <= i < |input| {
        buf[len + i] := input[i];
      }
      len := len + |input|;
    }

    /** Logs all the lines in the buffer and moves what follows them to the front. */
    method DrainLines(ghost r: Rules)
      requires len <= buf.Length == r.cap && buf.Length > 0
      modifies this, buf
      ensures len <= buf.Length && LF !in buf[..len]
      ensures var all := Feed(r, State([], old(chunkNo), old(log)), old(buf[..len]));
              all == if len == buf.Length then EndChunk(r, Model()) else Model()
    {
      var content := buf[..len];
      ghost var start := State([], chunkNo, log);
      StepBuffers(r);
      StepEnds(r);
      var off := LogLines(Step(r), r.cap, content);
      FeedRest(r, start, content, off);
      if off > 0 {
        MoveToFront(off);
      }
    }

    /** Logs the lines and returns where the unfinished one begins. The steps `f` are those of the specification. */
    method LogLines(ghost f: (State, Byte) -> State, ghost cap: nat, content: seq<Byte>) returns (off: nat)
      requires |content| <= cap && Buffering(f, cap) && Ending(f)
      modifies this`log, this`chunkNo
      ensures off <= |content| && LF !in content[off..]
      ensures State([], chunkNo, log) == FoldTo(f, State([], old(chunkNo), old(log)), content, off)
    {
      ghost var start := State([], chunkNo, log);
      off := 0;
      while true
        invariant off <= |content|
        invariant State([], chunkNo, log) == FoldTo(f, start, content, off)
        decreases |content| - off
      {
        var idx := IndexLF(content, off);
        if idx == |content| {
          break;
        }
        StretchThen(f, cap, start, content, off, idx, State([], chunkNo, log));
        LogLine(content[off..idx]);
        off := idx + 1;
      }
    }

    /** Logs a line without its trailing carriage returns. */
    method LogLine(line: seq<Byte>)
      modifies this`log, this`chunkNo
      ensures State([], chunkNo, log) == EndLine(State(line, old(chunkNo), old(log)))
    {
      var text := TrimCR(line);
      if chunkNo == 0 {
        log := log + [Entry(0, text)];
      } else {
        if |text| > 0 {
          log := log + [Entry(chunkNo + 1, text)];
        }
        chunkNo := 0;
      }
    }

    /** Discards the first `off` bytes of the buffer. */
    method MoveToFront(off: nat)
      requires off <= len <= buf.Length
      modifies this`len, buf
      ensures len == old(len) - off && buf[..len] == old(buf[..len])[off..]
    {
      forall i | 0 <= i < len - off {
        buf[i] := buf[off + i];
      }
      len := len - off;
    }

    /** Logs a full buffer up to a rune boundary. */
    method LogChunk(ghost r: Rules)
      requires len == buf.Length > 0 && LF !in buf[..len] && forall s :: CutsLikeWriter(r.cut, s)
      modifies this, buf
      ensures Valid() && Model() == EndChunk(r, old(Model()))
    {
      var content := buf[..len];
      var cut := FindCut(r, content);
      log := log + [Entry(chunkNo + 1, TrimCR(content[..cut]))];
      chunkNo := chunkNo + 1;
      MoveToFront(cut);
    }

    method FindCut(ghost r: Rules, content: seq<Byte>) returns (cut: nat)
      requires forall s :: CutsLikeWriter(r.cut, s)
      ensures cut == r.cut(content)
    {
      cut := FindCutOf(EndsInRune, content);
      assert CutsLikeWriter(r.cut, content);
    }
  }

  /** Steps back from the end until a rune ends there. */
  method FindCutOf(ends: seq<Byte> -> bool, content: seq<Byte>) returns (cut: nat)
    ensures cut == CutOf(ends, content)
  {
    cut := |content|;
    var i := 0;
    while i < MAX_RUNE && i < |content|
      invariant 0 <= i <= |content| == cut
      invariant StepBack(ends, content, 0) == StepBack(ends, content, i)
    {
      if ends(content[..|content| - i]) {
        cut := |content| - i;
        break;
      }
      i := i + 1;
    }
  }

  function Min(a: nat, b: nat): nat { if a < b then a else b }
}
