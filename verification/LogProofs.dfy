/** What the entries of the log writer amount to. */
module LogProofs {

  import opened Basics
  import opened Utf8
  import opened LogWriter

  // ------------------------------------------------------------------------------------------
  // The way the input is cut into writes does not matter

  function WriteAll(r: Rules, s: State, writes: seq<seq<Byte>>): State {
    if writes == [] then s else Feed(r, WriteAll(r, s, writes[..|writes| - 1]), writes[|writes| - 1])
  }

  function Flatten(writes: seq<seq<Byte>>): seq<Byte> {
    if writes == [] then [] else Flatten(writes[..|writes| - 1]) + writes[|writes| - 1]
  }

  /** Any two ways of cutting the same stream into writes end in the same state, with the same entries. */
  lemma {:induction false} SplitIndependence(r: Rules, s: State, writes: seq<seq<Byte>>)
    ensures WriteAll(r, s, writes) == Feed(r, s, Flatten(writes))
  {
    if writes != [] {
      var last := |writes| - 1;
      SplitIndependence(r, s, writes[..last]);
      FeedConcat(r, s, Flatten(writes[..last]), writes[last]);
    }
  }

  // ------------------------------------------------------------------------------------------
  // Nothing is lost but carriage returns and newlines

  function StripTo(s: seq<Byte>, n: nat): seq<Byte>
    requires n <= |s|
  {
    if n == 0 then []
    else if s[n - 1] == CR || s[n - 1] == LF then StripTo(s, n - 1)
    else StripTo(s, n - 1) + [s[n - 1]]
  }

  /** `s` without its carriage returns and newlines. */
  function Strip(s: seq<Byte>): seq<Byte> { StripTo(s, |s|) }

  lemma {:induction false} StripPrefix(s: seq<Byte>, p: seq<Byte>, n: nat)
    requires n <= |p| && p <= s
    ensures StripTo(s, n) == StripTo(p, n)
    decreases n
  {
    if n > 0 {
      StripPrefix(s, p, n - 1);
    }
  }

  lemma {:induction false} StripSuffix(a: seq<Byte>, b: seq<Byte>, n: nat)
    requires n <= |b|
    ensures StripTo(a + b, |a| + n) == Strip(a) + StripTo(b, n)
    decreases n
  {
    if n == 0 {
      StripPrefix(a + b, a, |a|);
    } else {
      StripSuffix(a, b, n - 1);
      assert (a + b)[|a| + n - 1] == b[n - 1];
    }
  }

  lemma StripConcat(a: seq<Byte>, b: seq<Byte>)
    ensures Strip(a + b) == Strip(a) + Strip(b)
  {
    StripSuffix(a, b, |b|);
  }

  lemma {:induction false} StripTrimmed(s: seq<Byte>, n: nat)
    requires n <= |s|
    ensures StripTo(s, TrimmedLength(s, n)) == StripTo(s, n)
    decreases n
  {
    if n > 0 && s[n - 1] == CR {
      StripTrimmed(s, n - 1);
    }
  }

  lemma StripTrim(s: seq<Byte>)
    ensures Strip(TrimCR(s)) == Strip(s)
  {
    StripTrimmed(s, |s|);
    StripPrefix(s, TrimCR(s), |TrimCR(s)|);
  }

  function TextsTo(log: seq<Entry>, n: nat): seq<Byte>
    requires n <= |log|
  {
    if n == 0 then [] else TextsTo(log, n - 1) + log[n - 1].text
  }

  function Texts(log: seq<Entry>): seq<Byte> { TextsTo(log, |log|) }

  lemma {:induction false} TextsPrefix(log: seq<Entry>, p: seq<Entry>, n: nat)
    requires n <= |p| && p <= log
    ensures TextsTo(log, n) == TextsTo(p, n)
    decreases n
  {
    if n > 0 {
      TextsPrefix(log, p, n - 1);
    }
  }

  lemma TextsAppend(log: seq<Entry>, e: Entry)
    ensures Texts(log + [e]) == Texts(log) + e.text
  {
    TextsPrefix(log + [e], log, |log|);
  }

  /** Everything logged, and then everything buffered. */
  function Content(s: State): seq<Byte> { Strip(Texts(s.log)) + Strip(s.buf) }

  lemma EndLineContent(s: State)
    ensures Content(EndLine(s)) == Content(s)
  {
    var text := TrimCR(s.buf);
    StripTrim(s.buf);
    if s.chunkNo == 0 || |text| > 0 {
      var e := Entry(if s.chunkNo == 0 then 0 else s.chunkNo + 1, text);
      TextsAppend(s.log, e);
      StripConcat(Texts(s.log), text);
    } else {
      assert text == [] && s.log + [] == s.log;
    }
  }

  lemma StripChunk(texts: seq<Byte>, trimmed: seq<Byte>, head: seq<Byte>, tail: seq<Byte>)
    requires Strip(trimmed) == Strip(head)
    ensures Strip(texts + trimmed) + Strip(tail) == Strip(texts) + Strip(head + tail)
  {
    StripConcat(texts, trimmed);
    StripConcat(head, tail);
  }

  lemma EndChunkContent(r: Rules, s: State)
    ensures Content(EndChunk(r, s)) == Content(s)
  {
    var c := r.cut(s.buf);
    var head, tail := s.buf[..c], s.buf[c..];
    assert head + tail == s.buf;
    TextsAppend(s.log, Entry(s.chunkNo + 1, TrimCR(head)));
    StripTrim(head);
    StripChunk(Texts(s.log), TrimCR(head), head, tail);
  }

  lemma StripOne(b: Byte)
    ensures Strip([b]) == if b == CR || b == LF then [] else [b]
  {
    assert StripTo([b], 0) == [];
  }

  lemma BufferContent(s: State, b: Byte)
    ensures Content(State(s.buf + [b], s.chunkNo, s.log)) == Content(s) + Strip([b])
  {
    StripConcat(s.buf, [b]);
  }

  lemma PutContent(r: Rules, s: State, b: Byte)
    ensures Content(Put(r, s, b)) == Content(s) + Strip([b])
  {
    if b == LF {
      EndLineContent(s);
      StripOne(b);
    } else {
      BufferContent(s, b);
      if |s.buf| + 1 == r.cap {
        EndChunkContent(r, State(s.buf + [b], s.chunkNo, s.log));
      }
    }
  }

  lemma {:induction false} FoldContent(
      f: (State, Byte) -> State, content: State -> seq<Byte>, s: State, bytes: seq<Byte>, n: nat)
    requires n <= |bytes|
    requires forall s: State, b: Byte :: content(f(s, b)) == content(s) + Strip([b])
    ensures content(FoldTo(f, s, bytes, n)) == content(s) + StripTo(bytes, n)
    decreases n
  {
    if n > 0 {
      FoldContent(f, content, s, bytes, n - 1);
      StripOne(bytes[n - 1]);
    }
  }

  /** The logged texts and the buffer are the input, up to carriage returns and newlines. */
  lemma NothingLost(r: Rules, s: State, bytes: seq<Byte>)
    ensures Content(Feed(r, s, bytes)) == Content(s) + Strip(bytes)
  {
    forall s: State, b: Byte ensures Content(Step(r)(s, b)) == Content(s) + Strip([b]) {
      PutContent(r, s, b);
    }
    FoldContent(Step(r), Content, s, bytes, |bytes|);
  }

  // ------------------------------------------------------------------------------------------
  // Carriage returns

  predicate EndsInCR(s: seq<Byte>) { s != [] && s[|s| - 1] == CR }

  predicate AllCR(s: seq<Byte>) { forall i :: 0 <= i < |s| ==> s[i] == CR }

  lemma {:induction false} TrimmedAt(s: seq<Byte>, n: nat)
    requires n <= |s|
    ensures var m := TrimmedLength(s, n);
            (m == 0 || s[m - 1] != CR) && forall i :: m <= i < n ==> s[i] == CR
    decreases n
  {
    if n > 0 && s[n - 1] == CR {
      TrimmedAt(s, n - 1);
    }
  }

  /** Exactly the trailing carriage returns are stripped: the rest does not end in one, and was in front of them. */
  lemma TrimCRExactly(s: seq<Byte>)
    ensures TrimCR(s) <= s && !EndsInCR(TrimCR(s)) && AllCR(s[|TrimCR(s)|..])
  {
    TrimmedAt(s, |s|);
  }

  lemma TrimCROfLine(line: seq<Byte>, crs: seq<Byte>)
    requires !EndsInCR(line) && AllCR(crs)
    ensures TrimCR(line + crs) == line
  {
    var s := line + crs;
    var t := TrimCR(s);
    TrimCRExactly(s);
    assert s[..|line|] == line;
  }

  // ------------------------------------------------------------------------------------------
  // Sizes and chunk numbers

  /** Chunk numbers go 1, 2, 3 and so on, and 0 stands alone. */
  predicate Numbered(log: seq<Entry>) {
    forall i :: 0 <= i < |log| && log[i].chunk > 1 ==> i > 0 && log[i - 1].chunk == log[i].chunk - 1
  }

  predicate Sized(cap: nat, log: seq<Entry>) {
    forall i :: 0 <= i < |log| ==> |log[i].text| <= cap && LF !in log[i].text && !EndsInCR(log[i].text)
  }

  predicate WellFormed(cap: nat, s: State) {
    && |s.buf| < cap && LF !in s.buf
    && Sized(cap, s.log)
    && Numbered(s.log)
    && (s.chunkNo > 0 ==> s.log != [] && s.log[|s.log| - 1].chunk == s.chunkNo)
  }

  lemma EndLineWellFormed(cap: nat, s: State)
    requires WellFormed(cap, s)
    ensures WellFormed(cap, EndLine(s))
  {
    TrimCRExactly(s.buf);
  }

  lemma EndChunkWellFormed(r: Rules, s: State, full: seq<Byte>)
    requires WellFormed(r.cap, s) && |full| == r.cap && LF !in full
    ensures WellFormed(r.cap, EndChunk(r, State(full, s.chunkNo, s.log)))
  {
    TrimCRExactly(full[..r.cut(full)]);
  }

  lemma PutWellFormed(r: Rules, s: State, b: Byte)
    requires WellFormed(r.cap, s)
    ensures WellFormed(r.cap, Put(r, s, b))
  {
    if b == LF {
      EndLineWellFormed(r.cap, s);
    } else if |s.buf| + 1 == r.cap {
      EndChunkWellFormed(r, s, s.buf + [b]);
    }
  }

  /**
   Between writes the buffer is not full and holds no newline, no entry is longer than the buffer,
   and the chunks of a line are numbered from 1 without gaps.
   */
  lemma {:induction false} EntriesAreWellFormed(r: Rules, bytes: seq<Byte>, n: nat)
    requires r.cap > 0 && n <= |bytes|
    ensures WellFormed(r.cap, FeedTo(r, EMPTY, bytes, n))
    decreases n
  {
    if n > 0 {
      EntriesAreWellFormed(r, bytes, n - 1);
      PutWellFormed(r, FeedTo(r, EMPTY, bytes, n - 1), bytes[n - 1]);
    }
  }

  // ------------------------------------------------------------------------------------------
  // Line by line

  /** The entries of a line of which `no` chunks have been logged before. */
  function LineEntries(r: Rules, line: seq<Byte>, no: nat): seq<Entry>
    requires r.cap > 0
    decreases |line|
  {
    if |line| < r.cap then
      if no == 0 then [Entry(0, TrimCR(line))]
      else if TrimCR(line) != [] then [Entry(no + 1, TrimCR(line))]
      else []
    else
      var c := r.cut(line[..r.cap]);
      [Entry(no + 1, TrimCR(line[..c]))] + LineEntries(r, line[c..], no + 1)
  }

  function Lines(r: Rules, lines: seq<seq<Byte>>): seq<Entry>
    requires r.cap > 0
  {
    if lines == [] then [] else Lines(r, lines[..|lines| - 1]) + LineEntries(r, lines[|lines| - 1], 0)
  }

  function Join(lines: seq<seq<Byte>>): seq<Byte> {
    if lines == [] then [] else Join(lines[..|lines| - 1]) + lines[|lines| - 1] + [LF]
  }

  lemma FeedChunk(r: Rules, line: seq<Byte>, no: nat, log: seq<Entry>)
    requires r.cap > 0 && LF !in line && |line| >= r.cap
    ensures var c := r.cut(line[..r.cap]);
            var chunk := Entry(no + 1, TrimCR(line[..c]));
            Feed(r, State([], no, log), line + [LF]) == Feed(r, State([], no + 1, log + [chunk]), line[c..] + [LF])
  {
    var s, head, more := State([], no, log), line[..r.cap], line[r.cap..] + [LF];
    var c := r.cut(head);
    assert line + [LF] == head + more;
    FeedConcat(r, s, head, more);
    FeedRest(r, s, head, 0);
    assert head[0..] == head && head[..c] == line[..c];
    FeedAgain(r, State(head[c..], no + 1, log + [Entry(no + 1, TrimCR(line[..c]))]), more);
    assert head[c..] + more == line[c..] + [LF];
  }

  lemma FeedShortLine(r: Rules, line: seq<Byte>, no: nat, log: seq<Entry>)
    requires |line| < r.cap && LF !in line
    ensures Feed(r, State([], no, log), line + [LF]) == State([], 0, log + LineEntries(r, line, no))
  {
    FeedLine(r, State([], no, log), line + [LF], 0, |line|);
    assert (line + [LF])[0..|line|] == line;
    EndLineEntries(r, line, no, log);
  }

  lemma EndLineEntries(r: Rules, line: seq<Byte>, no: nat, log: seq<Entry>)
    requires |line| < r.cap
    ensures EndLine(State(line, no, log)) == State([], 0, log + LineEntries(r, line, no))
  {
  }

  lemma {:induction false} FeedWholeLine(r: Rules, line: seq<Byte>, no: nat, log: seq<Entry>)
    requires r.cap > 0 && LF !in line
    ensures Feed(r, State([], no, log), line + [LF]) == State([], 0, log + LineEntries(r, line, no))
    decreases |line|
  {
    if |line| < r.cap {
      FeedShortLine(r, line, no, log);
    } else {
      FeedChunk(r, line, no, log);
      var c := r.cut(line[..r.cap]);
      var chunk, more := Entry(no + 1, TrimCR(line[..c])), LineEntries(r, line[c..], no + 1);
      FeedWholeLine(r, line[c..], no + 1, log + [chunk]);
      assert log + [chunk] + more == log + ([chunk] + more);
    }
  }

  /** Every line is logged on its own: unchunked if it is shorter than the buffer, and in chunks otherwise. */
  lemma {:induction false} LineByLine(r: Rules, lines: seq<seq<Byte>>)
    requires r.cap > 0 && forall i :: 0 <= i < |lines| ==> LF !in lines[i]
    ensures Feed(r, EMPTY, Join(lines)) == State([], 0, Lines(r, lines))
    decreases |lines|
  {
    if lines != [] {
      var last := |lines| - 1;
      LineByLine(r, lines[..last]);
      var before := Lines(r, lines[..last]);
      FeedWholeLine(r, lines[last], 0, before);
      FeedConcat(r, EMPTY, Join(lines[..last]), lines[last] + [LF]);
      assert Join(lines) == Join(lines[..last]) + (lines[last] + [LF]);
    }
  }

  /** A line that fits into the buffer together with its carriage returns is logged as it is, without them. */
  lemma PlainLine(r: Rules, line: seq<Byte>, crs: seq<Byte>, log: seq<Entry>)
    requires |line| + |crs| < r.cap && LF !in line && !EndsInCR(line) && AllCR(crs)
    ensures Feed(r, State([], 0, log), line + crs + [LF]) == State([], 0, log + [Entry(0, line)])
  {
    TrimCROfLine(line, crs);
    FeedShortLine(r, line + crs, 0, log);
  }

  // ------------------------------------------------------------------------------------------
  // Cuts between runes

  /**
   A full buffer is cut at the last place, not too far from its end, that a rune ends at; and not at all if there is
   none. This goes for any way of telling where runes end.
   */
  lemma CutIsLast(ends: seq<Byte> -> bool, buf: seq<Byte>, j: nat)
    requires 0 < j <= |buf| && |buf| - j < MAX_RUNE
    ensures ends(buf[..j]) ==> j <= CutOf(ends, buf) && ends(buf[..CutOf(ends, buf)])
    ensures CutOf(ends, buf) < |buf| ==> ends(buf[..CutOf(ends, buf)])
  {
    StepBackLands(ends, buf, 0);
    if ends(buf[..j]) {
      StepBackIsFirst(ends, buf, 0, |buf| - j);
    }
  }

  lemma {:induction false} StepBackLands(ends: seq<Byte> -> bool, buf: seq<Byte>, i: nat)
    requires i <= |buf|
    ensures var n := StepBack(ends, buf, i); n > 0 ==> n < |buf| && ends(buf[..|buf| - n])
    decreases |buf| - i
  {
    if i < MAX_RUNE && i < |buf| && !ends(buf[..|buf| - i]) {
      StepBackLands(ends, buf, i + 1);
    }
  }

  lemma {:induction false} StepBackIsFirst(ends: seq<Byte> -> bool, buf: seq<Byte>, i: nat, k: nat)
    requires i <= k < |buf| && k < MAX_RUNE && ends(buf[..|buf| - k])
    ensures i <= StepBack(ends, buf, i) <= k && ends(buf[..|buf| - StepBack(ends, buf, i)])
    decreases |buf| - i
  {
    if !ends(buf[..|buf| - i]) {
      StepBackIsFirst(ends, buf, i + 1, k);
    }
  }

  lemma EncodingContinues(e: seq<Byte>)
    requires IsEncoding(e)
    ensures forall k :: 0 < k < |e| ==> Continues(e[k])
  {
  }

  lemma {:induction false} CleanAroundAscii(a: seq<Byte>, b: Byte, c: seq<Byte>)
    requires 0 <= b < 0x80 && Clean(a + [b] + c)
    ensures Clean(a) && Clean(c)
    decreases |a|
  {
    var x := a + [b] + c;
    var w := FrontRune(x);
    assert x[|a|] == b;
    if a == [] {
      assert x[0] == b && w == 1 && x[1..] == c;
    } else {
      assert |a| < w ==> x[..w][|a|] == b;
      EncodingContinues(x[..w]);
      assert w <= |a|;
      assert x[w..] == a[w..] + [b] + c && x[..w] == a[..w];
      CleanAroundAscii(a[w..], b, c);
      assert FrontRune(a) == w;
    }
  }

  lemma {:induction false} CleanTrimmed(s: seq<Byte>, n: nat)
    requires n <= |s| && Clean(s[..n])
    ensures Clean(s[..TrimmedLength(s, n)])
    decreases n
  {
    if n > 0 && s[n - 1] == CR {
      assert s[..n] == s[..n - 1] + [CR] + [];
      CleanAroundAscii(s[..n - 1], CR, []);
      CleanTrimmed(s, n - 1);
    }
  }

  lemma CleanTrim(s: seq<Byte>)
    requires Clean(s)
    ensures Clean(TrimCR(s))
  {
    assert s[..|s|] == s;
    CleanTrimmed(s, |s|);
  }

  /** Stepping back ends at the only place nearby behind a rune. */
  lemma {:induction false} StepBackTo(ends: seq<Byte> -> bool, buf: seq<Byte>, c: nat, i: nat)
    requires |buf| - 4 < c <= |buf| - i && 0 < c
    requires forall j :: c <= j <= |buf| ==> (ends(buf[..j]) <==> j == c)
    ensures StepBack(ends, buf, i) == |buf| - c
    decreases |buf| - i
  {
    if c < |buf| - i {
      StepBackTo(ends, buf, c, i + 1);
    }
  }

  lemma CutAt(buf: seq<Byte>, rest: seq<Byte>)
    requires |buf| >= 4 && Clean(buf + rest)
    ensures Cut(buf) == Boundary(buf + rest, |buf|)
  {
    var x := buf + rest;
    var c := Boundary(x, |buf|);
    BoundaryIsNear(x, |buf|);
    forall j | c <= j <= |buf| ensures EndsInRune(buf[..j]) <==> j == c {
      BoundaryIsCut(x, |buf|, j);
      assert x[..j] == buf[..j];
    }
    StepBackTo(EndsInRune, buf, c, 0);
  }

  /** A full buffer in the middle of a clean text is cut at the last rune boundary. */
  lemma CutIsBoundary(buf: seq<Byte>, rest: seq<Byte>)
    requires |buf| >= 4 && Clean(buf + rest)
    ensures Clean(buf[..Cut(buf)]) && Clean(buf[Cut(buf)..] + rest)
  {
    var x := buf + rest;
    var c := Cut(buf);
    CutAt(buf, rest);
    BoundarySplits(x, |buf|);
    assert x[..c] == buf[..c] && x[c..] == buf[c..] + rest;
  }

  predicate AllClean(log: seq<Entry>) { forall i :: 0 <= i < |log| ==> Clean(log[i].text) }

  lemma PutClean(r: Rules, s: State, b: Byte, rest: seq<Byte>)
    requires r.cap >= 4 && forall x :: CutsLikeWriter(r.cut, x)
    requires |s.buf| < r.cap && AllClean(s.log) && Clean(s.buf + [b] + rest)
    ensures var s' := Put(r, s, b);
            AllClean(s'.log) && Clean(s'.buf + rest)
  {
    if b == LF {
      CleanAroundAscii(s.buf, b, rest);
      CleanTrim(s.buf);
      assert [] + rest == rest;
    } else {
      var full := s.buf + [b];
      if |full| == r.cap {
        assert CutsLikeWriter(r.cut, full);
        CutIsBoundary(full, rest);
        CleanTrim(full[..Cut(full)]);
      }
    }
  }

  predicate CleanSoFar(s: State, rest: seq<Byte>) { AllClean(s.log) && Clean(s.buf + rest) }

  lemma StepClean(r: Rules, s: State, bytes: seq<Byte>, n: nat)
    requires r.cap >= 4 && forall x :: CutsLikeWriter(r.cut, x)
    requires n < |bytes| && |s.buf| < r.cap && CleanSoFar(s, bytes[n..])
    ensures CleanSoFar(Put(r, s, bytes[n]), bytes[n + 1..])
  {
    assert s.buf + bytes[n..] == s.buf + [bytes[n]] + bytes[n + 1..];
    PutClean(r, s, bytes[n], bytes[n + 1..]);
  }

  lemma {:induction false} FeedClean(r: Rules, bytes: seq<Byte>, n: nat)
    requires r.cap >= 4 && forall x :: CutsLikeWriter(r.cut, x)
    requires Clean(bytes) && n <= |bytes|
    ensures CleanSoFar(FeedTo(r, EMPTY, bytes, n), bytes[n..])
    decreases n
  {
    if n == 0 {
      assert [] + bytes[0..] == bytes;
    } else {
      FeedClean(r, bytes, n - 1);
      EntriesAreWellFormed(r, bytes, n - 1);
      StepClean(r, FeedTo(r, EMPTY, bytes, n - 1), bytes, n - 1);
    }
  }

  /**
   If the input is valid UTF-8 without U+FFFD and the buffer can hold any rune, then all entries are
   valid UTF-8, too: no cut goes through a rune.
   */
  lemma CutsBetweenRunes(cap: nat, bytes: seq<Byte>)
    requires cap >= 4 && Clean(bytes)
    ensures AllClean(Feed(WriterRules(cap), EMPTY, bytes).log)
  {
    FeedClean(WriterRules(cap), bytes, |bytes|);
  }
}
