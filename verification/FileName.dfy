/**
 The sanitizer for file names that are received from HTTP servers. Names are byte sequences, and a rune
 is given by its UTF-8 encoding.
 */
module FileName {

  import opened Basics
  import opened Utf8

  type Rune = seq<Byte>

  /** What is looked up in the Unicode tables. */
  datatype Unicode = Unicode(
    nfc: seq<Byte> -> seq<Byte>,      // the normalization form C of a text
    lower: seq<Byte> -> seq<Byte>,    // the text in lower case
    other: Rune -> bool,              // category C: control and format characters and the like
    space: Rune -> bool)

  datatype Error = TooLong | Empty | Dot | DotDot | ReservedName | InvalidUtf8(pos: nat)

  datatype Result = Ok(name: seq<Byte>) | Err(error: Error)

  const DOT: Byte := 0x2E
  const UNDERSCORE: Byte := 0x5F

  /** Underscores are neither white space nor control characters, and have no lower case; U+FFFD is no white space. */
  ghost predicate Lawful(u: Unicode) {
    && !u.other([UNDERSCORE]) && !u.space([UNDERSCORE]) && !u.space(REPLACEMENT)
    && forall s :: UNDERSCORE in s ==> UNDERSCORE in u.lower(s)
  }

  // ------------------------------------------------------------------------------------------
  // The reference: a map over runes

  function JoinTo(runes: seq<Rune>, n: nat): seq<Byte>
    requires n <= |runes|
  {
    if n == 0 then [] else JoinTo(runes, n - 1) + runes[n - 1]
  }

  function Join(runes: seq<Rune>): seq<Byte> { JoinTo(runes, |runes|) }

  predicate AreRunes(runes: seq<Rune>) { forall i :: 0 <= i < |runes| ==> IsEncoding(runes[i]) }

  /** The runes of a text, if it is valid. */
  function Decode(s: seq<Byte>): Option<seq<Rune>> {
    if s == [] then Some([])
    else
      var w := FrontRune(s);
      if w == 0 then None
      else
        match Decode(s[w..])
        case None => None
        case Some(rest) => Some([s[..w]] + rest)
  }

  /** The position of the first byte that starts no rune. */
  function FirstInvalid(s: seq<Byte>): nat {
    if s == [] || FrontRune(s) == 0 then 0 else FrontRune(s) + FirstInvalid(s[FrontRune(s)..])
  }

  /** Path separators, characters that are special to shells or Windows, and text direction modifiers. */
  predicate Forbidden(r: Rune) {
    || (|r| == 1 && r[0] in {0x5C, 0x2F, 0x3C, 0x3E, 0x7C, 0x3A, 0x22, 0x3F, 0x2A})
    || (|r| == 3 && r[0] == 0xE2 && r[1] == 0x81 && 0xA6 <= r[2] <= 0xA9)
    || (|r| == 3 && r[0] == 0xE2 && r[1] == 0x80 && 0xAA <= r[2] <= 0xAE)
  }

  predicate Bad(u: Unicode, first: bool, last: bool, r: Rune) {
    || Forbidden(r)
    || (r != REPLACEMENT &&
        (|| u.other(r)
         || (first && u.space(r))
         || (last && |r| == 1 && (r == [DOT] || u.space(r)))))
  }

  function Mark(u: Unicode, first: bool, last: bool, r: Rune): Rune {
    if Bad(u, first, last, r) then [UNDERSCORE] else r
  }

  function Marked(u: Unicode, runes: seq<Rune>): (marks: seq<Rune>)
    ensures |marks| == |runes|
    ensures forall i :: 0 <= i < |runes| ==> marks[i] == Mark(u, i == 0, i == |runes| - 1, runes[i])
  {
    seq(|runes|, i requires 0 <= i < |runes| => Mark(u, i == 0, i == |runes| - 1, runes[i]))
  }

  /** The number of bytes before the first dot, counted from n. */
  function BeforeDot(s: seq<Byte>, n: nat): (k: nat)
    requires n <= |s|
    ensures n <= k <= |s| && (k < |s| ==> s[k] == DOT) && forall i :: n <= i < k ==> s[i] != DOT
    decreases |s| - n
  {
    if n == |s| || s[n] == DOT then n else BeforeDot(s, n + 1)
  }

  /** con, prn, aux, nul, com and lpt with a digit, com and lpt with a superscript one, two or three. */
  predicate ReservedBase(s: seq<Byte>) {
    || s == [0x63, 0x6F, 0x6E] || s == [0x70, 0x72, 0x6E] || s == [0x61, 0x75, 0x78] || s == [0x6E, 0x75, 0x6C]
    || (&& |s| >= 4 && (s[..3] == [0x63, 0x6F, 0x6D] || s[..3] == [0x6C, 0x70, 0x74])
        && (|| (|s| == 4 && 0x30 <= s[3] <= 0x39)
            || (|s| == 5 && s[3] == 0xC2 && (s[4] == 0xB9 || s[4] == 0xB2 || s[4] == 0xB3))))
  }

  predicate Reserved(u: Unicode, s: seq<Byte>) {
    var base := s[..BeforeDot(s, 0)];
    |base| < 6 && ReservedBase(u.lower(base))
  }

  function Check(u: Unicode, name: seq<Byte>): Option<Error> {
    if |name| > 255 then Some(TooLong)
    else if name == [] then Some(Empty)
    else if name == [DOT] then Some(Dot)
    else if name == [DOT, DOT] then Some(DotDot)
    else if Reserved(u, name) then Some(ReservedName)
    else None
  }

  function Replaced(u: Unicode, name: seq<Byte>): Result {
    match Decode(name)
    case None => Err(InvalidUtf8(FirstInvalid(name)))
    case Some(runes) => Ok(Join(Marked(u, runes)))
  }

  function Sanitized(u: Unicode, fileName: seq<Byte>): Result {
    var name := u.nfc(fileName);
    match Check(u, name)
    case Some(error) => Err(error)
    case None => Replaced(u, name)
  }

  // ------------------------------------------------------------------------------------------
  // The loop

  lemma {:induction false} JoinToPrefix(a: seq<Rune>, b: seq<Rune>, n: nat)
    requires n <= |a| && n <= |b| && a[..n] == b[..n]
    ensures JoinTo(a, n) == JoinTo(b, n)
    decreases n
  {
    if n > 0 {
      assert a[..n - 1] == a[..n][..n - 1] && b[..n - 1] == b[..n][..n - 1];
      assert a[n - 1] == a[..n][n - 1] && b[n - 1] == b[..n][n - 1];
      JoinToPrefix(a, b, n - 1);
    }
  }

  lemma JoinAppend(runes: seq<Rune>, r: Rune)
    ensures Join(runes + [r]) == Join(runes) + r
  {
    JoinToPrefix(runes, runes + [r], |runes|);
  }

  /** Decoding goes on behind what has been decoded. */
  predicate DecodesOn(name: seq<Byte>, done: seq<Rune>, pos: nat)
    requires pos <= |name|
  {
    && (Decode(name).Some? <==> Decode(name[pos..]).Some?)
    && (Decode(name).Some? ==> Decode(name).value == done + Decode(name[pos..]).value)
    && (Decode(name).None? ==> FirstInvalid(name) == pos + FirstInvalid(name[pos..]))
  }

  lemma DecodesStep(name: seq<Byte>, done: seq<Rune>, pos: nat, w: nat)
    requires pos < |name| && DecodesOn(name, done, pos) && w == FrontRune(name[pos..]) > 0
    ensures DecodesOn(name, done + [name[pos..pos + w]], pos + w)
  {
    var rest := name[pos..];
    assert rest[w..] == name[pos + w..] && rest[..w] == name[pos..pos + w];
    if Decode(name).Some? {
      assert done + ([rest[..w]] + Decode(rest[w..]).value) == (done + [rest[..w]]) + Decode(rest[w..]).value;
    }
  }

  /** The runes so far have been replaced as they should be; only the last rune of the name is treated as such. */
  predicate MarkedSoFar(u: Unicode, name: seq<Byte>, done: seq<Rune>, marks: seq<Rune>, pos: nat) {
    && |marks| == |done|
    && forall i :: 0 <= i < |done| ==> marks[i] == Mark(u, i == 0, i == |done| - 1 && pos == |name|, done[i])
  }

  /** What has been written: the marked runes so far, or nothing if none of them has been replaced. */
  predicate Progress(u: Unicode, name: seq<Byte>, done: seq<Rune>, marks: seq<Rune>, sanitized: seq<Byte>, pos: nat) {
    && pos <= |name|
    && DecodesOn(name, done, pos)
    && name[..pos] == Join(done)
    && (pos == 0 <==> done == [])
    && MarkedSoFar(u, name, done, marks, pos)
    && IsWritten(done, marks, sanitized)
  }

  predicate IsWritten(done: seq<Rune>, marks: seq<Rune>, sanitized: seq<Byte>) {
    if sanitized == [] then marks == done else sanitized == Join(marks)
  }

  function Written(sanitized: seq<Byte>, before: seq<Byte>, valid: bool, ch: Rune): seq<Byte> {
    if valid then if sanitized == [] then [] else sanitized + ch
    else (if sanitized == [] then before else sanitized) + [UNDERSCORE]
  }

  lemma ProgressStep(
      u: Unicode, name: seq<Byte>, done: seq<Rune>, marks: seq<Rune>, sanitized: seq<Byte>, pos: nat,
      ch: Rune, mark: Rune)
    returns (done': seq<Rune>, marks': seq<Rune>)
    requires Progress(u, name, done, marks, sanitized, pos) && pos < |name| && FrontRune(name[pos..]) == |ch| > 0
    requires ch == name[pos..pos + |ch|] && mark == Mark(u, pos == 0, pos + |ch| == |name|, ch)
    ensures Progress(u, name, done', marks',
                     Written(sanitized, name[..pos], !Bad(u, pos == 0, pos + |ch| == |name|, ch), ch), pos + |ch|)
  {
    DecodesStep(name, done, pos, |ch|);
    JoinAppend(done, ch);
    WrittenStep(done, marks, sanitized, !Bad(u, pos == 0, pos + |ch| == |name|, ch), ch);
    assert name[..pos + |ch|] == name[..pos] + ch;
    MarkedStep(u, name, done, marks, pos, ch, mark);
    done', marks' := done + [ch], marks + [mark];
  }

  lemma WrittenStep(done: seq<Rune>, marks: seq<Rune>, sanitized: seq<Byte>, valid: bool, ch: Rune)
    requires IsWritten(done, marks, sanitized)
    ensures var mark := if valid then ch else [UNDERSCORE];
            IsWritten(done + [ch], marks + [mark], Written(sanitized, Join(done), valid, ch))
  {
    JoinAppend(marks, if valid then ch else [UNDERSCORE]);
  }

  lemma MarkedStep(u: Unicode, name: seq<Byte>, done: seq<Rune>, marks: seq<Rune>, pos: nat, ch: Rune, mark: Rune)
    requires MarkedSoFar(u, name, done, marks, pos) && pos < |name| && (pos == 0 <==> done == [])
    requires mark == Mark(u, pos == 0, pos + |ch| == |name|, ch)
    ensures MarkedSoFar(u, name, done + [ch], marks + [mark], pos + |ch|)
  {
  }

  lemma ProgressBegins(u: Unicode, name: seq<Byte>)
    ensures Progress(u, name, [], [], [], 0)
  {
  }

  lemma ProgressFails(u: Unicode, name: seq<Byte>, done: seq<Rune>, marks: seq<Rune>, sanitized: seq<Byte>, pos: nat)
    requires Progress(u, name, done, marks, sanitized, pos) && pos < |name| && FrontRune(name[pos..]) == 0
    ensures Replaced(u, name) == Err(InvalidUtf8(pos))
  {
  }

  lemma ProgressEnds(u: Unicode, name: seq<Byte>, done: seq<Rune>, marks: seq<Rune>, sanitized: seq<Byte>)
    requires Progress(u, name, done, marks, sanitized, |name|)
    ensures Replaced(u, name) == Ok(if sanitized == [] then name else sanitized)
  {
    assert name[|name|..] == [] && name[..|name|] == name;
    assert done + [] == done;
    assert marks == Marked(u, done);
  }

  /** Checks the name, and replaces the problematic characters. */
  method SanitizeFileName(u: Unicode, fileName: seq<Byte>) returns (r: Result)
    ensures r == Sanitized(u, fileName)
  {
    var name := u.nfc(fileName);
    if |name| > 255 {
      return Err(TooLong);
    }
    if name == [] {
      return Err(Empty);
    } else if name == [DOT] {
      return Err(Dot);
    } else if name == [DOT, DOT] {
      return Err(DotDot);
    }
    if Reserved(u, name) {
      return Err(ReservedName);
    }
    r := Replace(u, name);
  }

  method Replace(u: Unicode, name: seq<Byte>) returns (r: Result)
    ensures r == Replaced(u, name)
  {
    var sanitized: seq<Byte> := [];
    var pos := 0;
    ghost var done: seq<Rune>, marks: seq<Rune> := [], [];
    ProgressBegins(u, name);
    while pos < |name|
      invariant pos <= |name|
      invariant Progress(u, name, done, marks, sanitized, pos)
    {
      var size := FrontRune(name[pos..]);
      if size == 0 {
        ProgressFails(u, name, done, marks, sanitized, pos);
        return Err(InvalidUtf8(pos));
      }
      var ch := name[pos..pos + size];
      var valid := !Bad(u, pos == 0, pos + size == |name|, ch);
      done, marks := ProgressStep(u, name, done, marks, sanitized, pos, ch, if valid then ch else [UNDERSCORE]);
      if valid {
        if |sanitized| > 0 {
          sanitized := sanitized + ch;
        }
      } else {
        if |sanitized| < 1 {
          sanitized := name[..pos];
        }
        sanitized := sanitized + [UNDERSCORE];
      }
      pos := pos + size;
    }
    ProgressEnds(u, name, done, marks, sanitized);
    r := Ok(if |sanitized| > 0 then sanitized else name);
  }

  // ------------------------------------------------------------------------------------------
  // Decoding and joining are inverse to each other

  lemma {:induction false} JoinPrepend(r: Rune, rest: seq<Rune>, n: nat)
    requires n <= |rest|
    ensures JoinTo([r] + rest, n + 1) == r + JoinTo(rest, n)
    decreases n
  {
    var all := [r] + rest;
    assert JoinTo(all, n + 1) == JoinTo(all, n) + all[n];
    if n > 0 {
      JoinPrepend(r, rest, n - 1);
      assert all[n] == rest[n - 1];
      assert r + JoinTo(rest, n - 1) + rest[n - 1] == r + (JoinTo(rest, n - 1) + rest[n - 1]);
    }
  }

  lemma {:induction false} DecodeThenJoin(s: seq<Byte>)
    requires Decode(s).Some?
    ensures AreRunes(Decode(s).value) && Join(Decode(s).value) == s
    decreases |s|
  {
    if s != [] {
      var w := FrontRune(s);
      DecodeThenJoin(s[w..]);
      JoinPrepend(s[..w], Decode(s[w..]).value, |Decode(s[w..]).value|);
      assert s == s[..w] + s[w..];
    }
  }

  lemma EncodingAtFront(r: Rune, rest: seq<Byte>)
    requires IsEncoding(r)
    ensures FrontRune(r + rest) == |r|
  {
  }

  lemma {:induction false} JoinThenDecode(runes: seq<Rune>)
    requires AreRunes(runes)
    ensures Decode(Join(runes)) == Some(runes)
    decreases |runes|
  {
    if runes != [] {
      var r, rest := runes[0], runes[1..];
      assert runes == [r] + rest;
      JoinPrepend(r, rest, |rest|);
      EncodingAtFront(r, Join(rest));
      var s := r + Join(rest);
      assert s[..|r|] == r && s[|r|..] == Join(rest);
      JoinThenDecode(rest);
    }
  }

  // ------------------------------------------------------------------------------------------
  // Sanitized names are safe

  lemma MarkedAreGood(u: Unicode, runes: seq<Rune>)
    requires Lawful(u) && AreRunes(runes)
    ensures var marks := Marked(u, runes);
            && AreRunes(marks)
            && (forall i :: 0 <= i < |marks| ==> !Bad(u, i == 0, i == |marks| - 1, marks[i]))
            && Marked(u, marks) == marks
  {
  }

  lemma {:induction false} MarkedIsShorter(u: Unicode, runes: seq<Rune>, n: nat)
    requires AreRunes(runes) && n <= |runes|
    ensures |JoinTo(Marked(u, runes), n)| <= |JoinTo(runes, n)|
    decreases n
  {
    if n > 0 {
      MarkedIsShorter(u, runes, n - 1);
      assert |Marked(u, runes)[n - 1]| <= |runes[n - 1]|;
    }
  }

  /** The last byte of a sanitized name is not a dot. */
  lemma EndsInNoDot(u: Unicode, runes: seq<Rune>)
    requires AreRunes(runes) && runes != []
    ensures var name := Join(Marked(u, runes)); |name| > 0 && name[|name| - 1] != DOT
  {
  }

  /** A byte of ASCII is a rune of its own. */
  lemma {:induction false} AsciiIsRune(runes: seq<Rune>, n: nat, i: nat)
    requires AreRunes(runes) && n <= |runes| && i < |JoinTo(runes, n)| && JoinTo(runes, n)[i] < 0x80
    ensures exists k :: 0 <= k < n && runes[k] == [JoinTo(runes, n)[i]]
    decreases n
  {
    var r, before := runes[n - 1], JoinTo(runes, n - 1);
    if i < |before| {
      AsciiIsRune(runes, n - 1, i);
    } else {
      assert r[i - |before|] < 0x80;
      assert r == [r[0]];
    }
  }

  lemma NoSeparator(u: Unicode, runes: seq<Rune>)
    requires Lawful(u) && AreRunes(runes)
    ensures 0x2F !in Join(Marked(u, runes)) && 0x5C !in Join(Marked(u, runes))
  {
    var marks := Marked(u, runes);
    MarkedAreGood(u, runes);
    forall i: nat | i < |Join(marks)| ensures Join(marks)[i] != 0x2F && Join(marks)[i] != 0x5C {
      if Join(marks)[i] < 0x80 {
        AsciiIsRune(marks, |marks|, i);
      }
    }
  }

  lemma ReservedHasNoUnderscore(s: seq<Byte>)
    requires ReservedBase(s)
    ensures UNDERSCORE !in s
  {
  }

  lemma {:induction false} SamePrefix(a: seq<Byte>, b: seq<Byte>, n: nat, p: nat)
    requires n <= p <= |a| && p <= |b| && a[..p] == b[..p] && BeforeDot(a, n) < p
    ensures BeforeDot(b, n) == BeforeDot(a, n)
    decreases p - n
  {
  }

  /** If names agree up to where one of them has an underscore, then that one is reserved only if the other one is. */
  lemma ReservedBeforeUnderscore(u: Unicode, a: seq<Byte>, b: seq<Byte>, p: nat)
    requires Lawful(u) && p < |a| && p <= |b| && a[..p] == b[..p] && a[p] == UNDERSCORE
    ensures Reserved(u, a) ==> Reserved(u, b)
  {
    if Reserved(u, a) {
      var k := BeforeDot(a, 0);
      assert p < k ==> a[..k][p] == UNDERSCORE;
      ReservedHasNoUnderscore(u.lower(a[..k]));
      assert k < p;
      SamePrefix(a, b, 0, p);
      assert a[..k] == a[..p][..k] && b[..k] == b[..p][..k];
    }
  }

  lemma {:induction false} FirstReplaced(u: Unicode, runes: seq<Rune>, n: nat) returns (j: nat)
    requires n <= |runes|
    ensures j <= n && Marked(u, runes)[..j] == runes[..j]
    ensures j < n ==> Marked(u, runes)[j] == [UNDERSCORE] != runes[j]
  {
    if n == 0 {
      j := 0;
    } else {
      j := FirstReplaced(u, runes, n - 1);
      if j == n - 1 && Marked(u, runes)[j] == runes[j] {
        assert Marked(u, runes)[..n] == Marked(u, runes)[..j] + [runes[j]] && runes[..n] == runes[..j] + [runes[j]];
        j := n;
      }
    }
  }

  lemma {:induction false} JoinSplit(runes: seq<Rune>, j: nat, n: nat)
    requires j < n <= |runes|
    ensures JoinTo(runes, j) + runes[j] <= JoinTo(runes, n)
    decreases n
  {
    if j < n - 1 {
      JoinSplit(runes, j, n - 1);
    }
  }

  lemma NotReserved(u: Unicode, runes: seq<Rune>)
    requires Lawful(u) && AreRunes(runes) && !Reserved(u, Join(runes))
    ensures !Reserved(u, Join(Marked(u, runes)))
  {
    var marks := Marked(u, runes);
    var j := FirstReplaced(u, runes, |runes|);
    JoinToPrefix(marks, runes, j);
    if j < |runes| {
      var p := |JoinTo(runes, j)|;
      JoinSplit(marks, j, |runes|);
      JoinSplit(runes, j, |runes|);
      assert Join(marks)[..p] == JoinTo(runes, j) == Join(runes)[..p];
      assert Join(marks)[p] == UNDERSCORE;
      ReservedBeforeUnderscore(u, Join(marks), Join(runes), p);
    }
  }

  /**
   A sanitized name has as many runes as the normalized one, each of which is the original one or an
   underscore. It is not too long, not special as a path element, holds no path separator and no other
   character that needs to be replaced, and is not reserved.
   */
  lemma SanitizedIsSafe(u: Unicode, fileName: seq<Byte>)
    requires Lawful(u) && Sanitized(u, fileName).Ok?
    ensures
      var name, out := u.nfc(fileName), Sanitized(u, fileName).name;
      && Decode(name).Some?
      && Decode(out) == Some(Marked(u, Decode(name).value))
      && 0 < |out| <= |name| <= 255 && out != [DOT] && out != [DOT, DOT]
      && 0x2F !in out && 0x5C !in out
      && !Reserved(u, out)
      && var runes := Decode(out).value;
         forall i :: 0 <= i < |runes| ==> !Bad(u, i == 0, i == |runes| - 1, runes[i])
  {
    var name := u.nfc(fileName);
    var runes := Decode(name).value;
    DecodeThenJoin(name);
    MarkedAreGood(u, runes);
    JoinThenDecode(Marked(u, runes));
    MarkedIsShorter(u, runes, |runes|);
    EndsInNoDot(u, runes);
    NoSeparator(u, runes);
    NotReserved(u, runes);
  }

  /** Sanitizing a sanitized name does not change it, provided that it is in normal form. */
  lemma Idempotent(u: Unicode, fileName: seq<Byte>)
    requires Lawful(u) && Sanitized(u, fileName).Ok?
    requires u.nfc(Sanitized(u, fileName).name) == Sanitized(u, fileName).name
    ensures Sanitized(u, Sanitized(u, fileName).name) == Sanitized(u, fileName)
  {
    SanitizedIsSafe(u, fileName);
    var runes := Decode(u.nfc(fileName)).value;
    DecodeThenJoin(u.nfc(fileName));
    MarkedAreGood(u, runes);
  }

  // ------------------------------------------------------------------------------------------
  // Trailing white space

  /**
   Trailing white space is not always replaced: the position of the last byte is compared, which is the one
   of a rune only if that rune is a single byte. So a sanitized name ends in white space if and only if the
   normalized one ends in white space that takes several bytes, behind some other rune, and that is not to be
   replaced for another reason.
   */
  lemma TrailingSpace(u: Unicode, fileName: seq<Byte>)
    requires Lawful(u) && Sanitized(u, fileName).Ok?
    ensures
      var runes := Decode(u.nfc(fileName));
      var marks := Decode(Sanitized(u, fileName).name);
      && runes.Some? && marks.Some? && |runes.value| == |marks.value| > 0
      && var last := runes.value[|runes.value| - 1];
         (u.space(marks.value[|marks.value| - 1]) <==>
            u.space(last) && |last| > 1 && |runes.value| > 1 && !Forbidden(last) && !u.other(last))
  {
    SanitizedIsSafe(u, fileName);
    DecodeThenJoin(u.nfc(fileName));
    var runes := Decode(u.nfc(fileName)).value;
    var last := runes[|runes| - 1];
    assert Marked(u, runes)[|runes| - 1] == Mark(u, |runes| == 1, true, last);
    assert IsEncoding(last);
  }

  /** For instance, the no-break space U+00A0 behind a letter stays, whereas a space is replaced. */
  lemma NoBreakSpaceStays(u: Unicode)
    requires u.nfc == Same && u.lower == Same
    requires !u.other([0x62]) && !u.other([0xC2, 0xA0]) && !u.space([0x62]) && u.space([0xC2, 0xA0]) && u.space([0x20])
    ensures Sanitized(u, [0x62, 0xC2, 0xA0]) == Ok([0x62, 0xC2, 0xA0])
    ensures Sanitized(u, [0x62, 0x20]) == Ok([0x62, UNDERSCORE])
  {
    StartsUnreserved(u, [0x62] + [0xC2, 0xA0]);
    StartsUnreserved(u, [0x62] + [0x20]);
    TwoRunes(u, [0x62], [0xC2, 0xA0], [0xC2, 0xA0]);
    TwoRunes(u, [0x62], [0x20], [UNDERSCORE]);
    assert [0x62, 0xC2, 0xA0] == [0x62] + [0xC2, 0xA0];
    assert [0x62, 0x20] == [0x62] + [0x20];
    assert [0x62, UNDERSCORE] == [0x62] + [UNDERSCORE];
  }

  function Same(s: seq<Byte>): seq<Byte> { s }

  /** No reserved name starts with a b. */
  lemma StartsUnreserved(u: Unicode, s: seq<Byte>)
    requires s != [] && s[0] == 0x62 && u.lower == Same
    ensures !Reserved(u, s)
  {
  }

  lemma TwoRunes(u: Unicode, r: Rune, q: Rune, q': Rune)
    requires IsEncoding(r) && IsEncoding(q) && !Bad(u, true, false, r) && q' == Mark(u, false, true, q)
    requires u.nfc(r + q) == r + q && Check(u, r + q) == None
    ensures Sanitized(u, r + q) == Ok(r + q')
  {
    JoinTwo(r, q);
    JoinTwo(r, q');
    JoinThenDecode([r, q]);
    assert Marked(u, [r, q]) == [r, q'];
  }

  lemma JoinTwo(r: Rune, q: Rune)
    ensures Join([r, q]) == r + q
  {
    assert JoinTo([r, q], 1) == JoinTo([r, q], 0) + r;
  }
}
