/** The rules for file names, in terms of characters and code points, and that the sanitizer follows them. */
module FileNameRules {

  import opened Utf8
  import opened CodePoints
  import opened FileName

  // ------------------------------------------------------------------------------------------
  // Code points

  /** Separators, redirections, drive letters, quotes and wildcards. */
  predicate IsSpecial(cp: int) {
    cp in {'\\' as int, '/' as int, '<' as int, '>' as int, '|' as int, ':' as int, '"' as int, '?' as int, '*' as int}
  }

  /** Embeddings, overrides and isolates of the text direction. */
  predicate IsDirection(cp: int) { 0x202A <= cp <= 0x202E || 0x2066 <= cp <= 0x2069 }

  lemma ForbiddenExactly(r: Rune)
    requires IsEncoding(r)
    ensures Forbidden(r) <==> IsSpecial(CodePoint(r)) || IsDirection(CodePoint(r))
  {
    CodePointRange(r);
  }

  lemma ReplacementExactly(r: Rune)
    requires IsEncoding(r)
    ensures r == REPLACEMENT <==> CodePoint(r) == 0xFFFD
  {
    CodePointRange(r);
    if CodePoint(r) == 0xFFFD {
      assert r == [r[0], r[1], r[2]];
    }
  }

  /**
   What has to be replaced: special characters, text direction modifiers, control characters, leading white space,
   and a trailing dot or white space of one byte. The replacement character is never replaced.
   */
  predicate ToReplace(u: Unicode, runes: seq<Rune>, i: nat)
    requires i < |runes| && IsEncoding(runes[i])
  {
    var r, cp := runes[i], CodePoint(runes[i]);
    || IsSpecial(cp) || IsDirection(cp)
    || (cp != 0xFFFD &&
        (|| u.other(r)
         || (i == 0 && u.space(r))
         || (i == |runes| - 1 && cp < 0x80 && (cp == '.' as int || u.space(r)))))
  }

  /** Exactly what has to be replaced is replaced, by an underscore. */
  lemma ReplacedExactly(u: Unicode, fileName: seq<Byte>, i: nat)
    requires Lawful(u) && Sanitized(u, fileName).Ok? && Decode(u.nfc(fileName)).Some?
    requires i < |Decode(u.nfc(fileName)).value|
    ensures var runes, out := Decode(u.nfc(fileName)).value, Decode(Sanitized(u, fileName).name);
            && IsEncoding(runes[i]) && out.Some? && |out.value| == |runes|
            && out.value[i] == if ToReplace(u, runes, i) then ['_' as int] else runes[i]
  {
    var runes := Decode(u.nfc(fileName)).value;
    DecodeThenJoin(u.nfc(fileName));
    SanitizedIsSafe(u, fileName);
    MarkExactly(u, runes, i);
  }

  lemma MarkExactly(u: Unicode, runes: seq<Rune>, i: nat)
    requires i < |runes| && IsEncoding(runes[i])
    ensures Bad(u, i == 0, i == |runes| - 1, runes[i]) <==> ToReplace(u, runes, i)
  {
    CodePointRange(runes[i]);
    ForbiddenExactly(runes[i]);
    ReplacementExactly(runes[i]);
    assert |runes[i]| == 1 ==> runes[i] == [CodePoint(runes[i])];
  }

  // ------------------------------------------------------------------------------------------
  // Reserved names

  function EncodedChar(c: char): seq<Byte>
    requires c as int < 0x800
  {
    if c as int < 0x80 then [c as int] else [0xC0 + c as int / 64, 0x80 + c as int % 64]
  }

  /** Three characters of ASCII. */
  function Ascii(a: char, b: char, c: char): seq<Byte> { [a as int, b as int, c as int] }

  /** The names of devices, without extension. */
  predicate IsDevice(base: seq<Byte>) {
    || base == Ascii('c', 'o', 'n') || base == Ascii('p', 'r', 'n')
    || base == Ascii('a', 'u', 'x') || base == Ascii('n', 'u', 'l')
    || exists d :: d in "0123456789\U{00B9}\U{00B2}\U{00B3}" && IsPort(base, d)
  }

  predicate IsPort(base: seq<Byte>, d: char) {
    && d as int < 0x800
    && (base == Ascii('c', 'o', 'm') + EncodedChar(d) || base == Ascii('l', 'p', 't') + EncodedChar(d))
  }

  lemma PortIsReserved(s: seq<Byte>, d: char)
    requires d in "0123456789\U{00B9}\U{00B2}\U{00B3}" && IsPort(s, d)
    ensures ReservedBase(s)
  {
    var p := if s == Ascii('c', 'o', 'm') + EncodedChar(d) then Ascii('c', 'o', 'm') else Ascii('l', 'p', 't');
    assert s == p + EncodedChar(d);
    assert s[..3] == p;
    assert d as int < 0x80 ==> s[3] == d as int;
  }

  lemma ReservedIsPort(s: seq<Byte>) returns (d: char)
    requires ReservedBase(s) && |s| > 3
    ensures d in "0123456789\U{00B9}\U{00B2}\U{00B3}" && IsPort(s, d)
  {
    d := if |s| == 4 then s[3] as char else s[4] as char;
    assert s == s[..3] + s[3..];
    var digits := "0123456789\U{00B9}\U{00B2}\U{00B3}";
    if |s| == 4 {
      assert digits[s[3] - 0x30] == d;
    } else {
      assert digits[10] == '\U{00B9}' && digits[11] == '\U{00B2}' && digits[12] == '\U{00B3}';
    }
    assert s[3..] == EncodedChar(d);
  }

  /** The reserved names are those of the devices. */
  lemma ReservedExactly(s: seq<Byte>)
    ensures ReservedBase(s) <==> IsDevice(s)
  {
    if ReservedBase(s) && |s| > 3 {
      var d := ReservedIsPort(s);
    }
    if d :| d in "0123456789\U{00B9}\U{00B2}\U{00B3}" && IsPort(s, d) {
      PortIsReserved(s, d);
    }
  }

  /** The name, in lower case and up to its first dot, is that of a device. */
  predicate NamesDevice(u: Unicode, name: seq<Byte>, n: nat)
    requires n <= |name|
  {
    n < 6 && IsDevice(u.lower(name[..n]))
  }

  /**
   A name is accepted if and only if, once normalized, it has between 1 and 255 bytes, is not a dot or two, does not
   name a device, and is valid UTF-8.
   */
  lemma AcceptedExactly(u: Unicode, fileName: seq<Byte>, n: nat)
    requires var name := u.nfc(fileName);
      n <= |name| && (n < |name| ==> name[n] == '.' as int) && forall i :: 0 <= i < n ==> name[i] != '.' as int
    ensures var name := u.nfc(fileName);
            Sanitized(u, fileName).Ok? <==>
            && 0 < |name| <= 255 && name != ['.' as int] && name != ['.' as int, '.' as int]
            && !NamesDevice(u, name, n) && Decode(name).Some?
  {
    var name := u.nfc(fileName);
    assert BeforeDot(name, 0) == n;
    ReservedExactly(u.lower(name[..n]));
  }

  /** The position is where the valid text ends, and what follows starts with no rune. */
  predicate EndsValid(s: seq<Byte>, pos: nat) {
    pos < |s| && Decode(s[..pos]).Some? && FrontRune(s[pos..]) == 0
  }

  /** Invalid UTF-8 is reported at the first byte that starts no rune. */
  lemma {:induction false} InvalidExactly(s: seq<Byte>)
    requires Decode(s).None?
    ensures EndsValid(s, FirstInvalid(s))
    decreases |s|
  {
    var front, rest := FirstStep(s);
    if front == [] {
      assert s[..0] == [] && s[0..] == s;
    } else {
      InvalidExactly(rest);
      EndsValidLater(front, rest, FirstInvalid(rest));
    }
  }

  lemma FirstStep(s: seq<Byte>) returns (front: Rune, rest: seq<Byte>)
    requires Decode(s).None?
    ensures if front == [] then s != [] && FrontRune(s) == 0 && FirstInvalid(s) == 0
            else IsEncoding(front) && s == front + rest && Decode(rest).None?
                 && FirstInvalid(s) == |front| + FirstInvalid(rest)
  {
    var w := FrontRune(s);
    front, rest := s[..w], s[w..];
  }

  lemma EndsValidLater(front: Rune, rest: seq<Byte>, pos: nat)
    requires IsEncoding(front) && EndsValid(rest, pos)
    ensures EndsValid(front + rest, |front| + pos)
  {
    SlicesOfConcat(front, rest, pos);
    DecodeAppend(front, rest[..pos]);
  }

  lemma SlicesOfConcat(front: seq<Byte>, rest: seq<Byte>, pos: nat)
    requires pos <= |rest|
    ensures (front + rest)[|front| + pos..] == rest[pos..] && (front + rest)[..|front| + pos] == front + rest[..pos]
  {
  }

  lemma DecodeAppend(r: Rune, rest: seq<Byte>)
    requires IsEncoding(r) && Decode(rest).Some?
    ensures Decode(r + rest).Some?
  {
    EncodingAtFront(r, rest);
    assert (r + rest)[|r|..] == rest;
  }

  /** Every refusal has its reason, and the first one that applies is given. */
  lemma RefusedExactly(u: Unicode, fileName: seq<Byte>, n: nat)
    requires var name := u.nfc(fileName);
      n <= |name| && (n < |name| ==> name[n] == '.' as int) && forall i :: 0 <= i < n ==> name[i] != '.' as int
    ensures var name, r := u.nfc(fileName), Sanitized(u, fileName);
            var special := |name| > 255 || name == [] || name == ['.' as int] || name == ['.' as int, '.' as int];
            && (r == Err(TooLong) <==> |name| > 255)
            && (r == Err(Empty) <==> name == [])
            && (r == Err(Dot) <==> name == ['.' as int])
            && (r == Err(DotDot) <==> name == ['.' as int, '.' as int])
            && (r == Err(ReservedName) <==> !special && NamesDevice(u, name, n))
            && (r == Err(InvalidUtf8(FirstInvalid(name))) <==>
                  !special && !NamesDevice(u, name, n) && Decode(name).None?)
  {
    var name := u.nfc(fileName);
    assert BeforeDot(name, 0) == n;
    ReservedExactly(u.lower(name[..n]));
  }
}
