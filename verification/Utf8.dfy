/** UTF-8 encodings as Go's unicode/utf8 package decodes them: from the front and from the back. */
module Utf8 {

  /** No encoding has anything but 0 to 255 in it, so the range need not be part of the type. */
  type Byte = int

  predicate Continues(b: Byte) { 0x80 <= b <= 0xBF }

  /** The length of an encoding that starts with `b`; 0 if none does. */
  function Width(b: Byte): nat {
    if 0x00 <= b <= 0x7F then 1
    else if 0xC2 <= b <= 0xDF then 2
    else if 0xE0 <= b <= 0xEF then 3
    else if 0xF0 <= b <= 0xF4 then 4
    else 0
  }

  /** The second byte has a narrower range after some first bytes. */
  predicate Second(first: Byte, b: Byte) {
    if first == 0xE0 then 0xA0 <= b <= 0xBF
    else if first == 0xED then 0x80 <= b <= 0x9F
    else if first == 0xF0 then 0x90 <= b <= 0xBF
    else if first == 0xF4 then 0x80 <= b <= 0x8F
    else Continues(b)
  }

  /** `s` is the encoding of a single rune. */
  predicate IsEncoding(s: seq<Byte>) {
    && |s| > 0
    && |s| == Width(s[0])
    && (|s| > 1 ==> Second(s[0], s[1]))
    && forall i :: 2 <= i < |s| ==> Continues(s[i])
  }

  /** The length of the rune at the front of `s`; 0 if there is none. */
  function FrontRune(s: seq<Byte>): (w: nat)
    ensures w <= |s| && w <= 4
    ensures w > 0 ==> IsEncoding(s[..w])
  {
    if s != [] && 0 < Width(s[0]) <= |s| && IsEncoding(s[..Width(s[0])]) then Width(s[0]) else 0
  }

  /** The last `n` bytes of `s` encode a rune. */
  predicate RuneAtBack(s: seq<Byte>, n: nat) { 0 < n <= |s| && IsEncoding(s[|s| - n..]) }

  /** The length of the rune at the back of `s`; 0 if there is none. */
  function BackRune(s: seq<Byte>): (w: nat)
    ensures w > 0 ==> RuneAtBack(s, w)
  {
    if RuneAtBack(s, 1) then 1
    else if RuneAtBack(s, 2) then 2
    else if RuneAtBack(s, 3) then 3
    else if RuneAtBack(s, 4) then 4
    else 0
  }

  // ------------------------------------------------------------------------------------------
  // Texts

  const REPLACEMENT: seq<Byte> := [0xEF, 0xBF, 0xBD]

  /** A sequence of whole runes, none of which is U+FFFD. */
  predicate Clean(s: seq<Byte>) {
    s == [] || (var w := FrontRune(s); w > 0 && s[..w] != REPLACEMENT && Clean(s[w..]))
  }

  /** The rune at the back can be decoded, and it is not U+FFFD. */
  predicate EndsInRune(s: seq<Byte>) {
    var w := BackRune(s);
    w > 0 && s[|s| - w..] != REPLACEMENT
  }

  lemma FrontRuneOfConcat(a: seq<Byte>, b: seq<Byte>)
    requires FrontRune(a) > 0
    ensures FrontRune(a + b) == FrontRune(a)
  {
  }

  lemma {:induction false} CleanConcat(a: seq<Byte>, b: seq<Byte>)
    requires Clean(a)
    ensures Clean(a + b) <==> Clean(b)
    decreases |a|
  {
    if a == [] {
      assert a + b == b;
    } else {
      var w := FrontRune(a);
      FrontRuneOfConcat(a, b);
      assert (a + b)[..w] == a[..w] && (a + b)[w..] == a[w..] + b;
      CleanConcat(a[w..], b);
    }
  }

  /** Between two runes: the end of the whole runes among the first `m` bytes of a clean text. */
  function Boundary(x: seq<Byte>, m: nat): (c: nat)
    requires Clean(x) && m <= |x|
    ensures c <= m
    decreases |x|
  {
    if x == [] || m < FrontRune(x) then 0 else FrontRune(x) + Boundary(x[FrontRune(x)..], m - FrontRune(x))
  }

  /** Prefixes of an encoding end in no rune. */
  lemma PartialEndsInNoRune(x: seq<Byte>, i: nat)
    requires FrontRune(x) > 0 && 0 < i < FrontRune(x)
    ensures BackRune(x[..i]) == 0
  {
    var w := FrontRune(x);
    var e, p := x[..w], x[..i];
    assert forall k :: 0 < k < w ==> Continues(e[k]);
    assert forall k :: 0 <= k < i ==> p[k] == e[k];
    forall n: nat ensures !RuneAtBack(p, n) {
      if 0 < n <= i { assert p[i - n..][0] == e[i - n]; }
    }
  }

  lemma RuneAtBackOfConcat(a: seq<Byte>, y: seq<Byte>, n: nat)
    requires y != [] && !Continues(y[0])
    ensures RuneAtBack(a + y, n) <==> RuneAtBack(y, n)
  {
    var s := a + y;
    if 0 < n <= |y| {
      assert s[|s| - n..] == y[|y| - n..];
    } else if 0 < n <= |s| {
      var t := s[|s| - n..];
      assert t[n - |y|] == y[0];
    }
  }

  /** What comes before a rune's first byte does not matter to what is decoded behind it. */
  lemma BackRuneOfConcat(a: seq<Byte>, y: seq<Byte>)
    requires y != [] && !Continues(y[0])
    ensures BackRune(a + y) == BackRune(y)
  {
    RuneAtBackOfConcat(a, y, 1);
    RuneAtBackOfConcat(a, y, 2);
    RuneAtBackOfConcat(a, y, 3);
    RuneAtBackOfConcat(a, y, 4);
  }

  lemma EncodingEndsInRune(e: seq<Byte>)
    requires IsEncoding(e) && e != REPLACEMENT
    ensures BackRune(e) == |e| && EndsInRune(e)
  {
    assert forall k :: 0 < k < |e| ==> Continues(e[k]);
    forall n | 0 < n < |e| ensures !RuneAtBack(e, n) {
      assert e[|e| - n..][0] == e[|e| - n];
    }
    assert e[|e| - |e|..] == e;
    assert 1 <= |e| <= 4;
  }

  lemma EndsInRuneOfConcat(a: seq<Byte>, y: seq<Byte>)
    requires y != [] && !Continues(y[0])
    ensures EndsInRune(a + y) <==> EndsInRune(y)
  {
    BackRuneOfConcat(a, y);
    var w := BackRune(y);
    assert w > 0 ==> (a + y)[|a + y| - w..] == y[|y| - w..];
  }

  lemma CleanStart(y: seq<Byte>)
    requires Clean(y) && y != []
    ensures !Continues(y[0])
  {
  }

  lemma CleanRune(e: seq<Byte>)
    requires IsEncoding(e) && e != REPLACEMENT
    ensures Clean(e) && FrontRune(e) == |e|
  {
  }

  /** A boundary cuts off at most three bytes of a rune. */
  lemma {:induction false} BoundaryIsNear(x: seq<Byte>, m: nat)
    requires Clean(x) && m <= |x|
    ensures m < Boundary(x, m) + 4
    decreases |x|
  {
    if x != [] && FrontRune(x) <= m {
      BoundaryIsNear(x[FrontRune(x)..], m - FrontRune(x));
    }
  }

  lemma SliceOfSlice(x: seq<Byte>, w: nat, d: nat)
    requires w + d <= |x|
    ensures x[..w + d] == x[..w] + x[w..][..d] && x[w + d..] == x[w..][d..]
  {
  }

  /** A boundary splits a clean text into clean texts. */
  lemma {:induction false} BoundarySplits(x: seq<Byte>, m: nat)
    requires Clean(x) && m <= |x|
    ensures Clean(x[..Boundary(x, m)]) && Clean(x[Boundary(x, m)..])
    decreases |x|
  {
    var w := FrontRune(x);
    if x == [] || m < w {
      assert x[..0] == [] && x[0..] == x;
    } else {
      var d := Boundary(x[w..], m - w);
      BoundarySplits(x[w..], m - w);
      SliceOfSlice(x, w, d);
      CleanRune(x[..w]);
      CleanConcat(x[..w], x[w..][..d]);
    }
  }

  /** Behind the boundary nothing can be decoded from the back; at the boundary it can. */
  lemma {:induction false} BoundaryIsCut(x: seq<Byte>, m: nat, i: nat)
    requires Clean(x) && m <= |x| && Boundary(x, m) <= i <= m && 0 < i
    ensures EndsInRune(x[..i]) <==> i == Boundary(x, m)
    decreases |x|
  {
    var w := FrontRune(x);
    if m < w {
      PartialEndsInNoRune(x, i);
    } else {
      var e, y := x[..w], x[w..];
      assert x[..i] == e + y[..i - w];
      if i == w {
        assert x[..i] == e;
        EncodingEndsInRune(e);
      } else {
        CleanStart(y);
        EndsInRuneOfConcat(e, y[..i - w]);
        BoundaryIsCut(y, m - w, i - w);
      }
    }
  }
}
