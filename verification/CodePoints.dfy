/** Code points and their encodings: what UTF-8 is, arithmetically. */
module CodePoints {

  import opened Utf8

  /** A number with another digit to the base of 64. */
  function Shift(high: int, low: int): int { high * 64 + low }

  /** The code point that an encoding stands for. */
  function CodePoint(r: seq<Byte>): int
    requires IsEncoding(r)
  {
    if |r| == 1 then r[0]
    else if |r| == 2 then Shift(r[0] - 0xC0, r[1] - 0x80)
    else if |r| == 3 then Shift(Shift(r[0] - 0xE0, r[1] - 0x80), r[2] - 0x80)
    else Shift(Shift(Shift(r[0] - 0xF0, r[1] - 0x80), r[2] - 0x80), r[3] - 0x80)
  }

  /** Code points up to U+10FFFF, without surrogates. */
  predicate IsScalar(cp: int) { 0 <= cp < 0xD800 || 0xE000 <= cp <= 0x10FFFF }

  function Encode(cp: int): seq<Byte>
    requires IsScalar(cp)
  {
    var a, b := cp / 64, cp / 64 / 64;
    if cp < 0x80 then [cp]
    else if cp < 0x800 then [0xC0 + a, 0x80 + cp % 64]
    else if cp < 0x10000 then [0xE0 + b, 0x80 + a % 64, 0x80 + cp % 64]
    else [0xF0 + b / 64, 0x80 + b % 64, 0x80 + a % 64, 0x80 + cp % 64]
  }

  lemma CodePointRange(r: seq<Byte>)
    requires IsEncoding(r)
    ensures |r| == 1 <==> CodePoint(r) < 0x80
    ensures |r| == 2 <==> 0x80 <= CodePoint(r) < 0x800
    ensures |r| == 3 <==> 0x800 <= CodePoint(r) < 0x10000
    ensures IsScalar(CodePoint(r))
  {
  }

  lemma ShiftBack(high: int, low: int)
    requires 0 <= low < 64
    ensures Shift(high, low) / 64 == high && Shift(high, low) % 64 == low
  {
  }

  /** Every code point has an encoding. */
  lemma EncodeThenCodePoint(cp: int)
    requires IsScalar(cp)
    ensures IsEncoding(Encode(cp)) && CodePoint(Encode(cp)) == cp
  {
    var a, b := cp / 64, cp / 64 / 64;
    assert cp == Shift(a, cp % 64) && a == Shift(b, a % 64) && b == Shift(b / 64, b % 64);
  }

  /** And there are no other encodings. */
  lemma CodePointThenEncode(r: seq<Byte>)
    requires IsEncoding(r)
    ensures IsScalar(CodePoint(r)) && Encode(CodePoint(r)) == r
  {
    CodePointRange(r);
    if |r| == 1 {
    } else if |r| == 2 {
      ShiftBack(r[0] - 0xC0, r[1] - 0x80);
    } else if |r| == 3 {
      var a := Shift(r[0] - 0xE0, r[1] - 0x80);
      ShiftBack(r[0] - 0xE0, r[1] - 0x80);
      ShiftBack(a, r[2] - 0x80);
    } else {
      var b := Shift(r[0] - 0xF0, r[1] - 0x80);
      var a := Shift(b, r[2] - 0x80);
      ShiftBack(r[0] - 0xF0, r[1] - 0x80);
      ShiftBack(b, r[2] - 0x80);
      ShiftBack(a, r[3] - 0x80);
    }
  }
}
