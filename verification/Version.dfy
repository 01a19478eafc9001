/**
 The version comparison of the updater: Semantic Versioning with the build metadata compared like
 a pre-release, and before it.
 */
module Version {

  import opened Basics
  import opened Strings

  /** A parsed version; an absent pre-release or absent metadata is the empty string. */
  datatype Version = Version(major: nat, minor: nat, patch: nat, pre: string, meta: string)

  const UINT64_LIMIT := 0x1_0000_0000_0000_0000

  predicate IsDigit(c: char) { '0' <= c <= '9' }

  predicate AllDigits(s: string) { forall i :: 0 <= i < |s| ==> IsDigit(s[i]) }

  /** The value of the first `n` digits. */
  function Decimal(s: string, n: nat): nat
    requires n <= |s| && AllDigits(s)
  {
    if n == 0 then 0 else 10 * Decimal(s, n - 1) + (s[n - 1] - '0') as nat
  }

  /** The number of an identifier; none if it is not a number, or does not fit into 64 bits. */
  function ParseUint(s: string): Option<nat> {
    if s != "" && AllDigits(s) && Decimal(s, |s|) < UINT64_LIMIT then Some(Decimal(s, |s|)) else None
  }

  function CompareSegment(v: nat, o: nat): int {
    if v < o then -1 else if v > o then 1 else 0
  }

  function ComparePrePart(s: string, o: string): int {
    if s == o then 0
    else if s == "" then -1
    else if o == "" then 1
    else
      var oi, si := ParseUint(o), ParseUint(s);
      if oi.None? && si.None? then if Less(o, s) then 1 else -1
      else if oi.None? then -1
      else if si.None? then 1
      else if si.value > oi.value then 1 else -1
  }

  /** The parts between the dots. */
  function Split(s: string): (parts: seq<string>)
    ensures parts != []
  {
    var i := NextDot(s, 0);
    if i == |s| then [s] else [s[..i]] + Split(s[i + 1..])
  }

  function NextDot(s: string, i: nat): (n: nat)
    requires i <= |s|
    ensures i <= n <= |s|
    ensures (forall k :: i <= k < n ==> s[k] != '.') && (n < |s| ==> s[n] == '.')
    decreases |s| - i
  {
    if i == |s| || s[i] == '.' then i else NextDot(s, i + 1)
  }

  /** The i-th part, or the placeholder for one that is missing. */
  function Part(parts: seq<string>, i: nat): string { if i < |parts| then parts[i] else "" }

  /** The comparison of the parts from `i` up to `n`. */
  function CompareFrom(xs: seq<string>, ys: seq<string>, i: nat, n: nat): int
    requires i <= n
    decreases n - i
  {
    if i == n then 0
    else
      var d := ComparePrePart(Part(xs, i), Part(ys, i));
      if d != 0 then d else CompareFrom(xs, ys, i + 1, n)
  }

  function Max(a: nat, b: nat): nat { if a < b then b else a }

  function ComparePrerelease(v: string, o: string): int {
    var xs, ys := Split(v), Split(o);
    CompareFrom(xs, ys, 0, Max(|xs|, |ys|))
  }

  /** The part behind the build metadata: no pre-release is higher than any. */
  function ComparePre(ps: string, po: string): int {
    if ps == "" && po == "" then 0
    else if ps == "" then 1
    else if po == "" then -1
    else ComparePrerelease(ps, po)
  }

  function Compare(v: Version, o: Version): int {
    var d1, d2 := CompareSegment(v.major, o.major), CompareSegment(v.minor, o.minor);
    var d3 := CompareSegment(v.patch, o.patch);
    if d1 != 0 then d1
    else if d2 != 0 then d2
    else if d3 != 0 then d3
    else
      var d4 := ComparePrerelease(v.meta, o.meta);
      if d4 != 0 then d4 else ComparePre(v.pre, o.pre)
  }

  /** The loop over the parts. */
  method ComparePrereleases(v: string, o: string) returns (d: int)
    ensures d == ComparePrerelease(v, o)
  {
    var sparts, oparts := Split(v), Split(o);
    var l := Max(|oparts|, |sparts|);
    var i := 0;
    while i < l
      invariant i <= l && CompareFrom(sparts, oparts, 0, l) == CompareFrom(sparts, oparts, i, l)
    {
      var stemp := "";
      if i < |sparts| {
        stemp := sparts[i];
      }
      var otemp := "";
      if i < |oparts| {
        otemp := oparts[i];
      }
      d := ComparePrePart(stemp, otemp);
      if d != 0 {
        return;
      }
      i := i + 1;
    }
    d := 0;
  }

  method CompareVersions(v: Version, o: Version) returns (d: int)
    ensures d == Compare(v, o)
  {
    d := CompareSegment(v.major, o.major);
    if d != 0 { return; }
    d := CompareSegment(v.minor, o.minor);
    if d != 0 { return; }
    d := CompareSegment(v.patch, o.patch);
    if d != 0 { return; }
    d := ComparePrereleases(v.meta, o.meta);
    if d != 0 { return; }
    if v.pre == "" && o.pre == "" { return 0; }
    if v.pre == "" { return 1; }
    if o.pre == "" { return -1; }
    d := ComparePrereleases(v.pre, o.pre);
  }

  // ------------------------------------------------------------------------------------------
  // Parts

  /** A number that is not written with superfluous zeros. */
  predicate Proper(s: string) { AllDigits(s) && |s| > 1 ==> s[0] != '0' }

  lemma {:induction false} DecimalGrows(s: string, n: nat)
    requires AllDigits(s) && 0 < n <= |s| && s[0] != '0'
    ensures Decimal(s, n) > 0 && (n > 1 ==> Decimal(s, n) >= 10)
    decreases n
  {
    if n > 1 {
      DecimalGrows(s, n - 1);
    } else {
      assert Decimal(s, 0) == 0;
    }
  }

  lemma {:induction false} DecimalInjective(s: string, t: string, m: nat, n: nat)
    requires AllDigits(s) && AllDigits(t) && 0 < m <= |s| && 0 < n <= |t|
    requires (m > 1 ==> s[0] != '0') && (n > 1 ==> t[0] != '0')
    requires Decimal(s, m) == Decimal(t, n)
    ensures s[..m] == t[..n]
    decreases m
  {
    assert Decimal(s, m) == 10 * Decimal(s, m - 1) + (s[m - 1] - '0') as nat;
    assert Decimal(t, n) == 10 * Decimal(t, n - 1) + (t[n - 1] - '0') as nat;
    if m > 1 { DecimalGrows(s, m); DecimalGrows(s, m - 1); }
    if n > 1 { DecimalGrows(t, n); DecimalGrows(t, n - 1); }
    assert Decimal(s, 0) == 0 && Decimal(t, 0) == 0;
    if m > 1 && n > 1 {
      DecimalInjective(s, t, m - 1, n - 1);
    }
    assert s[..m] == s[..m - 1] + [s[m - 1]] && t[..n] == t[..n - 1] + [t[n - 1]];
  }

  /** Two different spellings of the same number. */
  predicate SameNumber(s: string, o: string) {
    s != o && ParseUint(s).Some? && ParseUint(s) == ParseUint(o)
  }

  lemma ProperNumbersDiffer(s: string, o: string)
    requires Proper(s) && Proper(o)
    ensures !SameNumber(s, o)
  {
    assert s[..|s|] == s && o[..|o|] == o;
    if SameNumber(s, o) {
      DecimalInjective(s, o, |s|, |o|);
    }
  }

  /** Parts compare the other way round when swapped, unless they are the same number. */
  lemma PartAntisymmetric(s: string, o: string)
    ensures -1 <= ComparePrePart(s, o) <= 1
    ensures ComparePrePart(s, o) == 0 <==> s == o
    ensures ComparePrePart(s, o) == -ComparePrePart(o, s) <==> !SameNumber(s, o)
  {
    LessTotal(s, o);
    if Less(s, o) && Less(o, s) {
      LessTransitive(s, o, s);
      LessIrreflexive(s);
    }
  }

  lemma PartTransitive(s: string, o: string, t: string)
    requires ComparePrePart(s, o) < 0 && ComparePrePart(o, t) < 0
    requires Proper(s) && Proper(o) && Proper(t)
    ensures ComparePrePart(s, t) < 0
  {
    ProperNumbersDiffer(s, o);
    ProperNumbersDiffer(o, t);
    LessTotal(s, o);
    LessTotal(o, t);
    if Less(s, o) && Less(o, t) {
      LessTransitive(s, o, t);
      LessIrreflexive(s);
      if Less(t, s) { LessTransitive(s, t, s); }
    }
  }

  // ------------------------------------------------------------------------------------------
  // Antisymmetry

  /** The first parts that differ are two spellings of the same number. */
  predicate ClashFrom(xs: seq<string>, ys: seq<string>, i: nat, n: nat)
    requires i <= n
    decreases n - i
  {
    i < n && if Part(xs, i) == Part(ys, i) then ClashFrom(xs, ys, i + 1, n) else SameNumber(Part(xs, i), Part(ys, i))
  }

  predicate Clash(v: string, o: string) { ClashFrom(Split(v), Split(o), 0, Max(|Split(v)|, |Split(o)|)) }

  lemma {:induction false} FromAntisymmetric(xs: seq<string>, ys: seq<string>, i: nat, n: nat)
    requires i <= n
    ensures CompareFrom(xs, ys, i, n) == -CompareFrom(ys, xs, i, n) <==> !ClashFrom(xs, ys, i, n)
    ensures CompareFrom(xs, ys, i, n) == 0 <==> CompareFrom(ys, xs, i, n) == 0
    ensures CompareFrom(xs, ys, i, n) == 0 ==> !ClashFrom(xs, ys, i, n)
    decreases n - i
  {
    if i < n {
      PartAntisymmetric(Part(xs, i), Part(ys, i));
      PartAntisymmetric(Part(ys, i), Part(xs, i));
      FromAntisymmetric(xs, ys, i + 1, n);
    }
  }

  lemma StringAntisymmetric(v: string, o: string)
    ensures ComparePrerelease(v, o) == -ComparePrerelease(o, v) <==> !Clash(v, o)
    ensures ComparePrerelease(v, o) == 0 <==> ComparePrerelease(o, v) == 0
    ensures ComparePrerelease(v, o) == 0 ==> !Clash(v, o)
  {
    FromAntisymmetric(Split(v), Split(o), 0, Max(|Split(v)|, |Split(o)|));
  }

  /** The decision falls between two spellings of the same number. */
  predicate VersionsClash(v: Version, o: Version) {
    && v.major == o.major && v.minor == o.minor && v.patch == o.patch
    && (Clash(v.meta, o.meta)
        || (ComparePrerelease(v.meta, o.meta) == 0 && v.pre != "" && o.pre != "" && Clash(v.pre, o.pre)))
  }

  /** Swapping two versions reverses the comparison, exactly if they do not clash. */
  lemma AntisymmetricUnlessClash(v: Version, o: Version)
    ensures Compare(v, o) == -Compare(o, v) <==> !VersionsClash(v, o)
  {
    StringAntisymmetric(v.meta, o.meta);
    StringAntisymmetric(v.pre, o.pre);
  }

  predicate ProperParts(xs: seq<string>) { forall i :: 0 <= i < |xs| ==> Proper(xs[i]) }

  /** No numeric identifier has leading zeros. */
  predicate ProperVersion(v: Version) { ProperParts(Split(v.pre)) && ProperParts(Split(v.meta)) }

  lemma {:induction false} ProperPartsDoNotClash(xs: seq<string>, ys: seq<string>, i: nat, n: nat)
    requires ProperParts(xs) && ProperParts(ys) && i <= n
    ensures !ClashFrom(xs, ys, i, n)
    decreases n - i
  {
    if i < n {
      ProperNumbersDiffer(Part(xs, i), Part(ys, i));
      ProperPartsDoNotClash(xs, ys, i + 1, n);
    }
  }

  /** Without leading zeros, the comparison is antisymmetric. */
  lemma Antisymmetric(v: Version, o: Version)
    requires ProperVersion(v) && ProperVersion(o)
    ensures Compare(v, o) == -Compare(o, v)
  {
    AntisymmetricUnlessClash(v, o);
    ProperPartsDoNotClash(Split(v.meta), Split(o.meta), 0, Max(|Split(v.meta)|, |Split(o.meta)|));
    ProperPartsDoNotClash(Split(v.pre), Split(o.pre), 0, Max(|Split(v.pre)|, |Split(o.pre)|));
  }

  /** Build metadata may have leading zeros, and then both versions are said to be the lower one. */
  lemma LeadingZerosAreNotAntisymmetric()
    ensures Compare(Version(1, 0, 0, "", "01"), Version(1, 0, 0, "", "1")) == -1
    ensures Compare(Version(1, 0, 0, "", "1"), Version(1, 0, 0, "", "01")) == -1
  {
  }

  // ------------------------------------------------------------------------------------------
  // Transitivity

  lemma {:induction false} FromTransitive(xs: seq<string>, ys: seq<string>, zs: seq<string>, i: nat, n: nat)
    requires ProperParts(xs) && ProperParts(ys) && ProperParts(zs) && i <= n
    requires CompareFrom(xs, ys, i, n) <= 0 && CompareFrom(ys, zs, i, n) <= 0
    ensures CompareFrom(xs, zs, i, n) <= 0
    ensures CompareFrom(xs, zs, i, n) == 0 ==> CompareFrom(xs, ys, i, n) == 0 && CompareFrom(ys, zs, i, n) == 0
    decreases n - i
  {
    if i < n {
      var x, y, z := Part(xs, i), Part(ys, i), Part(zs, i);
      PartAntisymmetric(x, y);
      PartAntisymmetric(y, z);
      if x == y && y == z {
        FromTransitive(xs, ys, zs, i + 1, n);
      } else if x != y && y != z {
        PartTransitive(x, y, z);
      }
    }
  }

  /** Placeholders beyond both sequences do not matter. */
  lemma {:induction false} FromPadded(xs: seq<string>, ys: seq<string>, i: nat, n: nat, m: nat)
    requires i <= n <= m && |xs| <= n && |ys| <= n
    ensures CompareFrom(xs, ys, i, m) == CompareFrom(xs, ys, i, n)
    decreases m - i
  {
    if i < m {
      if i < n {
        FromPadded(xs, ys, i + 1, n, m);
      } else {
        FromPadded(xs, ys, i + 1, i + 1, m);
      }
    }
  }

  lemma StringTransitive(v: string, o: string, w: string)
    requires ProperParts(Split(v)) && ProperParts(Split(o)) && ProperParts(Split(w))
    requires ComparePrerelease(v, o) <= 0 && ComparePrerelease(o, w) <= 0
    ensures ComparePrerelease(v, w) <= 0
    ensures ComparePrerelease(v, w) == 0 ==> ComparePrerelease(v, o) == 0 && ComparePrerelease(o, w) == 0
  {
    var xs, ys, zs := Split(v), Split(o), Split(w);
    var n := Max(|xs|, Max(|ys|, |zs|));
    FromPadded(xs, ys, 0, Max(|xs|, |ys|), n);
    FromPadded(ys, zs, 0, Max(|ys|, |zs|), n);
    FromPadded(xs, zs, 0, Max(|xs|, |zs|), n);
    FromTransitive(xs, ys, zs, 0, n);
  }

  /** Without leading zeros, the comparison is transitive, and strictly so. */
  lemma Transitive(v: Version, o: Version, w: Version)
    requires ProperVersion(v) && ProperVersion(o) && ProperVersion(w)
    requires Compare(v, o) <= 0 && Compare(o, w) <= 0
    ensures Compare(v, w) <= 0
    ensures Compare(v, w) == 0 ==> Compare(v, o) == 0 && Compare(o, w) == 0
  {
    if ComparePrerelease(v.meta, o.meta) <= 0 && ComparePrerelease(o.meta, w.meta) <= 0 {
      StringTransitive(v.meta, o.meta, w.meta);
    }
    if ComparePrerelease(v.pre, o.pre) <= 0 && ComparePrerelease(o.pre, w.pre) <= 0 {
      StringTransitive(v.pre, o.pre, w.pre);
    }
  }

  // ------------------------------------------------------------------------------------------
  // Section 11 of Semantic Versioning 2.0.0

  /** Identifiers of digits compare numerically and are lower than others, which compare in ASCII order. */
  function SemVerIdentifiers(s: string, o: string): int {
    if AllDigits(s) && AllDigits(o) then CompareSegment(Decimal(s, |s|), Decimal(o, |o|))
    else if AllDigits(s) then -1
    else if AllDigits(o) then 1
    else if s == o then 0
    else if Less(s, o) then -1 else 1
  }

  /** A larger set of fields is higher, if all of the preceding ones are equal. */
  function SemVerFields(xs: seq<string>, ys: seq<string>, i: nat): int
    requires i <= |xs| && i <= |ys|
    decreases |xs| - i
  {
    if i == |xs| then if i == |ys| then 0 else -1
    else if i == |ys| then 1
    else
      var d := SemVerIdentifiers(xs[i], ys[i]);
      if d != 0 then d else SemVerFields(xs, ys, i + 1)
  }

  function SemVerPrecedence(v: Version, o: Version): int {
    if v.major != o.major then CompareSegment(v.major, o.major)
    else if v.minor != o.minor then CompareSegment(v.minor, o.minor)
    else if v.patch != o.patch then CompareSegment(v.patch, o.patch)
    else if v.pre == "" || o.pre == "" then if v.pre == o.pre then 0 else if v.pre == "" then 1 else -1
    else SemVerFields(Split(v.pre), Split(o.pre), 0)
  }

  predicate Fits(s: string) { AllDigits(s) ==> Decimal(s, |s|) < UINT64_LIMIT }

  /** Identifiers are not empty, have no leading zeros, and their numbers fit into 64 bits. */
  predicate Ordinary(xs: seq<string>) { forall i :: 0 <= i < |xs| ==> xs[i] != "" && Proper(xs[i]) && Fits(xs[i]) }

  lemma IdentifiersAgree(s: string, o: string)
    requires s != "" && o != "" && Proper(s) && Proper(o) && Fits(s) && Fits(o)
    ensures ComparePrePart(s, o) == SemVerIdentifiers(s, o)
  {
    ProperNumbersDiffer(s, o);
    LessTotal(s, o);
    if Less(s, o) && Less(o, s) {
      LessTransitive(s, o, s);
      LessIrreflexive(s);
    }
  }

  lemma {:induction false} FieldsAgree(xs: seq<string>, ys: seq<string>, i: nat)
    requires Ordinary(xs) && Ordinary(ys) && i <= |xs| && i <= |ys|
    ensures CompareFrom(xs, ys, i, Max(|xs|, |ys|)) == SemVerFields(xs, ys, i)
    decreases |xs| - i
  {
    if i < |xs| && i < |ys| {
      IdentifiersAgree(xs[i], ys[i]);
      FieldsAgree(xs, ys, i + 1);
    }
  }

  lemma {:induction false} SameParts(xs: seq<string>, i: nat, n: nat)
    requires i <= n
    ensures CompareFrom(xs, xs, i, n) == 0
    decreases n - i
  {
    if i < n { SameParts(xs, i + 1, n); }
  }

  /** With the same build metadata, the comparison is the precedence of Semantic Versioning. */
  lemma AgreesWithSemVer(v: Version, o: Version)
    requires v.meta == o.meta
    requires (v.pre != "" ==> Ordinary(Split(v.pre))) && (o.pre != "" ==> Ordinary(Split(o.pre)))
    ensures Compare(v, o) == SemVerPrecedence(v, o)
  {
    SameParts(Split(v.meta), 0, |Split(v.meta)|);
    if v.pre != "" && o.pre != "" {
      FieldsAgree(Split(v.pre), Split(o.pre), 0);
    }
  }

  /** Build metadata in the order of pre-release identifiers; no metadata is lower than any. */
  function MetadataOrder(v: string, o: string): int {
    if v == "" || o == "" then if v == o then 0 else if v == "" then -1 else 1
    else SemVerFields(Split(v), Split(o), 0)
  }

  /** The order of k0s versions: major, minor and patch version, then the build metadata, then the pre-release. */
  function Precedence(v: Version, o: Version): int {
    if (v.major, v.minor, v.patch) != (o.major, o.minor, o.patch) then SemVerPrecedence(v.(pre := ""), o.(pre := ""))
    else if MetadataOrder(v.meta, o.meta) != 0 then MetadataOrder(v.meta, o.meta)
    else SemVerPrecedence(v, o)
  }

  predicate OrdinaryVersion(v: Version) {
    (v.pre != "" ==> Ordinary(Split(v.pre))) && (v.meta != "" ==> Ordinary(Split(v.meta)))
  }

  lemma NoPartsSplit()
    ensures Split("") == [""]
  {
  }

  lemma MetadataAgrees(v: string, o: string)
    requires (v != "" ==> Ordinary(Split(v))) && (o != "" ==> Ordinary(Split(o)))
    ensures ComparePrerelease(v, o) == MetadataOrder(v, o)
  {
    NoPartsSplit();
    var xs, ys := Split(v), Split(o);
    if v == o {
      SameParts(xs, 0, |xs|);
    }
    if v != "" && o != "" {
      FieldsAgree(xs, ys, 0);
    }
  }

  /** The comparison is that order, whatever the versions have. */
  lemma ComparesAsPrecedence(v: Version, o: Version)
    requires OrdinaryVersion(v) && OrdinaryVersion(o)
    ensures Compare(v, o) == Precedence(v, o)
  {
    MetadataAgrees(v.meta, o.meta);
    if v.pre != "" && o.pre != "" {
      FieldsAgree(Split(v.pre), Split(o.pre), 0);
    }
  }

  function JoinDots(parts: seq<string>): string
    requires parts != []
  {
    if |parts| == 1 then parts[0] else parts[0] + "." + JoinDots(parts[1..])
  }

  /** Splitting gives parts without dots that make up the text when joined with dots. */
  lemma {:induction false} SplitExactly(s: string)
    ensures JoinDots(Split(s)) == s && forall i :: 0 <= i < |Split(s)| ==> '.' !in Split(s)[i]
    decreases |s|
  {
    var i := NextDot(s, 0);
    if i < |s| {
      SplitExactly(s[i + 1..]);
      assert Split(s)[1..] == Split(s[i + 1..]);
      assert s == s[..i] + "." + s[i + 1..];
    }
  }

  lemma {:induction false} FieldsDiffer(xs: seq<string>, ys: seq<string>, i: nat)
    requires Ordinary(xs) && Ordinary(ys) && i <= |xs| && i <= |ys| && xs[..i] == ys[..i]
    ensures SemVerFields(xs, ys, i) == 0 ==> xs == ys
    decreases |xs| - i
  {
    if i < |xs| && i < |ys| {
      IdentifiersAgree(xs[i], ys[i]);
      PartAntisymmetric(xs[i], ys[i]);
      if xs[i] == ys[i] {
        assert xs[..i + 1] == xs[..i] + [xs[i]] && ys[..i + 1] == ys[..i] + [ys[i]];
        FieldsDiffer(xs, ys, i + 1);
      }
    } else if |xs| == |ys| {
      assert xs == xs[..i] && ys == ys[..i];
    }
  }

  /** Different build metadata are never equal in that order, so the pre-release counts only if they are the same. */
  lemma MetadataDiffer(v: string, o: string)
    requires (v != "" ==> Ordinary(Split(v))) && (o != "" ==> Ordinary(Split(o)))
    ensures MetadataOrder(v, o) == 0 <==> v == o
  {
    SplitExactly(v);
    SplitExactly(o);
    MetadataAgrees(v, o);
    if v == o {
      SameParts(Split(v), 0, |Split(v)|);
    }
    if v != "" && o != "" {
      FieldsDiffer(Split(v), Split(o), 0);
    }
  }
}
