/**
 The order of versions (pkg/internal/version/version.go, compareInternal).  Numbers compare as if padded with zeros.
 Identifiers of a pre-release compare as numbers when both fit the integer type and as strings otherwise, which is
 an order, and the one of section 11 of Semantic Versioning 2.0.0, only as far as proved here.
 */
module VersionOrder {
  import opened Text
  import opened Decimal
  import opened Options
  import opened Versions

  // ---------------------------------------------------------------- numbers

  /** A component, 0 beyond the last. */
  function At(a: seq<nat>, i: nat): nat {
    if i < |a| then a[i] else 0
  }

  ghost predicate SameNumbers(a: seq<nat>, b: seq<nat>) {
    forall i: nat :: At(a, i) == At(b, i)
  }

  /** The first different components, at `i`, are in this order. */
  ghost predicate SmallerAt(a: seq<nat>, b: seq<nat>, i: nat) {
    At(a, i) < At(b, i) && forall j: nat | j < i :: At(a, j) == At(b, j)
  }

  ghost predicate SmallerNumbers(a: seq<nat>, b: seq<nat>) {
    exists i: nat :: SmallerAt(a, b, i)
  }

  /** onlyZeros(). */
  method OnlyZeros(a: seq<nat>) returns (only: bool)
    ensures only <==> forall i: nat :: At(a, i) == 0
  {
    for i := 0 to |a|
      invariant forall j: nat | j < i :: At(a, j) == 0
    {
      if a[i] != 0 {
        assert At(a, i) != 0;
        return false;
      }
    }
    return true;
  }

  lemma FirstDifference(a: seq<nat>, b: seq<nat>, i: nat) returns (k: nat)
    requires At(a, i) != At(b, i)
    ensures SmallerAt(a, b, k) || SmallerAt(b, a, k)
  {
    if j: nat :| j < i && At(a, j) != At(b, j) {
      k := FirstDifference(a, b, j);
    } else {
      k := i;
    }
  }

  lemma LongerNumbers(a: seq<nat>, b: seq<nat>)
    requires |a| < |b| && forall j: nat | j < |a| :: At(a, j) == At(b, j)
    ensures if forall j: nat :: At(b[|a|..], j) == 0 then SameNumbers(a, b) else SmallerNumbers(a, b)
  {
    assert forall j: nat | j >= |a| :: At(b, j) == At(b[|a|..], j - |a|);
    if j: nat :| At(b[|a|..], j) != 0 {
      assert At(b, |a| + j) != 0;
      var k := FirstDifference(a, b, |a| + j);
    }
  }

  lemma SmallerOnce(a: seq<nat>, b: seq<nat>, i: nat, j: nat)
    requires SmallerAt(a, b, i)
    ensures !SmallerAt(b, a, j)
  {
  }

  /** Exactly one of smaller, same and greater. */
  lemma NumbersTotal(a: seq<nat>, b: seq<nat>)
    ensures SameNumbers(a, b) || SmallerNumbers(a, b) || SmallerNumbers(b, a)
    ensures SmallerNumbers(a, b) ==> !SmallerNumbers(b, a) && !SameNumbers(a, b)
    ensures SmallerNumbers(b, a) ==> !SameNumbers(a, b)
  {
    if i: nat :| At(a, i) != At(b, i) {
      var k := FirstDifference(a, b, i);
    }
    forall i: nat, j: nat | SmallerAt(a, b, i) ensures !SmallerAt(b, a, j) {
      SmallerOnce(a, b, i, j);
    }
  }

  /** The first part of compareInternal(). */
  method CompareNumbers(a: seq<nat>, b: seq<nat>) returns (r: int)
    ensures -1 <= r <= 1
    ensures r == -1 <==> SmallerNumbers(a, b)
    ensures r == 1 <==> SmallerNumbers(b, a)
    ensures r == 0 <==> SameNumbers(a, b)
  {
    NumbersTotal(a, b);
    var i := 0;
    while i < |a| && i < |b|
      invariant i <= |a| && i <= |b|
      invariant forall j: nat | j < i :: At(a, j) == At(b, j)
    {
      if b[i] < a[i] {
        assert SmallerAt(b, a, i);
        return 1;
      }
      if b[i] > a[i] {
        assert SmallerAt(a, b, i);
        return -1;
      }
      i := i + 1;
    }
    if |b| < |a| {
      LongerNumbers(b, a);
      var only := OnlyZeros(a[|b|..]);
      if !only {
        return 1;
      }
    }
    if |b| > |a| {
      LongerNumbers(a, b);
      var only := OnlyZeros(b[|a|..]);
      if !only {
        return -1;
      }
    }
    return 0;
  }

  lemma NumbersTransitive(a: seq<nat>, b: seq<nat>, c: seq<nat>)
    requires SmallerNumbers(a, b) || SameNumbers(a, b)
    requires SmallerNumbers(b, c) || SameNumbers(b, c)
    ensures if SameNumbers(a, b) && SameNumbers(b, c) then SameNumbers(a, c) else SmallerNumbers(a, c)
  {
    if SmallerNumbers(a, b) {
      var i: nat :| SmallerAt(a, b, i);
      if SmallerNumbers(b, c) {
        var j: nat :| SmallerAt(b, c, j);
        assert SmallerAt(a, c, if i < j then i else j);
      } else {
        assert SmallerAt(a, c, i);
      }
    } else if SmallerNumbers(b, c) {
      var j: nat :| SmallerAt(b, c, j);
      assert SmallerAt(a, c, j);
    }
  }

  // ---------------------------------------------------------------- identifiers

  /** How compareInternal() orders two identifiers. */
  predicate Lower(x: string, y: string) {
    if ParsesAsUint(x) && ParsesAsUint(y) then Value(x) < Value(y) else Before(x, y)
  }

  lemma LowerAsymmetric(x: string, y: string)
    requires Lower(x, y)
    ensures !Lower(y, x)
  {
    if !(ParsesAsUint(x) && ParsesAsUint(y)) {
      BeforeAsymmetric(x, y);
    }
  }

  /** Neither is lower. */
  predicate Level(x: string, y: string) {
    !Lower(x, y) && !Lower(y, x)
  }

  /** The lists are level before `i`, and at `i` the first is lower or has ended. */
  ghost predicate LowerListAt(xs: seq<string>, ys: seq<string>, i: nat) {
    && i <= |xs| && i < |ys| && (i < |xs| ==> Lower(xs[i], ys[i]))
    && forall j | 0 <= j < i :: Level(xs[j], ys[j])
  }

  ghost predicate LowerList(xs: seq<string>, ys: seq<string>) {
    exists i: nat :: LowerListAt(xs, ys, i)
  }

  lemma LowerListOnce(xs: seq<string>, ys: seq<string>, i: nat, j: nat)
    requires LowerListAt(xs, ys, i)
    ensures !LowerListAt(ys, xs, j)
  {
    if j == i < |xs| {
      LowerAsymmetric(xs[i], ys[i]);
    }
  }

  lemma LowerListAsymmetric(xs: seq<string>, ys: seq<string>)
    requires LowerList(xs, ys)
    ensures !LowerList(ys, xs)
  {
    var i: nat :| LowerListAt(xs, ys, i);
    forall j: nat {
      LowerListOnce(xs, ys, i, j);
    }
  }

  /** The loop of compareInternal() over the identifiers of two pre-releases. */
  method CompareLists(xs: seq<string>, ys: seq<string>) returns (r: int)
    ensures -1 <= r <= 1
    ensures r == -1 <==> LowerList(xs, ys)
    ensures r == 1 <==> LowerList(ys, xs)
  {
    var i := 0;
    while i < |xs| && i < |ys|
      invariant i <= |xs| && i <= |ys|
      invariant forall j | 0 <= j < i :: Level(xs[j], ys[j])
    {
      r := 0;
      if ParsesAsUint(xs[i]) && ParsesAsUint(ys[i]) {
        r := if Value(ys[i]) < Value(xs[i]) then 1 else if Value(ys[i]) > Value(xs[i]) then -1 else 0;
      } else if Before(ys[i], xs[i]) {
        r := 1;
      } else if Before(xs[i], ys[i]) {
        r := -1;
      }
      if r == 1 {
        assert LowerListAt(ys, xs, i);
        LowerListAsymmetric(ys, xs);
        return;
      }
      if r == -1 {
        assert LowerListAt(xs, ys, i);
        LowerListAsymmetric(xs, ys);
        return;
      }
      i := i + 1;
    }
    if |ys| < |xs| {
      assert LowerListAt(ys, xs, i);
      LowerListAsymmetric(ys, xs);
      return 1;
    }
    if |ys| > |xs| {
      assert LowerListAt(xs, ys, i);
      LowerListAsymmetric(xs, ys);
      return -1;
    }
    LevelListsAreNotLower(xs, ys);
    return 0;
  }

  lemma LevelListsAreNotLower(xs: seq<string>, ys: seq<string>)
    requires |xs| == |ys| && forall j | 0 <= j < |xs| :: Level(xs[j], ys[j])
    ensures !LowerList(xs, ys) && !LowerList(ys, xs)
  {
    forall i: nat ensures !LowerListAt(xs, ys, i) && !LowerListAt(ys, xs, i) {
      assert i < |xs| ==> Level(xs[i], ys[i]);
    }
  }

  // ---------------------------------------------------------------- versions

  /** Of two pre-releases; none ranks above any. */
  ghost predicate LowerPreRelease(x: string, y: string) {
    x != "" && x != y && (y == "" || LowerList(Split(x, '.'), Split(y, '.')))
  }

  ghost predicate LowerVersion(v: Version, w: Version) {
    || SmallerNumbers(v.components, w.components)
    || (SameNumbers(v.components, w.components) && v.semver && w.semver && LowerPreRelease(v.preRelease, w.preRelease))
  }

  /** compareInternal(). */
  method Compare(v: Version, w: Version) returns (r: int)
    ensures -1 <= r <= 1
    ensures r == -1 <==> LowerVersion(v, w)
    ensures r == 1 <==> LowerVersion(w, v)
  {
    NumbersTotal(v.components, w.components);
    NumbersTotal(w.components, v.components);
    r := CompareNumbers(v.components, w.components);
    if r != 0 || !v.semver || !w.semver {
      return;
    }
    if v.preRelease == "" && w.preRelease != "" {
      return 1;
    }
    if v.preRelease != "" && w.preRelease == "" {
      return -1;
    }
    if v.preRelease == w.preRelease {
      return 0;
    }
    r := CompareLists(Split(v.preRelease, '.'), Split(w.preRelease, '.'));
  }

  /** compareInternal(v, w) == -compareInternal(w, v), for all versions. */
  lemma CompareIsAntisymmetric(v: Version, w: Version)
    requires LowerVersion(v, w)
    ensures !LowerVersion(w, v) && v != w
  {
    NumbersTotal(v.components, w.components);
    NumbersTotal(w.components, v.components);
    if LowerPreRelease(v.preRelease, w.preRelease) && LowerPreRelease(w.preRelease, v.preRelease) {
      LowerListAsymmetric(Split(v.preRelease, '.'), Split(w.preRelease, '.'));
    }
  }

  /** Version.Compare(): the other version is given as a string, of the same kind. */
  method CompareText(v: Version, other: string) returns (r: Option<int>)
    ensures r.None? <==> forall w :: !Reads(other, v.semver, w)
    ensures r.Some? ==> -1 <= r.value <= 1
    ensures r.Some? ==> exists w :: Reads(other, v.semver, w)
                                    && (r.value == -1 <==> LowerVersion(v, w)) && (r.value == 1 <==> LowerVersion(w, v))
  {
    var w := Parse(other, v.semver);
    if w == None {
      return None;
    }
    assert Reads(other, v.semver, w.value);
    var c := Compare(v, w.value);
    r := Some(c);
  }

  // ---------------------------------------------------------------- numerals as strings

  function Nines(k: nat): (s: string)
    ensures |s| == k && AllDigits(s) && (k > 0 ==> s[0] == '9')
  {
    if k == 0 then "" else "9" + Nines(k - 1)
  }

  function Pow10(k: nat): nat {
    if k == 0 then 1 else 10 * Pow10(k - 1)
  }

  /** 10 to the power `k`. */
  function Round(k: nat): (s: string)
    ensures |s| == k + 1 && AllDigits(s) && s[0] == '1'
  {
    if k == 0 then "1" else Round(k - 1) + "0"
  }

  /** Every numeral of this many digits fits the integer type. */
  const WIDTH: nat := 19

  /** Of the numerals that fit the integer type, the last in the order of strings, and the round one above it. */
  const LAST := Nines(WIDTH)
  const ROUND := Round(WIDTH)

  lemma {:induction false} NotBeyondNines(n: string, k: nat)
    requires AllDigits(n) && |n| <= k
    ensures n == Nines(k) || Before(n, Nines(k))
  {
    if n != "" {
      NotBeyondNines(n[1..], k - 1);
      assert n == [n[0]] + n[1..] && Nines(k)[1..] == Nines(k - 1);
    }
  }

  lemma {:induction false} BeyondNines(x: string, k: nat)
    requires AllDigits(x) && Before(Nines(k), x)
    ensures |x| > k && x[..k] == Nines(k)
  {
    if k > 0 {
      assert Nines(k)[1..] == Nines(k - 1);
      BeyondNines(x[1..], k - 1);
      assert x[..k] == [x[0]] + x[1..][..k - 1];
    }
  }

  lemma {:induction false} ValueAtLeast(n: string, k: nat)
    requires AllDigits(n) && |n| > k && n[0] >= '2'
    ensures Value(n) >= 2 * Pow10(k)
  {
    if |n| > 1 {
      ValueAtLeast(n[..|n| - 1], if k > 0 then k - 1 else 0);
    }
  }

  lemma TenToTheWidth()
    ensures Pow10(WIDTH) == 10000000000000000000
  {
    assert Pow10(4) == 10000;
    assert Pow10(8) == 100000000;
    assert Pow10(12) == 1000000000000;
    assert Pow10(16) == 10000000000000000;
  }

  lemma {:induction false} NinesAtEnd(k: nat)
    ensures Nines(k + 1) == Nines(k) + "9"
  {
    if k > 0 {
      NinesAtEnd(k - 1);
    }
  }

  lemma {:induction false} ValueOfNines(k: nat)
    ensures Value(Nines(k)) == Pow10(k) - 1
  {
    if k > 0 {
      ValueOfNines(k - 1);
      NinesAtEnd(k - 1);
      assert Nines(k)[..k - 1] == Nines(k - 1);
    }
  }

  lemma {:induction false} ValueOfRound(k: nat)
    ensures Value(Round(k)) == Pow10(k)
  {
    if k > 0 {
      ValueOfRound(k - 1);
      assert Round(k)[..k] == Round(k - 1);
    } else {
      assert Value("1") == 10 * Value("") + 1;
    }
  }

  lemma LastAndRound()
    ensures ParsesAsUint(LAST) && ParsesAsUint(ROUND) && Value(LAST) < Value(ROUND)
  {
    TenToTheWidth();
    ValueOfNines(WIDTH);
    ValueOfRound(WIDTH);
  }

  lemma LastIsLast(n: string)
    requires ParsesAsUint(n)
    ensures n == LAST || Before(n, LAST)
  {
    if |n| <= WIDTH {
      NotBeyondNines(n, WIDTH);
    } else if n[0] >= '2' {
      ValueAtLeast(n, WIDTH);
      TenToTheWidth();
    }
  }
}
