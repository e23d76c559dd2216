/**
 How far the order of versions is an order, and how far it is the precedence of section 11 of Semantic Versioning
 2.0.0.  Both fail on identifiers that the integer type rejects and that stand between numerals as strings; the
 identifiers for which they hold are found exactly.
 */
module VersionPrecedence {
  import opened Text
  import opened Decimal
  import opened Versions
  import opened VersionOrder

  /** An identifier that parse() lets through. */
  predicate Identifier(x: string) {
    x != "" && All(Identifiers, x) && (ParsesAsUint(x) ==> !ZeroPrefixed(x))
  }

  predicate Number(x: string) {
    Identifier(x) && ParsesAsUint(x)
  }

  // ---------------------------------------------------------------- where the order is an order

  /**
   The numbers that come before `x` are the first few, or none, or all: `x` does not start with a digit, or starts
   with 0 or with 1 and a hyphen, or comes after the last numeral.
   */
  predicate Settled(x: string) {
    || ParsesAsUint(x) || x == "" || !IsDigit(x[0]) || x[0] == '0'
    || (x[0] == '1' && |x| > 1 && x[1] == '-') || Before(LAST, x)
  }

  /** The greatest number before a settled identifier that is none; -1 if all come after it. */
  function Cut(x: string): int
    requires Identifier(x) && !ParsesAsUint(x) && Settled(x)
  {
    if x[0] == '0' then 0 else if x[0] == '1' && |x| > 1 && x[1] == '-' then 1 else if Before(LAST, x) then UINT else -1
  }

  lemma ValueOfNumber(n: string)
    requires Number(n)
    ensures n[0] == '0' ==> n == "0" && Value(n) == 0
    ensures |n| == 1 ==> Value(n) == DigitValue(n[0])
    ensures |n| > 1 ==> Value(n) >= 10
  {
    if |n| > 1 {
      PositiveValue(n[..|n| - 1]);
    } else {
      assert Value(n[..0]) == 0;
    }
  }

  /** Numbers of the same value are the same. */
  lemma NumberIsValue(m: string, n: string)
    requires Number(m) && Number(n) && Value(m) == Value(n)
    ensures m == n
  {
    PrintOfValue(m);
    PrintOfValue(n);
  }

  lemma BeforeStep(a: string, b: string)
    requires a != "" && b != ""
    ensures Before(a, b) <==> a[0] < b[0] || (a[0] == b[0] && Before(a[1..], b[1..]))
  {
  }

  lemma BeforeShort(n: string, x: string)
    requires Number(n) && Identifier(x) && !ParsesAsUint(x)
    requires x[0] == '0' || (x[0] == '1' && |x| > 1 && x[1] == '-')
    ensures Before(n, x) <==> Value(n) <= (if x[0] == '0' then 0 else 1)
  {
    ValueOfNumber(n);
    BeforeStep(n, x);
    if n[0] == x[0] {
      if n[1..] == "" {
        assert |n| == 1;
        assert x[1..] != "" by {
          assert x == n + x[1..];
        }
      } else {
        assert x[0] == '1' && x[1..][0] == '-' && IsDigit(n[1..][0]);
        BeforeStep(n[1..], x[1..]);
      }
    }
  }

  lemma BeforeCut(n: string, x: string)
    requires Number(n) && Identifier(x) && !ParsesAsUint(x) && Settled(x)
    ensures Before(n, x) <==> Value(n) <= Cut(x)
    ensures Before(x, n) <==> Value(n) > Cut(x)
  {
    BeforeTotal(n, x);
    if Before(n, x) {
      BeforeAsymmetric(n, x);
    }
    if x[0] == '0' || (x[0] == '1' && |x| > 1 && x[1] == '-') {
      BeforeShort(n, x);
    } else if Before(LAST, x) {
      LastIsLast(n);
      if n != LAST {
        BeforeTransitive(n, LAST, x);
      }
    } else {
      StartsBeforeNine(x);
      BeforeStep(n, x);
    }
  }

  lemma StartsBeforeNine(x: string)
    requires x != "" && !Before(LAST, x)
    ensures x[0] <= '9'
  {
  }

  lemma CutIsMonotone(x: string, y: string)
    requires Identifier(x) && !ParsesAsUint(x) && Settled(x)
    requires Identifier(y) && !ParsesAsUint(y) && Settled(y)
    requires Before(x, y)
    ensures Cut(x) <= Cut(y)
  {
    if Before(LAST, x) {
      BeforeTransitive(LAST, x, y);
    } else {
      StartsBeforeNine(x);
    }
  }

  /** Settled identifiers are in one order, without ties. */
  lemma LowerTransitive(x: string, y: string, z: string)
    requires Identifier(x) && Identifier(y) && Identifier(z) && Settled(x) && Settled(y) && Settled(z)
    requires Lower(x, y) && Lower(y, z)
    ensures Lower(x, z)
  {
    if Before(x, y) && Before(y, z) {
      BeforeTransitive(x, y, z);
    }
    BySettling(x, y);
    BySettling(y, z);
    BySettling(x, z);
  }

  /** The order of settled identifiers by their cuts. */
  lemma BySettling(x: string, y: string)
    requires Identifier(x) && Identifier(y) && Settled(x) && Settled(y)
    ensures ParsesAsUint(x) && !ParsesAsUint(y) ==> (Lower(x, y) <==> Value(x) <= Cut(y))
    ensures !ParsesAsUint(x) && ParsesAsUint(y) ==> (Lower(x, y) <==> Value(y) > Cut(x))
    ensures !ParsesAsUint(x) && !ParsesAsUint(y) ==> (Before(x, y) ==> Cut(x) <= Cut(y)) && (Cut(x) < Cut(y) ==> Before(x, y))
  {
    if ParsesAsUint(x) && !ParsesAsUint(y) {
      BeforeCut(x, y);
    } else if !ParsesAsUint(x) && ParsesAsUint(y) {
      BeforeCut(y, x);
    } else if !ParsesAsUint(x) && !ParsesAsUint(y) {
      BeforeTotal(x, y);
      if Before(x, y) {
        CutIsMonotone(x, y);
      } else if Before(y, x) {
        CutIsMonotone(y, x);
      }
    }
  }

  lemma LevelIsSame(x: string, y: string)
    requires Identifier(x) && Identifier(y)
    ensures Level(x, y) <==> x == y
  {
    if ParsesAsUint(x) && ParsesAsUint(y) {
      if Value(x) == Value(y) {
        NumberIsValue(x, y);
      }
    } else {
      BeforeTotal(x, y);
      BeforeIrreflexive(x);
    }
  }

  /** Numbers `m` and `n` and the identifier `x` go round in a circle. */
  ghost predicate Cycle(m: string, n: string, x: string) {
    Number(m) && Number(n) && Lower(n, m) && Lower(m, x) && Lower(x, n)
  }

  lemma ValueOfShort(n: string)
    requires AllDigits(n) && 1 <= |n| <= 2
    ensures Value(n) == if |n| == 1 then DigitValue(n[0]) else 10 * DigitValue(n[0]) + DigitValue(n[1])
  {
    assert Value(n[..|n| - 1][..0]) == 0;
    if |n| == 2 {
      assert n[..1][0] == n[0];
    }
  }

  lemma TwoAndTen()
    ensures Number("2") && Number("10") && Value("2") == 2 && Value("10") == 10
  {
    ValueOfShort("2");
    ValueOfShort("10");
  }

  lemma AfterTen(x: string)
    requires Identifier(x) && !ParsesAsUint(x) && x[0] == '1' && (|x| > 1 ==> x[1] != '-')
    ensures Before("10", x) && Before(x, "2")
  {
    if AllDigits(x) && |x| <= 2 {
      ValueOfShort(x);
      assert false;
    }
    BeforeStep("10", x);
    BeforeStep("10"[1..], x[1..]);
    assert "10"[1..][1..] == "";
  }

  lemma BetweenRoundAndLast(x: string)
    requires x != "" && x[0] >= '2' && x != LAST && !Before(LAST, x)
    ensures Before(ROUND, x) && Before(x, LAST)
  {
    BeforeStep(ROUND, x);
    BeforeTotal(x, LAST);
  }

  lemma UnsettledCycle(x: string) returns (m: string, n: string)
    requires Identifier(x) && !Settled(x)
    ensures Cycle(m, n, x)
  {
    LastAndRound();
    if x[0] == '1' {
      m, n := "10", "2";
      TwoAndTen();
      AfterTen(x);
    } else {
      m, n := ROUND, LAST;
      BetweenRoundAndLast(x);
    }
  }

  /** An identifier fits into one order with all numbers exactly when it is settled. */
  lemma SettledIff(x: string)
    requires Identifier(x)
    ensures Settled(x) <==> !exists m, n :: Cycle(m, n, x)
  {
    if Settled(x) {
      forall m, n | Number(m) && Number(n) && Lower(n, m) && Lower(m, x) ensures !Lower(x, n) {
        LowerTransitive(n, m, x);
        LowerAsymmetric(n, x);
      }
    } else {
      var m, n := UnsettledCycle(x);
    }
  }

  // ---------------------------------------------------------------- whole versions

  /** A semantic version of which every identifier is settled. */
  predicate Orderly(v: Version) {
    Semantic(v) && forall i | 0 <= i < |Split(v.preRelease, '.')| :: Settled(Split(v.preRelease, '.')[i])
  }

  lemma FieldsAreIdentifiers(v: Version)
    requires Semantic(v) && v.preRelease != ""
    ensures forall i | 0 <= i < |Split(v.preRelease, '.')| :: Identifier(Split(v.preRelease, '.')[i])
  {
    FieldsOfList(Identifiers, v.preRelease);
  }

  ghost predicate AllSettled(xs: seq<string>) {
    forall i | 0 <= i < |xs| :: Identifier(xs[i]) && Settled(xs[i])
  }

  lemma ListTransitive(xs: seq<string>, ys: seq<string>, zs: seq<string>)
    requires AllSettled(xs) && AllSettled(ys) && AllSettled(zs) && LowerList(xs, ys) && LowerList(ys, zs)
    ensures LowerList(xs, zs)
  {
    var i: nat :| LowerListAt(xs, ys, i);
    var j: nat :| LowerListAt(ys, zs, j);
    var k := if i < j then i else j;
    forall l | 0 <= l < i ensures xs[l] == ys[l] {
      assert Level(xs[l], ys[l]);
      LevelIsSame(xs[l], ys[l]);
    }
    forall l | 0 <= l < j ensures ys[l] == zs[l] {
      assert Level(ys[l], zs[l]);
      LevelIsSame(ys[l], zs[l]);
    }
    if i == j < |xs| {
      LowerTransitive(xs[i], ys[i], zs[i]);
    }
    assert forall l | 0 <= l < k :: xs[l] == zs[l];
    forall l | 0 <= l < k ensures Level(xs[l], zs[l]) {
      LevelIsSame(xs[l], zs[l]);
    }
    assert LowerListAt(xs, zs, k);
  }

  lemma {:induction false} LevelLists(xs: seq<string>, ys: seq<string>, i: nat)
    requires AllSettled(xs) && AllSettled(ys) && !LowerList(xs, ys) && !LowerList(ys, xs)
    requires i <= |xs| && i <= |ys| && xs[..i] == ys[..i]
    ensures xs == ys
    decreases |xs| - i
  {
    assert forall l | 0 <= l < i :: xs[l] == ys[l];
    forall l | 0 <= l < i ensures Level(xs[l], ys[l]) && Level(ys[l], xs[l]) {
      LevelIsSame(xs[l], ys[l]);
    }
    assert !LowerListAt(xs, ys, i) && !LowerListAt(ys, xs, i);
    if i < |xs| && i < |ys| {
      LevelIsSame(xs[i], ys[i]);
      LevelLists(xs, ys, i + 1);
    }
  }

  /** On orderly versions `lower` is transitive. */
  lemma OrderlyTransitive(u: Version, v: Version, w: Version)
    requires Orderly(u) && Orderly(v) && Orderly(w) && LowerVersion(u, v) && LowerVersion(v, w)
    ensures LowerVersion(u, w)
  {
    NumbersTransitive(u.components, v.components, w.components);
    if SameNumbers(u.components, v.components) && SameNumbers(v.components, w.components) {
      NumbersTotal(u.components, v.components);
      NumbersTotal(v.components, w.components);
      if w.preRelease != "" {
        FieldsAreIdentifiers(u);
        FieldsAreIdentifiers(v);
        FieldsAreIdentifiers(w);
        ListTransitive(Split(u.preRelease, '.'), Split(v.preRelease, '.'), Split(w.preRelease, '.'));
        LowerListAsymmetric(Split(u.preRelease, '.'), Split(w.preRelease, '.'));
      }
    } else {
      NumbersTotal(u.components, w.components);
    }
  }

  /** Orderly versions of the same rank differ in their build metadata at most. */
  lemma OrderlyTotal(v: Version, w: Version)
    requires Orderly(v) && Orderly(w)
    ensures LowerVersion(v, w) || LowerVersion(w, v) || v == w.(buildMetadata := v.buildMetadata)
  {
    NumbersTotal(v.components, w.components);
    if SameNumbers(v.components, w.components) {
      forall i | 0 <= i < 3 ensures v.components[i] == w.components[i] {
        assert At(v.components, i) == At(w.components, i);
      }
      assert v.components == w.components;
      if v.preRelease != "" && w.preRelease != "" && !LowerVersion(v, w) && !LowerVersion(w, v) {
        FieldsAreIdentifiers(v);
        FieldsAreIdentifiers(w);
        if v.preRelease != w.preRelease {
          LevelLists(Split(v.preRelease, '.'), Split(w.preRelease, '.'), 0);
          JoinOfSplit(v.preRelease, '.');
          JoinOfSplit(w.preRelease, '.');
        }
      }
    }
  }

  /** Generic versions are ordered by their numbers alone, and transitively. */
  lemma GenericTransitive(u: Version, v: Version, w: Version)
    requires !u.semver && !v.semver && !w.semver && !LowerVersion(v, u) && !LowerVersion(w, v)
    ensures !LowerVersion(w, u)
    ensures LowerVersion(u, v) || LowerVersion(v, w) ==> LowerVersion(u, w)
  {
    NumbersTotal(u.components, v.components);
    NumbersTotal(v.components, w.components);
    NumbersTransitive(u.components, v.components, w.components);
    NumbersTotal(u.components, w.components);
  }

  function PreReleaseOf(x: string): Version {
    Version([1, 0, 0], true, x, "")
  }

  lemma SingleIdentifier(x: string, y: string)
    requires Identifier(x) && Identifier(y)
    ensures Semantic(PreReleaseOf(x))
    ensures LowerVersion(PreReleaseOf(x), PreReleaseOf(y)) <==> Lower(x, y)
  {
    assert '.' !in x && '.' !in y;
    SplitWithout(x, '.');
    SplitWithout(y, '.');
    assert List(Identifiers, x) by {
      assert forall i | 0 <= i < |x| :: ListAt(Identifiers, x, i);
    }
    assert LowerListAt([x], [y], 0) <==> Lower(x, y);
    assert forall i: nat | LowerListAt([x], [y], i) :: i == 0;
    LevelIsSame(x, y);
  }

  /** Every identifier that is not settled puts three versions into a circle. */
  lemma UnsettledVersions(x: string) returns (u: Version, v: Version)
    requires Identifier(x) && !Settled(x)
    ensures Semantic(u) && Semantic(v) && Semantic(PreReleaseOf(x))
    ensures LowerVersion(u, v) && LowerVersion(v, PreReleaseOf(x)) && LowerVersion(PreReleaseOf(x), u)
  {
    var m, n := UnsettledCycle(x);
    u, v := PreReleaseOf(n), PreReleaseOf(m);
    SingleIdentifier(n, m);
    SingleIdentifier(m, x);
    SingleIdentifier(x, n);
  }

  /** The smallest circle: 1.0.0-2 < 1.0.0-10 < 1.0.0-10a < 1.0.0-2. */
  lemma TwoTenTenA()
    ensures LowerVersion(PreReleaseOf("2"), PreReleaseOf("10"))
    ensures LowerVersion(PreReleaseOf("10"), PreReleaseOf("10a"))
    ensures LowerVersion(PreReleaseOf("10a"), PreReleaseOf("2"))
  {
    TwoAndTen();
    assert "10"[1..] == "0" && "10a"[1..] == "0a" && "0"[1..] == "" && "0a"[1..] == "a";
    assert !IsDigit("10a"[2]);
    SingleIdentifier("2", "10");
    SingleIdentifier("10", "10a");
    SingleIdentifier("10a", "2");
  }

  /** Versions of both kinds together are not ordered: 1.0.0-a and 1.0.0 both rank with the generic 1.0. */
  lemma MixedKindsAreNotOrdered()
    ensures var generic := Version([1, 0], false, "", "");
            && LowerVersion(PreReleaseOf("a"), PreReleaseOf(""))
            && !LowerVersion(PreReleaseOf("a"), generic) && !LowerVersion(generic, PreReleaseOf("a"))
            && !LowerVersion(PreReleaseOf(""), generic) && !LowerVersion(generic, PreReleaseOf(""))
  {
    NumbersTotal([1, 0, 0], [1, 0]);
    NumbersTotal([1, 0], [1, 0, 0]);
  }

  // ---------------------------------------------------------------- where it is the precedence of the standard

  /** Section 11.4 of Semantic Versioning 2.0.0 on two identifiers. */
  predicate StandardLower(x: string, y: string) {
    if AllDigits(x) && AllDigits(y) then Value(x) < Value(y)
    else if AllDigits(x) || AllDigits(y) then AllDigits(x)
    else Before(x, y)
  }

  /** Section 11.4 on two lists of identifiers: the first difference decides, then the length. */
  predicate StandardLowerList(xs: seq<string>, ys: seq<string>) {
    if ys == [] then false
    else if xs == [] then true
    else if xs[0] == ys[0] then StandardLowerList(xs[1..], ys[1..])
    else StandardLower(xs[0], ys[0])
  }

  /** Section 11 on two versions: major, minor, patch, and a pre-release before the release. */
  predicate StandardLowerVersion(v: Version, w: Version)
    requires |v.components| == |w.components| == 3
  {
    var (a, b) := (v.components, w.components);
    if a[0] != b[0] then a[0] < b[0]
    else if a[1] != b[1] then a[1] < b[1]
    else if a[2] != b[2] then a[2] < b[2]
    else if v.preRelease == "" || w.preRelease == "" then v.preRelease != "" && w.preRelease == ""
    else StandardLowerList(Split(v.preRelease, '.'), Split(w.preRelease, '.'))
  }

  /** It fits the integer type, or is no numeral and comes after the last one that does. */
  predicate Ranked(x: string) {
    ParsesAsUint(x) || (!AllDigits(x) && Before(LAST, x))
  }

  lemma LetterFirstIsRanked(x: string)
    requires x != "" && x[0] > '9'
    ensures Ranked(x)
  {
  }

  /** `x` stands to `y` as section 11.4 wants it. */
  predicate Agree(x: string, y: string) {
    (Lower(x, y) <==> StandardLower(x, y)) && (Lower(y, x) <==> StandardLower(y, x))
  }

  lemma RankedAgree(x: string, y: string)
    requires Ranked(x) && Ranked(y)
    ensures Agree(x, y)
  {
    if ParsesAsUint(x) && !ParsesAsUint(y) {
      NumberBeforeRanked(x, y);
    } else if !ParsesAsUint(x) && ParsesAsUint(y) {
      NumberBeforeRanked(y, x);
    }
  }

  lemma NumberBeforeRanked(n: string, x: string)
    requires ParsesAsUint(n) && !AllDigits(x) && Before(LAST, x)
    ensures Before(n, x) && !Before(x, n)
  {
    LastIsLast(n);
    if n != LAST {
      BeforeTransitive(n, LAST, x);
    }
    BeforeAsymmetric(n, x);
  }

  lemma {:induction false} BeforeBehindPrefix(p: string, a: string, b: string)
    requires Before(a, b)
    ensures Before(p + a, p + b)
  {
    if p == "" {
      assert p + a == a && p + b == b;
    } else {
      BeforeBehindPrefix(p[1..], a, b);
      assert (p + a)[1..] == p[1..] + a && (p + b)[1..] == p[1..] + b;
    }
  }

  /** The last numeral with a hyphen behind it: a ranked identifier. */
  const HYPHENATED := LAST + "-"

  lemma HyphenatedIsRanked()
    ensures Identifier(HYPHENATED) && !AllDigits(HYPHENATED) && Ranked(HYPHENATED)
  {
    assert HYPHENATED[WIDTH] == '-';
    BeforeBehindPrefix(LAST, "", "-");
    assert LAST + "" == LAST;
  }

  lemma HyphenBeforeDigit(p: string, x: string)
    requires AllDigits(x) && |x| > |p| && x[..|p|] == p
    ensures Before(p + "-", x)
  {
    var rest := x[|p|..];
    assert rest[0] == x[|p|];
    BeforeBehindPrefix(p, "-", rest);
    assert x == p + rest;
  }

  /** A numeral too long for the integer type disagrees with the last numeral or with that and a hyphen. */
  lemma LongNumeralDisagrees(x: string)
    requires AllDigits(x) && x != "" && !ParsesAsUint(x)
    ensures !Agree(x, if Before(LAST, x) then HYPHENATED else LAST)
  {
    LastAndRound();
    HyphenatedIsRanked();
    if Before(LAST, x) {
      BeyondNines(x, WIDTH);
      HyphenBeforeDigit(LAST, x);
    } else {
      BeforeTotal(x, LAST);
    }
  }

  /** An identifier stands to all ranked identifiers as section 11.4 wants it exactly when it is ranked itself. */
  lemma RankedIff(x: string)
    requires Identifier(x)
    ensures Ranked(x) <==> forall y | Identifier(y) && Ranked(y) :: Agree(x, y)
  {
    LastAndRound();
    HyphenatedIsRanked();
    LastIsIdentifier();
    if Ranked(x) {
      forall y | Identifier(y) && Ranked(y) ensures Agree(x, y) {
        RankedAgree(x, y);
      }
    } else if AllDigits(x) {
      LongNumeralDisagrees(x);
    } else {
      BeforeTotal(x, LAST);
      assert Lower(x, LAST) && !StandardLower(x, LAST);
      assert !Agree(x, LAST);
    }
  }

  lemma LastIsIdentifier()
    ensures Identifier(LAST) && Ranked(LAST)
  {
    LastAndRound();
  }

  /** A semantic version of which every identifier is ranked, which holds if those that are no numbers start with a letter. */
  predicate Standard(v: Version) {
    Semantic(v) && forall i | 0 <= i < |Split(v.preRelease, '.')| :: Ranked(Split(v.preRelease, '.')[i])
  }

  ghost predicate AllRanked(xs: seq<string>) {
    forall i | 0 <= i < |xs| :: Identifier(xs[i]) && Ranked(xs[i])
  }

  lemma {:induction false} ListsAgree(xs: seq<string>, ys: seq<string>)
    requires AllRanked(xs) && AllRanked(ys)
    ensures LowerList(xs, ys) <==> StandardLowerList(xs, ys)
  {
    if xs == [] || ys == [] {
      assert ys != [] ==> LowerListAt(xs, ys, 0);
    } else {
      LevelIsSame(xs[0], ys[0]);
      RankedAgree(xs[0], ys[0]);
      if xs[0] == ys[0] {
        ListsAgree(xs[1..], ys[1..]);
        ListsStep(xs, ys);
      } else {
        assert Lower(xs[0], ys[0]) <==> LowerListAt(xs, ys, 0);
        assert forall i: nat | i > 0 && LowerListAt(xs, ys, i) :: Level(xs[0], ys[0]);
      }
    }
  }

  lemma ListsStep(xs: seq<string>, ys: seq<string>)
    requires xs != [] && ys != [] && Level(xs[0], ys[0])
    ensures LowerList(xs, ys) <==> LowerList(xs[1..], ys[1..])
  {
    if LowerList(xs, ys) {
      var i: nat :| LowerListAt(xs, ys, i);
      forall j | 0 <= j < i - 1 ensures Level(xs[1..][j], ys[1..][j]) {
        assert Level(xs[j + 1], ys[j + 1]);
      }
      assert LowerListAt(xs[1..], ys[1..], i - 1);
    }
    if LowerList(xs[1..], ys[1..]) {
      var i: nat :| LowerListAt(xs[1..], ys[1..], i);
      forall j | 0 <= j < i + 1 ensures Level(xs[j], ys[j]) {
        assert j > 0 ==> Level(xs[1..][j - 1], ys[1..][j - 1]);
      }
      assert LowerListAt(xs, ys, i + 1);
    }
  }

  lemma ThreeNumbers(a: seq<nat>, b: seq<nat>)
    requires |a| == |b| == 3
    ensures SmallerNumbers(a, b) <==> a[0] < b[0] || (a[0] == b[0] && (a[1] < b[1] || (a[1] == b[1] && a[2] < b[2])))
    ensures SameNumbers(a, b) <==> a[0] == b[0] && a[1] == b[1] && a[2] == b[2]
  {
    assert At(a, 0) == a[0] && At(a, 1) == a[1] && At(a, 2) == a[2];
    assert At(b, 0) == b[0] && At(b, 1) == b[1] && At(b, 2) == b[2];
    if SmallerNumbers(a, b) {
      var i: nat :| SmallerAt(a, b, i);
      assert i < 3;
    }
    if a[0] < b[0] {
      assert SmallerAt(a, b, 0);
    } else if a[0] == b[0] && a[1] < b[1] {
      assert SmallerAt(a, b, 1);
    } else if a[0] == b[0] && a[1] == b[1] && a[2] < b[2] {
      assert SmallerAt(a, b, 2);
    }
  }

  /** On versions with ranked identifiers only, compareInternal() is the precedence of section 11. */
  lemma PrecedenceIsStandard(v: Version, w: Version)
    requires Standard(v) && Standard(w)
    ensures LowerVersion(v, w) <==> StandardLowerVersion(v, w)
  {
    ThreeNumbers(v.components, w.components);
    if v.preRelease != "" && w.preRelease != "" {
      FieldsAreIdentifiers(v);
      FieldsAreIdentifiers(w);
      ListsAgree(Split(v.preRelease, '.'), Split(w.preRelease, '.'));
      if v.preRelease == w.preRelease {
        ListNotLowerThanItself(Split(v.preRelease, '.'));
      }
    }
  }

  lemma ListNotLowerThanItself(xs: seq<string>)
    ensures !LowerList(xs, xs)
  {
    if LowerList(xs, xs) {
      LowerListAsymmetric(xs, xs);
    }
  }
}
