/** Strings as the modelled programs use them: substring search, splitting, joining and byte order. */
module Text {

  /** Whether `part` occurs in `s` at position `i`. */
  predicate OccursAt(s: string, part: string, i: nat) {
    i + |part| <= |s| && s[i..i + |part|] == part
  }

  predicate Contains(s: string, part: string) {
    exists i | 0 <= i <= |s| :: OccursAt(s, part, i)
  }

  /** The parts of a string between the occurrences of a character. */
  function Split(s: string, sep: char): (parts: seq<string>)
    ensures |parts| > 0
    ensures forall i | 0 <= i < |parts| :: sep !in parts[i]
  {
    if s == "" then [""]
    else
      var rest := Split(s[1..], sep);
      if s[0] == sep then [""] + rest else [[s[0]] + rest[0]] + rest[1..]
  }

  function Join(parts: seq<string>, sep: char): string {
    if |parts| == 0 then "" else if |parts| == 1 then parts[0] else parts[0] + [sep] + Join(parts[1..], sep)
  }

  lemma {:induction false} SplitWithout(s: string, sep: char)
    requires sep !in s
    ensures Split(s, sep) == [s]
  {
    if s != "" {
      SplitWithout(s[1..], sep);
      assert s == [s[0]] + s[1..];
    }
  }

  lemma {:induction false} SplitPrefixed(a: string, t: string, sep: char)
    requires sep !in a
    ensures Split(a + [sep] + t, sep) == [a] + Split(t, sep)
  {
    var s := a + [sep] + t;
    if a == "" {
      assert s[1..] == t;
    } else {
      SplitPrefixed(a[1..], t, sep);
      assert s[1..] == a[1..] + [sep] + t && s[0] == a[0];
      assert a == [a[0]] + a[1..];
    }
  }

  lemma {:induction false} SplitOfJoin(parts: seq<string>, sep: char)
    requires |parts| > 0 && forall i | 0 <= i < |parts| :: sep !in parts[i]
    ensures Split(Join(parts, sep), sep) == parts
  {
    if |parts| == 1 {
      SplitWithout(parts[0], sep);
    } else {
      SplitOfJoin(parts[1..], sep);
      SplitPrefixed(parts[0], Join(parts[1..], sep), sep);
    }
  }

  lemma {:induction false} JoinOfSplit(s: string, sep: char)
    ensures Join(Split(s, sep), sep) == s
  {
    if s != "" {
      JoinOfSplit(s[1..], sep);
      var rest := Split(s[1..], sep);
      if s[0] == sep {
        assert Split(s, sep)[1..] == rest;
      } else if |rest| > 1 {
        assert Split(s, sep)[1..] == rest[1..];
        assert Join(Split(s, sep), sep) == [s[0]] + (rest[0] + [sep] + Join(rest[1..], sep));
      }
    }
  }

  lemma {:induction false} JoinTwo(xs: seq<string>, ys: seq<string>, sep: char)
    requires |xs| > 0 && |ys| > 0
    ensures Join(xs + ys, sep) == Join(xs, sep) + [sep] + Join(ys, sep)
  {
    if |xs| == 1 {
      assert (xs + ys)[1..] == ys;
    } else {
      JoinTwo(xs[1..], ys, sep);
      assert (xs + ys)[1..] == xs[1..] + ys;
    }
  }

  lemma SplitTwo(a: string, b: string, sep: char)
    ensures Split(a + [sep] + b, sep) == Split(a, sep) + Split(b, sep)
  {
    var xs, ys := Split(a, sep), Split(b, sep);
    JoinTwo(xs, ys, sep);
    JoinOfSplit(a, sep);
    JoinOfSplit(b, sep);
    SplitOfJoin(xs + ys, sep);
  }

  /** Strings in the order of their characters, the empty string first. */
  predicate Before(a: string, b: string) {
    b != "" && (a == "" || a[0] < b[0] || (a[0] == b[0] && Before(a[1..], b[1..])))
  }

  lemma {:induction false} BeforeIrreflexive(a: string)
    ensures !Before(a, a)
  {
    if a != "" {
      BeforeIrreflexive(a[1..]);
    }
  }

  lemma {:induction false} BeforeTotal(a: string, b: string)
    ensures a == b || Before(a, b) || Before(b, a)
  {
    if a != "" && b != "" && a[0] == b[0] {
      BeforeTotal(a[1..], b[1..]);
      assert a == [a[0]] + a[1..] && b == [b[0]] + b[1..];
    }
  }

  lemma {:induction false} BeforeTransitive(a: string, b: string, c: string)
    requires Before(a, b) && Before(b, c)
    ensures Before(a, c)
  {
    if a != "" && a[0] == b[0] && b[0] == c[0] {
      BeforeTransitive(a[1..], b[1..], c[1..]);
    }
  }

  lemma BeforeAsymmetric(a: string, b: string)
    requires Before(a, b)
    ensures !Before(b, a)
  {
    if Before(b, a) {
      BeforeTransitive(a, b, a);
      BeforeIrreflexive(a);
    }
  }

  ghost predicate Distinct<T>(s: seq<T>) {
    forall i, j | 0 <= i < j < |s| :: s[i] != s[j]
  }

  ghost predicate Ascending(out: seq<string>) {
    forall i, j | 0 <= i < j < |out| :: Before(out[i], out[j])
  }

  lemma AscendingDistinct(out: seq<string>)
    requires Ascending(out)
    ensures Distinct(out)
  {
    forall i, j | 0 <= i < j < |out| ensures out[i] != out[j] {
      BeforeIrreflexive(out[i]);
    }
  }

  method First(s: set<string>) returns (m: string)
    requires s != {}
    ensures m in s && forall x | x in s :: x == m || Before(m, x)
  {
    m :| m in s;
    var rest := s - {m};
    while rest != {}
      invariant rest <= s && m in s
      invariant forall x | x in s && x !in rest :: x == m || Before(m, x)
      decreases rest
    {
      var y :| y in rest;
      if Before(y, m) {
        forall x | x in s && x !in rest ensures x == y || Before(y, x) {
          if x != m {
            BeforeTransitive(y, m, x);
          }
        }
        m := y;
      } else {
        BeforeTotal(y, m);
      }
      rest := rest - {y};
    }
  }

  /** The elements of a set, in ascending order. */
  method Sorted(s: set<string>) returns (out: seq<string>)
    ensures Ascending(out) && Distinct(out)
    ensures forall x :: x in out <==> x in s
  {
    out := [];
    var rest := s;
    while rest != {}
      invariant rest <= s && Ascending(out)
      invariant forall x :: x in s <==> x in out || x in rest
      invariant forall x, y | x in out && y in rest :: Before(x, y)
      decreases rest
    {
      var m := First(rest);
      out := out + [m];
      forall y | y in rest - {m} ensures Before(m, y) {
      }
      rest := rest - {m};
    }
    AscendingDistinct(out);
  }
}
