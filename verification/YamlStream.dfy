/**
 Splitting a YAML stream into documents (pkg/internal/patch/resource.go) as its bytes arrive, and joining documents
 again (pkg/internal/patch/kubeyaml.go).  Characters stand for bytes.
 */
module YamlStream {
  import opened Options
  import opened Text

  const SEPARATOR := "\n---"

  /** bytes.Index(s[i..], part), counted from the start of `s`. */
  function Find(s: string, part: string, i: nat): (r: Option<nat>)
    requires i <= |s|
    ensures r.Some? ==> i <= r.value && r.value + |part| <= |s|
    decreases |s| - i
  {
    if OccursAt(s, part, i) then Some(i) else if i == |s| then None else Find(s, part, i + 1)
  }

  /** It is the first occurrence, if there is one. */
  ghost predicate IsFirst(s: string, part: string, i: nat, r: Option<nat>) {
    match r
    case Some(k) => i <= k && OccursAt(s, part, k) && forall j | i <= j < k :: !OccursAt(s, part, j)
    case None => forall j | i <= j <= |s| :: !OccursAt(s, part, j)
  }

  lemma {:induction false} FindIff(s: string, part: string, i: nat, r: Option<nat>)
    requires i <= |s|
    ensures Find(s, part, i) == r <==> IsFirst(s, part, i, r)
    decreases |s| - i
  {
    if !OccursAt(s, part, i) && i < |s| {
      FindIff(s, part, i + 1, r);
    }
  }

  // ---------------------------------------------------------------- one decision

  /** What a bufio.SplitFunc returns: nothing yet, or a token and how far to go. */
  datatype Decision = More | Advance(count: nat, token: string)

  /** splitYAMLDocument(). */
  function SplitDocument(data: string, atEOF: bool): (d: Decision)
    ensures d.Advance? ==> 0 < d.count <= |data|
  {
    if data == "" then More
    else
      match Find(data, SEPARATOR, 0)
      case None => if atEOF then Advance(|data|, data) else More
      case Some(i) =>
        var after := i + |SEPARATOR|;
        if after == |data| then
          if atEOF then Advance(|data|, data[..i]) else More
        else
          match Find(data, "\n", after)
          case None => More
          case Some(j) => Advance(j + 1, data[..i])
  }

  /** A prefix of the data contains what the data contains, up to its end. */
  lemma OccursInLonger(data: string, more: string, part: string, i: nat)
    requires i + |part| <= |data|
    ensures OccursAt(data + more, part, i) <==> OccursAt(data, part, i)
  {
    assert (data + more)[i..i + |part|] == data[i..i + |part|];
  }

  lemma FoundInLonger(data: string, more: string, part: string, i: nat)
    requires i <= |data| && Find(data, part, i).Some?
    ensures Find(data + more, part, i) == Find(data, part, i)
  {
    var r := Find(data, part, i);
    FindIff(data, part, i, r);
    OccursInLonger(data, more, part, r.value);
    forall j | i <= j < r.value ensures !OccursAt(data + more, part, j) {
      OccursInLonger(data, more, part, j);
    }
    FindIff(data + more, part, i, r);
  }

  /** Once it advances on some data, it makes the same decision on every extension of that data. */
  lemma DecisionIsFinal(data: string, more: string, atEOF: bool)
    requires SplitDocument(data, false).Advance?
    ensures SplitDocument(data + more, atEOF) == SplitDocument(data, false)
  {
    FoundInLonger(data, more, SEPARATOR, 0);
    var i := Find(data, SEPARATOR, 0).value;
    FoundInLonger(data, more, "\n", i + |SEPARATOR|);
    assert (data + more)[..i] == data[..i];
  }

  // ---------------------------------------------------------------- whole streams

  /** The documents of a stream that is known to its end. */
  function Documents(data: string): seq<string>
    decreases |data|
  {
    var d := SplitDocument(data, true);
    if d.More? then [] else [d.token] + Documents(data[d.count..])
  }

  function Concat(chunks: seq<string>): string {
    if chunks == [] then "" else chunks[0] + Concat(chunks[1..])
  }

  lemma ConcatStep(buffer: string, chunks: seq<string>, next: nat)
    requires next < |chunks|
    ensures buffer + Concat(chunks[next..]) == (buffer + chunks[next]) + Concat(chunks[next + 1..])
  {
    assert chunks[next..][1..] == chunks[next + 1..];
  }

  lemma Shift(documents: seq<string>, token: string, others: seq<string>)
    ensures documents + ([token] + others) == documents + [token] + others
  {
  }

  /**
   splitYAMLDocuments() with the loop of bufio.Scanner.Scan(), without its limit on the length of a token: the
   reader delivers the stream in any pieces, and the documents depend on the stream alone.
   */
  method SplitDocuments(chunks: seq<string>) returns (documents: seq<string>)
    ensures documents == Documents(Concat(chunks))
  {
    documents := [];
    var buffer, next, atEOF := "", 0, false;
    ghost var rest := Concat(chunks);
    assert chunks[0..] == chunks && buffer + rest == rest;
    while true
      invariant next <= |chunks| && rest == Concat(chunks[next..]) && (atEOF ==> next == |chunks|)
      invariant documents + Documents(buffer + rest) == Documents(Concat(chunks))
      decreases |chunks| - next, !atEOF, |buffer|
    {
      if buffer != "" || atEOF {
        var d := SplitDocument(buffer, atEOF);
        if d.Advance? {
          Consume(buffer, rest, atEOF);
          Shift(documents, d.token, Documents(buffer[d.count..] + rest));
          documents, buffer := documents + [d.token], buffer[d.count..];
          continue;
        }
      }
      if atEOF {
        assert buffer + rest == buffer && documents + [] == documents;
        return;
      }
      if next < |chunks| {
        ConcatStep(buffer, chunks, next);
        buffer, next := buffer + chunks[next], next + 1;
        rest := Concat(chunks[next..]);
      } else {
        atEOF := true;
      }
    }
  }

  lemma Consume(buffer: string, rest: string, atEOF: bool)
    requires SplitDocument(buffer, atEOF).Advance? && (atEOF ==> rest == "")
    ensures var d := SplitDocument(buffer, atEOF);
            Documents(buffer + rest) == [d.token] + Documents(buffer[d.count..] + rest)
  {
    var d := SplitDocument(buffer, atEOF);
    if atEOF {
      assert buffer + rest == buffer && buffer[d.count..] + rest == buffer[d.count..];
    } else {
      DecisionIsFinal(buffer, rest, true);
      assert (buffer + rest)[d.count..] == buffer[d.count..] + rest;
    }
  }

  // ---------------------------------------------------------------- the same by lines

  predicate IsRule(line: string) {
    |line| >= 3 && line[..3] == "---"
  }

  /** The first line after the first that starts with three hyphens, or the number of lines. */
  function Rule(lines: seq<string>, k: nat): (r: nat)
    requires k <= |lines|
    ensures k <= r <= |lines| && (forall i | k <= i < r :: !IsRule(lines[i])) && (r < |lines| ==> IsRule(lines[r]))
    decreases |lines| - k
  {
    if k == |lines| || IsRule(lines[k]) then k else Rule(lines, k + 1)
  }

  /**
   The documents by lines.  The first line belongs to the document whatever it is.  A rule ends the document and is
   left out with all that is on it; but when the last line is a rule with text on it, the document before it is lost.
   */
  function Grouped(lines: seq<string>): seq<string>
    requires |lines| > 0
    decreases |lines|
  {
    if |lines| == 1 && lines[0] == "" then []
    else
      var k := Rule(lines, 1);
      if k == |lines| then [Join(lines, '\n')]
      else if k == |lines| - 1 then (if lines[k] == "---" then [Join(lines[..k], '\n')] else [])
      else [Join(lines[..k], '\n')] + Grouped(lines[k + 1..])
  }

  lemma RuleStart(s: string, i: nat)
    requires i <= |s| && '\n' !in s[..i] && (i < |s| ==> s[i] == '\n')
    ensures IsRule(s[..i]) <==> IsRule(s)
  {
    assert IsRule(s) ==> s[0] == s[..3][0] == '-' && s[1] == s[..3][1] == '-' && s[2] == s[..3][2] == '-';
    assert i >= 3 ==> s[..i][..3] == s[..3];
  }

  lemma NoBreakBefore(s: string, i: nat)
    requires i <= |s| && forall j | 0 <= j < i :: !OccursAt(s, "\n", j)
    ensures '\n' !in s[..i]
  {
    assert forall j | 0 <= j < i && s[j] == '\n' :: OccursAt(s, "\n", j);
  }

  /** A string starts with three hyphens just when its first line does. */
  lemma FirstLine(s: string)
    ensures IsRule(Split(s, '\n')[0]) <==> IsRule(s)
  {
    var r := Find(s, "\n", 0);
    var i := if r.Some? then r.value else |s|;
    FindIff(s, "\n", 0, r);
    NoBreakBefore(s, i);
    RuleStart(s, i);
    if r.Some? {
      assert s == s[..i] + ['\n'] + s[i + 1..];
      SplitPrefixed(s[..i], s[i + 1..], '\n');
    } else {
      assert s[..i] == s;
      SplitWithout(s, '\n');
    }
  }

  ghost predicate Clear(s: string) {
    forall j | 0 <= j <= |s| :: !OccursAt(s, SEPARATOR, j)
  }

  lemma OccursBehind(front: string, s: string, part: string, j: nat)
    ensures OccursAt(front + s, part, |front| + j) <==> OccursAt(s, part, j)
  {
    if j + |part| <= |s| {
      assert (front + s)[|front| + j..|front| + j + |part|] == s[j..j + |part|];
    }
  }

  lemma {:induction false} FoundBehind(front: string, s: string, part: string, j: nat)
    requires j <= |s|
    ensures Find(front + s, part, |front| + j)
            == match Find(s, part, j) case None => None case Some(k) => Some(|front| + k)
    decreases |s| - j
  {
    OccursBehind(front, s, part, j);
    if !OccursAt(s, part, j) && j < |s| {
      FoundBehind(front, s, part, j + 1);
    }
  }

  lemma SeparatorAtBreak(a: string, b: string)
    ensures OccursAt(a + "\n" + b, SEPARATOR, |a|) <==> IsRule(b)
  {
    OccursBehind(a, "\n" + b, SEPARATOR, 0);
    assert a + "\n" + b == a + ("\n" + b);
    if |b| >= 3 {
      assert ("\n" + b)[0..4] == "\n" + b[..3];
      assert SEPARATOR == "\n" + "---";
      assert IsRule(b) <==> "\n" + b[..3] == "\n" + "---" by {
        assert ("\n" + b[..3])[1..] == b[..3] && ("\n" + "---")[1..] == "---";
      }
    }
  }

  lemma ClearParts(a: string, t: string)
    requires Clear(a + "\n" + t)
    ensures Clear(a) && Clear(t) && !IsRule(t)
  {
    SeparatorAtBreak(a, t);
    assert a + "\n" + t == a + ("\n" + t);
    forall j | 0 <= j <= |a| ensures !OccursAt(a, SEPARATOR, j) {
      if j + 4 <= |a| {
        OccursInLonger(a, "\n" + t, SEPARATOR, j);
      }
    }
    forall j | 0 <= j <= |t| ensures !OccursAt(t, SEPARATOR, j) {
      OccursBehind(a + "\n", t, SEPARATOR, j);
      assert |a + "\n"| + j <= |a + "\n" + t|;
    }
  }

  /** Where the separator does not occur, no line but the first is a rule. */
  lemma {:induction false} NoRules(s: string)
    requires Clear(s)
    ensures forall m | 1 <= m < |Split(s, '\n')| :: !IsRule(Split(s, '\n')[m])
    decreases |s|
  {
    var r := Find(s, "\n", 0);
    FindIff(s, "\n", 0, r);
    if r.None? {
      NoBreakBefore(s, |s|);
      assert s[..|s|] == s;
      SplitWithout(s, '\n');
    } else {
      var a, t := s[..r.value], s[r.value + 1..];
      NoBreakBefore(s, r.value);
      assert s == a + "\n" + t;
      SplitPrefixed(a, t, '\n');
      ClearParts(a, t);
      NoRules(t);
      FirstLine(t);
    }
  }

  lemma TwoParts<T>(xs: seq<T>, ys: seq<T>)
    ensures (xs + ys)[..|xs|] == xs && (|ys| > 0 ==> (xs + ys)[|xs| + 1..] == ys[1..])
  {
  }

  lemma GroupedTwo(xs: seq<string>, ys: seq<string>)
    requires |xs| > 0 && |ys| > 0 && IsRule(ys[0]) && forall m | 1 <= m < |xs| :: !IsRule(xs[m])
    ensures Grouped(xs + ys)
            == if |ys| > 1 then [Join(xs, '\n')] + Grouped(ys[1..])
               else if ys[0] == "---" then [Join(xs, '\n')] else []
  {
    TwoParts(xs, ys);
    var lines := xs + ys;
    assert lines[|xs|] == ys[0];
    assert Rule(lines, 1) == |xs|;
  }

  lemma Behind(s: string, i: nat, j: nat)
    requires i + j <= |s|
    ensures s[i..][j..] == s[i + j..] && s[..i] + s[i..] == s && s[|s|..] == ""
  {
  }

  /** The line break that splitYAMLDocument() looks for, counted from the separator. */
  lemma BreakBehindSeparator(s: string, i: nat, r: Option<nat>)
    requires i + 4 <= |s| && Find(s[i + 1..], "\n", 3) == r
    ensures Find(s, "\n", i + 4) == if r.None? then None else Some(i + 1 + r.value)
  {
    Behind(s, i + 1, 3);
    FoundBehind(s[..i + 1], s[i + 1..], "\n", 3);
  }

  lemma DecisionAtSeparator(s: string, i: nat, j: Option<nat>)
    requires Find(s, SEPARATOR, 0) == Some(i) && Find(s, "\n", i + 4) == j
    ensures j.Some? ==> SplitDocument(s, true) == Advance(j.value + 1, s[..i])
    ensures j.None? ==> SplitDocument(s, true) == if |s| == i + 4 then Advance(|s|, s[..i]) else More
  {
  }

  lemma NextDocument(s: string, count: nat, token: string, t: string)
    requires SplitDocument(s, true) == Advance(count, token) && t == s[count..]
    ensures Documents(s) == [token] + Documents(t)
  {
  }

  lemma LastDocument(s: string, token: string)
    requires SplitDocument(s, true) == Advance(|s|, token)
    ensures Documents(s) == [token]
  {
    NextDocument(s, |s|, token, "");
  }

  lemma RuleLines(b: string)
    requires IsRule(b)
    ensures Split(b, '\n')
            == match Find(b, "\n", 3) case None => [b] case Some(j) => [b[..j]] + Split(b[j + 1..], '\n')
    ensures IsRule(Split(b, '\n')[0])
  {
    var r := Find(b, "\n", 3);
    var n := if r.Some? then r.value else |b|;
    FindIff(b, "\n", 3, r);
    assert b[0] == b[..3][0] && b[1] == b[..3][1] && b[2] == b[..3][2];
    forall j | 0 <= j < n ensures !OccursAt(b, "\n", j) {
      assert j < 3 ==> b[j..j + 1] == [b[j]];
    }
    NoBreakBefore(b, n);
    FirstLine(b);
    if r.Some? {
      assert b == b[..n] + ['\n'] + b[n + 1..];
      SplitPrefixed(b[..n], b[n + 1..], '\n');
    } else {
      assert b[..n] == b;
      SplitWithout(b, '\n');
    }
  }

  lemma NoDocument(s: string)
    requires SplitDocument(s, true) == More
    ensures Documents(s) == []
  {
  }

  /** A stream at its first separator: the document, the rule with the rest, and where the rule ends. */
  lemma FirstDocument(s: string) returns (a: string, b: string, q: Option<nat>)
    requires Find(s, SEPARATOR, 0).Some?
    ensures s == a + "\n" + b && Clear(a) && IsRule(b) && q == Find(b, "\n", 3)
    ensures q.Some? ==> Documents(s) == [a] + Documents(b[q.value + 1..])
    ensures q.None? ==> Documents(s) == if |b| == 3 then [a] else []
  {
    var i := Find(s, SEPARATOR, 0).value;
    a, b := s[..i], s[i + 1..];
    AroundSeparator(s, a, b);
    q := Find(b, "\n", 3);
    BreakBehindSeparator(s, i, q);
    if q.Some? {
      Behind(s, i + 1, q.value + 1);
      DecisionAtSeparator(s, i, Some(i + 1 + q.value));
      NextDocument(s, i + 1 + q.value + 1, a, b[q.value + 1..]);
    } else {
      DecisionAtSeparator(s, i, None);
      if |s| == i + 4 {
        LastDocument(s, a);
      } else {
        NoDocument(s);
      }
    }
  }

  /** The stream splits as its lines do. */
  lemma {:induction false} DocumentsAreGrouped(s: string)
    ensures Documents(s) == Grouped(Split(s, '\n'))
    decreases |s|
  {
    if Find(s, SEPARATOR, 0).None? {
      FindIff(s, SEPARATOR, 0, None);
      NoRules(s);
      WithoutSeparator(s);
    } else {
      var a, b, q := FirstDocument(s);
      GroupedAtSeparator(a, b, q);
      if q.Some? {
        DocumentsAreGrouped(b[q.value + 1..]);
      }
    }
  }

  lemma GroupedAtSeparator(a: string, b: string, q: Option<nat>)
    requires IsRule(b) && Clear(a) && Find(b, "\n", 3) == q
    ensures q.None? ==> Grouped(Split(a + "\n" + b, '\n')) == if |b| == 3 then [a] else []
    ensures q.Some? ==> Grouped(Split(a + "\n" + b, '\n')) == [a] + Grouped(Split(b[q.value + 1..], '\n'))
  {
    hide Grouped, Split, Find;
    GroupedBefore(a, b);
    RuleLines(b);
    if q.Some? {
      var rest := Split(b[q.value + 1..], '\n');
      assert ([b[..q.value]] + rest)[1..] == rest;
    } else {
      assert |b| == 3 ==> b == b[..3];
    }
  }

  /** The document before a rule is a group of its own, and the lines behind the rule are grouped by themselves. */
  lemma GroupedBefore(a: string, b: string)
    requires IsRule(b) && Clear(a)
    ensures var ys := Split(b, '\n');
            && ys != []
            && Grouped(Split(a + "\n" + b, '\n'))
               == if |ys| > 1 then [a] + Grouped(ys[1..]) else if ys[0] == "---" then [a] else []
  {
    NoRules(a);
    SplitTwo(a, b, '\n');
    JoinOfSplit(a, '\n');
    RuleLines(b);
    GroupedTwo(Split(a, '\n'), Split(b, '\n'));
  }

  lemma WithoutSeparator(s: string)
    requires Find(s, SEPARATOR, 0).None? && forall m | 1 <= m < |Split(s, '\n')| :: !IsRule(Split(s, '\n')[m])
    ensures Documents(s) == Grouped(Split(s, '\n'))
  {
    JoinOfSplit(s, '\n');
    assert Rule(Split(s, '\n'), 1) == |Split(s, '\n')|;
    assert Join([""], '\n') == "";
    if s != "" {
      assert s[|s|..] == "";
      assert Documents(s) == [s] + Documents("");
    }
  }

  lemma AroundSeparator(s: string, a: string, b: string)
    requires Find(s, SEPARATOR, 0).Some?
    requires a == s[..Find(s, SEPARATOR, 0).value] && b == s[Find(s, SEPARATOR, 0).value + 1..]
    ensures s == a + "\n" + b && IsRule(b) && Clear(a)
  {
    var i := Find(s, SEPARATOR, 0).value;
    FindIff(s, SEPARATOR, 0, Some(i));
    assert s[i] == s[i..i + 4][0] == '\n';
    SeparatorAtBreak(a, b);
    forall j | 0 <= j <= |a| ensures !OccursAt(a, SEPARATOR, j) {
      if j + 4 <= |a| {
        assert s == a + s[i..];
        OccursInLonger(a, s[i..], SEPARATOR, j);
      }
    }
  }

  /** A rule on the last line, with no line break behind it, keeps the document before it only if it is bare. */
  lemma LastRuleMayLoseDocument(a: string, text: string)
    requires Clear(a) && '\n' !in text
    ensures Documents(a + "\n" + ("---" + text)) == if text == "" then [a] else []
  {
    var b := "---" + text;
    assert b[..3] == "---";
    forall j | 3 <= j <= |b| ensures !OccursAt(b, "\n", j) {
      assert j < |b| ==> b[j] == text[j - 3] && b[j..j + 1] == [b[j]];
    }
    FindIff(b, "\n", 3, None);
    DocumentsAreGrouped(a + "\n" + b);
    GroupedAtSeparator(a, b, None);
  }

  // ---------------------------------------------------------------- joining and splitting again

  function Joined(documents: seq<string>): string {
    if |documents| == 0 then ""
    else if |documents| == 1 then documents[0]
    else documents[0] + "---\n" + Joined(documents[1..])
  }

  /** The loop of KubeYAML() over the encoded resources. */
  method WriteDocuments(documents: seq<string>) returns (builder: string)
    ensures builder == Joined(documents)
  {
    builder := "";
    for i := 0 to |documents|
      invariant builder + Joined(documents[i..]) == Joined(documents)
    {
      builder := builder + documents[i];
      if i + 1 < |documents| {
        builder := builder + "---\n";
      }
    }
  }

  predicate Ended(document: string) {
    document != "" && document[|document| - 1] == '\n'
  }

  predicate AllEnded(documents: seq<string>) {
    forall i | 0 <= i < |documents| :: Ended(documents[i])
  }

  /** Every document but the last without its final line break. */
  function Trimmed(documents: seq<string>): (r: seq<string>)
    requires AllEnded(documents)
    ensures |r| == |documents|
  {
    seq(|documents|, i requires 0 <= i < |documents| =>
      if i + 1 < |documents| then documents[i][..|documents[i]| - 1] else documents[i])
  }

  predicate Whole(document: string) {
    !Contains(document, SEPARATOR)
  }

  lemma FoundAtEnd(d: string, more: string)
    requires Ended(d) && Whole(d)
    ensures Find(d + "---\n" + more, SEPARATOR, 0) == Some(|d| - 1)
  {
    var s, n := d + "---\n" + more, |d| - 1;
    assert s[n..n + 4] == SEPARATOR;
    assert OccursAt(s, SEPARATOR, n);
    forall j | 0 <= j < n ensures !OccursAt(s, SEPARATOR, j) {
      if j + 4 <= |d| {
        assert s[j..j + 4] == d[j..j + 4];
        assert !OccursAt(d, SEPARATOR, j);
      } else {
        assert s[n] == '\n' && s[j..j + 4][n - j] == s[n] && SEPARATOR[n - j] == '-';
      }
    }
    FindIff(s, SEPARATOR, 0, Some(n));
  }

  lemma WholeSplits(d: string, more: string)
    requires Ended(d) && Whole(d)
    ensures SplitDocument(d + "---\n" + more, true) == Advance(|d| + 4, d[..|d| - 1])
  {
    var s, n := d + "---\n" + more, |d| - 1;
    FoundAtEnd(d, more);
    assert s[n + 4] == '\n';
    assert OccursAt(s, "\n", n + 4);
    assert s[..n] == d[..n];
  }

  lemma BrokenSplits(d: string, more: string)
    requires Ended(d) && !Whole(d)
    ensures var r := SplitDocument(d + more, true); r.Advance? ==> |r.token| < |d| - 1
  {
    var i :| 0 <= i <= |d| && OccursAt(d, SEPARATOR, i);
    OccursInLonger(d, more, SEPARATOR, i);
    FindIff(d + more, SEPARATOR, 0, Find(d + more, SEPARATOR, 0));
  }

  lemma FirstIsWhole(d: string, more: string)
    requires Ended(d) && Whole(d)
    ensures Documents(d + "---\n" + more) == [d[..|d| - 1]] + Documents(more)
  {
    var s := d + "---\n" + more;
    WholeSplits(d, more);
    assert s[|d| + 4..] == more;
    NextDocument(s, |d| + 4, d[..|d| - 1], more);
  }

  lemma FirstIsBroken(d: string, more: string)
    requires Ended(d) && !Whole(d)
    ensures Documents(d + more) == [] || |Documents(d + more)[0]| < |d| - 1
  {
    BrokenSplits(d, more);
  }

  lemma SameTail(head: string, xs: seq<string>, ys: seq<string>)
    ensures [head] + xs == [head] + ys <==> xs == ys
  {
    assert ([head] + xs)[1..] == xs && ([head] + ys)[1..] == ys;
  }

  lemma OneDocument(d: string)
    requires Ended(d)
    ensures Documents(d) == [d] <==> Whole(d)
  {
    if Whole(d) {
      FindIff(d, SEPARATOR, 0, None);
      LastDocument(d, d);
    } else {
      FirstIsBroken(d, "");
      assert d + "" == d;
    }
  }

  lemma TrimmedFirst(documents: seq<string>)
    requires AllEnded(documents) && |documents| > 1
    ensures Trimmed(documents) == [documents[0][..|documents[0]| - 1]] + Trimmed(documents[1..])
  {
  }

  ghost predicate AllWhole(documents: seq<string>) {
    forall d | d in documents :: Whole(d)
  }

  lemma AllWholeFirst(documents: seq<string>)
    requires |documents| > 0
    ensures AllWhole(documents) <==> Whole(documents[0]) && AllWhole(documents[1..])
  {
    assert documents == [documents[0]] + documents[1..];
  }

  /**
   Documents that end with a line break, written one after the other as KubeYAML() does, are split into the same
   documents, all but the last without their line break, exactly when none has a rule behind its first line.
   */
  lemma {:induction false} RoundTripIff(documents: seq<string>)
    requires AllEnded(documents)
    ensures Documents(Joined(documents)) == Trimmed(documents) <==> AllWhole(documents)
  {
    if |documents| == 1 {
      OneDocument(documents[0]);
      assert Trimmed(documents) == documents;
    } else if |documents| > 1 {
      var d, others := documents[0], documents[1..];
      AllWholeFirst(documents);
      TrimmedFirst(documents);
      if Whole(d) {
        RoundTripIff(others);
        FirstIsWhole(d, Joined(others));
        SameTail(d[..|d| - 1], Documents(Joined(others)), Trimmed(others));
      } else {
        FirstIsBroken(d, "---\n" + Joined(others));
        assert Joined(documents) == d + ("---\n" + Joined(others));
      }
    } else {
      NoDocument("");
    }
  }
}
