/**
 Parsing and printing of versions (pkg/internal/version/version.go).  What the two regular expressions recognise
 is written out as grammar; the parser is proved to accept exactly that grammar.
 */
module Versions {
  import opened Decimal
  import opened Options
  import opened Text

  /** `preRelease` and `buildMetadata` are empty when the version has none, and always in a generic version. */
  datatype Version = Version(components: seq<nat>, semver: bool, preRelease: string, buildMetadata: string)

  /** Values of a 64-bit unsigned integer. */
  const UINT := 0x1_0000_0000_0000_0000

  /** strconv.ParseUint(s, 10, 0) succeeds, with Value(s) as its result. */
  predicate ParsesAsUint(s: string) {
    s != "" && AllDigits(s) && Value(s) < UINT
  }

  predicate ZeroPrefixed(s: string) {
    s != "" && s[0] == '0' && s != "0"
  }

  // ---------------------------------------------------------------- character classes and dotted lists

  datatype Class = Digits | Identifiers | Spaces

  predicate In(k: Class, c: char) {
    match k
    case Digits => IsDigit(c)
    case Identifiers => IsDigit(c) || 'A' <= c <= 'Z' || 'a' <= c <= 'z' || c == '-'
    case Spaces => c == ' ' || c == '\t' || c == '\n' || c == '\U{0C}' || c == '\r'
  }

  predicate All(k: Class, s: string) {
    forall i | 0 <= i < |s| :: In(k, s[i])
  }

  /** The length of the longest prefix in a class. */
  function Span(k: Class, s: string): (n: nat)
    ensures n <= |s| && All(k, s[..n]) && (n < |s| ==> !In(k, s[n]))
  {
    if s == "" || !In(k, s[0]) then 0 else 1 + Span(k, s[1..])
  }

  /** How far the next character of a dotted list is from the one that starts `s`; 0 if the list ends here. */
  function Stride(k: Class, s: string): nat
    requires s != ""
  {
    if |s| > 1 && In(k, s[1]) then 1 else if |s| > 2 && s[1] == '.' && In(k, s[2]) then 2 else 0
  }

  /**
   The length of the longest prefix that consists of non-empty runs of a class with single dots between them; 0 if
   there is none.
   */
  function Dotted(k: Class, s: string): (n: nat)
    ensures n <= |s| && (n == 0 <==> s == "" || !In(k, s[0]))
  {
    if s == "" || !In(k, s[0]) then 0
    else
      var d := Stride(k, s);
      if d == 0 then 1 else d + Dotted(k, s[d..])
  }

  /** `s` consists of non-empty runs of class `k` with single dots between them. */
  predicate List(k: Class, s: string) {
    s != "" && forall i | 0 <= i < |s| :: ListAt(k, s, i)
  }

  predicate ListAt(k: Class, s: string, i: nat)
    requires i < |s|
  {
    In(k, s[i]) || (s[i] == '.' && 0 < i < |s| - 1 && In(k, s[i - 1]) && In(k, s[i + 1]))
  }

  /** A dotted list of class `k` cannot go on with `t`. */
  predicate Stops(k: Class, t: string) {
    t != "" ==> !In(k, t[0]) && !(t[0] == '.' && |t| > 1 && In(k, t[1]))
  }

  lemma ListTail(k: Class, s: string, d: nat)
    requires List(k, s) && d < |s| && In(k, s[d])
    ensures List(k, s[d..])
  {
    var t := s[d..];
    forall i | 0 <= i < |t| ensures ListAt(k, t, i) {
      assert ListAt(k, s, d + i);
    }
  }

  lemma ListStride(k: Class, s: string)
    requires k != Spaces && List(k, s)
    ensures In(k, s[0])
    ensures |s| > 1 ==> Stride(k, s) > 0 && List(k, s[Stride(k, s)..])
  {
    assert ListAt(k, s, 0);
    if |s| > 1 {
      assert ListAt(k, s, 1);
      ListTail(k, s, Stride(k, s));
    }
  }

  /** Dotted() finds the whole of a list, whatever stops it. */
  lemma {:induction false} DottedOfList(k: Class, s: string, t: string)
    requires k != Spaces && List(k, s) && Stops(k, t)
    ensures Dotted(k, s + t) == |s|
    decreases |s|
  {
    ListStride(k, s);
    if |s| > 1 {
      var d := Stride(k, s);
      DottedOfList(k, s[d..], t);
      assert (s + t)[d..] == s[d..] + t;
    }
  }

  lemma ListGrows(k: Class, s: string, d: nat, n: nat)
    requires 0 < |s| && d == Stride(k, s) > 0 && In(k, s[0]) && d + n <= |s| && List(k, s[d..][..n])
    ensures List(k, s[..d + n])
  {
    var whole, part := s[..d + n], s[d..][..n];
    assert forall j | 0 <= j < n :: whole[d + j] == part[j];
    forall i | 0 <= i < |whole| ensures ListAt(k, whole, i) {
      assert i >= d ==> ListAt(k, part, i - d);
    }
  }

  /** What Dotted() finds is a list, and what follows stops it. */
  lemma {:induction false} DottedIsList(k: Class, s: string)
    requires k != Spaces && Dotted(k, s) > 0
    ensures List(k, s[..Dotted(k, s)]) && Stops(k, s[Dotted(k, s)..])
    decreases |s|
  {
    var d := Stride(k, s);
    if d > 0 {
      var n := Dotted(k, s[d..]);
      DottedIsList(k, s[d..]);
      ListGrows(k, s, d, n);
      assert s[d + n..] == s[d..][n..];
    }
  }

  /** The fields of a list are its runs. */
  lemma {:induction false} FieldsOfList(k: Class, s: string)
    requires k != Spaces && List(k, s)
    ensures forall i | 0 <= i < |Split(s, '.')| :: Split(s, '.')[i] != "" && All(k, Split(s, '.')[i])
    decreases |s|
  {
    ListStride(k, s);
    if |s| > 1 {
      var d := Stride(k, s);
      FieldsOfList(k, s[d..]);
      if d == 2 {
        assert s[1..][1..] == s[2..];
        assert Split(s[1..], '.') == [""] + Split(s[2..], '.');
      }
    }
  }

  lemma {:induction false} ListOfJoin(k: Class, fs: seq<string>)
    requires k != Spaces && |fs| > 0 && forall i | 0 <= i < |fs| :: fs[i] != "" && All(k, fs[i])
    ensures List(k, Join(fs, '.'))
  {
    if |fs| > 1 {
      ListOfJoin(k, fs[1..]);
      var a, b, s := fs[0], Join(fs[1..], '.'), Join(fs, '.');
      assert ListAt(k, b, 0);
      forall i | 0 <= i < |s| ensures ListAt(k, s, i) {
        assert i > |a| ==> ListAt(k, b, i - |a| - 1);
      }
    }
  }

  // ---------------------------------------------------------------- the grammar

  predicate Blank(s: string) {
    All(Spaces, s)
  }

  /** What may stand before the numbers: white space, then perhaps a `v`. */
  predicate IsLead(s: string) {
    Blank(s) || (s != "" && s[|s| - 1] == 'v' && Blank(s[..|s| - 1]))
  }

  /** The expression for the whole string: lead, numbers as long as they go, and anything without a line break. */
  predicate Splits(str: string, lead: string, numbers: string, extra: string) {
    && str == lead + numbers + extra
    && IsLead(lead) && List(Digits, numbers) && Stops(Digits, extra) && '\n' !in extra
  }

  /** One field of the numbers, at index `i`. */
  predicate IsComponent(field: string, i: nat, semver: bool) {
    ParsesAsUint(field) && (i == 0 || semver ==> !ZeroPrefixed(field))
  }

  predicate Numbered(fields: seq<string>, semver: bool, components: seq<nat>) {
    && |components| == |fields| && (if semver then |fields| == 3 else |fields| >= 2)
    && forall i | 0 <= i < |fields| :: IsComponent(fields[i], i, semver) && components[i] == Value(fields[i])
  }

  function Marked(mark: char, name: string): string {
    if name == "" then "" else [mark] + name
  }

  function Suffix(preRelease: string, buildMetadata: string): string {
    Marked('-', preRelease) + Marked('+', buildMetadata)
  }

  /** Identifiers of a pre-release: a number may not have a leading zero, as far as it fits the integer type. */
  predicate NoZeroPrefix(fields: seq<string>) {
    forall i | 0 <= i < |fields| :: ParsesAsUint(fields[i]) ==> !ZeroPrefixed(fields[i])
  }

  predicate Labels(preRelease: string, buildMetadata: string) {
    (preRelease != "" ==> List(Identifiers, preRelease)) && (buildMetadata != "" ==> List(Identifiers, buildMetadata))
  }

  /** What may follow the three numbers of a semantic version. */
  predicate IsExtra(extra: string, preRelease: string, buildMetadata: string) {
    var suffix := Suffix(preRelease, buildMetadata);
    Labels(preRelease, buildMetadata) && suffix <= extra && Blank(extra[|suffix|..])
  }

  predicate Describes(numbers: string, extra: string, semver: bool, v: Version) {
    && v.semver == semver && Numbered(Split(numbers, '.'), semver, v.components)
    && if semver then IsExtra(extra, v.preRelease, v.buildMetadata) && NoZeroPrefix(Split(v.preRelease, '.'))
       else v.preRelease == "" == v.buildMetadata
  }

  /** `str` is a way to write `v`. */
  ghost predicate Reads(str: string, semver: bool, v: Version) {
    exists lead, numbers, extra :: Splits(str, lead, numbers, extra) && Describes(numbers, extra, semver, v)
  }

  // ---------------------------------------------------------------- recognising it

  function LeadLength(s: string): (n: nat)
    ensures n <= |s|
  {
    var n := Span(Spaces, s);
    if n < |s| && s[n] == 'v' then n + 1 else n
  }

  /** versionMatchRE.FindStringSubmatch(). */
  function MatchVersion(str: string): Option<(string, string)> {
    var rest := str[LeadLength(str)..];
    var n := Dotted(Digits, rest);
    if n == 0 || '\n' in rest[n..] then None else Some((rest[..n], rest[n..]))
  }

  lemma {:induction false} SpanOf(k: Class, a: string, t: string)
    requires All(k, a) && (t != "" ==> !In(k, t[0]))
    ensures Span(k, a + t) == |a|
  {
    if a != "" {
      assert (a + t)[1..] == a[1..] + t;
      SpanOf(k, a[1..], t);
    } else {
      assert a + t == t;
    }
  }

  lemma LeadOf(lead: string, rest: string)
    requires IsLead(lead) && rest != "" && IsDigit(rest[0])
    ensures LeadLength(lead + rest) == |lead|
  {
    if Blank(lead) {
      SpanOf(Spaces, lead, rest);
    } else {
      var spaces := lead[..|lead| - 1];
      SpanOf(Spaces, spaces, "v" + rest);
      assert spaces + ("v" + rest) == lead + rest;
    }
  }

  lemma SplitsMatch(lead: string, numbers: string, extra: string)
    requires IsLead(lead) && List(Digits, numbers) && Stops(Digits, extra)
    ensures var str := lead + numbers + extra;
            && str[..LeadLength(str)] == lead
            && MatchVersion(str) == if '\n' in extra then None else Some((numbers, extra))
  {
    var rest := numbers + extra;
    assert lead + numbers + extra == lead + rest;
    assert ListAt(Digits, numbers, 0);
    LeadOf(lead, rest);
    DottedOfList(Digits, numbers, extra);
    assert (lead + rest)[|lead|..] == rest && rest[..|numbers|] == numbers && rest[|numbers|..] == extra;
  }

  lemma LeadIs(str: string)
    ensures IsLead(str[..LeadLength(str)])
  {
    var n := Span(Spaces, str);
    if n < |str| && str[n] == 'v' {
      assert str[..n + 1][..n] == str[..n];
    }
  }

  lemma ThreeParts(s: string, n: nat, d: nat)
    requires n + d <= |s|
    ensures s == s[..n] + s[n..][..d] + s[n..][d..]
  {
  }

  lemma MatchSplits(str: string)
    requires MatchVersion(str).Some?
    ensures Splits(str, str[..LeadLength(str)], MatchVersion(str).value.0, MatchVersion(str).value.1)
  {
    LeadIs(str);
    var rest := str[LeadLength(str)..];
    DottedIsList(Digits, rest);
    ThreeParts(str, LeadLength(str), Dotted(Digits, rest));
  }

  /** The expression splits a string in the one way that the grammar knows. */
  lemma SplitsIff(str: string, lead: string, numbers: string, extra: string)
    ensures Splits(str, lead, numbers, extra)
            <==> str[..LeadLength(str)] == lead && MatchVersion(str) == Some((numbers, extra))
  {
    if Splits(str, lead, numbers, extra) {
      SplitsMatch(lead, numbers, extra);
    }
    if MatchVersion(str).Some? {
      MatchSplits(str);
    }
  }

  /** The name after a mark at the start of a string, empty if there is none, and the rest of the string. */
  function Cut(mark: char, s: string): (string, string) {
    var n := if s != "" && s[0] == mark then Dotted(Identifiers, s[1..]) else 0;
    if n > 0 then (s[1..][..n], s[1..][n..]) else ("", s)
  }

  /** extraMatchRE.FindStringSubmatch(). */
  function MatchExtra(extra: string): Option<(string, string)> {
    var (preRelease, rest) := Cut('-', extra);
    var (buildMetadata, spaces) := Cut('+', rest);
    if Blank(spaces) then Some((preRelease, buildMetadata)) else None
  }

  lemma CutOf(mark: char, name: string, t: string)
    requires (name != "" ==> List(Identifiers, name)) && Stops(Identifiers, t) && (t != "" ==> t[0] != mark)
    ensures Cut(mark, Marked(mark, name) + t) == (name, t)
  {
    if name == "" {
      assert Marked(mark, name) + t == t;
    } else {
      var s := Marked(mark, name) + t;
      assert s[1..] == name + t;
      DottedOfList(Identifiers, name, t);
    }
  }

  lemma MarkedParts(mark: char, s: string, n: nat)
    requires s != "" && s[0] == mark && n < |s|
    ensures s == [mark] + s[1..][..n] + s[1..][n..]
  {
  }

  lemma CutIs(mark: char, s: string)
    ensures var (name, rest) := Cut(mark, s);
            s == Marked(mark, name) + rest && (name != "" ==> List(Identifiers, name))
  {
    var n := if s != "" && s[0] == mark then Dotted(Identifiers, s[1..]) else 0;
    if n > 0 {
      DottedIsList(Identifiers, s[1..]);
      MarkedParts(mark, s, n);
    }
  }

  lemma ExtraMatches(preRelease: string, buildMetadata: string, spaces: string)
    requires Labels(preRelease, buildMetadata) && Blank(spaces)
    ensures MatchExtra(Suffix(preRelease, buildMetadata) + spaces) == Some((preRelease, buildMetadata))
  {
    var rest := Marked('+', buildMetadata) + spaces;
    assert Suffix(preRelease, buildMetadata) + spaces == Marked('-', preRelease) + rest;
    CutOf('-', preRelease, rest);
    CutOf('+', buildMetadata, spaces);
  }

  lemma MatchedExtra(extra: string)
    requires MatchExtra(extra).Some?
    ensures IsExtra(extra, MatchExtra(extra).value.0, MatchExtra(extra).value.1)
  {
    var (preRelease, rest) := Cut('-', extra);
    var (buildMetadata, spaces) := Cut('+', rest);
    CutIs('-', extra);
    CutIs('+', rest);
    SuffixIsPrefix(Marked('-', preRelease), Marked('+', buildMetadata), spaces);
  }

  lemma SuffixIsPrefix(a: string, b: string, c: string)
    ensures a + b <= a + (b + c) && (a + (b + c))[|a + b|..] == c
  {
  }

  /** The second expression takes apart exactly what the grammar allows. */
  lemma ExtraIff(extra: string, preRelease: string, buildMetadata: string)
    ensures IsExtra(extra, preRelease, buildMetadata) <==> MatchExtra(extra) == Some((preRelease, buildMetadata))
  {
    if IsExtra(extra, preRelease, buildMetadata) {
      var suffix := Suffix(preRelease, buildMetadata);
      assert extra == suffix + extra[|suffix|..];
      ExtraMatches(preRelease, buildMetadata, extra[|suffix|..]);
    }
    if MatchExtra(extra) == Some((preRelease, buildMetadata)) {
      MatchedExtra(extra);
    }
  }

  lemma ReadsIff(str: string, semver: bool, v: Version)
    ensures Reads(str, semver, v)
            <==> MatchVersion(str).Some? && Describes(MatchVersion(str).value.0, MatchVersion(str).value.1, semver, v)
  {
    if Reads(str, semver, v) {
      var lead, numbers, extra :| Splits(str, lead, numbers, extra) && Describes(numbers, extra, semver, v);
      SplitsIff(str, lead, numbers, extra);
    }
    if MatchVersion(str).Some? {
      MatchSplits(str);
    }
  }

  /** A string is a way to write at most one version. */
  lemma ReadsOne(str: string, semver: bool, v: Version, w: Version)
    requires Reads(str, semver, v) && Reads(str, semver, w)
    ensures v == w
  {
    ReadsIff(str, semver, v);
    ReadsIff(str, semver, w);
    var (numbers, extra) := MatchVersion(str).value;
    ExtraIff(extra, v.preRelease, v.buildMetadata);
    ExtraIff(extra, w.preRelease, w.buildMetadata);
    assert v.components == w.components;
  }

  /** The loop of parse() over the numeric fields. */
  method ParseComponents(fields: seq<string>, semver: bool) returns (r: Option<seq<nat>>)
    ensures forall components :: Numbered(fields, semver, components) <==> r == Some(components)
  {
    if (semver && |fields| != 3) || (!semver && |fields| < 2) {
      return None;
    }
    var components: seq<nat> := [];
    for i := 0 to |fields|
      invariant |components| == i
      invariant forall j | 0 <= j < i :: IsComponent(fields[j], j, semver) && components[j] == Value(fields[j])
    {
      if (i == 0 || semver) && ZeroPrefixed(fields[i]) {
        return None;
      }
      if !ParsesAsUint(fields[i]) {
        return None;
      }
      components := components + [Value(fields[i])];
    }
    forall other | Numbered(fields, semver, other) ensures other == components {
      assert forall j | 0 <= j < |fields| :: other[j] == components[j];
    }
    return Some(components);
  }

  /** The loop of parse() over the identifiers of a pre-release. */
  method CheckIdentifiers(identifiers: seq<string>) returns (ok: bool)
    ensures ok <==> NoZeroPrefix(identifiers)
  {
    for i := 0 to |identifiers|
      invariant forall j | 0 <= j < i :: ParsesAsUint(identifiers[j]) ==> !ZeroPrefixed(identifiers[j])
    {
      if ParsesAsUint(identifiers[i]) && ZeroPrefixed(identifiers[i]) {
        return false;
      }
    }
    return true;
  }

  /** parse(): it returns the version that the string writes, and fails exactly when there is none. */
  method Parse(str: string, semver: bool) returns (r: Option<Version>)
    ensures forall v :: Reads(str, semver, v) <==> r == Some(v)
  {
    forall v {
      ReadsIff(str, semver, v);
    }
    var parts := MatchVersion(str);
    if parts == None {
      return None;
    }
    var (numbers, extra) := parts.value;
    var components := ParseComponents(Split(numbers, '.'), semver);
    if components == None {
      return None;
    }
    var v := Version(components.value, semver, "", "");
    if semver {
      forall w: Version {
        ExtraIff(extra, w.preRelease, w.buildMetadata);
      }
      if extra == "" {
        assert MatchExtra(extra) == Some(("", ""));
      } else {
        var extraParts := MatchExtra(extra);
        if extraParts == None {
          return None;
        }
        v := v.(preRelease := extraParts.value.0, buildMetadata := extraParts.value.1);
        var ok := CheckIdentifiers(Split(v.preRelease, '.'));
        if !ok {
          return None;
        }
      }
    }
    return Some(v);
  }

  // ---------------------------------------------------------------- printing

  function Numerals(components: seq<nat>): (fs: seq<string>)
    ensures |fs| == |components|
  {
    seq(|components|, i requires 0 <= i < |components| => Print(components[i]))
  }

  /** The normal form of a version. */
  function Show(v: Version): string {
    Join(Numerals(v.components), '.') + Suffix(v.preRelease, v.buildMetadata)
  }

  lemma JoinNext(fs: seq<string>, i: nat)
    requires i < |fs|
    ensures Join(fs[..i + 1], '.') == if i == 0 then fs[0] else Join(fs[..i], '.') + "." + fs[i]
  {
    assert fs[..i + 1] == fs[..i] + [fs[i]];
    if i > 0 {
      JoinTwo(fs[..i], [fs[i]], '.');
    }
  }

  /** Version.String(). */
  method String(v: Version) returns (buffer: string)
    ensures buffer == Show(v)
  {
    buffer := "";
    var numerals := Numerals(v.components);
    for i := 0 to |v.components|
      invariant buffer == Join(numerals[..i], '.')
    {
      JoinNext(numerals, i);
      if i > 0 {
        buffer := buffer + ".";
      }
      buffer := buffer + Print(v.components[i]);
    }
    assert numerals[..|numerals|] == numerals;
    if v.preRelease != "" {
      buffer := buffer + "-";
      buffer := buffer + v.preRelease;
    }
    if v.buildMetadata != "" {
      buffer := buffer + "+";
      buffer := buffer + v.buildMetadata;
    }
  }

  /** What ParseSemantic() can return. */
  predicate Semantic(v: Version) {
    && v.semver && |v.components| == 3 && Labels(v.preRelease, v.buildMetadata)
    && (forall i | 0 <= i < 3 :: v.components[i] < UINT) && NoZeroPrefix(Split(v.preRelease, '.'))
  }

  /** What ParseGeneric() can return. */
  predicate Generic(v: Version) {
    && !v.semver && |v.components| >= 2 && v.preRelease == "" == v.buildMetadata
    && forall i | 0 <= i < |v.components| :: v.components[i] < UINT
  }

  lemma NumeralFields(components: seq<nat>)
    requires |components| > 0
    ensures List(Digits, Join(Numerals(components), '.')) && Split(Join(Numerals(components), '.'), '.') == Numerals(components)
  {
    var fs := Numerals(components);
    forall i | 0 <= i < |fs| ensures fs[i] != "" && All(Digits, fs[i]) && '.' !in fs[i] {
      PrintIsCanonical(components[i]);
    }
    ListOfJoin(Digits, fs);
    SplitOfJoin(fs, '.');
  }

  lemma NumeralsNumbered(components: seq<nat>, semver: bool)
    requires (if semver then |components| == 3 else |components| >= 2)
             && forall i | 0 <= i < |components| :: components[i] < UINT
    ensures Numbered(Numerals(components), semver, components)
  {
    forall i | 0 <= i < |components|
      ensures IsComponent(Numerals(components)[i], i, semver) && components[i] == Value(Numerals(components)[i])
    {
      PrintIsCanonical(components[i]);
      ValueOfPrint(components[i]);
    }
  }

  /** Fields without leading zeros are the numerals of their values. */
  lemma NumberedFields(fields: seq<string>, components: seq<nat>)
    requires Numbered(fields, true, components)
    ensures fields == Numerals(components)
  {
    forall i | 0 <= i < |fields| ensures fields[i] == Print(components[i]) {
      assert IsComponent(fields[i], i, true);
      PrintOfValue(fields[i]);
    }
  }

  ghost predicate Decorated(str: string, v: Version, lead: string, tail: string) {
    IsLead(lead) && Blank(tail) && '\n' !in tail && str == lead + Show(v) + tail
  }

  lemma ListHasNoBreak(s: string)
    requires List(Identifiers, s)
    ensures '\n' !in s
  {
    forall i | 0 <= i < |s| ensures s[i] != '\n' {
      assert ListAt(Identifiers, s, i);
    }
  }

  lemma LabelsHaveNoBreak(v: Version)
    requires Labels(v.preRelease, v.buildMetadata)
    ensures '\n' !in Suffix(v.preRelease, v.buildMetadata)
  {
    if v.preRelease != "" {
      ListHasNoBreak(v.preRelease);
    }
    if v.buildMetadata != "" {
      ListHasNoBreak(v.buildMetadata);
    }
  }

  lemma SuffixStops(v: Version, tail: string)
    requires Blank(tail)
    ensures Stops(Digits, Suffix(v.preRelease, v.buildMetadata) + tail)
  {
    var t := Suffix(v.preRelease, v.buildMetadata) + tail;
    if v.preRelease == "" && v.buildMetadata == "" {
      assert t == tail;
    } else {
      assert t[0] == '-' || t[0] == '+';
    }
  }

  lemma DecoratedReads(str: string, v: Version, lead: string, tail: string)
    requires Semantic(v) && Decorated(str, v, lead, tail)
    ensures Reads(str, true, v)
  {
    var numbers, extra := Join(Numerals(v.components), '.'), Suffix(v.preRelease, v.buildMetadata) + tail;
    NumeralFields(v.components);
    NumeralsNumbered(v.components, true);
    LabelsHaveNoBreak(v);
    SuffixStops(v, tail);
    Regroup(lead, numbers, Suffix(v.preRelease, v.buildMetadata), tail);
    assert extra[|Suffix(v.preRelease, v.buildMetadata)|..] == tail;
    assert Splits(str, lead, numbers, extra) && Describes(numbers, extra, true, v);
  }

  lemma Regroup(a: string, b: string, c: string, d: string)
    ensures a + b + (c + d) == a + (b + c) + d
  {
  }

  lemma DescribedIsSemantic(numbers: string, extra: string, v: Version)
    requires Describes(numbers, extra, true, v)
    ensures Semantic(v) && numbers == Join(Numerals(v.components), '.')
  {
    NumberedFields(Split(numbers, '.'), v.components);
    JoinOfSplit(numbers, '.');
    assert forall i | 0 <= i < 3 :: IsComponent(Split(numbers, '.')[i], i, true);
  }

  lemma ReadsDecorated(str: string, v: Version) returns (lead: string, tail: string)
    requires Reads(str, true, v)
    ensures Semantic(v) && Decorated(str, v, lead, tail)
  {
    var numbers, extra;
    lead, numbers, extra :| Splits(str, lead, numbers, extra) && Describes(numbers, extra, true, v);
    DescribedIsSemantic(numbers, extra, v);
    var suffix := Suffix(v.preRelease, v.buildMetadata);
    tail := extra[|suffix|..];
    assert extra == suffix + tail;
    Regroup(lead, numbers, suffix, tail);
  }

  /**
   ParseSemantic() accepts exactly the normal forms of well-formed versions, with white space and `v` before and
   white space without line breaks after them.
   */
  lemma SemanticReadsExactly(str: string, v: Version)
    ensures Reads(str, true, v) <==> Semantic(v) && exists lead, tail :: Decorated(str, v, lead, tail)
  {
    if Reads(str, true, v) {
      var lead, tail := ReadsDecorated(str, v);
    }
    if Semantic(v) && exists lead, tail :: Decorated(str, v, lead, tail) {
      var lead, tail :| Decorated(str, v, lead, tail);
      DecoratedReads(str, v, lead, tail);
    }
  }

  /** Printing what ParseSemantic() returned and parsing that gives the same version. */
  lemma SemanticRoundTrip(str: string, v: Version)
    requires Reads(str, true, v)
    ensures Reads(Show(v), true, v)
  {
    SemanticReadsExactly(str, v);
    assert Show(v) == "" + Show(v) + "";
    assert Decorated(Show(v), v, "", "");
    SemanticReadsExactly(Show(v), v);
  }

  /** Two versions of one kind that print alike are the same: the printed form is a normal form. */
  lemma ShowIsNormal(v: Version, w: Version)
    requires (Semantic(v) && Semantic(w)) || (Generic(v) && Generic(w))
    requires Show(v) == Show(w)
    ensures v == w
  {
    ShownReads(v);
    ShownReads(w);
    ReadsOne(Show(v), v.semver, v, w);
  }

  lemma ShownReads(v: Version)
    requires Semantic(v) || Generic(v)
    ensures Reads(Show(v), v.semver, v)
  {
    assert Show(v) == "" + Show(v) + "";
    if v.semver {
      DecoratedReads(Show(v), v, "", "");
    } else {
      NumeralFields(v.components);
      NumeralsNumbered(v.components, false);
      assert Show(v) == Join(Numerals(v.components), '.');
      assert Splits(Show(v), "", Show(v), "") && Describes(Show(v), "", false, v);
    }
  }

  /** The same for ParseGeneric(): the components survive, the uninterpreted rest was never kept. */
  lemma GenericRoundTrip(str: string, v: Version)
    requires Reads(str, false, v)
    ensures Generic(v) && Reads(Show(v), false, v)
  {
    var lead, numbers, extra :| Splits(str, lead, numbers, extra) && Describes(numbers, extra, false, v);
    assert forall i | 0 <= i < |v.components| :: IsComponent(Split(numbers, '.')[i], i, false);
    ShownReads(v);
  }

  /**
   Trailing white space is ignored exactly when it holds no line break, although the documentation of both
   functions promises to ignore all of it.
   */
  lemma TrailingSpaceIgnoredIff(str: string, semver: bool, v: Version, spaces: string)
    requires Reads(str, semver, v) && Blank(spaces)
    ensures (exists w :: Reads(str + spaces, semver, w)) <==> '\n' !in spaces
    ensures '\n' !in spaces ==> Reads(str + spaces, semver, v)
  {
    var lead, numbers, extra :| Splits(str, lead, numbers, extra) && Describes(numbers, extra, semver, v);
    assert str + spaces == lead + numbers + (extra + spaces);
    if '\n' in spaces {
      SplitsMatch(lead, numbers, extra + spaces);
      forall w {
        ReadsIff(str + spaces, semver, w);
      }
    } else {
      assert Splits(str + spaces, lead, numbers, extra + spaces);
      DescribesLonger(numbers, extra, semver, v, spaces);
      assert Reads(str + spaces, semver, v);
    }
  }

  lemma SuffixOfLonger(a: string, b: string, c: string)
    requires a <= b
    ensures a <= b + c && (b + c)[|a|..] == b[|a|..] + c
  {
  }

  lemma DescribesLonger(numbers: string, extra: string, semver: bool, v: Version, spaces: string)
    requires Describes(numbers, extra, semver, v) && Blank(spaces)
    ensures Describes(numbers, extra + spaces, semver, v)
  {
    if semver {
      SuffixOfLonger(Suffix(v.preRelease, v.buildMetadata), extra, spaces);
    }
  }
}
