/**
 The loss report of a migration: every object is flattened to a map from path to leaf before and after, and
 paths that vanished or changed are reported.
 */
module ContentDiff {
  import opened Decimal
  import opened Json
  import opened Text

  /** What a path leads to: a scalar, or a list with nothing in it. */
  datatype Leaf = Value(atom: Atom) | NoItems

  type Flat = map<string, Leaf>

  function Join(prefix: string, key: string): string {
    if prefix == "" then key else prefix + "." + key
  }

  /** The path of the i-th child of a document at `prefix`. */
  function ChildPath(v: Json, prefix: string, i: nat): string
    requires i < Arity(v)
  {
    match v
    case Dict(entries) => Join(prefix, entries[i].0)
    case _ => prefix + "[" + Print(i) + "]"
  }

  /** flatten(): a later child overrides an earlier one on the same path. */
  function Flatten(v: Json, prefix: string): Flat
    decreases v, Arity(v) + 1
  {
    match v
    case Scalar(a) => map[prefix := Value(a)]
    case Dict(_) => FlattenFirst(v, prefix, Arity(v))
    case List(_) =>
      var out := FlattenFirst(v, prefix, Arity(v));
      if out == map[] then map[prefix := NoItems] else out
  }

  /** The merged paths of the first `n` children. */
  function FlattenFirst(v: Json, prefix: string, n: nat): Flat
    requires n <= Arity(v)
    decreases v, n
  {
    if n == 0 then map[]
    else FlattenFirst(v, prefix, n - 1) + Flatten(Child(v, n - 1), ChildPath(v, prefix, n - 1))
  }

  /** The same thing as the script does it, one update after the other. */
  method FlattenInto(v: Json, prefix: string) returns (out: Flat)
    ensures out == Flatten(v, prefix)
    decreases v
  {
    if v.Scalar? {
      return map[prefix := Value(v.atom)];
    }
    out := map[];
    for i := 0 to Arity(v)
      invariant out == FlattenFirst(v, prefix, i)
    {
      var inner := FlattenInto(Child(v, i), ChildPath(v, prefix, i));
      out := out + inner;
    }
    if v.List? && out == map[] {
      out := map[prefix := NoItems];
    }
  }

  // ---------------------------------------------------------------- equality as Python sees it

  /** True and False compare equal to 1 and 0. */
  function Canon(a: Atom): Atom {
    match a
    case Bool(b) => Num(if b then 1.0 else 0.0)
    case _ => a
  }

  predicate LeafEq(a: Leaf, b: Leaf) {
    match (a, b)
    case (Value(x), Value(y)) => Canon(x) == Canon(y)
    case (NoItems, NoItems) => true
    case _ => false
  }

  ghost predicate FlatEq(a: Flat, b: Flat) {
    a.Keys == b.Keys && forall q | q in a :: LeafEq(a[q], b[q])
  }

  /** Every path of `a` is in `b`, with an equal leaf. */
  ghost predicate SubFlat(a: Flat, b: Flat) {
    forall q | q in a :: q in b && LeafEq(a[q], b[q])
  }

  function Keys(v: Json): set<string> {
    if v.Dict? then set e | e in v.entries :: e.0 else {}
  }

  /** Equal documents: the order of an object's keys does not matter. */
  ghost predicate Same(x: Json, y: Json)
    decreases x
  {
    match (x, y)
    case (Scalar(a), Scalar(b)) => Canon(a) == Canon(b)
    case (List(_), List(_)) => Arity(x) == Arity(y) && forall i: nat | i < Arity(x) :: Same(Child(x, i), Child(y, i))
    case (Dict(_), Dict(_)) =>
      && Keys(x) == Keys(y)
      && (forall i: nat, j: nat | i < Arity(x) && j < Arity(y) && x.entries[i].0 == y.entries[j].0 :: Same(Child(x, i), Child(y, j)))
    case _ => false
  }

  // ---------------------------------------------------------------- the documents

  /** Characters out of which no key can be made that reads as two steps of a path. */
  predicate Safe(cs: set<char>) {
    '.' !in cs && !('[' in cs && ']' in cs && exists c | c in cs :: IsDigit(c))
  }

  predicate KeyOver(key: string, cs: set<char>) {
    key != "" && forall c | c in key :: c in cs
  }

  /** All keys are made of the characters `cs`. */
  predicate Over(v: Json, cs: set<char>) {
    && DistinctKeys(v)
    && (v.Dict? ==> forall i | 0 <= i < |v.entries| :: KeyOver(v.entries[i].0, cs))
    && forall i: nat | i < Arity(v) :: Over(Child(v, i), cs)
  }

  /** There is no empty mapping anywhere. */
  predicate Full(v: Json) {
    && (v.Dict? ==> v.entries != [])
    && forall i: nat | i < Arity(v) :: Full(Child(v, i))
  }

  /** A mapping in which no value is visible leaves no path; everything else does. */
  predicate Visible(v: Json)
    decreases v, 1
  {
    v.Dict? ==> exists i: nat | i < Arity(v) :: Shows(v, i)
  }

  predicate Shows(v: Json, i: nat)
    decreases v, 0
  {
    i < Arity(v) && Visible(Child(v, i))
  }

  /** A list that flattens as if it were empty. */
  predicate Hollow(v: Json) {
    v.List? && forall i: nat | i < Arity(v) :: !Shows(v, i)
  }

  /**
   Equal up to what is not visible: a key with an invisible value may as well be missing, and an invisible element of
   a list may as well be beyond its end.
   */
  ghost predicate Alike(x: Json, y: Json)
    decreases x
  {
    match (x, y)
    case (Scalar(a), Scalar(b)) => Canon(a) == Canon(b)
    case (List(_), List(_)) =>
      forall i: nat :: (Shows(x, i) <==> Shows(y, i)) && (Shows(x, i) && Shows(y, i) ==> Alike(Child(x, i), Child(y, i)))
    case (Dict(_), Dict(_)) =>
      && ShownKeys(x) == ShownKeys(y)
      && (forall i: nat, j: nat | Shows(x, i) && Shows(y, j) && x.entries[i].0 == y.entries[j].0 :: Alike(Child(x, i), Child(y, j)))
    case _ => false
  }

  function ShownKeys(v: Json): set<string>
    requires v.Dict?
  {
    set i: nat | i < Arity(v) && Shows(v, i) :: v.entries[i].0
  }

  // ---------------------------------------------------------------- steps of a path

  /** An index step of a path, from its bracket to the one at `k`. */
  predicate IndexStep(rest: string, k: nat) {
    && 2 <= k < |rest| && rest[0] == '[' && rest[k] == ']'
    && forall i | 1 <= i < k :: IsDigit(rest[i])
  }

  /** What may follow a complete step of a path. */
  ghost predicate Boundary(rest: string) {
    rest == "" || rest[0] == '.' || exists k: nat :: IndexStep(rest, k)
  }

  /** `q` is `path`, or goes on from it with a further step. */
  ghost predicate Extends(q: string, path: string) {
    path <= q && Boundary(q[|path|..])
  }

  /** A key is told from what follows it. */
  lemma KeyTold(a: string, b: string, s: string, t: string, cs: set<char>)
    requires Safe(cs) && (forall c | c in a :: c in cs) && (forall c | c in b :: c in cs)
    requires a + s == b + t && Boundary(s) && Boundary(t)
    ensures a == b
  {
    if |a| < |b| {
      LongerKey(a, b, s, t, cs);
    } else if |b| < |a| {
      LongerKey(b, a, t, s, cs);
    } else {
      assert a == (a + s)[..|a|] == (b + t)[..|b|] == b;
    }
  }

  /** A longer key would have to reach over the step behind the shorter one. */
  lemma LongerKey(a: string, b: string, s: string, t: string, cs: set<char>)
    requires (forall c | c in b :: c in cs) && |a| < |b|
    requires a + s == b + t && Boundary(s) && Boundary(t)
    ensures !Safe(cs)
  {
    var m: nat := |b| - |a|;
    Overlap(a, b, s, t);
    assert s[0] == b[|a|] && b[|a|] in cs;
    if s[0] != '.' {
      var k: nat :| IndexStep(s, k);
      NoBoundaryInside(s, k, m, t);
      assert s[1] == b[|a| + 1] && s[k] == b[|a| + k];
      assert s[1] in cs && s[k] in cs && IsDigit(s[1]);
    }
  }

  lemma NoBoundaryInside(s: string, k: nat, m: nat, t: string)
    requires IndexStep(s, k) && 1 <= m <= |s| && t == s[m..]
    ensures Boundary(t) ==> k < m
  {
    if m <= k {
      assert t[0] == s[m];
    }
  }

  lemma Overlap(a: string, b: string, s: string, t: string)
    requires |a| < |b| && a + s == b + t
    ensures |s| == |b| - |a| + |t|
    ensures forall i | 0 <= i < |b| - |a| :: s[i] == b[|a| + i]
    ensures s[|b| - |a|..] == t
  {
    forall i | 0 <= i < |b| - |a| ensures s[i] == b[|a| + i] {
      assert (a + s)[|a| + i] == (b + t)[|a| + i];
    }
    assert (a + s)[|b|..] == (b + t)[|b|..] == t;
  }

  /** A numeral is told from the bracket that closes it. */
  lemma IndexesTold(prefix: string, i: nat, j: nat, s: string, t: string)
    requires prefix + "[" + Print(i) + "]" + s == prefix + "[" + Print(j) + "]" + t
    ensures i == j
  {
    var lead := prefix + "[";
    assert lead + (Print(i) + ("]" + s)) == prefix + "[" + Print(i) + "]" + s;
    assert lead + (Print(j) + ("]" + t)) == prefix + "[" + Print(j) + "]" + t;
    Cancel(lead, Print(i) + ("]" + s), Print(j) + ("]" + t));
    PrintIsCanonical(i);
    PrintIsCanonical(j);
    TokenUnique(Print(i), Print(j), "]" + s, "]" + t, ']');
    PrintInjective(i, j);
  }

  /** Two tokens that are each followed by a stop they do not contain are the same token. */
  lemma TokenUnique(a: string, b: string, s: string, t: string, stop: char)
    requires a + s == b + t && stop !in a && stop !in b
    requires s != "" && s[0] == stop && t != "" && t[0] == stop
    ensures a == b
  {
    var q := a + s;
    assert q[..|a|] == a && q[..|b|] == b;
    assert q[|a|..] == s && q[|b|..] == t;
    assert !(|a| < |b|) && !(|b| < |a|);
  }

  lemma Cancel(lead: string, a: string, b: string)
    requires lead + a == lead + b
    ensures a == b
  {
    assert a == (lead + a)[|lead|..] && b == (lead + b)[|lead|..];
  }

  /** What stands behind the prefix in the path of a child: a step. */
  lemma ChildStep(v: Json, prefix: string, i: nat, rest: string)
    requires i < Arity(v) && (v.Dict? ==> prefix != "")
    ensures prefix <= ChildPath(v, prefix, i) + rest && Boundary((ChildPath(v, prefix, i) + rest)[|prefix|..])
    ensures (ChildPath(v, prefix, i) + rest)[|prefix|..] != ""
    ensures (ChildPath(v, prefix, i) + rest)[|prefix|] == if v.Dict? then '.' else '['
  {
    var q := ChildPath(v, prefix, i) + rest;
    if v.Dict? {
      assert q == prefix + ("." + v.entries[i].0 + rest);
    } else {
      var step := "[" + Print(i) + "]" + rest;
      assert q == prefix + step;
      assert q[|prefix|..] == step;
      PrintIsCanonical(i);
      assert IndexStep(step, |Print(i)| + 1);
    }
  }

  /** No path leads through two different children. */
  lemma ChildPathsDisjoint(v: Json, cs: set<char>, prefix: string, i: nat, j: nat, q: string)
    requires Safe(cs) && Over(v, cs) && i < Arity(v) && j < Arity(v)
    requires Extends(q, ChildPath(v, prefix, i)) && Extends(q, ChildPath(v, prefix, j))
    ensures i == j
  {
    SamePathSameChild(v, v, cs, prefix, i, j, q);
  }

  lemma KeysTold(prefix: string, a: string, b: string, s: string, t: string, cs: set<char>)
    requires Safe(cs) && KeyOver(a, cs) && KeyOver(b, cs) && Boundary(s) && Boundary(t)
    requires Join(prefix, a) + s == Join(prefix, b) + t
    ensures a == b
  {
    if prefix != "" {
      var lead := prefix + ".";
      assert lead + (a + s) == lead + a + s && lead + (b + t) == lead + b + t;
      Cancel(lead, a + s, b + t);
    }
    KeyTold(a, b, s, t, cs);
  }

  /** Of two documents of the same kind, the children that a path goes through bear the same key, or the same index. */
  lemma SamePathSameChild(x: Json, y: Json, cs: set<char>, prefix: string, i: nat, j: nat, q: string)
    requires Safe(cs) && Over(x, cs) && Over(y, cs) && i < Arity(x) && j < Arity(y) && x.Dict? == y.Dict?
    requires Extends(q, ChildPath(x, prefix, i)) && Extends(q, ChildPath(y, prefix, j))
    ensures ChildPath(y, prefix, j) == ChildPath(x, prefix, i)
    ensures if x.Dict? then x.entries[i].0 == y.entries[j].0 else i == j
  {
    hide Boundary, Print, Safe;
    var s, t := q[|ChildPath(x, prefix, i)|..], q[|ChildPath(y, prefix, j)|..];
    assert ChildPath(x, prefix, i) + s == q == ChildPath(y, prefix, j) + t;
    if x.Dict? {
      KeysTold(prefix, x.entries[i].0, y.entries[j].0, s, t, cs);
    } else {
      IndexesTold(prefix, i, j, s, t);
    }
  }

  // ---------------------------------------------------------------- flattening never collides

  /** Every path of a flattened document goes on from where the document is. */
  lemma {:induction false} PathsExtend(v: Json, prefix: string, q: string)
    requires prefix != "" && q in Flatten(v, prefix)
    ensures Extends(q, prefix)
    decreases v
  {
    hide Extends, ChildPath;
    if !v.Scalar? && q in FlattenFirst(v, prefix, Arity(v)) {
      var i := FirstPaths(v, prefix, Arity(v), q);
      ExtendsFurther(v, prefix, i, q);
      PathsExtend(Child(v, i), ChildPath(v, prefix, i), q);
    } else {
      ExtendsItself(prefix);
    }
  }

  lemma ExtendsItself(path: string)
    ensures Extends(path, path)
  {
    assert path[|path|..] == "";
  }

  /** What goes on from a child goes on from the document. */
  lemma ExtendsFurther(v: Json, prefix: string, i: nat, q: string)
    requires i < Arity(v) && prefix != ""
    ensures ChildPath(v, prefix, i) != ""
    ensures Extends(q, ChildPath(v, prefix, i)) ==> Extends(q, prefix)
  {
    var path := ChildPath(v, prefix, i);
    if Extends(q, path) {
      ChildStep(v, prefix, i, q[|path|..]);
      assert q == path + q[|path|..];
    }
  }

  /** A merged path comes from one of the children. */
  lemma {:induction false} FirstPaths(v: Json, prefix: string, n: nat, q: string) returns (i: nat)
    requires n <= Arity(v) && q in FlattenFirst(v, prefix, n)
    ensures i < n && q in Flatten(Child(v, i), ChildPath(v, prefix, i))
    decreases n
  {
    if q in Flatten(Child(v, n - 1), ChildPath(v, prefix, n - 1)) {
      i := n - 1;
    } else {
      i := FirstPaths(v, prefix, n - 1, q);
    }
  }

  lemma ChildPathsExtend(v: Json, cs: set<char>, prefix: string, i: nat, q: string)
    requires Over(v, cs) && i < Arity(v) && q in Flatten(Child(v, i), ChildPath(v, prefix, i))
    ensures Extends(q, ChildPath(v, prefix, i))
  {
    assert ChildPath(v, prefix, i) != "";
    PathsExtend(Child(v, i), ChildPath(v, prefix, i), q);
  }

  /** No path comes from two children: flattening never overrides. */
  lemma ChildrenApart(v: Json, cs: set<char>, prefix: string, i: nat, j: nat, q: string)
    requires Safe(cs) && Over(v, cs) && i < j < Arity(v)
    ensures !(q in Flatten(Child(v, i), ChildPath(v, prefix, i)) && q in Flatten(Child(v, j), ChildPath(v, prefix, j)))
  {
    if q in Flatten(Child(v, i), ChildPath(v, prefix, i)) && q in Flatten(Child(v, j), ChildPath(v, prefix, j)) {
      ChildPathsExtend(v, cs, prefix, i, q);
      ChildPathsExtend(v, cs, prefix, j, q);
      ChildPathsDisjoint(v, cs, prefix, i, j, q);
    }
  }

  /** The merge is a disjoint union: what one child contributes is still there at the end, unchanged. */
  lemma {:induction false} ChildSurvives(v: Json, cs: set<char>, prefix: string, n: nat, i: nat, q: string)
    requires Safe(cs) && Over(v, cs) && i < n <= Arity(v)
    requires q in Flatten(Child(v, i), ChildPath(v, prefix, i))
    ensures q in FlattenFirst(v, prefix, n)
    ensures FlattenFirst(v, prefix, n)[q] == Flatten(Child(v, i), ChildPath(v, prefix, i))[q]
    decreases n
  {
    var rest, last := FlattenFirst(v, prefix, n - 1), Flatten(Child(v, n - 1), ChildPath(v, prefix, n - 1));
    assert FlattenFirst(v, prefix, n) == rest + last;
    if i < n - 1 {
      ChildSurvives(v, cs, prefix, n - 1, i, q);
      ChildrenApart(v, cs, prefix, i, n - 1, q);
      assert q in rest && q !in last;
    }
  }

  /** A document leaves a path exactly if it is visible. */
  lemma {:induction false} ShownPath(v: Json, cs: set<char>, prefix: string) returns (q: string)
    requires Safe(cs) && Over(v, cs) && Visible(v)
    ensures q in Flatten(v, prefix)
    decreases v
  {
    q := prefix;
    if i: nat :| i < Arity(v) && Shows(v, i) {
      q := ShownPath(Child(v, i), cs, ChildPath(v, prefix, i));
      ChildSurvives(v, cs, prefix, Arity(v), i, q);
    } else if v.List? && FlattenFirst(v, prefix, Arity(v)) != map[] {
      q :| q in FlattenFirst(v, prefix, Arity(v));
    }
  }

  lemma {:induction false} PathShown(v: Json, prefix: string, q: string)
    requires q in Flatten(v, prefix)
    ensures Visible(v)
    decreases v
  {
    if v.Dict? {
      var i := FirstPaths(v, prefix, Arity(v), q);
      PathShown(Child(v, i), ChildPath(v, prefix, i), q);
      assert Shows(v, i);
    }
  }

  /** Flattening is the merge of the children, except for a list in which none is visible. */
  lemma FlattenIs(v: Json, cs: set<char>, prefix: string)
    requires Safe(cs) && Over(v, cs) && !v.Scalar?
    ensures Flatten(v, prefix) == if Hollow(v) then map[prefix := NoItems] else FlattenFirst(v, prefix, Arity(v))
  {
    if v.List? {
      if i: nat :| i < Arity(v) && Shows(v, i) {
        var q := ShownPath(Child(v, i), cs, ChildPath(v, prefix, i));
        ChildSurvives(v, cs, prefix, Arity(v), i, q);
      } else if FlattenFirst(v, prefix, Arity(v)) != map[] {
        var q :| q in FlattenFirst(v, prefix, Arity(v));
        var i := FirstPaths(v, prefix, Arity(v), q);
        PathShown(Child(v, i), ChildPath(v, prefix, i), q);
        assert Shows(v, i);
      }
    }
  }

  /** The paths below the i-th child are exactly the document's paths that go on from it, with the same leaves. */
  lemma Lookup(v: Json, cs: set<char>, prefix: string, i: nat, q: string)
    requires Safe(cs) && Over(v, cs) && i < Arity(v)
    ensures q in Flatten(Child(v, i), ChildPath(v, prefix, i)) <==> q in Flatten(v, prefix) && Extends(q, ChildPath(v, prefix, i))
    ensures q in Flatten(Child(v, i), ChildPath(v, prefix, i)) ==> Flatten(v, prefix)[q] == Flatten(Child(v, i), ChildPath(v, prefix, i))[q]
  {
    FlattenIs(v, cs, prefix);
    assert |ChildPath(v, prefix, i)| > 0 && (v.List? ==> |ChildPath(v, prefix, i)| > |prefix|);
    if q in Flatten(Child(v, i), ChildPath(v, prefix, i)) {
      ChildSurvives(v, cs, prefix, Arity(v), i, q);
      ChildPathsExtend(v, cs, prefix, i, q);
      PathShown(Child(v, i), ChildPath(v, prefix, i), q);
      assert Shows(v, i);
    } else if q in Flatten(v, prefix) && Extends(q, ChildPath(v, prefix, i)) {
      if !Hollow(v) {
        var j := FirstPaths(v, prefix, Arity(v), q);
        ChildPathsExtend(v, cs, prefix, j, q);
        ChildPathsDisjoint(v, cs, prefix, i, j, q);
      }
    }
  }

  /** The child a path goes through. */
  lemma PathChild(v: Json, cs: set<char>, prefix: string, q: string) returns (i: nat)
    requires Safe(cs) && Over(v, cs) && !v.Scalar? && !Hollow(v) && q in Flatten(v, prefix)
    ensures i < Arity(v) && Shows(v, i) && Extends(q, ChildPath(v, prefix, i))
    ensures q in Flatten(Child(v, i), ChildPath(v, prefix, i))
  {
    FlattenIs(v, cs, prefix);
    i := FirstPaths(v, prefix, Arity(v), q);
    ChildPathsExtend(v, cs, prefix, i, q);
    PathShown(Child(v, i), ChildPath(v, prefix, i), q);
  }

  // ---------------------------------------------------------------- equal paths mean documents that are alike

  /** The i-th children have equal paths when the documents do. */
  lemma ChildrenFlatEq(x: Json, y: Json, cs: set<char>, prefix: string, i: nat, j: nat)
    requires Safe(cs) && Over(x, cs) && Over(y, cs) && i < Arity(x) && j < Arity(y)
    requires ChildPath(x, prefix, i) == ChildPath(y, prefix, j)
    requires FlatEq(Flatten(x, prefix), Flatten(y, prefix))
    ensures FlatEq(Flatten(Child(x, i), ChildPath(x, prefix, i)), Flatten(Child(y, j), ChildPath(x, prefix, i)))
  {
    var path := ChildPath(x, prefix, i);
    var a, b := Flatten(Child(x, i), path), Flatten(Child(y, j), path);
    forall q ensures q in a <==> q in b {
      Lookup(x, cs, prefix, i, q);
      Lookup(y, cs, prefix, j, q);
    }
    forall q | q in a ensures LeafEq(a[q], b[q]) {
      Lookup(x, cs, prefix, i, q);
      Lookup(y, cs, prefix, j, q);
    }
  }

  /** A visible child of `x` leads to a visible child of `y` on the same path. */
  lemma ChildHasPartner(x: Json, y: Json, cs: set<char>, prefix: string, i: nat) returns (j: nat)
    requires Safe(cs) && Over(x, cs) && Over(y, cs) && Shows(x, i)
    requires FlatEq(Flatten(x, prefix), Flatten(y, prefix))
    requires !y.Scalar? && x.Dict? == y.Dict? && !Hollow(y)
    ensures Shows(y, j) && ChildPath(y, prefix, j) == ChildPath(x, prefix, i)
    ensures if x.Dict? then x.entries[i].0 == y.entries[j].0 else i == j
  {
    var q := ShownPath(Child(x, i), cs, ChildPath(x, prefix, i));
    Lookup(x, cs, prefix, i, q);
    j := PathChild(y, cs, prefix, q);
    SamePathSameChild(x, y, cs, prefix, i, j, q);
  }

  /** What the paths say about the kind of a document. */
  lemma KindTold(x: Json, y: Json, cs: set<char>, prefix: string)
    requires Safe(cs) && Over(x, cs) && Over(y, cs) && FlatEq(Flatten(x, prefix), Flatten(y, prefix))
    ensures x.Dict? == y.Dict? && x.List? == y.List? && (Hollow(x) <==> Hollow(y))
  {
    if Visible(x) {
      var q := ShownPath(x, cs, prefix);
      PathShown(y, prefix, q);
      KindByPath(x, y, cs, prefix, q);
    } else if Visible(y) {
      var q := ShownPath(y, cs, prefix);
      PathShown(x, prefix, q);
    }
  }

  /** A path ends at a scalar or a hollow list, goes on with an index below any other list, and with a key below a mapping. */
  lemma KindByPath(x: Json, y: Json, cs: set<char>, prefix: string, q: string)
    requires Safe(cs) && Over(x, cs) && Over(y, cs) && FlatEq(Flatten(x, prefix), Flatten(y, prefix)) && q in Flatten(x, prefix)
    ensures x.Dict? == y.Dict? && x.List? == y.List? && (Hollow(x) <==> Hollow(y))
  {
    EndOfPath(x, cs, prefix, q);
    EndOfPath(y, cs, prefix, q);
    if q != prefix && x.Dict? != y.Dict? {
      if x.Dict? {
        KeyIsNoIndex(x, y, cs, prefix, q);
      } else {
        KeyIsNoIndex(y, x, cs, prefix, q);
      }
    }
  }

  lemma EndOfPath(v: Json, cs: set<char>, prefix: string, q: string)
    requires Safe(cs) && Over(v, cs) && q in Flatten(v, prefix)
    ensures q == prefix <==> v.Scalar? || Hollow(v)
    ensures v.Scalar? ==> Flatten(v, prefix)[q].Value?
    ensures Hollow(v) ==> Flatten(v, prefix)[q].NoItems?
  {
    if !v.Scalar? {
      FlattenIs(v, cs, prefix);
      if !Hollow(v) {
        var i := PathChild(v, cs, prefix, q);
        assert |ChildPath(v, prefix, i)| > |prefix|;
      }
    }
  }

  /** No path goes through a key of one document and an index of another. */
  lemma KeyIsNoIndex(x: Json, y: Json, cs: set<char>, prefix: string, q: string)
    requires Safe(cs) && Over(x, cs) && Over(y, cs) && x.Dict? && y.List? && !Hollow(y) && q in Flatten(x, prefix)
    ensures q !in Flatten(y, prefix)
  {
    if q in Flatten(y, prefix) {
      var i := PathChild(x, cs, prefix, q);
      var j := PathChild(y, cs, prefix, q);
      var s, t := q[|ChildPath(x, prefix, i)|..], q[|ChildPath(y, prefix, j)|..];
      assert ChildPath(x, prefix, i) + s == q == ChildPath(y, prefix, j) + t;
      ChildStep(y, prefix, j, t);
      if prefix == "" {
        assert q[0..] == q && "" + q == q;
        KeyTold("", x.entries[i].0, q, s, cs);
      } else {
        ChildStep(x, prefix, i, s);
      }
    }
  }

  /** Equal paths and leaves mean that nothing visible is different. */
  lemma {:induction false} FlattenInjective(x: Json, y: Json, cs: set<char>, prefix: string)
    requires Safe(cs) && Over(x, cs) && Over(y, cs) && FlatEq(Flatten(x, prefix), Flatten(y, prefix))
    ensures Alike(x, y)
    decreases x
  {
    KindTold(x, y, cs, prefix);
    if x.Scalar? {
      assert prefix in Flatten(x, prefix);
    } else if !Hollow(x) {
      forall i: nat | Shows(x, i) ensures if x.Dict? then x.entries[i].0 in ShownKeys(y) else Shows(y, i) {
        var j := ChildHasPartner(x, y, cs, prefix, i);
      }
      forall j: nat | Shows(y, j) ensures if x.Dict? then y.entries[j].0 in ShownKeys(x) else Shows(x, j) {
        var i := ChildHasPartner(y, x, cs, prefix, j);
      }
      forall i: nat, j: nat | Matched(x, y, i, j) ensures Alike(Child(x, i), Child(y, j)) {
        ChildrenFlatEq(x, y, cs, prefix, i, j);
        FlattenInjective(Child(x, i), Child(y, j), cs, ChildPath(x, prefix, i));
      }
      AlikeByChildren(x, y);
    }
  }

  lemma AlikeByChildren(x: Json, y: Json)
    requires !x.Scalar? && x.Dict? == y.Dict? && x.List? == y.List?
    requires forall i: nat | Shows(x, i) :: if x.Dict? then x.entries[i].0 in ShownKeys(y) else Shows(y, i)
    requires forall j: nat | Shows(y, j) :: if x.Dict? then y.entries[j].0 in ShownKeys(x) else Shows(x, j)
    requires forall i: nat, j: nat | Matched(x, y, i, j) :: Alike(Child(x, i), Child(y, j))
    ensures Alike(x, y)
  {
    if x.List? {
      forall i: nat | Shows(x, i) && Shows(y, i) ensures Alike(Child(x, i), Child(y, i)) {
        assert Matched(x, y, i, i);
      }
    } else {
      forall i: nat, j: nat | Shows(x, i) && Shows(y, j) && x.entries[i].0 == y.entries[j].0 ensures Alike(Child(x, i), Child(y, j)) {
        assert Matched(x, y, i, j);
      }
    }
  }

  /** Visible children with the same key, or the same index. */
  predicate Matched(x: Json, y: Json, i: nat, j: nat) {
    Shows(x, i) && Shows(y, j) && if x.Dict? then y.Dict? && x.entries[i].0 == y.entries[j].0 else y.List? && i == j
  }

  /** Matching children of documents that are alike contribute the same paths. */
  lemma {:induction false} MatchedFlatten(x: Json, y: Json, cs: set<char>, prefix: string, i: nat, j: nat, q: string)
    requires Safe(cs) && Over(x, cs) && Over(y, cs) && Alike(x, y) && Matched(x, y, i, j) && Extends(q, ChildPath(x, prefix, i))
    ensures q in Flatten(x, prefix) <==> q in Flatten(y, prefix)
    ensures q in Flatten(x, prefix) ==> LeafEq(Flatten(x, prefix)[q], Flatten(y, prefix)[q])
    decreases x, 0
  {
    assert ChildPath(x, prefix, i) == ChildPath(y, prefix, j);
    AlikeFlatten(Child(x, i), Child(y, j), cs, ChildPath(x, prefix, i));
    Lookup(x, cs, prefix, i, q);
    Lookup(y, cs, prefix, j, q);
  }

  /** Documents that are alike have equal paths. */
  lemma {:induction false} AlikeFlatten(x: Json, y: Json, cs: set<char>, prefix: string)
    requires Safe(cs) && Over(x, cs) && Over(y, cs) && Alike(x, y)
    ensures FlatEq(Flatten(x, prefix), Flatten(y, prefix))
    decreases x, 1
  {
    if !x.Scalar? {
      FlattenIs(x, cs, prefix);
      FlattenIs(y, cs, prefix);
      if !Hollow(x) && !Hollow(y) {
        forall q | q in Flatten(x, prefix)
          ensures q in Flatten(y, prefix) && LeafEq(Flatten(x, prefix)[q], Flatten(y, prefix)[q])
        {
          var i := PathChild(x, cs, prefix, q);
          var j := if x.List? then i else ShownIndex(y, x.entries[i].0);
          MatchedFlatten(x, y, cs, prefix, i, j, q);
        }
        forall q | q in Flatten(y, prefix) ensures q in Flatten(x, prefix) {
          var j := PathChild(y, cs, prefix, q);
          var i := if y.List? then j else ShownIndex(x, y.entries[j].0);
          assert ChildPath(x, prefix, i) == ChildPath(y, prefix, j);
          MatchedFlatten(x, y, cs, prefix, i, j, q);
        }
      }
    }
  }

  ghost function ShownIndex(v: Json, key: string): (i: nat)
    requires v.Dict? && key in ShownKeys(v)
    ensures Shows(v, i) && v.entries[i].0 == key
  {
    var i: nat :| i < Arity(v) && Shows(v, i) && v.entries[i].0 == key;
    i
  }

  /** Over safe keys the paths determine exactly what is visible of a document. */
  lemma FlattenShowsVisible(x: Json, y: Json, cs: set<char>)
    requires Safe(cs) && Over(x, cs) && Over(y, cs)
    ensures FlatEq(Flatten(x, ""), Flatten(y, "")) <==> Alike(x, y)
  {
    if Alike(x, y) {
      AlikeFlatten(x, y, cs, "");
    } else if FlatEq(Flatten(x, ""), Flatten(y, "")) {
      FlattenInjective(x, y, cs, "");
    }
  }

  // ---------------------------------------------------------------- only empty mappings are invisible

  /** Without empty mappings everything is visible. */
  lemma {:induction false} FullIsVisible(v: Json)
    requires Full(v)
    ensures Visible(v)
    decreases v
  {
    if v.Dict? {
      FullIsVisible(Child(v, 0));
      assert Shows(v, 0);
    }
  }

  lemma FullShows(v: Json, i: nat)
    requires Full(v)
    ensures Shows(v, i) <==> i < Arity(v)
  {
    if i < Arity(v) {
      FullIsVisible(Child(v, i));
    }
  }

  lemma FullKeys(v: Json)
    requires Full(v) && v.Dict?
    ensures ShownKeys(v) == Keys(v)
  {
    forall i: nat | i < Arity(v) ensures Shows(v, i) {
      FullShows(v, i);
    }
    forall key | key in Keys(v) ensures key in ShownKeys(v) {
      var e :| e in v.entries && e.0 == key;
      var i: nat :| i < |v.entries| && v.entries[i] == e;
      assert Shows(v, i);
    }
    forall key | key in ShownKeys(v) ensures key in Keys(v) {
      var i := ShownIndex(v, key);
      assert v.entries[i] in v.entries;
    }
  }

  /** Without empty mappings there is nothing that being alike would overlook. */
  lemma {:induction false} FullAlikeIsSame(x: Json, y: Json)
    requires Full(x) && Full(y)
    ensures Alike(x, y) <==> Same(x, y)
    decreases x
  {
    forall i: nat ensures (Shows(x, i) <==> i < Arity(x)) && (Shows(y, i) <==> i < Arity(y)) {
      FullShows(x, i);
      FullShows(y, i);
    }
    forall i: nat, j: nat | i < Arity(x) && j < Arity(y) ensures Alike(Child(x, i), Child(y, j)) <==> Same(Child(x, i), Child(y, j)) {
      FullAlikeIsSame(Child(x, i), Child(y, j));
    }
    if x.Dict? && y.Dict? {
      FullKeys(x);
      FullKeys(y);
    } else if x.List? && y.List? {
      assert forall i: nat | i < Arity(x) && i < Arity(y) :: Alike(Child(x, i), Child(y, i)) <==> Same(Child(x, i), Child(y, i));
      ListsAlikeIff(x, y);
    }
  }

  lemma ListsAlikeIff(x: Json, y: Json)
    requires x.List? && y.List?
    requires forall i: nat :: (Shows(x, i) <==> i < Arity(x)) && (Shows(y, i) <==> i < Arity(y))
    requires forall i: nat | i < Arity(x) && i < Arity(y) :: Alike(Child(x, i), Child(y, i)) <==> Same(Child(x, i), Child(y, i))
    ensures Alike(x, y) <==> Same(x, y)
  {
    hide Shows;
    if Alike(x, y) {
      assert Shows(x, Arity(y)) <==> Shows(y, Arity(y));
      assert Shows(x, Arity(x)) <==> Shows(y, Arity(x));
    }
  }

  /** Equal documents are alike, with empty mappings or without. */
  lemma {:induction false} SameIsAlike(x: Json, y: Json)
    requires Same(x, y)
    ensures Alike(x, y) && (Visible(x) <==> Visible(y))
    decreases x
  {
    forall i: nat, j: nat | i < Arity(x) && j < Arity(y) && (if x.Dict? then x.entries[i].0 == y.entries[j].0 else i == j)
      ensures Alike(Child(x, i), Child(y, j)) && (Visible(Child(x, i)) <==> Visible(Child(y, j)))
    {
      SameIsAlike(Child(x, i), Child(y, j));
    }
    if x.List? {
      forall i: nat ensures Shows(x, i) <==> Shows(y, i) {
      }
    } else if x.Dict? {
      SameShownKeys(x, y);
      SameShownKeys(y, x);
      assert Visible(x) <==> ShownKeys(x) != {} by { VisibleByKeys(x); }
      assert Visible(y) <==> ShownKeys(y) != {} by { VisibleByKeys(y); }
    }
  }

  lemma VisibleByKeys(v: Json)
    requires v.Dict?
    ensures Visible(v) <==> ShownKeys(v) != {}
  {
    if i: nat :| i < Arity(v) && Shows(v, i) {
      assert v.entries[i].0 in ShownKeys(v);
    }
    if ShownKeys(v) != {} {
      var key :| key in ShownKeys(v);
      var i := ShownIndex(v, key);
    }
  }

  lemma SameShownKeys(x: Json, y: Json)
    requires x.Dict? && y.Dict? && Keys(x) <= Keys(y)
    requires forall i: nat, j: nat | i < Arity(x) && j < Arity(y) && x.entries[i].0 == y.entries[j].0 ::
      Visible(Child(x, i)) <==> Visible(Child(y, j))
    ensures ShownKeys(x) <= ShownKeys(y)
  {
    forall key | key in ShownKeys(x) ensures key in ShownKeys(y) {
      var i := ShownIndex(x, key);
      assert x.entries[i] in x.entries && x.entries[i].0 in Keys(x);
      assert key in Keys(y);
      var e :| e in y.entries && e.0 == key;
      var j: nat :| j < |y.entries| && y.entries[j] == e;
      assert Shows(y, j);
    }
  }

  /** Over safe keys and without empty mappings, equal paths mean equal documents, and the other way round. */
  lemma FlattenFaithful(x: Json, y: Json, cs: set<char>)
    requires Safe(cs) && Over(x, cs) && Over(y, cs) && Full(x) && Full(y)
    ensures FlatEq(Flatten(x, ""), Flatten(y, "")) <==> Same(x, y)
  {
    FlattenShowsVisible(x, y, cs);
    FullAlikeIsSame(x, y);
  }

  // ---------------------------------------------------------------- keys that read as several steps

  /** Every key with a dot between two names reads as the path through them, below whatever prefix and whatever the value. */
  lemma DottedKeyConfuses(a: string, b: string, v: Json) returns (x: Json, y: Json)
    requires a != "" && b != ""
    ensures x == Dict([(a + "." + b, v)]) && y == Dict([(a, Dict([(b, v)]))])
    ensures (forall prefix :: Flatten(x, prefix) == Flatten(y, prefix)) && !Same(x, y)
  {
    var key, inner := a + "." + b, Dict([(b, v)]);
    x, y := Dict([(key, v)]), Dict([(a, inner)]);
    forall prefix ensures Flatten(x, prefix) == Flatten(y, prefix) {
      OneEntry(key, v, prefix);
      OneEntry(a, inner, prefix);
      OneEntry(b, v, Join(prefix, a));
      assert Join(prefix, a) + "." + b == Join(prefix, key);
    }
    assert x.entries[0] in x.entries && key in Keys(x);
    assert key !in Keys(y);
  }

  lemma OneEntry(key: string, v: Json, prefix: string)
    ensures Flatten(Dict([(key, v)]), prefix) == Flatten(v, Join(prefix, key))
  {
    var d := Dict([(key, v)]);
    assert FlattenFirst(d, prefix, 1) == FlattenFirst(d, prefix, 0) + Flatten(Child(d, 0), Join(prefix, key));
  }

  /** The list without its last element, next to a key that reads as that element. */
  function Unlisted(key: string, items: seq<Json>): Json
    requires items != []
  {
    var n := |items| - 1;
    var last := (key + "[" + Print(n) + "]", items[n]);
    Dict(if n == 0 then [last] else [(key, List(items[..n])), last])
  }

  /** Every key that ends in an index reads as an element of a list. */
  lemma IndexedKeyConfuses(key: string, items: seq<Json>)
    requires items != [] && forall it | it in items :: it.Scalar?
    ensures Flatten(Dict([(key, List(items))]), "") == Flatten(Unlisted(key, items), "")
    ensures !Same(Dict([(key, List(items))]), Unlisted(key, items))
  {
    var n := |items| - 1;
    var x, y := Dict([(key, List(items))]), Unlisted(key, items);
    var path := key + "[" + Print(n) + "]";
    OneEntry(key, List(items), "");
    LastElement(items, key);
    if n == 0 {
      OneEntry(path, items[0], "");
    } else {
      TwoEntries(key, List(items[..n]), path, items[n]);
    }
    assert |path| > |key|;
    assert y.entries[|y.entries| - 1] in y.entries && path in Keys(y);
    assert path !in Keys(x);
  }

  lemma TwoEntries(key: string, v: Json, path: string, w: Json)
    ensures Flatten(Dict([(key, v), (path, w)]), "") == Flatten(v, key) + Flatten(w, path)
  {
    var d := Dict([(key, v), (path, w)]);
    assert FlattenFirst(d, "", 1) == FlattenFirst(d, "", 0) + Flatten(Child(d, 0), key);
    assert FlattenFirst(d, "", 2) == FlattenFirst(d, "", 1) + Flatten(Child(d, 1), path);
  }

  /** A list of scalars flattens to what the list without the last one does, and that one's path. */
  lemma LastElement(items: seq<Json>, key: string)
    requires items != [] && forall it | it in items :: it.Scalar?
    ensures var n := |items| - 1;
            Flatten(List(items), key)
            == (if n == 0 then map[] else Flatten(List(items[..n]), key)) + Flatten(items[n], key + "[" + Print(n) + "]")
  {
    hide Print, Flatten;
    var n := |items| - 1;
    ScalarsFlatten(items, key);
    FirstOfShorter(items, key, n, n);
    if n > 0 {
      ScalarsFlatten(items[..n], key);
    }
  }

  lemma ScalarsFlatten(items: seq<Json>, prefix: string)
    requires items != [] && forall it | it in items :: it.Scalar?
    ensures Flatten(List(items), prefix) == FlattenFirst(List(items), prefix, |items|)
  {
    var last := |items| - 1;
    assert ChildPath(List(items), prefix, last) in Flatten(items[last], ChildPath(List(items), prefix, last));
  }

  lemma {:induction false} FirstOfShorter(items: seq<Json>, prefix: string, m: nat, n: nat)
    requires n <= m <= |items|
    ensures FlattenFirst(List(items), prefix, n) == FlattenFirst(List(items[..m]), prefix, n)
    decreases n
  {
    hide Print, Flatten;
    if n > 0 {
      FirstOfShorter(items, prefix, m, n - 1);
      assert Child(List(items), n - 1) == Child(List(items[..m]), n - 1);
    }
  }

  /** An empty mapping leaves no path at all, so losing one is not reported. */
  lemma EmptyMappingInvisible(key: string)
    ensures Flatten(Dict([(key, Dict([]))]), "") == Flatten(Dict([]), "") && !Same(Dict([(key, Dict([]))]), Dict([]))
  {
    var x := Dict([(key, Dict([]))]);
    OneEntry(key, Dict([]), "");
    assert x.entries[0] in x.entries && x.entries[0].0 in Keys(x);
  }

  // ---------------------------------------------------------------- exactly which keys

  /** The paths of all documents over `cs` determine them, up to empty mappings. */
  ghost predicate Faithful(cs: set<char>) {
    forall x, y | Over(x, cs) && Over(y, cs) && Full(x) && Full(y) :: FlatEq(Flatten(x, ""), Flatten(y, "")) <==> Same(x, y)
  }

  /** Faithful exactly if the dot, and one of the three kinds of characters of an index step, cannot occur in keys. */
  lemma FaithfulIffSafe(cs: set<char>)
    ensures Faithful(cs) <==> Safe(cs)
  {
    if Safe(cs) {
      forall x, y | Over(x, cs) && Over(y, cs) && Full(x) && Full(y) ensures FlatEq(Flatten(x, ""), Flatten(y, "")) <==> Same(x, y) {
        FlattenFaithful(x, y, cs);
      }
    } else if '.' in cs {
      DottedKeyOver(cs);
    } else {
      var c :| c in cs && IsDigit(c);
      IndexedKeyOver(c, cs);
    }
  }

  lemma DottedKeyOver(cs: set<char>)
    requires '.' in cs
    ensures !Faithful(cs)
  {
    var v, inner := Scalar(Null), Dict([(".", Scalar(Null))]);
    var x, y := DottedKeyConfuses(".", ".", v);
    assert "." + "." + "." == "...";
    OneKeyOver("...", v, cs);
    OneKeyOver(".", v, cs);
    OneKeyOver(".", inner, cs);
  }

  lemma OneKeyOver(key: string, v: Json, cs: set<char>)
    requires KeyOver(key, cs) && Over(v, cs) && Full(v)
    ensures Over(Dict([(key, v)]), cs) && Full(Dict([(key, v)]))
  {
    assert Child(Dict([(key, v)]), 0) == v;
  }

  /** With brackets and one digit there is a key that reads as an index. */
  lemma IndexedKeyOver(c: char, cs: set<char>)
    requires '[' in cs && ']' in cs && c in cs && IsDigit(c)
    ensures !Faithful(cs)
  {
    var n := DigitValue(c);
    DigitOfValue(c);
    var items := seq(n + 1, _ => Scalar(Null));
    var x, y := Dict([("[", List(items))]), Unlisted("[", items);
    IndexedKeyConfuses("[", items);
    assert Print(n) == [c];
    var path := "[" + "[" + Print(n) + "]";
    assert path == ['[', '[', c, ']'];
    assert KeyOver("[", cs) && KeyOver(path, cs);
    ScalarListIsOver(items, cs);
    ScalarListIsOver(items[..n], cs);
    OneKeyOver("[", List(items), cs);
    UnlistedIsOver(items, cs, path);
  }

  lemma ScalarListIsOver(items: seq<Json>, cs: set<char>)
    requires forall it | it in items :: it.Scalar?
    ensures Over(List(items), cs) && Full(List(items))
  {
    forall i: nat | i < |items| ensures Over(items[i], cs) && Full(items[i]) {
      assert items[i] in items;
    }
  }

  lemma UnlistedIsOver(items: seq<Json>, cs: set<char>, path: string)
    requires items != [] && (forall it | it in items :: it.Scalar?) && KeyOver("[", cs) && KeyOver(path, cs)
    requires path == "[" + "[" + Print(|items| - 1) + "]"
    ensures Over(Unlisted("[", items), cs) && Full(Unlisted("[", items))
  {
    var y, n := Unlisted("[", items), |items| - 1;
    ScalarListIsOver(items[..n], cs);
    assert items[n] in items;
    assert |path| > |"["|;
    forall i: nat | i < Arity(y) ensures Over(Child(y, i), cs) && Full(Child(y, i)) {
    }
  }

  // ---------------------------------------------------------------- the report

  /** A snapshot: documents by name. */
  type Content = map<string, Json>

  datatype Finding =
    | MissingObject(key: string) | Removed(key: string, path: string, was: Leaf) | Changed(key: string, path: string, was: Leaf, now: Leaf)
    | NewObject(key: string) | Added(key: string, path: string, now: Leaf)

  ghost predicate IsLoss(before: Content, after: Content, f: Finding) {
    match f
    case MissingObject(k) => k in before && k !in after
    case Removed(k, q, was) =>
      k in before && k in after && q in Flatten(before[k], "") && Flatten(before[k], "")[q] == was && q !in Flatten(after[k], "")
    case Changed(k, q, was, now) =>
      && k in before && k in after && q in Flatten(before[k], "") && Flatten(before[k], "")[q] == was
      && q in Flatten(after[k], "") && Flatten(after[k], "")[q] == now && !LeafEq(was, now)
    case _ => false
  }

  ghost predicate IsAddition(before: Content, after: Content, f: Finding) {
    match f
    case NewObject(k) => k in after && k !in before
    case Added(k, q, now) =>
      k in before && k in after && q !in Flatten(before[k], "") && q in Flatten(after[k], "") && Flatten(after[k], "")[q] == now
    case _ => false
  }

  function PathOf(f: Finding): string {
    if f.MissingObject? || f.NewObject? then "" else f.path
  }

  /** By object, and by path within an object. */
  predicate Precedes(f: Finding, g: Finding) {
    Before(f.key, g.key) || (f.key == g.key && Before(PathOf(f), PathOf(g)))
  }

  ghost predicate InOrder(fs: seq<Finding>) {
    forall i, j | 0 <= i < j < |fs| :: Precedes(fs[i], fs[j])
  }

  /** So none occurs twice. */
  lemma InOrderDistinct(fs: seq<Finding>)
    requires InOrder(fs)
    ensures Distinct(fs)
  {
    forall i, j | 0 <= i < j < |fs| ensures fs[i] != fs[j] {
      BeforeIrreflexive(fs[i].key);
      BeforeIrreflexive(PathOf(fs[i]));
    }
  }

  lemma InOrderAppend(fs: seq<Finding>, gs: seq<Finding>)
    requires InOrder(fs) && InOrder(gs) && forall f, g | f in fs && g in gs :: Precedes(f, g)
    ensures InOrder(fs + gs)
  {
    forall i, j | 0 <= i < j < |fs + gs| ensures Precedes((fs + gs)[i], (fs + gs)[j]) {
      if i < |fs| <= j {
        assert fs[i] in fs && gs[j - |fs|] in gs;
      }
    }
  }

  /** diff_content(): exactly the losses and exactly the additions, each once, sorted by object and path. */
  method DiffContent(before: Content, after: Content) returns (lost: seq<Finding>, added: seq<Finding>)
    ensures forall f :: f in lost <==> IsLoss(before, after, f)
    ensures forall f :: f in added <==> IsAddition(before, after, f)
    ensures InOrder(lost) && InOrder(added) && Distinct(lost) && Distinct(added)
  {
    lost, added := [], [];
    var keys := Sorted(before.Keys + after.Keys);
    for n := 0 to |keys|
      invariant forall f :: f in lost <==> IsLoss(before, after, f) && f.key in keys[..n]
      invariant forall f :: f in added <==> IsAddition(before, after, f) && f.key in keys[..n]
      invariant InOrder(lost) && InOrder(added)
    {
      assert keys[n] in keys;
      assert keys[..n + 1] == keys[..n] + [keys[n]];
      EarlierKeys(keys, n);
      var l, d := DiffObject(before, after, keys[n]);
      InOrderAppend(lost, l);
      InOrderAppend(added, d);
      lost, added := lost + l, added + d;
    }
    assert keys[..|keys|] == keys;
    InOrderDistinct(lost);
    InOrderDistinct(added);
  }

  lemma EarlierKeys(keys: seq<string>, n: nat)
    requires Ascending(keys) && n < |keys|
    ensures forall k | k in keys[..n] :: Before(k, keys[n])
  {
  }

  /** The body of the outer loop, for one object. */
  method DiffObject(before: Content, after: Content, key: string) returns (lost: seq<Finding>, added: seq<Finding>)
    requires key in before || key in after
    ensures forall f :: f in lost <==> IsLoss(before, after, f) && f.key == key
    ensures forall f :: f in added <==> IsAddition(before, after, f) && f.key == key
    ensures InOrder(lost) && InOrder(added)
  {
    if key !in after {
      lost, added := [MissingObject(key)], [];
    } else if key !in before {
      lost, added := [], [NewObject(key)];
    } else {
      var b := FlattenInto(before[key], "");
      var a := FlattenInto(after[key], "");
      lost, added := DiffPaths(key, b, a);
    }
  }

  /** Whether the comparison of two flat maps has something to report lost, or added, on a path. */
  predicate LossAt(key: string, b: Flat, a: Flat, f: Finding) {
    || (f.Removed? && f.key == key && f.path in b && b[f.path] == f.was && f.path !in a)
    || (f.Changed? && f.key == key && f.path in b && b[f.path] == f.was && f.path in a && a[f.path] == f.now && !LeafEq(f.was, f.now))
  }

  predicate AdditionAt(key: string, b: Flat, a: Flat, f: Finding) {
    f.Added? && f.key == key && f.path !in b && f.path in a && a[f.path] == f.now
  }

  /** The inner loop, over the paths of one object. */
  method DiffPaths(key: string, b: Flat, a: Flat) returns (lost: seq<Finding>, added: seq<Finding>)
    ensures forall f :: f in lost <==> LossAt(key, b, a, f)
    ensures forall f :: f in added <==> AdditionAt(key, b, a, f)
    ensures InOrder(lost) && InOrder(added)
  {
    lost, added := [], [];
    var paths := Sorted(b.Keys + a.Keys);
    for n := 0 to |paths|
      invariant forall f :: f in lost <==> LossAt(key, b, a, f) && PathOf(f) in paths[..n]
      invariant forall f :: f in added <==> AdditionAt(key, b, a, f) && PathOf(f) in paths[..n]
      invariant InOrder(lost) && InOrder(added)
    {
      var path := paths[n];
      assert paths[..n + 1] == paths[..n] + [path];
      assert path in paths;
      EarlierKeys(paths, n);
      var l, d := DiffPath(key, b, a, path);
      InOrderAppend(lost, l);
      InOrderAppend(added, d);
      lost, added := lost + l, added + d;
    }
    assert paths[..|paths|] == paths;
  }

  /** The body of the inner loop. */
  method DiffPath(key: string, b: Flat, a: Flat, path: string) returns (lost: seq<Finding>, added: seq<Finding>)
    requires path in b || path in a
    ensures forall f :: f in lost <==> LossAt(key, b, a, f) && PathOf(f) == path
    ensures forall f :: f in added <==> AdditionAt(key, b, a, f) && PathOf(f) == path
    ensures InOrder(lost) && InOrder(added)
  {
    lost, added := [], [];
    if path !in a {
      lost := [Removed(key, path, b[path])];
    } else if path !in b {
      added := [Added(key, path, a[path])];
    } else if !LeafEq(a[path], b[path]) {
      lost := [Changed(key, path, b[path], a[path])];
    }
  }

  /** Nothing is reported lost exactly when every object is still there with all its paths. */
  lemma NothingLostIff(before: Content, after: Content)
    ensures (forall f :: !IsLoss(before, after, f))
            <==> forall k | k in before :: k in after && SubFlat(Flatten(before[k], ""), Flatten(after[k], ""))
  {
    if k :| k in before && !(k in after && SubFlat(Flatten(before[k], ""), Flatten(after[k], ""))) {
      if k !in after {
        assert IsLoss(before, after, MissingObject(k));
      } else {
        var b, a := Flatten(before[k], ""), Flatten(after[k], "");
        var q :| q in b && !(q in a && LeafEq(b[q], a[q]));
        assert IsLoss(before, after, if q in a then Changed(k, q, b[q], a[q]) else Removed(k, q, b[q]));
      }
    }
  }

  /** Over safe keys an empty report means that nothing visible has changed, and nothing else does. */
  lemma EmptyDiffIff(before: Content, after: Content, cs: set<char>)
    requires Safe(cs) && (forall k | k in before :: Over(before[k], cs)) && forall k | k in after :: Over(after[k], cs)
    ensures (forall f :: !IsLoss(before, after, f) && !IsAddition(before, after, f))
            <==> before.Keys == after.Keys && forall k | k in before :: Alike(before[k], after[k])
  {
    hide Flatten, Alike, Over, Safe;
    NothingLostIff(before, after);
    if forall f :: !IsLoss(before, after, f) && !IsAddition(before, after, f) {
      forall k ensures k in after ==> k in before {
        assert !IsAddition(before, after, NewObject(k));
      }
      forall k | k in before ensures Alike(before[k], after[k]) {
        var b, a := Flatten(before[k], ""), Flatten(after[k], "");
        forall q | q in a ensures q in b {
          assert !IsAddition(before, after, Added(k, q, a[q]));
        }
        FlattenShowsVisible(before[k], after[k], cs);
      }
    } else if before.Keys == after.Keys && forall k | k in before :: Alike(before[k], after[k]) {
      forall k | k in before ensures FlatEq(Flatten(before[k], ""), Flatten(after[k], "")) {
        FlattenShowsVisible(before[k], after[k], cs);
      }
    }
  }

  /** A field that turns from true to 1 is reported as unchanged: equal as Python sees it, not as JSON does. */
  lemma TrueIsOne(key: string)
    ensures var x := Dict([(key, Scalar(Bool(true)))]); var y := Dict([(key, Scalar(Num(1.0)))]);
            x != y && FlatEq(Flatten(x, ""), Flatten(y, ""))
  {
    OneEntry(key, Scalar(Bool(true)), "");
    OneEntry(key, Scalar(Num(1.0)), "");
    var x, y := Dict([(key, Scalar(Bool(true)))]), Dict([(key, Scalar(Num(1.0)))]);
    assert x.entries[0].1 != y.entries[0].1;
  }
}
