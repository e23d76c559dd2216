/**
 Excluding the clusterctl namespaces from Capsule's webhooks and undoing it: a JSON Patch (RFC 6902) that sets
 object selectors, and the recorded patch that restores them.
 */
module CapsulePatch {
  import opened Json
  import opened Options

  datatype Token = Key(name: string) | Index(i: nat)

  type Pointer = seq<Token>

  datatype Op = Add(path: Pointer, value: Json) | Remove(path: Pointer)

  // ---------------------------------------------------------------- members of a document

  function Position(entries: seq<(string, Json)>, key: string): (p: Option<nat>)
    ensures p.Some? ==> p.value < |entries| && entries[p.value].0 == key
    ensures p.None? ==> forall i | 0 <= i < |entries| :: entries[i].0 != key
  {
    if entries == [] then None
    else if entries[0].0 == key then Some(0)
    else match Position(entries[1..], key) case None => None case Some(i) => Some(i + 1)
  }

  function Member(v: Json, t: Token): Option<Json> {
    match (v, t)
    case (Dict(es), Key(k)) => (match Position(es, k) case None => None case Some(i) => Some(es[i].1))
    case (List(items), Index(i)) => if i < |items| then Some(items[i]) else None
    case _ => None
  }

  /** The document with the child at `t` replaced. */
  function WithChild(v: Json, t: Token, x: Json): Json
    requires Member(v, t).Some?
  {
    match (v, t)
    case (Dict(es), Key(k)) => Dict(es[Position(es, k).value := (k, x)])
    case (List(items), Index(i)) => List(items[i := x])
  }

  // ---------------------------------------------------------------- RFC 6902

  /** Section 4.1: sets an object member, or inserts before an array element. */
  function AddMember(v: Json, t: Token, x: Json): Option<Json> {
    match (v, t)
    case (Dict(es), Key(k)) => Some(if Position(es, k).Some? then WithChild(v, t, x) else Dict(es + [(k, x)]))
    case (List(items), Index(i)) => if i <= |items| then Some(List(items[..i] + [x] + items[i..])) else None
    case _ => None
  }

  /** Section 4.2: the target must exist. */
  function RemoveMember(v: Json, t: Token): Option<Json> {
    match (v, t)
    case (Dict(es), Key(k)) =>
      (match Position(es, k) case None => None case Some(i) => Some(Dict(es[..i] + es[i + 1..])))
    case (List(items), Index(i)) => if i < |items| then Some(List(items[..i] + items[i + 1..])) else None
    case _ => None
  }

  function Apply(v: Json, op: Op): Option<Json>
    decreases |op.path|
  {
    if op.path == [] then (if op.Add? then Some(op.value) else None)
    else if |op.path| == 1 then
      (match op case Add(p, x) => AddMember(v, p[0], x) case Remove(p) => RemoveMember(v, p[0]))
    else match Member(v, op.path[0])
      case None => None
      case Some(child) =>
        match Apply(child, op.(path := op.path[1..]))
        case None => None
        case Some(child') => Some(WithChild(v, op.path[0], child'))
  }

  /** A patch is applied as a whole or not at all. */
  function ApplyAll(v: Json, ops: seq<Op>): Option<Json>
    decreases |ops|
  {
    if ops == [] then Some(v)
    else match Apply(v, ops[0])
      case None => None
      case Some(v') => ApplyAll(v', ops[1..])
  }

  lemma {:induction false} ApplyAllAppend(v: Json, ops: seq<Op>, op: Op)
    requires ApplyAll(v, ops).Some?
    ensures ApplyAll(v, ops + [op]) == Apply(ApplyAll(v, ops).value, op)
    decreases |ops|
  {
    if ops == [] {
      assert [op][1..] == [];
    } else {
      assert (ops + [op])[1..] == ops[1..] + [op];
      ApplyAllAppend(Apply(v, ops[0]).value, ops[1..], op);
    }
  }

  // ---------------------------------------------------------------- a document as seen through a pointer

  function Get(v: Json, path: Pointer): Option<Json> {
    if path == [] then Some(v)
    else match Member(v, path[0])
      case None => None
      case Some(child) => Get(child, path[1..])
  }

  function Put(v: Json, path: Pointer, x: Json): Json
    requires Get(v, path).Some?
  {
    if path == [] then x else WithChild(v, path[0], Put(Member(v, path[0]).value, path[1..], x))
  }

  lemma WithChildMember(v: Json, t: Token, x: Json)
    requires Member(v, t).Some?
    ensures Member(WithChild(v, t, x), t) == Some(x)
  {
    if v.Dict? {
      PositionUpdate(v.entries, t.name, x);
    }
  }

  lemma {:induction false} PositionUpdate(es: seq<(string, Json)>, key: string, x: Json)
    requires Position(es, key).Some?
    ensures Position(es[Position(es, key).value := (key, x)], key) == Position(es, key)
  {
    var p := Position(es, key).value;
    var fs := es[p := (key, x)];
    if p > 0 {
      assert fs[1..] == es[1..][p - 1 := (key, x)];
      PositionUpdate(es[1..], key, x);
    }
  }

  lemma WithChildTwice(v: Json, t: Token, x: Json, y: Json)
    requires Member(v, t).Some?
    ensures Member(WithChild(v, t, x), t).Some?
    ensures WithChild(WithChild(v, t, x), t, y) == WithChild(v, t, y)
    ensures WithChild(v, t, Member(v, t).value) == v
  {
    WithChildMember(v, t, x);
    if v.Dict? {
      PositionUpdate(v.entries, t.name, x);
    }
  }

  /** What was put is what is got, a second put replaces the first, and putting back what was there changes nothing. */
  lemma {:induction false} PutLaws(v: Json, path: Pointer, x: Json, y: Json)
    requires Get(v, path).Some?
    ensures Get(Put(v, path, x), path) == Some(x)
    ensures Put(Put(v, path, x), path, y) == Put(v, path, y)
    ensures Put(v, path, Get(v, path).value) == v
  {
    if path != [] {
      var child := Member(v, path[0]).value;
      PutLaws(child, path[1..], x, y);
      WithChildMember(v, path[0], Put(child, path[1..], x));
      WithChildTwice(v, path[0], Put(child, path[1..], x), Put(child, path[1..], y));
      WithChildTwice(v, path[0], child, child);
    }
  }

  /** A put leaves what other pointers see alone. */
  lemma {:induction false} PutFrame(v: Json, path: Pointer, x: Json, other: Pointer)
    requires Get(v, path).Some? && Diverge(path, other)
    ensures Get(Put(v, path, x), other) == Get(v, other)
  {
    var t, u := path[0], other[0];
    var child := Member(v, t).value;
    if t == u {
      PutFrame(child, path[1..], x, other[1..]);
      WithChildMember(v, t, Put(child, path[1..], x));
    } else {
      WithChildOther(v, t, u, Put(child, path[1..], x));
    }
  }

  predicate Diverge(path: Pointer, other: Pointer) {
    path != [] && other != [] && (path[0] != other[0] || Diverge(path[1..], other[1..]))
  }

  lemma WithChildOther(v: Json, t: Token, u: Token, x: Json)
    requires Member(v, t).Some? && t != u
    ensures Member(WithChild(v, t, x), u) == Member(v, u)
  {
    if v.Dict? && u.Key? {
      PositionOther(v.entries, t.name, u.name, x);
    }
  }

  lemma {:induction false} PositionOther(es: seq<(string, Json)>, key: string, other: string, x: Json)
    requires Position(es, key).Some? && key != other
    ensures Position(es[Position(es, key).value := (key, x)], other) == Position(es, other)
  {
    var p := Position(es, key).value;
    var fs := es[p := (key, x)];
    if p == 0 {
      assert fs[1..] == es[1..];
    } else {
      assert fs[1..] == es[1..][p - 1 := (key, x)];
      PositionOther(es[1..], key, other, x);
    }
  }

  /** An operation below `base` acts on what `base` points to and leaves the rest of the document alone. */
  lemma {:induction false} ApplyBelow(v: Json, base: Pointer, op: Op)
    requires Get(v, base).Some? && op.path != []
    requires Apply(Get(v, base).value, op).Some?
    ensures Apply(v, op.(path := base + op.path)) == Some(Put(v, base, Apply(Get(v, base).value, op).value))
  {
    if base == [] {
      assert base + op.path == op.path;
      assert op.(path := op.path) == op;
    } else {
      var deep := op.(path := base + op.path);
      assert deep.path[1..] == base[1..] + op.path;
      ApplyBelow(Member(v, base[0]).value, base[1..], op);
    }
  }

  // ---------------------------------------------------------------- Capsule's webhooks

  const SELECTOR := "objectSelector"

  const CLUSTERCTL_NS_SELECTOR := Dict([("matchExpressions", List([Dict([
    ("key", Scalar(Str("clusterctl.cluster.x-k8s.io"))), ("operator", Scalar(Str("DoesNotExist")))])]))])

  /** `dict.get(key)`; the API server only has objects where the script asks. */
  function Lookup(v: Json, key: string): Option<Json> {
    Member(v, Key(key))
  }

  /** What `if value` tests in Python. */
  predicate Truthy(v: Json) {
    match v
    case Scalar(Null) => false
    case Scalar(Bool(b)) => b
    case Scalar(Num(r)) => r != 0.0
    case Scalar(Str(s)) => s != ""
    case _ => Arity(v) > 0
  }

  predicate NamesNamespaces(rule: Json) {
    match Lookup(rule, "resources")
    case Some(List(items)) => Scalar(Str("namespaces")) in items
    case _ => false
  }

  predicate NamespaceHook(w: Json) {
    match Lookup(w, "rules")
    case Some(List(rules)) => exists r | r in rules :: NamesNamespaces(r)
    case _ => false
  }

  /** namespace_webhook_indexes() */
  method NamespaceWebhookIndexes(ws: seq<Json>) returns (ix: seq<nat>)
    ensures HookIndexes(ws, ix)
  {
    ix := [];
    for i := 0 to |ws|
      invariant forall j, k | 0 <= j < k < |ix| :: ix[j] < ix[k]
      invariant Within(ix, i)
      invariant forall k: nat :: k in ix <==> k < i && NamespaceHook(ws[k])
    {
      if NamespaceHook(ws[i]) {
        ix := ix + [i];
      }
    }
  }

  predicate Within(ix: seq<nat>, n: nat) {
    forall j | 0 <= j < |ix| :: ix[j] < n
  }

  ghost predicate HookIndexes(ws: seq<Json>, ix: seq<nat>) {
    && Within(ix, |ws|)
    && (forall j, k | 0 <= j < k < |ix| :: ix[j] < ix[k])
    && (forall k: nat :: k in ix <==> k < |ws| && NamespaceHook(ws[k]))
  }

  function SelectorPath(base: Pointer, i: nat): Pointer {
    base + [Index(i), Key(SELECTOR)]
  }

  /** The restoring operation recorded for a webhook: an empty selector counts as none. */
  function BackOp(base: Pointer, i: nat, w: Json): Op {
    match Lookup(w, SELECTOR)
    case Some(original) => if Truthy(original) then Add(SelectorPath(base, i), original) else Remove(SelectorPath(base, i))
    case None => Remove(SelectorPath(base, i))
  }

  function PatchFor(base: Pointer, ix: seq<nat>): seq<Op> {
    seq(|ix|, j requires 0 <= j < |ix| => Add(SelectorPath(base, ix[j]), CLUSTERCTL_NS_SELECTOR))
  }

  function BackFor(base: Pointer, ws: seq<Json>, ix: seq<nat>): seq<Op>
    requires Within(ix, |ws|)
  {
    seq(|ix|, j requires 0 <= j < |ix| => BackOp(base, ix[j], ws[ix[j]]))
  }

  /** The loop that builds both patches of one target. */
  method BuildPatches(base: Pointer, ws: seq<Json>) returns (patch: seq<Op>, back: seq<Op>, ix: seq<nat>)
    ensures HookIndexes(ws, ix) && patch == PatchFor(base, ix) && back == BackFor(base, ws, ix)
  {
    ix := NamespaceWebhookIndexes(ws);
    patch, back := [], [];
    for j := 0 to |ix|
      invariant patch == PatchFor(base, ix[..j]) && back == BackFor(base, ws, ix[..j])
    {
      patch := patch + [Add(SelectorPath(base, ix[j]), CLUSTERCTL_NS_SELECTOR)];
      back := back + [BackOp(base, ix[j], ws[ix[j]])];
    }
    assert ix[..|ix|] == ix;
  }

  // ---------------------------------------------------------------- what the patches do

  function WithSelector(w: Json, selector: Json): Json
    requires w.Dict?
  {
    AddMember(w, Key(SELECTOR), selector).value
  }

  /** A webhook while the exclusion is on. */
  function Excluded(w: Json): Json {
    if NamespaceHook(w) then WithSelector(w, CLUSTERCTL_NS_SELECTOR) else w
  }

  /** A webhook once it is restored: as it was, but an empty selector is gone. */
  function Restored(w: Json): Json {
    if NamespaceHook(w) && Lookup(w, SELECTOR).Some? && !Truthy(Lookup(w, SELECTOR).value)
    then RemoveMember(w, Key(SELECTOR)).value
    else w
  }

  /** The list with the first `n` of the indexed webhooks taken from `to`. */
  function Replaced(ws: seq<Json>, to: seq<Json>, ix: seq<nat>, n: nat): (r: seq<Json>)
    requires n <= |ix| && |to| == |ws| && Within(ix, |ws|)
    ensures |r| == |ws|
  {
    if n == 0 then ws else Replaced(ws, to, ix, n - 1)[ix[n - 1] := to[ix[n - 1]]]
  }

  lemma {:induction false} ReplacedAt(ws: seq<Json>, to: seq<Json>, ix: seq<nat>, n: nat, i: nat)
    requires n <= |ix| && |to| == |ws| && Within(ix, |ws|) && i < |ws|
    ensures Replaced(ws, to, ix, n)[i] == if Among(ix, n, i) then to[i] else ws[i]
  {
    if n > 0 {
      ReplacedAt(ws, to, ix, n - 1, i);
    }
  }

  /** Whether `i` is one of the first `n` indexes. */
  ghost predicate Among(ix: seq<nat>, n: nat, i: nat)
    requires n <= |ix|
  {
    exists j :: 0 <= j < n && ix[j] == i
  }

  /** A run of operations, one per index, that each turn `ws[i]` into `to[i]`. */
  lemma {:induction false} ApplyOnePerIndex(v: Json, base: Pointer, ws: seq<Json>, to: seq<Json>, ix: seq<nat>, ops: seq<Op>, n: nat)
    requires Get(v, base) == Some(List(ws)) && |to| == |ws| && |ops| == |ix| && n <= |ix|
    requires forall j, k | 0 <= j < k < |ix| :: ix[j] < ix[k]
    requires forall j | 0 <= j < |ix| :: ix[j] < |ws| && OpTurns(ops[j], base, ix[j], ws[ix[j]], to[ix[j]])
    ensures ApplyAll(v, ops[..n]) == Some(Put(v, base, List(Replaced(ws, to, ix, n))))
  {
    if n == 0 {
      PutLaws(v, base, v, v);
    } else {
      ApplyOnePerIndex(v, base, ws, to, ix, ops, n - 1);
      assert ops[..n] == ops[..n - 1] + [ops[n - 1]];
      ApplyAllAppend(v, ops[..n - 1], ops[n - 1]);
      var mid := Replaced(ws, to, ix, n - 1);
      var i := ix[n - 1];
      ReplacedAt(ws, to, ix, n - 1, i);
      assert mid[i] == ws[i];
      PutLaws(v, base, List(mid), List(mid[i := to[i]]));
      ApplyToElement(Put(v, base, List(mid)), base, mid, i, ops[n - 1], to[i]);
    }
  }

  /** The operation sets or removes the selector of webhook `i`, which turns `w` into `x`. */
  predicate OpTurns(op: Op, base: Pointer, i: nat, w: Json, x: Json) {
    op.path == SelectorPath(base, i) && Apply(w, op.(path := [Key(SELECTOR)])) == Some(x)
  }

  lemma ApplyToElement(v: Json, base: Pointer, ws: seq<Json>, i: nat, op: Op, x: Json)
    requires Get(v, base) == Some(List(ws)) && i < |ws| && OpTurns(op, base, i, ws[i], x)
    ensures Apply(v, op) == Some(Put(v, base, List(ws[i := x])))
  {
    var inner := op.(path := [Index(i), Key(SELECTOR)]);
    assert inner.path[1..] == [Key(SELECTOR)];
    assert Apply(List(ws), inner) == Some(List(ws[i := x]));
    ApplyBelow(v, base, inner);
    assert inner.(path := base + inner.path) == op;
  }

  function MapWebhooks(ws: seq<Json>, f: Json -> Json): (r: seq<Json>)
    ensures |r| == |ws| && forall i | 0 <= i < |ws| :: r[i] == f(ws[i])
  {
    seq(|ws|, i requires 0 <= i < |ws| => f(ws[i]))
  }

  /** The document while the exclusion is on, and after it is undone. */
  function ExcludedDoc(v: Json, base: Pointer): Json
    requires Get(v, base).Some? && Get(v, base).value.List?
  {
    Put(v, base, List(MapWebhooks(Get(v, base).value.items, Excluded)))
  }

  function RestoredDoc(v: Json, base: Pointer): Json
    requires Get(v, base).Some? && Get(v, base).value.List?
  {
    Put(v, base, List(MapWebhooks(Get(v, base).value.items, Restored)))
  }

  /** The exclusion patch is accepted, and changes exactly the selectors of the namespace webhooks. */
  lemma ExclusionApplies(v: Json, base: Pointer, ws: seq<Json>, ix: seq<nat>)
    requires Get(v, base) == Some(List(ws)) && HookIndexes(ws, ix)
    ensures ApplyAll(v, PatchFor(base, ix)) == Some(ExcludedDoc(v, base))
  {
    var to := MapWebhooks(ws, Excluded);
    var ops := PatchFor(base, ix);
    forall j | 0 <= j < |ix| ensures ix[j] < |ws| && OpTurns(ops[j], base, ix[j], ws[ix[j]], to[ix[j]]) {
      assert ix[j] in ix;
    }
    ApplyOnePerIndex(v, base, ws, to, ix, ops, |ix|);
    assert ops[..|ix|] == ops;
    assert forall i: nat | i < |ws| && NamespaceHook(ws[i]) :: i in ix;
    AllReplaced(ws, to, ix);
  }

  lemma SameElements(a: seq<Json>, b: seq<Json>)
    requires |a| == |b| && forall i: nat | i < |a| :: a[i] == b[i]
    ensures a == b
  {
  }

  lemma AllReplaced(ws: seq<Json>, to: seq<Json>, ix: seq<nat>)
    requires |to| == |ws| && Within(ix, |ws|)
    requires forall i: nat | i < |ws| && !Among(ix, |ix|, i) :: to[i] == ws[i]
    ensures Replaced(ws, to, ix, |ix|) == to
  {
    forall i: nat | i < |ws| ensures Replaced(ws, to, ix, |ix|)[i] == to[i] {
      ReplacedAt(ws, to, ix, |ix|, i);
    }
    SameElements(Replaced(ws, to, ix, |ix|), to);
  }

  /** The recorded operation turns an excluded webhook back. */
  lemma BackOpRestores(base: Pointer, i: nat, w: Json)
    requires NamespaceHook(w)
    ensures OpTurns(BackOp(base, i, w), base, i, Excluded(w), Restored(w))
  {
    var es := w.entries;
    match Position(es, SELECTOR)
    case Some(p) =>
      PositionUpdate(es, SELECTOR, CLUSTERCTL_NS_SELECTOR);
      assert es[p := (SELECTOR, CLUSTERCTL_NS_SELECTOR)][p := es[p]] == es;
    case None =>
      PositionAppended(es, SELECTOR, CLUSTERCTL_NS_SELECTOR);
      var fs := es + [(SELECTOR, CLUSTERCTL_NS_SELECTOR)];
      assert fs[..|es|] + fs[|es| + 1..] == es;
  }

  lemma {:induction false} PositionAppended(es: seq<(string, Json)>, key: string, x: Json)
    requires Position(es, key).None?
    ensures Position(es + [(key, x)], key) == Some(|es|)
  {
    if es != [] {
      assert (es + [(key, x)])[1..] == es[1..] + [(key, x)];
      PositionAppended(es[1..], key, x);
    }
  }

  /** The recorded patch undoes the exclusion, in whatever document it was made. */
  lemma UndoRestores(v: Json, base: Pointer, ws: seq<Json>, ix: seq<nat>)
    requires Get(v, base) == Some(List(ws)) && HookIndexes(ws, ix)
    ensures ApplyAll(ExcludedDoc(v, base), BackFor(base, ws, ix)) == Some(RestoredDoc(v, base))
  {
    var from, to := MapWebhooks(ws, Excluded), MapWebhooks(ws, Restored);
    var ops := BackFor(base, ws, ix);
    var on := ExcludedDoc(v, base);
    PutLaws(v, base, List(from), List(to));
    forall j | 0 <= j < |ix| ensures ix[j] < |ws| && OpTurns(ops[j], base, ix[j], from[ix[j]], to[ix[j]]) {
      assert ix[j] in ix;
      BackOpRestores(base, ix[j], ws[ix[j]]);
    }
    ApplyOnePerIndex(on, base, from, to, ix, ops, |ix|);
    assert ops[..|ix|] == ops;
    assert forall i: nat | i < |ws| && NamespaceHook(ws[i]) :: i in ix;
    AllReplaced(from, to, ix);
  }

  /** Undoing gives the very same document exactly when no namespace webhook had an empty selector. */
  lemma UndoIsExactIff(v: Json, base: Pointer, ws: seq<Json>)
    requires Get(v, base) == Some(List(ws))
    ensures RestoredDoc(v, base) == v
            <==> forall w | w in ws && NamespaceHook(w) && Lookup(w, SELECTOR).Some? :: Truthy(Lookup(w, SELECTOR).value)
  {
    var to := MapWebhooks(ws, Restored);
    PutLaws(v, base, List(to), List(to));
    if RestoredDoc(v, base) == v {
      assert to == ws;
      forall w | w in ws && NamespaceHook(w) && Lookup(w, SELECTOR).Some? ensures Truthy(Lookup(w, SELECTOR).value) {
        var i :| 0 <= i < |ws| && ws[i] == w;
        assert Restored(w) == w;
      }
    } else {
      assert to != ws;
      var i :| 0 <= i < |ws| && to[i] != ws[i];
      assert ws[i] in ws;
    }
  }
}
