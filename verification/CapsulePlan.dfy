/**
 The restore plan over all of Capsule's targets: which webhook lists are excluded, in what order they are
 restored, and what a plan that is run a second time runs into.
 */
module CapsulePlan {
  import opened CapsulePatch
  import opened Json
  import opened Options

  /** One entry of the restore plan: a target, by number, and the patch that restores it. */
  datatype Item = Item(target: nat, back: seq<Op>)

  /** The webhook lists of the targets, each as the document its patches apply to. */
  type Targets = seq<Json>

  ghost predicate AreLists(ts: Targets) {
    forall t: nat | t < |ts| :: ts[t].List?
  }

  predicate HasHook(t: Json) {
    t.List? && exists w | w in t.items :: NamespaceHook(w)
  }

  function ExcludedTarget(t: Json): Json
    requires t.List?
  {
    ExcludedDoc(t, [])
  }

  function RestoredTarget(t: Json): Json
    requires t.List?
  {
    RestoredDoc(t, [])
  }

  /** The targets with those of the first `n` excluded that were seen. */
  ghost function ExcludedUpTo(ts: Targets, seen: set<nat>, n: nat): (r: Targets)
    requires AreLists(ts) && n <= |ts|
    ensures |r| == |ts|
  {
    if n == 0 then ts
    else if n - 1 in seen then ExcludedUpTo(ts, seen, n - 1)[n - 1 := ExcludedTarget(ts[n - 1])]
    else ExcludedUpTo(ts, seen, n - 1)
  }

  lemma {:induction false} ExcludedAt(ts: Targets, seen: set<nat>, n: nat, t: nat)
    requires AreLists(ts) && n <= |ts| && t < |ts|
    ensures ExcludedUpTo(ts, seen, n)[t] == if t < n && t in seen then ExcludedTarget(ts[t]) else ts[t]
  {
    hide HasHook, BackOf, ExcludedTarget, RestoredTarget;
    if n > 0 {
      ExcludedAt(ts, seen, n - 1, t);
    }
  }

  /** The targets with those of the first `n` restored that were seen. */
  ghost function AllRestored(ts: Targets, seen: set<nat>, n: nat): (r: Targets)
    requires AreLists(ts) && n <= |ts|
    ensures |r| == |ts|
  {
    if n == 0 then ts
    else if n - 1 in seen then AllRestored(ts, seen, n - 1)[n - 1 := RestoredTarget(ts[n - 1])]
    else AllRestored(ts, seen, n - 1)
  }

  lemma {:induction false} AllRestoredAt(ts: Targets, seen: set<nat>, n: nat, t: nat)
    requires AreLists(ts) && n <= |ts| && t < |ts|
    ensures AllRestored(ts, seen, n)[t] == if t < n && t in seen then RestoredTarget(ts[t]) else ts[t]
  {
    hide HasHook, BackOf, ExcludedTarget, RestoredTarget;
    if n > 0 {
      AllRestoredAt(ts, seen, n - 1, t);
    }
  }

  /** `plan` restores exactly those of the first `n` targets that were seen and have a namespace webhook, in order. */
  ghost predicate PlanOf(ts: Targets, seen: set<nat>, n: nat, plan: seq<Item>)
    requires AreLists(ts) && n <= |ts|
  {
    && (forall p: nat | p < |plan| ::
          plan[p].target < n && plan[p].target in seen && HasHook(ts[plan[p].target]) && BackOf(ts[plan[p].target], plan[p].back))
    && (forall p: nat, q: nat | p < q < |plan| :: plan[p].target < plan[q].target)
    && (forall t: nat {:trigger Planned(plan, t)} | t < n && t in seen && HasHook(ts[t]) :: Planned(plan, t))
  }

  /** The plan has an item for target `t`. */
  ghost predicate Planned(plan: seq<Item>, t: nat) {
    exists p: nat :: p < |plan| && plan[p].target == t
  }

  /** `back` is the patch recorded for this target. */
  ghost predicate BackOf(t: Json, back: seq<Op>)
    requires t.List?
  {
    exists ix :: HookIndexes(t.items, ix) && back == BackFor([], t.items, ix)
  }

  /** The targets after the first `n` items of the plan have been run on excluded targets. */
  ghost function RestoredUpTo(ts: Targets, seen: set<nat>, plan: seq<Item>, n: nat): (r: Targets)
    requires AreLists(ts) && PlanOf(ts, seen, |ts|, plan) && n <= |plan|
    ensures |r| == |ts|
  {
    if n == 0 then ExcludedUpTo(ts, seen, |ts|)
    else RestoredUpTo(ts, seen, plan, n - 1)[plan[n - 1].target := RestoredTarget(ts[plan[n - 1].target])]
  }

  /** Item `p` has been run exactly if it is among the first `n`. */
  lemma {:induction false} ItemRun(ts: Targets, seen: set<nat>, plan: seq<Item>, n: nat, p: nat)
    requires AreLists(ts) && PlanOf(ts, seen, |ts|, plan) && n <= |plan| && p < |plan|
    ensures RestoredUpTo(ts, seen, plan, n)[plan[p].target]
            == if p < n then RestoredTarget(ts[plan[p].target]) else ExcludedTarget(ts[plan[p].target])
  {
    hide HasHook, BackOf, ExcludedTarget, RestoredTarget;
    if n == 0 {
      ExcludedAt(ts, seen, |ts|, plan[p].target);
    } else {
      ItemRun(ts, seen, plan, n - 1, p);
    }
  }

  /** A target without an item is left as it is. */
  lemma {:induction false} Unplanned(ts: Targets, seen: set<nat>, plan: seq<Item>, n: nat, t: nat)
    requires AreLists(ts) && PlanOf(ts, seen, |ts|, plan) && n <= |plan| && t < |ts| && !Planned(plan, t)
    ensures RestoredUpTo(ts, seen, plan, n)[t] == ts[t]
  {
    hide HasHook, BackOf, ExcludedTarget, RestoredTarget;
    if n == 0 {
      ExcludedAt(ts, seen, |ts|, t);
      if t in seen {
        NoHookNoChange(ts[t]);
      }
    } else {
      Unplanned(ts, seen, plan, n - 1, t);
      assert plan[n - 1].target != t;
    }
  }

  lemma NoHookNoChange(t: Json)
    requires t.List? && !HasHook(t)
    ensures ExcludedTarget(t) == t && RestoredTarget(t) == t
  {
    assert forall w | w in t.items :: Excluded(w) == w && Restored(w) == w;
    SameElements(MapWebhooks(t.items, Excluded), t.items);
    SameElements(MapWebhooks(t.items, Restored), t.items);
  }

  /** Running an item on its excluded target is accepted and restores it. */
  lemma ItemRestores(t: Json, back: seq<Op>)
    requires t.List? && BackOf(t, back)
    ensures ApplyAll(ExcludedTarget(t), back) == Some(RestoredTarget(t))
  {
    var ix :| HookIndexes(t.items, ix) && back == BackFor([], t.items, ix);
    assert Get(t, []) == Some(List(t.items));
    UndoRestores(t, [], t.items, ix);
  }

  /** Building and running the exclusion patch of one target. */
  lemma TargetExcluded(t: Json, ix: seq<nat>)
    requires t.List? && HookIndexes(t.items, ix)
    ensures ApplyAll(t, PatchFor([], ix)) == Some(ExcludedTarget(t))
    ensures ix == [] <==> !HasHook(t)
  {
    ExclusionApplies(t, [], t.items, ix);
    if HasHook(t) {
      var w :| w in t.items && NamespaceHook(w);
      var i: nat :| i < |t.items| && t.items[i] == w;
      assert i in ix;
    }
    if ix != [] {
      var i := ix[0];
      assert i in ix;
      assert t.items[i] in t.items && NamespaceHook(t.items[i]);
    }
  }

  // ---------------------------------------------------------------- running an item twice

  predicate HasSelector(w: Json) {
    Lookup(w, SELECTOR).Some? && Truthy(Lookup(w, SELECTOR).value)
  }

  /** Some namespace webhook had no selector, or an empty one: its recorded operation is a removal. */
  predicate Removes(t: Json) {
    t.List? && exists w | w in t.items :: NamespaceHook(w) && !HasSelector(w)
  }

  ghost predicate KeysDistinct(t: Json)
    requires t.List?
  {
    forall w | w in t.items :: DistinctKeys(w)
  }

  lemma {:induction false} RejectedAt(v: Json, ops: seq<Op>, j: nat)
    requires j < |ops| && ApplyAll(v, ops[..j]).Some? && Apply(ApplyAll(v, ops[..j]).value, ops[j]).None?
    ensures ApplyAll(v, ops).None?
    decreases j
  {
    if j > 0 {
      assert ops[..j][1..] == ops[1..][..j - 1];
      RejectedAt(Apply(v, ops[0]).value, ops[1..], j - 1);
    }
  }

  /** A recorded operation run on what it restored: setting it again changes nothing, removing it again fails. */
  lemma BackOpAgain(i: nat, w: Json)
    requires NamespaceHook(w) && DistinctKeys(w)
    ensures HasSelector(w) ==> Restored(w) == w && OpTurns(BackOp([], i, w), [], i, w, w)
    ensures !HasSelector(w) ==> Apply(Restored(w), BackOp([], i, w).(path := [Key(SELECTOR)])).None?
  {
    var es := w.entries;
    match Position(es, SELECTOR)
    case None =>
    case Some(p) =>
      assert es[p := (SELECTOR, es[p].1)] == es;
      var fs := es[..p] + es[p + 1..];
      forall k | 0 <= k < |fs| ensures fs[k].0 != SELECTOR {
        assert fs[k] == if k < p then es[k] else es[k + 1];
      }
  }

  /** As long as selectors are only set, running a prefix of the recorded patch again changes nothing. */
  lemma PrefixAgain(t: Json, ix: seq<nat>, n: nat)
    requires t.List? && KeysDistinct(t) && HookIndexes(t.items, ix) && n <= |ix|
    requires forall j: nat | j < n :: HasSelector(t.items[ix[j]])
    ensures ApplyAll(RestoredTarget(t), BackFor([], t.items, ix)[..n]) == Some(RestoredTarget(t))
  {
    var ws := MapWebhooks(t.items, Restored);
    var ops := BackFor([], t.items, ix)[..n];
    assert Get(List(ws), []) == Some(List(ws));
    forall j: nat | j < n ensures OpTurns(ops[j], [], ix[j], ws[ix[j]], ws[ix[j]]) {
      assert ix[j] in ix;
      assert t.items[ix[j]] in t.items;
      BackOpAgain(ix[j], t.items[ix[j]]);
    }
    ApplyOnePerIndex(List(ws), [], ws, ws, ix[..n], ops, n);
    assert ops[..n] == ops;
    forall i: nat | i < |ws| ensures Replaced(ws, ws, ix[..n], n)[i] == ws[i] {
      ReplacedAt(ws, ws, ix[..n], n, i);
    }
    SameElements(Replaced(ws, ws, ix[..n], n), ws);
  }

  /** Running an item of the plan a second time is rejected exactly when one of its operations removes a selector. */
  lemma ItemTwice(t: Json, back: seq<Op>)
    requires t.List? && KeysDistinct(t) && BackOf(t, back)
    ensures ApplyAll(RestoredTarget(t), back) == if Removes(t) then None else Some(RestoredTarget(t))
  {
    var ix :| HookIndexes(t.items, ix) && back == BackFor([], t.items, ix);
    if Removes(t) {
      var w :| w in t.items && NamespaceHook(w) && !HasSelector(w);
      var i: nat :| i < |t.items| && t.items[i] == w;
      assert i in ix;
      var k: nat :| k < |ix| && ix[k] == i;
      var j := FirstRemoval(t, ix, k);
      RemovalRejected(t, ix, j);
    } else {
      forall j: nat | j < |ix| ensures HasSelector(t.items[ix[j]]) {
        assert ix[j] in ix && t.items[ix[j]] in t.items;
      }
      PrefixAgain(t, ix, |ix|);
      assert back[..|ix|] == back;
    }
  }

  lemma RemovalRejected(t: Json, ix: seq<nat>, j: nat)
    requires t.List? && KeysDistinct(t) && HookIndexes(t.items, ix) && j < |ix|
    requires !HasSelector(t.items[ix[j]]) && forall i: nat | i < j :: HasSelector(t.items[ix[i]])
    ensures ApplyAll(RestoredTarget(t), BackFor([], t.items, ix)) == None
  {
    var back := BackFor([], t.items, ix);
    assert ix[j] in ix && t.items[ix[j]] in t.items;
    PrefixAgain(t, ix, j);
    RestoredElement(t, ix[j]);
    BackOpAgain(ix[j], t.items[ix[j]]);
    RejectedOnElement(RestoredTarget(t), ix[j], back[j]);
    RejectedAt(RestoredTarget(t), back, j);
  }

  lemma {:induction false} FirstRemoval(t: Json, ix: seq<nat>, k: nat) returns (j: nat)
    requires t.List? && Within(ix, |t.items|) && k < |ix| && !HasSelector(t.items[ix[k]])
    ensures j <= k && !HasSelector(t.items[ix[j]]) && forall i: nat | i < j :: HasSelector(t.items[ix[i]])
  {
    j := 0;
    while HasSelector(t.items[ix[j]])
      invariant j <= k && forall i: nat | i < j :: HasSelector(t.items[ix[i]])
      decreases k - j
    {
      j := j + 1;
    }
  }

  lemma RestoredElement(t: Json, i: nat)
    requires t.List? && i < |t.items|
    ensures RestoredTarget(t).List? && |RestoredTarget(t).items| == |t.items| && RestoredTarget(t).items[i] == Restored(t.items[i])
  {
  }

  lemma RejectedOnElement(v: Json, i: nat, op: Op)
    requires v.List? && i < |v.items| && op.path == SelectorPath([], i)
    requires Apply(v.items[i], op.(path := [Key(SELECTOR)])).None?
    ensures Apply(v, op).None?
  {
    assert op.path[1..] == [Key(SELECTOR)];
  }

  // ---------------------------------------------------------------- running a plan

  /** One request of capsule_restore(), if the server accepts it. */
  function RunItem(ts: Targets, it: Item): Option<Targets> {
    if it.target >= |ts| then None
    else match ApplyAll(ts[it.target], it.back)
      case None => None
      case Some(t) => Some(ts[it.target := t])
  }

  lemma PlanStep(ts: Targets, seen: set<nat>, plan: seq<Item>, n: nat)
    requires AreLists(ts) && PlanOf(ts, seen, |ts|, plan) && n < |plan|
    ensures RunItem(RestoredUpTo(ts, seen, plan, n), plan[n]) == Some(RestoredUpTo(ts, seen, plan, n + 1))
  {
    hide HasHook, BackOf, ExcludedTarget, RestoredTarget;
    ItemRun(ts, seen, plan, n, n);
    ItemRestores(ts[plan[n].target], plan[n].back);
  }

  /** An item that has been run is accepted again only if it changes nothing. */
  lemma PlanStepAgain(ts: Targets, seen: set<nat>, plan: seq<Item>, m: nat, n: nat)
    requires AreLists(ts) && PlanOf(ts, seen, |ts|, plan) && n < m <= |plan| && KeysDistinct(ts[plan[n].target])
    ensures RunItem(RestoredUpTo(ts, seen, plan, m), plan[n])
            == if Removes(ts[plan[n].target]) then None else Some(RestoredUpTo(ts, seen, plan, m))
  {
    hide HasHook, BackOf, ExcludedTarget, RestoredTarget;
    var t := plan[n].target;
    ItemRun(ts, seen, plan, m, n);
    ItemTwice(ts[t], plan[n].back);
    var r := RestoredUpTo(ts, seen, plan, m);
    SameElements(r[t := r[t]], r);
  }

  /** Nothing run: all that were seen are excluded.  Everything run: all of them are restored. */
  lemma PlanEnds(ts: Targets, seen: set<nat>, plan: seq<Item>)
    requires AreLists(ts) && PlanOf(ts, seen, |ts|, plan)
    ensures RestoredUpTo(ts, seen, plan, 0) == ExcludedUpTo(ts, seen, |ts|)
    ensures RestoredUpTo(ts, seen, plan, |plan|) == AllRestored(ts, seen, |ts|)
  {
    hide HasHook, BackOf, ExcludedTarget, RestoredTarget;
    forall t: nat | t < |ts| ensures RestoredUpTo(ts, seen, plan, |plan|)[t] == AllRestored(ts, seen, |ts|)[t] {
      EndsAt(ts, seen, plan, t);
    }
    SameElements(RestoredUpTo(ts, seen, plan, |plan|), AllRestored(ts, seen, |ts|));
  }

  lemma EndsAt(ts: Targets, seen: set<nat>, plan: seq<Item>, t: nat)
    requires AreLists(ts) && PlanOf(ts, seen, |ts|, plan) && t < |ts|
    ensures RestoredUpTo(ts, seen, plan, |plan|)[t] == AllRestored(ts, seen, |ts|)[t]
  {
    hide HasHook, BackOf, ExcludedTarget, RestoredTarget;
    AllRestoredAt(ts, seen, |ts|, t);
    if Planned(plan, t) {
      var p: nat :| p < |plan| && plan[p].target == t;
      ItemRun(ts, seen, plan, |plan|, p);
    } else {
      Unplanned(ts, seen, plan, |plan|, t);
      if t in seen {
        NoHookNoChange(ts[t]);
      }
    }
  }

  /** An empty plan means that nothing was excluded. */
  lemma {:induction false} NothingPlanned(ts: Targets, seen: set<nat>, n: nat)
    requires AreLists(ts) && n <= |ts| && PlanOf(ts, seen, n, [])
    ensures ExcludedUpTo(ts, seen, n) == ts
  {
    hide HasHook, BackOf, ExcludedTarget, RestoredTarget;
    if n > 0 {
      NothingPlanned(ts, seen, n - 1);
      if n - 1 in seen {
        assert !Planned([], n - 1);
        NoHookNoChange(ts[n - 1]);
        SameElements(ts[n - 1 := ts[n - 1]], ts);
      }
    }
  }

  // ---------------------------------------------------------------- building a plan

  /** A target without a namespace webhook, or one that was not seen, needs no item. */
  lemma PlanSkips(ts: Targets, seen: set<nat>, t: nat, plan: seq<Item>)
    requires AreLists(ts) && t < |ts| && PlanOf(ts, seen, t, plan) && (t !in seen || !HasHook(ts[t]))
    ensures PlanOf(ts, seen, t + 1, plan) && ExcludedUpTo(ts, seen, t + 1) == ExcludedUpTo(ts, seen, t)
  {
    hide HasHook, BackOf, ExcludedTarget, RestoredTarget;
    if t in seen {
      NoHookNoChange(ts[t]);
      ExcludedAt(ts, seen, t, t);
      var r := ExcludedUpTo(ts, seen, t);
      SameElements(r[t := r[t]], r);
    }
  }

  lemma PlanGrows(ts: Targets, seen: set<nat>, t: nat, plan: seq<Item>, back: seq<Op>)
    requires AreLists(ts) && t < |ts| && t in seen && PlanOf(ts, seen, t, plan) && HasHook(ts[t]) && BackOf(ts[t], back)
    ensures PlanOf(ts, seen, t + 1, plan + [Item(t, back)])
  {
    hide HasHook, BackOf, ExcludedTarget, RestoredTarget;
    var bigger := plan + [Item(t, back)];
    forall u: nat | u < t + 1 && u in seen && HasHook(ts[u]) ensures Planned(bigger, u) {
      if u == t {
        assert bigger[|plan|].target == u;
      } else {
        assert Planned(plan, u);
        var p: nat :| p < |plan| && plan[p].target == u;
        assert bigger[p].target == u;
      }
    }
  }

  /** The number of patches that excluding the first `n` targets takes. */
  ghost function Hooked(ts: Targets, seen: set<nat>, n: nat): nat
    requires n <= |ts|
  {
    if n == 0 then 0 else Hooked(ts, seen, n - 1) + if n - 1 in seen && HasHook(ts[n - 1]) then 1 else 0
  }

  /** A plan has an item for each of them. */
  lemma {:induction false} PlanLength(ts: Targets, seen: set<nat>, n: nat, plan: seq<Item>)
    requires AreLists(ts) && n <= |ts| && PlanOf(ts, seen, n, plan)
    ensures |plan| == Hooked(ts, seen, n)
  {
    hide HasHook, BackOf;
    if n == 0 {
      NoTargets(ts, seen, plan);
    } else if n - 1 in seen && HasHook(ts[n - 1]) {
      LastItem(ts, seen, n, plan);
      PlanLength(ts, seen, n - 1, plan[..|plan| - 1]);
    } else {
      assert forall p: nat | p < |plan| :: plan[p].target != n - 1;
      PlanLength(ts, seen, n - 1, plan);
    }
  }

  lemma NoTargets(ts: Targets, seen: set<nat>, plan: seq<Item>)
    requires AreLists(ts) && PlanOf(ts, seen, 0, plan)
    ensures plan == []
  {
    if plan != [] {
      PlanWithin(ts, seen, 0, plan, 0);
    }
  }

  lemma PlanWithin(ts: Targets, seen: set<nat>, n: nat, plan: seq<Item>, p: nat)
    requires AreLists(ts) && n <= |ts| && PlanOf(ts, seen, n, plan) && p < |plan|
    ensures plan[p].target < n
  {
  }

  lemma PlanAscends(ts: Targets, seen: set<nat>, n: nat, plan: seq<Item>, p: nat, q: nat)
    requires AreLists(ts) && n <= |ts| && PlanOf(ts, seen, n, plan) && p < |plan| && q < |plan|
    ensures p < q ==> plan[p].target < plan[q].target
  {
  }

  lemma LastItem(ts: Targets, seen: set<nat>, n: nat, plan: seq<Item>)
    requires AreLists(ts) && 0 < n <= |ts| && PlanOf(ts, seen, n, plan) && n - 1 in seen && HasHook(ts[n - 1])
    ensures plan != [] && plan[|plan| - 1].target == n - 1 && PlanOf(ts, seen, n - 1, plan[..|plan| - 1])
  {
    hide HasHook, BackOf;
    assert Planned(plan, n - 1);
    var p: nat :| p < |plan| && plan[p].target == n - 1;
    PlanAscends(ts, seen, n, plan, p, |plan| - 1);
    PlanBefore(ts, seen, n, plan, |plan| - 1);
  }

  /** The items before the p-th are a plan for the targets before its own. */
  lemma PlanBefore(ts: Targets, seen: set<nat>, n: nat, plan: seq<Item>, p: nat)
    requires AreLists(ts) && n <= |ts| && PlanOf(ts, seen, n, plan) && p < |plan|
    ensures PlanOf(ts, seen, plan[p].target, plan[..p])
  {
    hide HasHook, BackOf;
    var front := plan[..p];
    forall t: nat | t < plan[p].target && t in seen && HasHook(ts[t]) ensures Planned(front, t) {
      assert Planned(plan, t);
      var q: nat :| q < |plan| && plan[q].target == t;
      PlanAscends(ts, seen, n, plan, p, q);
      assert front[q].target == t;
    }
  }

  /** So the number of an item is the number of those targets before its own. */
  lemma ItemNumber(ts: Targets, seen: set<nat>, plan: seq<Item>, p: nat)
    requires AreLists(ts) && PlanOf(ts, seen, |ts|, plan) && p < |plan|
    ensures Hooked(ts, seen, plan[p].target) == p
  {
    hide HasHook, BackOf;
    PlanBefore(ts, seen, |ts|, plan, p);
    PlanLength(ts, seen, plan[p].target, plan[..p]);
  }
}
