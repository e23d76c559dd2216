/**
 The guarded run of the provider upgrade: temporary changes to the cluster, each mirrored in a local plan or
 flag, and the recovery that undoes them when some request of the run fails.
 */
module UpgradeRun {
  import opened CapsulePatch
  import opened CapsulePlan
  import opened Json
  import opened KubeadmEgress
  import opened Options
  import opened UpgradeState

  /** The cluster, and the fate of every request: request number k fails when `fails(k)`, without any effect. */
  class Cluster {
    var world: World
    var calls: nat
    const fails: nat -> bool

    constructor (world: World, fails: nat -> bool)
      ensures this.world == world && this.calls == 0 && this.fails == fails
    {
      this.world, this.calls, this.fails := world, 0, fails;
    }

    /** A request that makes the world `next` if it succeeds. */
    method Request(next: World) returns (ok: bool)
      modifies this
      ensures calls == old(calls) + 1 && ok == !fails(old(calls))
      ensures world == if ok then next else old(world)
    {
      ok := !fails(calls);
      calls := calls + 1;
      if ok {
        world := next;
      }
    }

    /** No request from number `from` to the present failed. */
    ghost predicate Quiet(from: nat)
      reads this
    {
      NoneFails(fails, from, calls)
    }
  }

  class Run {
    const cluster: Cluster
    const setting: Setting
    var capsulePlan: seq<Item>
    var egressAdded: seq<string>
    var webhooksDeleted: bool
    var backupSaved: bool      // the webhook manifest is on disk
    ghost var recoveryStart: nat   // the number of the first request of the recovery

    constructor (cluster: Cluster, setting: Setting)
      ensures this.cluster == cluster && this.setting == setting && Fresh()
    {
      this.cluster, this.setting := cluster, setting;
      capsulePlan, egressAdded, webhooksDeleted, backupSaved := [], [], false, false;
      recoveryStart := 0;
    }

    ghost predicate Fresh()
      reads this
    {
      capsulePlan == [] && egressAdded == [] && !webhooksDeleted
    }

    ghost function Ledger(): Books
      reads this
    {
      Books(capsulePlan, egressAdded, webhooksDeleted, backupSaved)
    }

    /** Where a run that is started now starts. */
    ghost function Here(): Origin
      reads cluster
    {
      Origin(cluster.world, cluster.calls, setting, cluster.fails)
    }

    /** This run is the one that started at `o`. */
    ghost predicate StartedAt(o: Origin) {
      o.Valid() && o.s == setting && o.fails == cluster.fails
    }

    // ---------------------------------------------------------------- the helpers

    /** A helper that is one request as far as the temporary changes are concerned. */
    method Step(at: Helper, next: World) returns (r: Outcome)
      modifies cluster
      ensures cluster.calls == old(cluster.calls) + 1 && (r.Done? <==> !cluster.fails(old(cluster.calls)))
      ensures r.Done? ==> cluster.world == next
      ensures r.Raised? ==> r == Raised(at, 0) && cluster.world == old(cluster.world)
    {
      var ok := cluster.Request(next);
      r := if ok then Done else Raised(at, 0);
    }

    method StopTheOperator() returns (r: Outcome)
      modifies cluster
      ensures old(cluster.calls) < cluster.calls <= old(cluster.calls) + 2 && (if r.Done? then cluster.Quiet(old(cluster.calls)) else cluster.fails(cluster.calls - 1))
      ensures r.Done? ==> cluster.world == old(cluster.world).(suspended := true, operator := 0) && cluster.calls == old(cluster.calls) + 2
      ensures r.Raised? ==> r.at == StopOperator && cluster.world.(suspended := old(cluster.world.suspended)) == old(cluster.world)
    {
      var ok := cluster.Request(cluster.world.(suspended := true));
      if !ok {
        return Raised(StopOperator, 0);
      }
      ok := cluster.Request(cluster.world.(operator := 0));
      r := if ok then Done else Raised(StopOperator, 1);
    }

    /** The look-ups of capsule_exclude_clusterctl_namespaces(): none of them raises. */
    method LookUpTargets() returns (targets: set<nat>)
      requires setting.configured <= |cluster.world.capsule|
      modifies cluster
      ensures cluster.world == old(cluster.world)
      ensures targets == SeenBy(|cluster.world.capsule|, setting.configured, cluster.fails, old(cluster.calls))
      ensures cluster.calls == old(cluster.calls) + LookUps(|cluster.world.capsule|, setting.configured, cluster.fails, old(cluster.calls))
    {
      var found := cluster.Request(cluster.world);
      targets := {};
      if found && setting.configured > 0 {
        for t := 0 to setting.configured
          invariant targets == SeenBy(t, setting.configured, cluster.fails, old(cluster.calls))
        {
          targets := targets + {t};
        }
        assert targets == SeenBy(|cluster.world.capsule|, setting.configured, cluster.fails, old(cluster.calls));
        return;
      }
      for t := setting.configured to |cluster.world.capsule|
        invariant cluster.world == old(cluster.world) && cluster.calls == old(cluster.calls) + 1 + (t - setting.configured)
        invariant targets == SeenBy(t, setting.configured, cluster.fails, old(cluster.calls))
      {
        var answered := cluster.Request(cluster.world);
        if answered {
          targets := targets + {t};
        }
      }
    }

    /**
     capsule_exclude_clusterctl_namespaces(): the plan is only there if it returns.  The patches are numbered from the
     last look-up on, and the last request is the one that raises.
     */
    method ExcludeNamespaces(ghost was: Targets) returns (r: Outcome, plan: seq<Item>)
      requires AreLists(was) && cluster.world.capsule == was && setting.configured <= |was|
      modifies cluster
      ensures cluster.world == old(cluster.world).(capsule := cluster.world.capsule)
      ensures var seen := SeenBy(|was|, setting.configured, cluster.fails, old(cluster.calls));
              ExclusionEnds(was, seen, Waits(seen),
                            old(cluster.calls) + LookUps(|was|, setting.configured, cluster.fails, old(cluster.calls)),
                            cluster.fails, r, plan, cluster.world.capsule, cluster.calls)
    {
      hide HasHook, BackOf, ExcludedTarget, RestoredTarget;
      var targets := LookUpTargets();
      r, plan := ExcludeSeen(was, targets);
    }

    /** The loop over the targets, and the wait for Capsule to regenerate its webhooks. */
    method ExcludeSeen(ghost was: Targets, targets: set<nat>) returns (r: Outcome, plan: seq<Item>)
      requires AreLists(was) && cluster.world.capsule == was
      modifies cluster
      ensures cluster.world == old(cluster.world).(capsule := cluster.world.capsule)
      ensures ExclusionEnds(was, targets, Waits(targets), old(cluster.calls), cluster.fails, r, plan, cluster.world.capsule, cluster.calls)
    {
      hide HasHook, BackOf, ExcludedTarget, RestoredTarget;
      plan := [];
      ExcludingStarts(was, targets, cluster.fails, cluster.calls);
      var lists := cluster.world.capsule;
      for t := 0 to |lists|
        invariant cluster.world == old(cluster.world).(capsule := cluster.world.capsule)
        invariant Excluding(was, targets, t, cluster.fails, old(cluster.calls), plan, cluster.world.capsule, cluster.calls)
      {
        ghost var planned, now, calls := plan, cluster.world.capsule, cluster.calls;
        if t in targets {
          ExcludedAt(was, targets, t, t);
          var ok, more := ExcludeTarget(t, lists[t]);
          if !ok {
            HookedMore(was, targets, t + 1, |was|);
            ExclusionBroken(was, targets, Waits(targets), t, cluster.fails, old(cluster.calls), plan, now, calls);
            return Raised(Exclude, |plan|), plan;
          }
          plan := plan + more;
          ExcludingNext(was, targets, t, cluster.fails, old(cluster.calls), planned, now, calls, more);
        } else {
          ExcludingSkips(was, targets, t, cluster.fails, old(cluster.calls), plan, now, calls);
        }
      }
      r := AwaitRegeneration(was, targets, old(cluster.calls), plan);
    }

    /** Capsule generates its webhooks from a configuration that has been patched. */
    predicate Waits(targets: set<nat>) {
      setting.regenerates && 0 < setting.configured && 0 in targets
    }

    /** Gives up after two minutes. */
    method AwaitRegeneration(ghost was: Targets, targets: set<nat>, ghost first: nat, plan: seq<Item>) returns (r: Outcome)
      requires AreLists(was) && Excluding(was, targets, |was|, cluster.fails, first, plan, cluster.world.capsule, cluster.calls)
      modifies cluster
      ensures cluster.world == old(cluster.world)
      ensures ExclusionEnds(was, targets, Waits(targets), first, cluster.fails, r, plan, cluster.world.capsule, cluster.calls)
    {
      hide HasHook, BackOf, ExcludedTarget, RestoredTarget;
      ghost var calls := cluster.calls;
      if Waits(targets) {
        ExclusionBroken(was, targets, true, |was|, cluster.fails, first, plan, cluster.world.capsule, calls);
      }
      ExclusionComplete(was, targets, cluster.fails, first, plan, cluster.world.capsule, calls);
      var ok := true;
      if Waits(targets) {
        ok := cluster.Request(cluster.world);
      }
      r := if ok then Done else Raised(Exclude, |plan|);
    }

    /** The loop body: a target without a namespace webhook is not patched, and adds nothing to the plan. */
    method ExcludeTarget(t: nat, target: Json) returns (ok: bool, more: seq<Item>)
      requires target.List? && t < |cluster.world.capsule| && cluster.world.capsule[t] == target
      modifies cluster
      ensures cluster.calls == old(cluster.calls) + if HasHook(target) then 1 else 0
      ensures ok <==> !(HasHook(target) && cluster.fails(old(cluster.calls)))
      ensures ok ==> ItemsOf(t, target, more)
      ensures cluster.world == if ok && HasHook(target)
                               then old(cluster.world).(capsule := old(cluster.world.capsule)[t := ExcludedTarget(target)])
                               else old(cluster.world)
    {
      var patch, back, ix := BuildPatches([], target.items);
      TargetExcluded(target, ix);
      if patch == [] {
        return true, [];
      }
      var next := ApplyAll(target, patch);
      ok := cluster.Request(cluster.world.(capsule := cluster.world.capsule[t := next.value]));
      more := [Item(t, back)];
    }

    /**
     capsule_restore() on targets of which the plan has already restored the first `m`.  Items are patched again
     in order; the server rejects one whose patch removes a selector that is already gone.
     */
    method RestoreTheCapsule(plan: seq<Item>, ghost was: Targets, ghost seen: set<nat>, ghost m: nat) returns (r: Outcome)
      requires AreLists(was) && forall t: nat | t < |was| :: KeysDistinct(was[t])
      requires plan != [] ==>
        PlanOf(was, seen, |was|, plan) && m <= |plan| && cluster.world.capsule == RestoredUpTo(was, seen, plan, m)
      modifies cluster
      ensures cluster.world == old(cluster.world).(capsule := cluster.world.capsule) && old(cluster.calls) <= cluster.calls
      ensures r.Done? ==> cluster.calls == old(cluster.calls) + |plan|
      ensures plan == [] ==> r.Done? && cluster.world == old(cluster.world)
      ensures plan != [] && r.Done? ==> cluster.world.capsule == AllRestored(was, seen, |was|)
      ensures r.Raised? ==>
        r.at == RestoreCapsule && r.applied < |plan|
        && cluster.world.capsule == RestoredUpTo(was, seen, plan, Later(m, r.applied))
      ensures plan != [] ==>
        (r.Done? <==> !Rejected(was, seen, plan, m) && NoneFails(cluster.fails, old(cluster.calls), old(cluster.calls) + |plan|))
      ensures plan != [] && r.Raised? ==> Rejected(was, seen, plan, m) || !cluster.Quiet(old(cluster.calls))
    {
      hide HasHook, BackOf, ExcludedTarget, RestoredTarget;
      r := Done;
      if plan != [] {
        r := RunPlan(plan, was, seen, m);
        PlanEnds(was, seen, plan);
      }
    }

    method RunPlan(plan: seq<Item>, ghost was: Targets, ghost seen: set<nat>, ghost m: nat) returns (r: Outcome)
      requires AreLists(was) && forall t: nat | t < |was| :: KeysDistinct(was[t])
      requires Restoring(was, seen, plan, m, 0, cluster.world.capsule)
      modifies cluster
      ensures cluster.world == old(cluster.world).(capsule := cluster.world.capsule)
      ensures r.Done? ==>
        Restoring(was, seen, plan, m, |plan|, cluster.world.capsule)
        && cluster.calls == old(cluster.calls) + |plan| && cluster.Quiet(old(cluster.calls))
      ensures r.Raised? ==>
        r.at == RestoreCapsule && r.applied < |plan| && Restoring(was, seen, plan, m, r.applied, cluster.world.capsule)
        && cluster.calls == old(cluster.calls) + r.applied + 1
        && ((r.applied < m && Removes(was[plan[r.applied].target])) || cluster.fails(old(cluster.calls) + r.applied))
    {
      hide HasHook, BackOf, ExcludedTarget, RestoredTarget;
      for p := 0 to |plan|
        invariant cluster.calls == old(cluster.calls) + p && cluster.Quiet(old(cluster.calls))
        invariant cluster.world == old(cluster.world).(capsule := cluster.world.capsule)
        invariant Restoring(was, seen, plan, m, p, cluster.world.capsule)
      {
        var ok := RestoreItem(plan, was, seen, m, p);
        if !ok {
          return Raised(RestoreCapsule, p);
        }
      }
      r := Done;
    }

    /** One request of capsule_restore(); a patch that does not apply is rejected. */
    method RestoreItem(plan: seq<Item>, ghost was: Targets, ghost seen: set<nat>, ghost m: nat, p: nat) returns (ok: bool)
      requires AreLists(was) && p < |plan| && Restoring(was, seen, plan, m, p, cluster.world.capsule)
      requires forall t: nat | t < |was| :: KeysDistinct(was[t])
      modifies cluster
      ensures cluster.calls == old(cluster.calls) + 1
      ensures ok <==> !cluster.fails(old(cluster.calls)) && !(p < m && Removes(was[plan[p].target]))
      ensures cluster.world == old(cluster.world).(capsule := cluster.world.capsule)
      ensures Restoring(was, seen, plan, m, if ok then p + 1 else p, cluster.world.capsule)
    {
      hide HasHook, BackOf, ExcludedTarget, RestoredTarget;
      RunItemFrom(was, seen, plan, m, p);
      var next := RunItem(cluster.world.capsule, plan[p]);
      ok := cluster.Request(if next.Some? then cluster.world.(capsule := next.value) else cluster.world);
      ok := ok && next.Some?;
    }

    /**
     kubeadm_egress_allow(): errors of the look-up are ignored, so a policy whose look-up fails is applied again and
     recorded as this run's own.
     */
    method AllowEgress() returns (r: Outcome, added: seq<string>)
      modifies cluster
      ensures cluster.world == old(cluster.world).(egress := old(cluster.world.egress) + Elems(added))
      ensures var was, from := old(cluster.world.egress), old(cluster.calls);
              var refused := Refusal(was, cluster.fails, from, 0);
              && added == Allowed(was, cluster.fails, from, refused)
              && (r.Done? <==> refused == |KUBEADM_NAMESPACES|)
              && (r.Raised? ==> r == Raised(EgressAllow, |added|))
              && cluster.calls == LookUpOf(was, cluster.fails, from, refused) + if r.Done? then 0 else 2
    {
      ghost var was, from := cluster.world.egress, cluster.calls;
      added := [];
      for j := 0 to |KUBEADM_NAMESPACES|
        invariant cluster.world == old(cluster.world).(egress := was + Elems(added))
        invariant added == Allowed(was, cluster.fails, from, j) && cluster.calls == LookUpOf(was, cluster.fails, from, j)
        invariant Refusal(was, cluster.fails, from, 0) == Refusal(was, cluster.fails, from, j)
      {
        var ns := KUBEADM_NAMESPACES[j];
        NotYetAllowed(was, cluster.fails, from, j);
        var ok, applied := AllowIn(ns);
        if !ok {
          return Raised(EgressAllow, |added|), added;
        }
        if applied {
          added := added + [ns];
        }
      }
      r := Done;
    }

    /** The loop body: not `ok` is the exception of the second request. */
    method AllowIn(ns: string) returns (ok: bool, applied: bool)
      modifies cluster
      ensures applied <==> ns !in old(cluster.world.egress) || cluster.fails(old(cluster.calls))
      ensures ok <==> !(applied && cluster.fails(old(cluster.calls) + 1))
      ensures cluster.calls == old(cluster.calls) + if applied then 2 else 1
      ensures cluster.world == if ok && applied then old(cluster.world).(egress := old(cluster.world.egress) + {ns}) else old(cluster.world)
    {
      var answered := cluster.Request(cluster.world);
      ok, applied := true, !(answered && ns in cluster.world.egress);
      if applied {
        ok := cluster.Request(cluster.world.(egress := cluster.world.egress + {ns}));
      }
    }

    /** kubeadm_egress_remove(): a failed delete goes unnoticed, and that policy stays. */
    method RemoveEgress(added: seq<string>)
      modifies cluster
      ensures cluster.calls == old(cluster.calls) + |added|
      ensures cluster.world == old(cluster.world).(egress := old(cluster.world.egress) - Deleted(added, cluster.fails, old(cluster.calls)))
    {
      for j := 0 to |added|
        invariant cluster.calls == old(cluster.calls) + j
        invariant cluster.world == old(cluster.world).(egress := cluster.world.egress)
        invariant cluster.world.egress == old(cluster.world.egress) - Deleted(added[..j], cluster.fails, old(cluster.calls))
      {
        DeletedMore(added, cluster.fails, old(cluster.calls), j);
        var ok := cluster.Request(cluster.world.(egress := cluster.world.egress - {added[j]}));
      }
      assert added[..|added|] == added;
    }

    /** backup_and_delete_keoscluster_webhooks() */
    method DeleteTheWebhooks() returns (r: Outcome)
      modifies cluster, this`backupSaved
      ensures old(cluster.calls) <= cluster.calls && (cluster.Quiet(old(cluster.calls)) ==> r.Done?)
      ensures cluster.world == old(cluster.world).(webhooks := cluster.world.webhooks)
      ensures r.Done? ==> backupSaved && cluster.world.webhooks == old(cluster.world.webhooks) - HookNames()
      ensures r.Raised? ==>
        r.at == DeleteWebhooks && r.applied <= |KEOSCLUSTER_WEBHOOKS|
        && cluster.world.webhooks == old(cluster.world.webhooks) - Elems(KEOSCLUSTER_WEBHOOKS[..r.applied])
    {
      var ok := cluster.Request(cluster.world);
      if !ok {
        return Raised(DeleteWebhooks, 0);
      }
      backupSaved := true;
      for j := 0 to |KEOSCLUSTER_WEBHOOKS|
        invariant backupSaved && cluster.world == old(cluster.world).(webhooks := cluster.world.webhooks)
        invariant cluster.world.webhooks == old(cluster.world.webhooks) - Elems(KEOSCLUSTER_WEBHOOKS[..j])
        invariant old(cluster.calls) <= cluster.calls
      {
        ok := cluster.Request(cluster.world.(webhooks := cluster.world.webhooks - {KEOSCLUSTER_WEBHOOKS[j]}));
        if !ok {
          return Raised(DeleteWebhooks, j);
        }
        assert KEOSCLUSTER_WEBHOOKS[..j + 1] == KEOSCLUSTER_WEBHOOKS[..j] + [KEOSCLUSTER_WEBHOOKS[j]];
      }
      assert KEOSCLUSTER_WEBHOOKS[..|KEOSCLUSTER_WEBHOOKS|] == KEOSCLUSTER_WEBHOOKS;
      r := Done;
    }

    /** restore_keoscluster_webhooks(): creating may fail unnoticed, labelling what is not there may not. */
    method RestoreTheWebhooks() returns (r: Outcome)
      modifies cluster
      ensures cluster.world == old(cluster.world).(webhooks := cluster.world.webhooks)
      ensures old(cluster.world.webhooks) <= cluster.world.webhooks <= old(cluster.world.webhooks) + HookNames()
      ensures r.Done? ==> cluster.world.webhooks == if backupSaved then old(cluster.world.webhooks) + HookNames() else old(cluster.world.webhooks)
      ensures r.Raised? ==> r.at == RestoreWebhooks
      ensures cluster.Quiet(old(cluster.calls)) ==> r.Done?
      ensures old(cluster.calls) <= cluster.calls
    {
      if !backupSaved {
        return Done;
      }
      var missing := false;
      for j := 0 to |KEOSCLUSTER_WEBHOOKS|
        invariant old(cluster.calls) <= cluster.calls && cluster.world == old(cluster.world)
        invariant missing || forall k | k in KEOSCLUSTER_WEBHOOKS[..j] :: k in cluster.world.webhooks
      {
        var answered := cluster.Request(cluster.world);
        if !(answered && KEOSCLUSTER_WEBHOOKS[j] in cluster.world.webhooks) {
          missing := true;
        }
        assert KEOSCLUSTER_WEBHOOKS[..j + 1] == KEOSCLUSTER_WEBHOOKS[..j] + [KEOSCLUSTER_WEBHOOKS[j]];
      }
      if missing {
        var ok := cluster.Request(cluster.world.(webhooks := cluster.world.webhooks + HookNames()));
      }
      for j := 0 to |KEOSCLUSTER_WEBHOOKS|
        invariant old(cluster.calls) <= cluster.calls
        invariant cluster.world == old(cluster.world).(webhooks := cluster.world.webhooks)
        invariant old(cluster.world.webhooks) <= cluster.world.webhooks <= old(cluster.world.webhooks) + HookNames()
        invariant forall k | k in KEOSCLUSTER_WEBHOOKS[..j] :: k in cluster.world.webhooks
        invariant cluster.Quiet(old(cluster.calls)) ==> HookNames() <= cluster.world.webhooks
      {
        var ok := cluster.Request(cluster.world);
        if !ok || KEOSCLUSTER_WEBHOOKS[j] !in cluster.world.webhooks {
          return Raised(RestoreWebhooks, j);
        }
        assert KEOSCLUSTER_WEBHOOKS[..j + 1] == KEOSCLUSTER_WEBHOOKS[..j] + [KEOSCLUSTER_WEBHOOKS[j]];
      }
      assert KEOSCLUSTER_WEBHOOKS[..|KEOSCLUSTER_WEBHOOKS|] == KEOSCLUSTER_WEBHOOKS;
      r := Done;
    }

    /** upgrade_operator(): the HelmRelease is resumed with the new chart, which brings its own replicas. */
    method UpgradeTheOperator() returns (r: Outcome)
      modifies cluster
      ensures SameTemporary(old(cluster.world), cluster.world) && old(cluster.world.progress) <= cluster.world.progress
      ensures r.Done? ==> !cluster.world.suspended && cluster.world.operator == setting.chartReplicas
      ensures r.Raised? ==> r.at == UpgradeOperator
      ensures old(cluster.calls) <= cluster.calls && (cluster.Quiet(old(cluster.calls)) ==> r.Done?)
    {
      r := Done;
      :- Step(UpgradeOperator, cluster.world);
      :- Step(UpgradeOperator, cluster.world.(suspended := false, progress := cluster.world.progress + [ChartUpgraded]));
      :- Step(UpgradeOperator, cluster.world.(operator := setting.chartReplicas));
    }

    method RestartTheAutoscaler() returns (r: Outcome)
      modifies cluster
      ensures cluster.world == old(cluster.world).(autoscaler := cluster.world.autoscaler)
      ensures r.Done? ==> cluster.world.autoscaler == if setting.autoscaler == 0 then old(cluster.world.autoscaler) else setting.autoscaler
      ensures r.Raised? ==> r.at == RestartAutoscaler
      ensures old(cluster.calls) <= cluster.calls && (cluster.Quiet(old(cluster.calls)) ==> r.Done?)
    {
      if setting.autoscaler == 0 {
        return Done;
      }
      :- Step(RestartAutoscaler, cluster.world.(autoscaler := setting.autoscaler));
      :- Step(RestartAutoscaler, cluster.world);
      r := Done;
    }

    // ---------------------------------------------------------------- the run

    /** A helper that leaves the temporary changes alone keeps its stage, whether it returns or raises. */
    method Advance(ghost o: Origin, at: Helper, next: World) returns (r: Outcome)
      requires StartedAt(o) && Mirror(o, StageOf(at), cluster.world, Ledger())
      requires SameTemporary(next, cluster.world) && cluster.world.progress <= next.progress
      requires at !in {Exclude, EgressAllow, RestoreCapsule, DeleteWebhooks, RestoreWebhooks}
      modifies cluster
      ensures Mirror(o, StageOf(at), cluster.world, Ledger()) && (r.Raised? ==> r.at == at && LeftBy(o, cluster.world, Ledger(), r))
      ensures cluster.world == if r.Done? then next else old(cluster.world)
      ensures cluster.calls == old(cluster.calls) + 1 && (r.Done? <==> !cluster.fails(old(cluster.calls)))
    {
      r := Step(at, next);
    }

    method StopControllers() returns (r: Outcome)
      modifies cluster
      ensures r.Raised? ==> r.at == StopAutoscaler || r.at == StopOperator
      ensures SameTemporary(old(cluster.world), cluster.world) && cluster.world.progress == old(cluster.world.progress)
      ensures old(cluster.calls) < cluster.calls <= old(cluster.calls) + old(Here()).Stops()
      ensures r.Done? ==> cluster.calls == old(cluster.calls) + old(Here()).Stops()
      ensures if r.Done? then cluster.Quiet(old(cluster.calls)) else cluster.fails(cluster.calls - 1)
    {
      if setting.autoscaler > 0 {
        r := Step(StopAutoscaler, cluster.world.(autoscaler := 0));
        if r.Raised? {
          return;
        }
      }
      r := StopTheOperator();
    }

    /** The exclusion, with its plan kept if it returns. */
    method ExcludeAndPlan(ghost o: Origin) returns (r: Outcome)
      requires StartedAt(o) && !setting.atTarget && cluster.calls == o.from + o.Stops()
      requires cluster.world.capsule == o.was.capsule && capsulePlan == []
      modifies this`capsulePlan, cluster
      ensures cluster.world == old(cluster.world).(capsule := cluster.world.capsule)
      ensures ExcludedOrNot(o, cluster.world.capsule, capsulePlan, r)
      ensures r.Done? ==> cluster.calls == o.AdmissionNumber() && NoneFails(o.fails, o.FirstPatch(), cluster.calls)
      ensures r.Raised? ==> o.from < cluster.calls <= o.AdmissionNumber() && cluster.fails(cluster.calls - 1)
      ensures forall a: nat | PatchFails(o.was.capsule, setting.configured, cluster.fails, old(cluster.calls), a) :: r == Raised(Exclude, a)
    {
      hide HasHook, BackOf, ExcludedTarget, RestoredTarget;
      var plan;
      r, plan := ExcludeNamespaces(o.was.capsule);
      capsulePlan := if r.Done? then plan else [];
      ExclusionBreaks(o.was.capsule, o.Seen(), o.Waits(), old(cluster.calls), setting.configured, cluster.fails, r, plan,
                      cluster.world.capsule, cluster.calls);
    }

    /** The (a+1)-th patch of the exclusion is the first request of the run that fails. */
    ghost predicate BreaksExclusion(o: Origin, a: nat)
      requires o.Valid()
    {
      && !o.s.atTarget && NoneFails(o.fails, o.from, o.from + o.Stops())
      && PatchFails(o.was.capsule, o.s.configured, o.fails, o.from + o.Stops(), a)
    }

    /** Stopping the controllers and excluding the namespaces. */
    method StopAndExclude(ghost o: Origin) returns (r: Outcome)
      requires StartedAt(o) && o == Here() && Fresh()
      modifies this`capsulePlan, cluster
      ensures cluster.world.egress == o.was.egress && cluster.world.webhooks == o.was.webhooks && cluster.world.progress == o.was.progress
      ensures ExcludedOrNot(o, cluster.world.capsule, capsulePlan, r)
      ensures r.Done? ==> cluster.calls == o.AdmissionNumber()
      ensures r.Raised? ==> o.from < cluster.calls <= o.AdmissionNumber() && cluster.fails(cluster.calls - 1)
      ensures forall a: nat | BreaksExclusion(o, a) :: r == Raised(Exclude, a)
    {
      r := StopControllers();
      if setting.atTarget {
        NothingSeen(o);
      } else if r.Done? {
        r := ExcludeAndPlan(o);
      }
    }

    method Prepare(ghost o: Origin) returns (r: Outcome)
      requires StartedAt(o) && o == Here() && Fresh()
      modifies this, cluster
      ensures r.Done? ==> Mirror(o, EgressOpen, cluster.world, Ledger()) && cluster.calls == o.MigrationStart()
      ensures r.Raised? ==> LeftBy(o, cluster.world, Ledger(), r) && RaisedWithin(o, r, cluster.calls)
      ensures cluster.world.progress == o.was.progress && o.from <= cluster.calls
      ensures forall a: nat | BreaksExclusion(o, a) :: r == Raised(Exclude, a)
    {
      hide PlanOf, ExcludedUpTo, PartlyExcluded, LookUpOf, Allowed, Refusal;
      r := Done;
      :- StopAndExclude(o);
      assert Mirror(o, ExclusionOn, cluster.world, Ledger());
      :- Advance(o, AdmissionCheck, cluster.world);
      if setting.managed && !setting.atTarget {
        r := OpenEgress(o);
      }
    }

    method OpenEgress(ghost o: Origin) returns (r: Outcome)
      requires StartedAt(o) && o.Allows() && cluster.calls == o.AllowStart() && Mirror(o, ExclusionOn, cluster.world, Ledger())
      modifies cluster, this`egressAdded
      ensures r.Done? ==> Mirror(o, EgressOpen, cluster.world, Ledger()) && cluster.calls == o.MigrationStart()
      ensures r.Raised? ==> r.at == EgressAllow && LeftBy(o, cluster.world, Ledger(), r) && RaisedWithin(o, r, cluster.calls)
      ensures cluster.world == old(cluster.world).(egress := cluster.world.egress) && old(cluster.calls) <= cluster.calls
    {
      hide PlanOf, ExcludedUpTo;
      var added;
      r, added := AllowEgress();
      if r.Done? {
        egressAdded := added;
      }
    }

    method MigrateProviders(ghost o: Origin) returns (r: Outcome)
      requires StartedAt(o) && Mirror(o, EgressOpen, cluster.world, Ledger())
      modifies cluster
      ensures Mirror(o, EgressOpen, cluster.world, Ledger())
      ensures r.Raised? ==> LeftBy(o, cluster.world, Ledger(), r) && StageOf(r.at).EgressOpen? && !cluster.Quiet(old(cluster.calls))
      ensures r.Done? ==> cluster.calls == old(cluster.calls) + o.Phases()
      ensures old(cluster.world.progress) <= cluster.world.progress
      ensures old(cluster.calls) <= cluster.calls
    {
      hide CapsuleMirrored, EgressMirrored, WebhooksMirrored, CapsuleLeft, EgressLeft, WebhooksLeft;
      r := Done;
      if !setting.atTarget {
        r := MigrateKubeadm(o);
        if r.Done? && setting.azure {
          r := Advance(o, LabelCrds, cluster.world.(progress := cluster.world.progress + [CrdsLabelled]));
        }
        if r.Done? {
          r := Advance(o, Phase2, cluster.world.(progress := cluster.world.progress + [Phase2Applied]));
        }
      }
    }

    method MigrateKubeadm(ghost o: Origin) returns (r: Outcome)
      requires StartedAt(o) && Mirror(o, EgressOpen, cluster.world, Ledger())
      modifies cluster
      ensures Mirror(o, EgressOpen, cluster.world, Ledger())
      ensures r.Raised? ==> r.at == Phase1 && LeftBy(o, cluster.world, Ledger(), r) && !cluster.Quiet(old(cluster.calls))
      ensures r.Done? ==> cluster.calls == old(cluster.calls) + if setting.phase1 then 2 else 0
      ensures old(cluster.world.progress) <= cluster.world.progress
      ensures old(cluster.calls) <= cluster.calls
    {
      hide CapsuleMirrored, EgressMirrored, WebhooksMirrored, CapsuleLeft, EgressLeft, WebhooksLeft;
      r := Done;
      if setting.phase1 {
        r := Advance(o, Phase1, cluster.world.(progress := cluster.world.progress + [Phase1Applied]));
        if r.Done? {
          r := Advance(o, Phase1, cluster.world);
        }
      }
    }

    method UnwindCapsule(ghost o: Origin) returns (r: Outcome)
      requires StartedAt(o) && Mirror(o, EgressOpen, cluster.world, Ledger())
      modifies cluster, this`capsulePlan
      ensures r.Done? ==> Mirror(o, CapsuleBack, cluster.world, Ledger()) && cluster.calls == old(cluster.calls) + o.Patches()
      ensures r.Raised? ==> r.at == RestoreCapsule && LeftBy(o, cluster.world, Ledger(), r) && !cluster.Quiet(old(cluster.calls))
      ensures cluster.world == old(cluster.world).(capsule := cluster.world.capsule) && old(cluster.calls) <= cluster.calls
    {
      hide HasHook, BackOf, ExcludedTarget, RestoredTarget, ExcludedUpTo, AllRestored;
      PlanEnds(o.was.capsule, o.Seen(), capsulePlan);
      PlanLength(o.was.capsule, o.Seen(), |o.was.capsule|, capsulePlan);
      r := RestoreTheCapsule(capsulePlan, o.was.capsule, o.Seen(), 0);
      if r.Done? {
        capsulePlan := [];
      }
    }

    /** kubeadm_egress_remove() and the flag it clears. */
    method CloseEgress(ghost o: Origin)
      requires StartedAt(o) && Mirror(o, CapsuleBack, cluster.world, Ledger()) && cluster.calls == o.DeleteStart()
      modifies cluster, this`egressAdded
      ensures Mirror(o, EgressShut, cluster.world, Ledger())
      ensures cluster.world == old(cluster.world).(egress := cluster.world.egress)
      ensures cluster.calls == o.DeleteStart() + |o.Added()|
    {
      RemoveEgress(egressAdded);
      egressAdded := [];
    }

    /** Takes Capsule and the policies back. */
    method UnwindChanges(ghost o: Origin) returns (r: Outcome)
      requires StartedAt(o) && Mirror(o, EgressOpen, cluster.world, Ledger()) && cluster.calls == o.MigrationStart() + o.Phases()
      modifies this`capsulePlan, this`egressAdded, cluster
      ensures r.Done? ==> Mirror(o, EgressShut, cluster.world, Ledger()) && cluster.calls == o.DeleteStart() + |o.Added()|
      ensures r.Raised? ==> LeftBy(o, cluster.world, Ledger(), r) && !cluster.Quiet(old(cluster.calls)) && PastAllowing(r) && !RunDeletes(r)
      ensures old(cluster.world.progress) <= cluster.world.progress && old(cluster.calls) <= cluster.calls
    {
      hide CapsuleMirrored, EgressMirrored, WebhooksMirrored, CapsuleLeft, EgressLeft, WebhooksLeft, Origin.MigrationStart, Origin.Patches;
      r := Done;
      :- UnwindCapsule(o);
      :- Advance(o, RestoreReplicas, cluster.world.(progress := cluster.world.progress + [ReplicasRestored]));
      CloseEgress(o);
    }

    /** Takes the temporary changes back on the way to a normal end. */
    method Unwind(ghost o: Origin) returns (r: Outcome)
      requires StartedAt(o) && Mirror(o, EgressOpen, cluster.world, Ledger()) && cluster.calls == o.MigrationStart() + o.Phases()
      modifies this`capsulePlan, this`egressAdded, cluster
      ensures r.Done? ==> Mirror(o, EgressShut, cluster.world, Ledger()) && o.DeleteStart() + |o.Added()| <= cluster.calls
      ensures r.Raised? ==> LeftBy(o, cluster.world, Ledger(), r) && RaisedWithin(o, r, cluster.calls) && PastAllowing(r)
      ensures old(cluster.world.progress) <= cluster.world.progress && old(cluster.calls) <= cluster.calls
    {
      hide CapsuleMirrored, EgressMirrored, WebhooksMirrored, LeftBy, Origin.MigrationStart, Origin.DeleteStart, Origin.Phases;
      DeletesAfter(o);
      r := Done;
      :- UnwindChanges(o);
      :- Advance(o, ReportGates, cluster.world);
      :- Advance(o, MigrateStorage, cluster.world.(progress := cluster.world.progress + [StorageMigrated]));
    }

    method StripWebhooks(ghost o: Origin) returns (r: Outcome)
      requires StartedAt(o) && Mirror(o, EgressShut, cluster.world, Ledger())
      modifies cluster, this`webhooksDeleted, this`backupSaved
      ensures r.Done? ==> Mirror(o, WebhooksGone, cluster.world, Ledger())
      ensures r.Raised? ==> LeftBy(o, cluster.world, Ledger(), r) && !cluster.Quiet(old(cluster.calls)) && RunDeletes(r)
      ensures cluster.world.progress == old(cluster.world.progress) && old(cluster.calls) <= cluster.calls
    {
      hide PlanOf, ExcludedUpTo, AllRestored, Closed, Origin.Added, Origin.DeleteStart;
      r := DeleteTheWebhooks();
      if r.Done? {
        webhooksDeleted := true;
      }
    }

    method BringWebhooksBack(ghost o: Origin) returns (r: Outcome)
      requires StartedAt(o) && Mirror(o, WebhooksGone, cluster.world, Ledger())
      modifies cluster, this`webhooksDeleted
      ensures r.Done? ==> Mirror(o, WebhooksBack, cluster.world, Ledger())
      ensures r.Raised? ==> LeftBy(o, cluster.world, Ledger(), r) && !cluster.Quiet(old(cluster.calls)) && RunDeletes(r)
      ensures cluster.world.progress == old(cluster.world.progress) && old(cluster.calls) <= cluster.calls
    {
      hide PlanOf, ExcludedUpTo, AllRestored, Closed, Origin.Added, Origin.DeleteStart;
      r := RestoreTheWebhooks();
      if r.Done? {
        webhooksDeleted := false;
      }
    }

    /** The stretch in which the webhooks are gone. */
    method ChangeConfig(ghost o: Origin) returns (r: Outcome)
      requires StartedAt(o) && Mirror(o, EgressShut, cluster.world, Ledger())
      modifies cluster, this`webhooksDeleted, this`backupSaved
      ensures r.Done? ==> Mirror(o, WebhooksBack, cluster.world, Ledger())
      ensures r.Raised? ==> LeftBy(o, cluster.world, Ledger(), r) && !cluster.Quiet(old(cluster.calls)) && RunDeletes(r)
      ensures old(cluster.world.progress) <= cluster.world.progress && old(cluster.calls) <= cluster.calls
    {
      hide CapsuleMirrored, EgressMirrored, WebhooksMirrored, LeftBy;
      r := Done;
      :- StripWebhooks(o);
      :- Advance(o, UpdateConfig, cluster.world.(progress := cluster.world.progress + [ConfigUpdated]));
      r := BringWebhooksBack(o);
    }

    method Finish(ghost o: Origin) returns (r: Outcome)
      requires StartedAt(o) && Mirror(o, WebhooksBack, cluster.world, Ledger())
      modifies cluster
      ensures Mirror(o, WebhooksBack, cluster.world, Ledger())
      ensures r.Raised? ==> LeftBy(o, cluster.world, Ledger(), r) && !cluster.Quiet(old(cluster.calls)) && RunDeletes(r)
      ensures r.Done? ==> !cluster.world.suspended && cluster.world.operator == setting.chartReplicas
                          && (setting.autoscaler > 0 ==> cluster.world.autoscaler == setting.autoscaler)
      ensures old(cluster.world.progress) <= cluster.world.progress && old(cluster.calls) <= cluster.calls
    {
      hide PlanOf, ExcludedUpTo, AllRestored, Closed, Origin.Added, Origin.DeleteStart;
      r := Done;
      :- UpgradeTheOperator();
      :- RestartTheAutoscaler();
      :- Advance(o, WaitReady, cluster.world);
    }

    /** The try block. */
    method Attempt(ghost o: Origin) returns (r: Outcome)
      requires StartedAt(o) && o == Here() && Fresh()
      modifies this, cluster
      ensures r.Done? ==> Mirror(o, WebhooksBack, cluster.world, Ledger()) && o.DeleteStart() + |o.Added()| <= cluster.calls
      ensures r.Done? ==> !cluster.world.suspended && cluster.world.operator == setting.chartReplicas
                          && (setting.autoscaler > 0 ==> cluster.world.autoscaler == setting.autoscaler)
      ensures r.Raised? ==> LeftBy(o, cluster.world, Ledger(), r) && RaisedWithin(o, r, cluster.calls)
      ensures o.was.progress <= cluster.world.progress && o.from <= cluster.calls
      ensures forall a: nat | BreaksExclusion(o, a) :: r == Raised(Exclude, a)
    {
      hide Mirror, LeftBy, Origin.MigrationStart, Origin.AllowStart, Origin.RefusedAt, BreaksExclusion, Origin.Phases;
      r := Prepare(o);
      if r.Done? {
        r := Migrate(o);
      }
    }

    /** What follows the preparation: no request before it matters any more. */
    method Migrate(ghost o: Origin) returns (r: Outcome)
      requires StartedAt(o) && Mirror(o, EgressOpen, cluster.world, Ledger()) && cluster.calls == o.MigrationStart()
      modifies this, cluster
      ensures r.Done? ==> Mirror(o, WebhooksBack, cluster.world, Ledger()) && o.DeleteStart() + |o.Added()| <= cluster.calls
      ensures r.Done? ==> !cluster.world.suspended && cluster.world.operator == setting.chartReplicas
                          && (setting.autoscaler > 0 ==> cluster.world.autoscaler == setting.autoscaler)
      ensures r.Raised? ==> LeftBy(o, cluster.world, Ledger(), r) && RaisedWithin(o, r, cluster.calls) && PastAllowing(r)
      ensures old(cluster.world.progress) <= cluster.world.progress && old(cluster.calls) <= cluster.calls
    {
      hide Mirror, LeftBy, Origin.MigrationStart, Origin.AllowStart, Origin.RefusedAt, Origin.Phases, Origin.DeleteStart, Origin.Added;
      DeletesAfter(o);
      r := Done;
      :- MigrateProviders(o);
      :- Unwind(o);
      :- ChangeConfig(o);
      r := Finish(o);
    }

    // ---------------------------------------------------------------- the recovery

    /** The recovery after capsule_restore(). */
    method RecoverRest() returns (ok: bool)
      modifies cluster
      ensures old(cluster.calls) + |egressAdded| <= cluster.calls
      ensures cluster.world.capsule == old(cluster.world.capsule) && cluster.world.progress == old(cluster.world.progress)
      ensures cluster.world.egress == old(cluster.world.egress) - Deleted(egressAdded, cluster.fails, old(cluster.calls))
      ensures old(cluster.world.webhooks) <= cluster.world.webhooks <= old(cluster.world.webhooks) + HookNames()
      ensures ok || !webhooksDeleted ==>
        cluster.world.webhooks == if webhooksDeleted && backupSaved then old(cluster.world.webhooks) + HookNames() else old(cluster.world.webhooks)
      ensures ok ==> cluster.world.operator == 2 && (setting.autoscaler > 0 ==> cluster.world.autoscaler == setting.autoscaler)
      ensures cluster.Quiet(old(cluster.calls)) ==> ok && ControllersRun(setting, cluster.world)
    {
      RemoveEgress(egressAdded);
      if webhooksDeleted {
        var o := RestoreTheWebhooks();
        if o.Raised? {
          return false;
        }
      }
      var resumed := cluster.Request(cluster.world.(suspended := false));
      ok := cluster.Request(cluster.world.(operator := 2));
      if ok && setting.autoscaler > 0 {
        ok := cluster.Request(cluster.world.(autoscaler := setting.autoscaler));
      }
    }

    /** capsule_restore() in the recovery. */
    method RestoreAgain(ghost o: Origin, ghost r: Outcome) returns (restored: bool)
      requires StartedAt(o) && r.Raised? && LeftBy(o, cluster.world, Ledger(), r)
      modifies cluster
      ensures cluster.world == old(cluster.world).(capsule := cluster.world.capsule) && old(cluster.calls) <= cluster.calls
      ensures restored <==> RestoresCapsule(o, r, old(cluster.calls))
      ensures restored ==> cluster.calls == old(cluster.calls) + ItemsLeft(o, r) && CapsuleEnds(o, r, cluster.world.capsule)
      ensures cluster.Quiet(old(cluster.calls)) && !restored ==> Stuck(o, r)
    {
      hide HasHook, BackOf, ExcludedTarget, RestoredTarget, ExcludedUpTo, AllRestored, EgressLeft, WebhooksLeft;
      PlanWhenCaught(o, cluster.world.capsule, capsulePlan, r);
      var again := RestoreTheCapsule(capsulePlan, o.was.capsule, o.Seen(), AlreadyRun(r));
      restored := again.Done?;
    }

    /** The except block, up to the exit; not `recovered` is the inner exception. */
    method Recover(ghost o: Origin, ghost r: Outcome) returns (recovered: bool)
      requires StartedAt(o) && r.Raised? && LeftBy(o, cluster.world, Ledger(), r)
      modifies cluster
      ensures old(cluster.calls) <= cluster.calls && cluster.world.progress == old(cluster.world.progress)
      ensures cluster.world.egress == EgressEnd(o, r, old(cluster.calls))
      ensures cluster.Quiet(old(cluster.calls)) ==> (recovered <==> !Stuck(o, r))
      ensures cluster.Quiet(old(cluster.calls)) && recovered ==> RecoveredFrom(o, r, old(cluster.calls), cluster.world)
      ensures recovered ==> DeletesBy(o, r, old(cluster.calls), cluster.calls)
    {
      hide CapsuleLeft, CapsuleEnds, Stuck, Closed, Deleted, Origin.Added;
      ghost var left := cluster.world;
      var restored := RestoreAgain(o, r);
      EgressUnderRecovery(o, r, old(cluster.calls), left.egress, egressAdded);
      if !restored {
        return false;
      }
      recovered := RecoverRest();
      WebhooksUnderRecovery(o.was.webhooks, left.webhooks, Ledger(), r);
    }

    /**
     The guarded run, for every fate of its requests.  The policies in the end are known in all cases; they are as
     before exactly if the failing look-ups, creations and deletes match.  If it ends normally, Capsule is as before
     and both webhooks exist.  If it raises and no request of the recovery fails, the recovery fails exactly if it gets
     stuck on an interrupted restore; otherwise it comes to what `RecoveredFrom` says, and everything is as before
     exactly when there is no gap.  What was achieved is never taken back.
     */
    method Execute() returns (r: Outcome, recovered: bool)
      requires Here().Valid() && FreshSelectors(cluster.world.capsule) && Fresh()
      modifies this, cluster
      ensures old(cluster.world.progress) <= cluster.world.progress
      ensures cluster.world.egress == EgressEnd(old(Here()), r, recoveryStart)
      ensures cluster.world.egress == old(cluster.world.egress) <==> EgressKept(old(Here()), r, recoveryStart)
      ensures r.Done? ==>
        CapsuleAsBefore(old(cluster.world.capsule), cluster.world.capsule)
        && cluster.world.webhooks == old(cluster.world.webhooks) + HookNames()
        && !cluster.world.suspended && cluster.world.operator == setting.chartReplicas
        && (setting.autoscaler > 0 ==> cluster.world.autoscaler == setting.autoscaler)
      ensures r.Raised? ==> RaisedWithin(old(Here()), r, recoveryStart)
      ensures r.Raised? && cluster.Quiet(recoveryStart) ==> (recovered <==> !Stuck(old(Here()), r))
      ensures r.Raised? && cluster.Quiet(recoveryStart) && recovered ==>
        && RecoveredFrom(old(Here()), r, recoveryStart, cluster.world)
        && (CapsuleAsBefore(old(cluster.world.capsule), cluster.world.capsule) <==> !(r.at == Exclude && r.applied > 0))
        && (AsBefore(old(cluster.world), cluster.world, setting) <==> !Gap(old(Here()), r, recoveryStart))
      ensures cluster.Quiet(old(cluster.calls)) ==> r.Done? && cluster.world.egress == old(cluster.world.egress)
      ensures (old(Here()).Allows() ==> LookUpsAnswer(old(cluster.world.egress), cluster.fails, old(Here()).AllowStart()))
              && AfterAllowing(r) && (r.Raised? ==> recovered && cluster.Quiet(recoveryStart))
              && (RunDeletes(r) ==> NoneFails(cluster.fails, old(Here()).DeleteStart(), old(Here()).DeleteStart() + |old(Here()).Added()|))
              ==> cluster.world.egress == old(cluster.world.egress)
      ensures forall a: nat | BreaksExclusion(old(Here()), a) :: r == Raised(Exclude, a)
    {
      hide Mirror, LeftBy, EgressEnd, EgressKept, RaisedWithin, Stuck, Gap, BreaksExclusion, FreshSelectors, AsBefore, RecoveredFrom, CapsuleAsBefore;
      ghost var o := Here();
      recovered := false;
      r := Attempt(o);
      recoveryStart := cluster.calls;
      if r.Raised? {
        recovered := Recover(o, r);
        if recovered && cluster.Quiet(recoveryStart) {
          RecoveryIsExact(o, r, recoveryStart, cluster.world);
        }
      } else {
        NormalEnd(o, cluster.world, Ledger(), recoveryStart);
      }
      if cluster.Quiet(o.from) {
        QuietRun(o, r, recoveryStart, cluster.calls);
      }
      EgressKeptIff(o, r, recoveryStart);
      CleanRun(o, r, recoveryStart, recovered, cluster.calls);
    }
  }

  // ---------------------------------------------------------------- a run that ends in a gap

  /** A webhook with a rule for namespaces and no selector. */
  function BareHook(): Json {
    Dict([("rules", List([Dict([("resources", List([Scalar(Str("namespaces"))]))])]))])
  }

  lemma BareHookIsExposed()
    ensures NamespaceHook(BareHook()) && DistinctKeys(BareHook()) && Lookup(BareHook(), SELECTOR) == None
    ensures HasHook(List([BareHook()]))
  {
    var rule := Dict([("resources", List([Scalar(Str("namespaces"))]))]);
    assert Lookup(rule, "resources") == Some(List([Scalar(Str("namespaces"))]));
    assert Scalar(Str("namespaces")) in [Scalar(Str("namespaces"))];
    assert NamesNamespaces(rule);
    assert rule in [rule];
    assert Lookup(BareHook(), "rules") == Some(List([rule]));
    assert BareHook() in [BareHook()];
  }

  lemma TwoBareTargets(was: Targets, fails: nat -> bool)
    requires was == [List([BareHook()]), List([BareHook()])]
    requires forall k: nat :: fails(k) <==> k == 6
    ensures AreLists(was) && (forall t: nat | t < 2 :: KeysDistinct(was[t])) && FreshSelectors(was)
    ensures Hooked(was, SeenBy(2, 0, fails, 2), 2) == 2
  {
    hide HasHook, NamespaceHook, Lookup, DistinctKeys, BareHook;
    BareHookIsExposed();
    var seen := SeenBy(2, 0, fails, 2);
    assert Sees(0, fails, 2, 0) && Sees(0, fails, 2, 1);
    assert Hooked(was, seen, 1) == 1;
  }

  /** The run of `HalfAnExclusion`. */
  method SecondPatchFails(run: Run) returns (r: Outcome, recovered: bool)
    requires run.Fresh() && run.cluster.calls == 0 && forall k: nat :: run.cluster.fails(k) <==> k == 6
    requires run.setting == Setting(0, false, true, false, false, 0, false, 2)
    requires run.cluster.world == World(0, 2, false, [List([BareHook()]), List([BareHook()])], {}, HookNames(), [])
    modifies run, run.cluster
    ensures r == Raised(Exclude, 1) && recovered
    ensures AreLists(old(run.cluster.world.capsule)) && !CapsuleAsBefore(old(run.cluster.world.capsule), run.cluster.world.capsule)
  {
    hide HasHook, BareHook, FreshSelectors, KeysDistinct, CapsuleAsBefore, SeenBy, Hooked;
    ghost var was := run.cluster.world.capsule;
    TwoBareTargets(was, run.cluster.fails);
    ghost var o := run.Here();
    assert run.BreaksExclusion(o, 1);
    r, recovered := run.Execute();
    ghost var k: nat :| k < run.recoveryStart && run.cluster.fails(k);
    assert run.cluster.Quiet(run.recoveryStart);
  }

  /**
   Two webhook configurations of the old layout, each with such a webhook: the request that patches the second is the
   only one of the run that fails.  The first patch is made, nothing records it, and the recovery, in which nothing
   fails, leaves it in place.
   */
  method HalfAnExclusion() returns (run: Run, r: Outcome, recovered: bool)
    ensures r == Raised(Exclude, 1) && recovered
    ensures !CapsuleAsBefore([List([BareHook()]), List([BareHook()])], run.cluster.world.capsule)
  {
    var target := List([BareHook()]);
    var cluster := new Cluster(World(0, 2, false, [target, target], {}, HookNames(), []), k => k == 6);
    run := new Run(cluster, Setting(0, false, true, false, false, 0, false, 2));
    r, recovered := SecondPatchFails(run);
  }

  // ---------------------------------------------------------------- one failure

  /**
   If no more than one request fails, wherever it is: an exception from any helper but the three that lose track of
   changes of their own is covered by the recovery, unless it gets stuck on the interrupted restore.
   */
  method OneFailure(run: Run) returns (r: Outcome, recovered: bool)
    requires run.Here().Valid() && FreshSelectors(run.cluster.world.capsule) && run.Fresh()
    requires HookNames() <= run.cluster.world.webhooks
    requires forall j: nat, k: nat :: run.cluster.fails(j) && run.cluster.fails(k) ==> j == k
    modifies run, run.cluster
    ensures r.Raised? ==> (recovered <==> !Stuck(old(run.Here()), r))
    ensures r.Raised? && recovered && r.at !in {Exclude, EgressAllow, DeleteWebhooks} ==>
      AsBefore(old(run.cluster.world), run.cluster.world, run.setting)
  {
    hide EgressEnd, EgressKept, RaisedWithin, RecoveredFrom, AsBefore, Stuck, FreshSelectors, LookUpsAnswer, Origin.AllowStart, Origin.DeleteStart, Origin.Added;
    ghost var o := run.Here();
    r, recovered := run.Execute();
    if r.Raised? {
      QuietAfterwards(o, r, run.recoveryStart);
      assert run.cluster.Quiet(run.recoveryStart);
    }
  }

  // ---------------------------------------------------------------- a run that deletes a policy of somebody else

  /**
   The only request that fails is the look-up of a policy that is there.  The run ends normally, and the policy is gone.
   */
  method ForeignPolicyDeleted() returns (run: Run, r: Outcome, recovered: bool)
    ensures r.Done? && run.cluster.world.egress == {}
  {
    var cluster := new Cluster(World(0, 2, false, [], {KUBEADM_NAMESPACES[0]}, HookNames(), []), k => k == 4);
    run := new Run(cluster, Setting(0, false, true, false, false, 0, false, 2));
    ghost var o := run.Here();
    OnlyTheLookUpFails(o);
    r, recovered := run.Execute();
  }

  lemma OnlyTheLookUpFails(o: Origin)
    requires o.was.capsule == [] && o.was.egress == {KUBEADM_NAMESPACES[0]} && o.from == 0
    requires o.s == Setting(0, false, true, false, false, 0, false, 2) && forall k: nat :: o.fails(k) <==> k == 4
    ensures o.Valid() && o.AllowStart() == 4 && o.RefusedAt() == 2 && o.MigrationStart() == 8
    ensures Closed(o.was.egress, o.Added(), o.fails, o.DeleteStart()) == {}
  {
    var was, fails := o.was.egress, o.fails;
    NamespacesDiffer(0, 1);
    assert LookUpOf(was, fails, 4, 0) == 4 && LookUpOf(was, fails, 4, 1) == 6 && LookUpOf(was, fails, 4, 2) == 8;
    assert !Refuses(was, fails, 4, 0) && !Refuses(was, fails, 4, 1);
    assert Refusal(was, fails, 4, 2) == Refusal(was, fails, 4, 1) == 2;
    assert Allowed(was, fails, 4, 1) == [KUBEADM_NAMESPACES[0]];
    var added := Allowed(was, fails, 4, 2);
    assert added == [KUBEADM_NAMESPACES[0], KUBEADM_NAMESPACES[1]];
    var gone := Deleted(added, fails, o.DeleteStart());
    assert !fails(o.DeleteStart() + 0) && !fails(o.DeleteStart() + 1);
    assert added[0] in gone && added[1] in gone;
  }
}
