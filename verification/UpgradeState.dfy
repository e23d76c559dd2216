/**
 What a guarded run of the provider upgrade may change, what it leaves between any two helpers and after any
 exception, and what the recovery makes of that: all as functions of where the run starts and of the numbers of the
 requests that fail.
 */
module UpgradeState {
  import opened CapsulePatch
  import opened CapsulePlan
  import opened Json
  import opened KubeadmEgress
  import opened Options

  const KEOSCLUSTER_WEBHOOKS := ["keoscluster-mutating-webhook-configuration", "keoscluster-validating-webhook-configuration"]

  datatype Milestone = Phase1Applied | Phase2Applied | CrdsLabelled | ReplicasRestored | StorageMigrated | ConfigUpdated | ChartUpgraded

  /** What the run touches; `progress` is what it achieves and never takes back. */
  datatype World = World(
    autoscaler: nat, operator: nat, suspended: bool,
    capsule: Targets, egress: set<string>, webhooks: set<string>,
    progress: seq<Milestone>)

  datatype Helper =
    | StopAutoscaler | StopOperator | Exclude | AdmissionCheck | EgressAllow
    | Phase1 | LabelCrds | Phase2 | RestoreCapsule | RestoreReplicas | ReportGates | MigrateStorage
    | DeleteWebhooks | UpdateConfig | RestoreWebhooks | UpgradeOperator | RestartAutoscaler | WaitReady

  /** How a helper ends: an exception tells which helper raised it, and after how many of its own changes. */
  datatype Outcome = Done | Raised(at: Helper, applied: nat) {
    predicate IsFailure() {
      Raised?
    }

    function PropagateFailure(): Outcome
      requires IsFailure()
    {
      this
    }
  }

  ghost predicate NoneFails(fails: nat -> bool, from: nat, to: nat) {
    forall k: nat | from <= k < to :: !fails(k)
  }

  /** What main() found out about the cluster before it starts changing it. */
  datatype Setting = Setting(
    autoscaler: nat,      // replicas of cluster-autoscaler, 0 if it is not deployed
    atTarget: bool, managed: bool, phase1: bool, azure: bool,
    configured: nat,      // how many of the targets belong to Capsule's configuration: the first ones
    regenerates: bool,    // Capsule generates its webhooks from that configuration
    chartReplicas: nat)   // operator replicas in the upgraded chart

  function HookNames(): set<string> {
    Elems(KEOSCLUSTER_WEBHOOKS)
  }

  // ---------------------------------------------------------------- which Capsule targets a run sees

  /** The configuration is used when it exists and its look-up, request number `from`, succeeds. */
  predicate ReadsConfiguration(configured: nat, fails: nat -> bool, from: nat) {
    configured > 0 && !fails(from)
  }

  /**
   The targets a run looks at.  Errors of the look-ups are ignored: without the configuration the targets of the old
   layout are looked up one by one, and one that does not answer is passed over.
   */
  ghost function SeenBy(total: nat, configured: nat, fails: nat -> bool, from: nat): set<nat> {
    set t: nat | t < total && Sees(configured, fails, from, t)
  }

  predicate Sees(configured: nat, fails: nat -> bool, from: nat, t: nat) {
    if ReadsConfiguration(configured, fails, from) then t < configured
    else configured <= t && !fails(from + 1 + (t - configured))
  }

  function LookUps(total: nat, configured: nat, fails: nat -> bool, from: nat): nat
    requires configured <= total
  {
    if ReadsConfiguration(configured, fails, from) then 1 else 1 + total - configured
  }

  /** The targets up to some point that were seen are excluded, which took `applied` patches. */
  ghost predicate PartlyExcluded(was: Targets, seen: set<nat>, now: Targets, applied: nat)
    requires AreLists(was)
  {
    exists n: nat, done: seq<Item> :: ExcludedSoFar(was, seen, now, n, done) && applied == |done|
  }

  ghost predicate ExcludedSoFar(was: Targets, seen: set<nat>, now: Targets, n: nat, done: seq<Item>)
    requires AreLists(was)
  {
    n <= |was| && PlanOf(was, seen, n, done) && now == ExcludedUpTo(was, seen, n)
  }

  // ---------------------------------------------------------------- before and after

  /** Every target is as it was, up to an originally empty selector. */
  ghost predicate CapsuleAsBefore(was: Targets, now: Targets)
    requires AreLists(was)
  {
    |now| == |was| && forall t: nat | t < |was| :: now[t] == was[t] || now[t] == RestoredTarget(was[t])
  }

  /** The temporary changes are gone, and the controllers run again. */
  ghost predicate AsBefore(was: World, now: World, s: Setting)
    requires AreLists(was.capsule)
  {
    && CapsuleAsBefore(was.capsule, now.capsule)
    && now.egress == was.egress && now.webhooks == was.webhooks
    && !now.suspended && now.operator == 2 && (s.autoscaler > 0 ==> now.autoscaler == s.autoscaler)
  }

  /** None of the temporary changes that the flags mirror is different. */
  predicate SameTemporary(a: World, b: World) {
    a.capsule == b.capsule && a.egress == b.egress && a.webhooks == b.webhooks
  }

  // ---------------------------------------------------------------- the numbers of the requests

  /**
   Where a run starts: everything it does follows from this.  Each function below numbers a request as it is numbered
   if no request before it raises.
   */
  datatype Origin = Origin(was: World, from: nat, s: Setting, fails: nat -> bool) {
    ghost predicate Valid() {
      && AreLists(was.capsule) && (forall t: nat | t < |was.capsule| :: KeysDistinct(was.capsule[t]))
      && s.configured <= |was.capsule|
    }

    /** The requests that stop the controllers. */
    function Stops(): nat {
      if s.autoscaler > 0 then 3 else 2
    }

    ghost function Seen(): set<nat> {
      if s.atTarget then {} else SeenBy(|was.capsule|, s.configured, fails, from + Stops())
    }

    function FirstPatch(): nat
      requires s.configured <= |was.capsule|
    {
      from + Stops() + LookUps(|was.capsule|, s.configured, fails, from + Stops())
    }

    /** The targets that are patched, and the items of the plan. */
    ghost function Patches(): nat {
      Hooked(was.capsule, Seen(), |was.capsule|)
    }

    ghost function Waits(): bool {
      s.regenerates && 0 < s.configured && 0 in Seen()
    }

    ghost function AdmissionNumber(): nat
      requires Valid()
    {
      if s.atTarget then from + Stops() else FirstPatch() + Patches() + if Waits() then 1 else 0
    }

    predicate Allows() {
      s.managed && !s.atTarget
    }

    /** The first look-up of kubeadm_egress_allow(). */
    ghost function AllowStart(): nat
      requires Valid()
    {
      AdmissionNumber() + 1
    }

    /** The namespace whose policy is refused, or their number. */
    ghost function RefusedAt(): (r: nat)
      requires Valid()
      ensures r <= |KUBEADM_NAMESPACES|
    {
      Refusal(was.egress, fails, AllowStart(), 0)
    }

    /** The namespaces in which the policy is applied. */
    ghost function Added(): seq<string>
      requires Valid()
    {
      if Allows() then Allowed(was.egress, fails, AllowStart(), RefusedAt()) else []
    }

    /** The first request of the migration of the providers. */
    ghost function MigrationStart(): nat
      requires Valid()
    {
      if Allows() then LookUpOf(was.egress, fails, AllowStart(), |KUBEADM_NAMESPACES|) else AllowStart()
    }

    function Phases(): nat {
      if s.atTarget then 0 else (if s.phase1 then 2 else 0) + (if s.azure then 1 else 0) + 1
    }

    /** The first delete of kubeadm_egress_remove() on the way to a normal end. */
    ghost function DeleteStart(): nat
      requires Valid()
    {
      MigrationStart() + Phases() + Patches() + 1
    }
  }

  // ---------------------------------------------------------------- the mirror

  /** How far a run has come: what is live changes from one stage to the next. */
  datatype Stage = Untouched | ExclusionOn | EgressOpen | CapsuleBack | EgressShut | WebhooksGone | WebhooksBack

  /** The stage in which each helper works. */
  function StageOf(at: Helper): Stage {
    match at
    case StopAutoscaler | StopOperator | Exclude => Untouched
    case AdmissionCheck | EgressAllow => ExclusionOn
    case Phase1 | LabelCrds | Phase2 | RestoreCapsule => EgressOpen
    case RestoreReplicas => CapsuleBack
    case ReportGates | MigrateStorage | DeleteWebhooks => EgressShut
    case UpdateConfig | RestoreWebhooks => WebhooksGone
    case UpgradeOperator | RestartAutoscaler | WaitReady => WebhooksBack
  }

  /** The local plan and flags, and whether the webhook manifest is on disk. */
  datatype Books = Books(plan: seq<Item>, added: seq<string>, deleted: bool, saved: bool)

  /** Between any two helpers: exactly which temporary changes are live, and that plan and flags say so. */
  ghost predicate Mirror(o: Origin, st: Stage, now: World, b: Books)
    requires o.Valid()
  {
    && CapsuleMirrored(o.was.capsule, o.Seen(), st, now.capsule, b.plan)
    && EgressMirrored(o, st, now.egress, b.added)
    && WebhooksMirrored(o.was.webhooks, st, now.webhooks, b)
  }

  ghost predicate CapsuleMirrored(was: Targets, seen: set<nat>, st: Stage, now: Targets, plan: seq<Item>)
    requires AreLists(was)
  {
    match st
    case Untouched => plan == [] && now == was
    case ExclusionOn | EgressOpen => PlanOf(was, seen, |was|, plan) && now == ExcludedUpTo(was, seen, |was|)
    case _ => plan == [] && now == AllRestored(was, seen, |was|)
  }

  ghost predicate EgressMirrored(o: Origin, st: Stage, now: set<string>, added: seq<string>)
    requires o.Valid()
  {
    match st
    case Untouched | ExclusionOn => added == [] && now == o.was.egress
    case EgressOpen | CapsuleBack => added == o.Added() && now == o.was.egress + Elems(added)
    case _ => added == [] && now == Closed(o.was.egress, o.Added(), o.fails, o.DeleteStart())
  }

  predicate WebhooksMirrored(was: set<string>, st: Stage, now: set<string>, b: Books) {
    match st
    case WebhooksGone => b.deleted && b.saved && now == was - HookNames()
    case WebhooksBack => !b.deleted && now == was + HookNames()
    case _ => !b.deleted && now == was
  }

  // ---------------------------------------------------------------- what an exception leaves

  /** Five helpers can be interrupted between changes of their own; any other exception finds its stage intact. */
  ghost predicate LeftBy(o: Origin, now: World, b: Books, r: Outcome)
    requires o.Valid() && r.Raised?
  {
    && CapsuleLeft(o.was.capsule, o.Seen(), now.capsule, b.plan, r)
    && EgressLeft(o, now.egress, b.added, r)
    && WebhooksLeft(o.was.webhooks, now.webhooks, b, r)
  }

  ghost predicate CapsuleLeft(was: Targets, seen: set<nat>, now: Targets, plan: seq<Item>, r: Outcome)
    requires AreLists(was) && r.Raised?
  {
    match r.at
    case Exclude => plan == [] && PartlyExcluded(was, seen, now, r.applied)
    case RestoreCapsule =>
      && PlanOf(was, seen, |was|, plan) && r.applied < |plan|
      && now == RestoredUpTo(was, seen, plan, r.applied)
    case _ => CapsuleMirrored(was, seen, StageOf(r.at), now, plan)
  }

  /** What kubeadm_egress_allow() had created before it was refused is not recorded. */
  ghost predicate EgressLeft(o: Origin, now: set<string>, added: seq<string>, r: Outcome)
    requires o.Valid() && r.Raised?
  {
    if r.at == EgressAllow
    then added == [] && now == o.was.egress + Elems(o.Added()) && o.Allows() && o.RefusedAt() < |KUBEADM_NAMESPACES|
    else EgressMirrored(o, StageOf(r.at), now, added)
  }

  predicate WebhooksLeft(was: set<string>, now: set<string>, b: Books, r: Outcome)
    requires r.Raised?
  {
    match r.at
    case DeleteWebhooks =>
      !b.deleted && r.applied <= |KEOSCLUSTER_WEBHOOKS| && now == was - Elems(KEOSCLUSTER_WEBHOOKS[..r.applied])
    case RestoreWebhooks => b.deleted && b.saved && was - HookNames() <= now <= was + HookNames()
    case _ => WebhooksMirrored(was, StageOf(r.at), now, b)
  }

  /** Where among the requests of the run the exception falls; `calls` is the number of the request after it. */
  ghost predicate RaisedWithin(o: Origin, r: Outcome, calls: nat)
    requires o.Valid() && r.Raised?
  {
    if r.at == EgressAllow
    then o.Allows() && o.RefusedAt() < |KUBEADM_NAMESPACES| && calls == LookUpOf(o.was.egress, o.fails, o.AllowStart(), o.RefusedAt()) + 2
    else if StageOf(r.at).Untouched? || StageOf(r.at).ExclusionOn?
    then o.from < calls <= o.AllowStart() && o.fails(calls - 1)
    else if RunDeletes(r) then !NoneFails(o.fails, o.DeleteStart() + |o.Added()|, calls)
    else !NoneFails(o.fails, o.MigrationStart(), calls)
  }

  // ---------------------------------------------------------------- what the recovery comes to

  /** How much of the plan has been run when `r` is caught. */
  function AlreadyRun(r: Outcome): nat
    requires r.Raised?
  {
    if r.at == RestoreCapsule then r.applied else 0
  }

  /** How many items the plan has when `r` is caught. */
  ghost function ItemsLeft(o: Origin, r: Outcome): nat
    requires r.Raised?
  {
    match StageOf(r.at)
    case ExclusionOn | EgressOpen => o.Patches()
    case _ => 0
  }

  /** Running the plan again gets stuck: one of its items that have been run removes a selector. */
  ghost predicate Stuck(o: Origin, r: Outcome) {
    r.Raised? && r.at == RestoreCapsule && RejectsAgain(o.was.capsule, o.Seen(), r.applied)
  }

  ghost predicate RejectsAgain(was: Targets, seen: set<nat>, m: nat) {
    exists t: nat | t < |was| :: t in seen && Removes(was[t]) && Hooked(was, seen, t) < m
  }

  /** The recovery, whose first request is number `restart`, restores Capsule, and so comes to the policies. */
  ghost predicate RestoresCapsule(o: Origin, r: Outcome, restart: nat)
    requires r.Raised?
  {
    !Stuck(o, r) && NoneFails(o.fails, restart, restart + ItemsLeft(o, r))
  }

  /** Capsule after a recovery that restores it. */
  ghost predicate CapsuleEnds(o: Origin, r: Outcome, now: Targets)
    requires o.Valid() && r.Raised?
  {
    match r.at
    case Exclude => PartlyExcluded(o.was.capsule, o.Seen(), now, r.applied)
    case StopAutoscaler | StopOperator => now == o.was.capsule
    case _ => now == AllRestored(o.was.capsule, o.Seen(), |o.was.capsule|)
  }

  /** The first delete: of the recovery, while policies are recorded, and of the run itself later. */
  ghost function Deletes(o: Origin, r: Outcome, restart: nat): nat
    requires o.Valid()
  {
    if r.Raised? && (StageOf(r.at).EgressOpen? || StageOf(r.at).CapsuleBack?) then restart + ItemsLeft(o, r) else o.DeleteStart()
  }

  /** The policies when everything is over, whatever fails. */
  ghost function EgressEnd(o: Origin, r: Outcome, restart: nat): set<string>
    requires o.Valid()
  {
    if Unrecorded(o, r, restart) then o.was.egress + Elems(o.Added())
    else if BeforeEgress(r) then o.was.egress
    else Closed(o.was.egress, o.Added(), o.fails, Deletes(o, r, restart))
  }

  predicate BeforeEgress(r: Outcome) {
    r.Raised? && (StageOf(r.at).Untouched? || r.at == AdmissionCheck)
  }

  /** What was created is never deleted: it has not been recorded, or the recovery does not come so far. */
  ghost predicate Unrecorded(o: Origin, r: Outcome, restart: nat) {
    && r.Raised?
    && (r.at == EgressAllow
        || ((StageOf(r.at).EgressOpen? || StageOf(r.at).CapsuleBack?) && !RestoresCapsule(o, r, restart)))
  }

  /**
   The policies are as before: in terms of the policies found and of the numbers of the look-ups and deletes that fail.
   */
  ghost predicate EgressKept(o: Origin, r: Outcome, restart: nat)
    requires o.Valid()
  {
    if BeforeEgress(r) || !o.Allows() then true
    else if Unrecorded(o, r, restart) then forall i: nat | i < o.RefusedAt() :: KUBEADM_NAMESPACES[i] in o.was.egress
    else DeletesMatch(o.was.egress, o.fails, o.AllowStart(), o.RefusedAt(), Deletes(o, r, restart))
  }

  lemma EgressKeptIff(o: Origin, r: Outcome, restart: nat)
    requires o.Valid()
    ensures EgressEnd(o, r, restart) == o.was.egress <==> EgressKept(o, r, restart)
  {
    hide LookUpOf, Allowed, Applies, Closed, DeletesMatch;
    if o.Allows() {
      OpenIff(o.was.egress, o.fails, o.AllowStart(), o.RefusedAt());
      ClosedIff(o.was.egress, o.fails, o.AllowStart(), o.RefusedAt(), Deletes(o, r, restart));
    } else {
      NothingAdded(o.was.egress, o.fails, Deletes(o, r, restart));
    }
  }

  lemma NothingAdded(was: set<string>, fails: nat -> bool, deletes: nat)
    ensures Closed(was, [], fails, deletes) == was && was + Elems([]) == was
  {
  }

  /** If no look-up fails, nothing is refused and no delete fails, the policies are as before. */
  lemma EgressKeptUnlessFailing(o: Origin, r: Outcome, restart: nat)
    requires o.Valid() && (o.Allows() ==> LookUpsAnswer(o.was.egress, o.fails, o.AllowStart())) && !Unrecorded(o, r, restart)
    requires NoneFails(o.fails, Deletes(o, r, restart), Deletes(o, r, restart) + |o.Added()|)
    ensures EgressKept(o, r, restart)
  {
    hide LookUpOf, Allowed, Applies, Closed, DeletesMatch;
    if o.Allows() && !BeforeEgress(r) {
      WithoutFailures(o.was.egress, o.fails, o.AllowStart(), o.RefusedAt(), Deletes(o, r, restart));
    }
  }

  /** The exception, if any, comes after kubeadm_egress_allow(). */
  predicate AfterAllowing(r: Outcome) {
    r.Raised? ==> StageOf(r.at) !in {Untouched, ExclusionOn}
  }

  predicate PastAllowing(r: Outcome) {
    r.Raised? && AfterAllowing(r)
  }

  /** The policies have been deleted before the exception, if any. */
  predicate RunDeletes(r: Outcome) {
    r.Raised? ==> StageOf(r.at) !in {Untouched, ExclusionOn, EgressOpen, CapsuleBack}
  }

  /** The deletes of the recovery come before request number `calls`. */
  ghost predicate DeletesBy(o: Origin, r: Outcome, restart: nat, calls: nat)
    requires o.Valid()
  {
    !RunDeletes(r) && PastAllowing(r) ==> Deletes(o, r, restart) + |o.Added()| <= calls
  }

  /**
   No failing look-up, an exception outside kubeadm_egress_allow() if any, and no failing request in the recovery and
   among the deletes of the run: the policies are as before.
   */
  lemma CleanRun(o: Origin, r: Outcome, restart: nat, recovered: bool, calls: nat)
    requires o.Valid() && (r.Raised? && recovered && NoneFails(o.fails, restart, calls) ==> !Stuck(o, r))
    requires r.Raised? && recovered ==> DeletesBy(o, r, restart, calls)
    ensures (o.Allows() ==> LookUpsAnswer(o.was.egress, o.fails, o.AllowStart())) && AfterAllowing(r)
            && (r.Raised? ==> recovered && NoneFails(o.fails, restart, calls))
            && (RunDeletes(r) ==> NoneFails(o.fails, o.DeleteStart(), o.DeleteStart() + |o.Added()|))
            ==> EgressKept(o, r, restart)
  {
    hide EgressKept, Stuck, LookUpsAnswer, Origin.AllowStart, Origin.DeleteStart, Origin.Added;
    if (o.Allows() ==> LookUpsAnswer(o.was.egress, o.fails, o.AllowStart())) && AfterAllowing(r)
       && (r.Raised? ==> recovered && NoneFails(o.fails, restart, calls))
       && (RunDeletes(r) ==> NoneFails(o.fails, o.DeleteStart(), o.DeleteStart() + |o.Added()|)) {
      EgressKeptUnlessFailing(o, r, restart);
    }
  }

  /** The look-ups are among the requests of kubeadm_egress_allow(). */
  lemma LookUpsWithin(o: Origin)
    requires o.Valid() && o.Allows() && NoneFails(o.fails, o.AllowStart(), o.MigrationStart())
    ensures LookUpsAnswer(o.was.egress, o.fails, o.AllowStart())
  {
    hide Origin.AllowStart;
    forall i: nat | i < |KUBEADM_NAMESPACES| ensures !o.fails(LookUpOf(o.was.egress, o.fails, o.AllowStart(), i)) {
      LookUpsAscend(o.was.egress, o.fails, o.AllowStart(), i, |KUBEADM_NAMESPACES|);
    }
  }

  /** A run in which nothing fails does not raise, and the policies are as before. */
  lemma QuietRun(o: Origin, r: Outcome, restart: nat, calls: nat)
    requires o.Valid() && NoneFails(o.fails, o.from, calls) && restart <= calls
    requires r.Raised? ==> RaisedWithin(o, r, restart)
    requires r.Done? ==> o.DeleteStart() + |o.Added()| <= calls
    ensures r.Done? && EgressKept(o, r, restart)
  {
    hide EgressKept, RaisedWithin;
    AdmissionAfter(o);
    if r.Raised? {
      SomethingFailed(o, r, restart);
    } else {
      if o.Allows() {
        LookUpsWithin(o);
      }
      EgressKeptUnlessFailing(o, r, restart);
    }
  }

  lemma SomethingFailed(o: Origin, r: Outcome, restart: nat)
    requires o.Valid() && r.Raised? && RaisedWithin(o, r, restart)
    ensures !NoneFails(o.fails, o.from, restart)
  {
    hide LookUpOf, Allowed, Origin.AdmissionNumber, Origin.Added;
    AdmissionAfter(o);
    DeletesAfter(o);
    if r.at == EgressAllow {
      assert o.fails(restart - 1);
    }
  }

  lemma DeletesAfter(o: Origin)
    requires o.Valid()
    ensures o.MigrationStart() < o.DeleteStart() <= o.DeleteStart() + |o.Added()|
  {
  }

  /**
   With one failing request at most, the recovery is quiet; and after kubeadm_egress_allow() that request is neither a
   look-up nor a delete of the run.
   */
  lemma QuietAfterwards(o: Origin, r: Outcome, restart: nat)
    requires o.Valid() && r.Raised? && RaisedWithin(o, r, restart)
    requires forall j: nat, k: nat :: o.fails(j) && o.fails(k) ==> j == k
    ensures forall to: nat :: NoneFails(o.fails, restart, to)
    ensures AfterAllowing(r) && o.Allows() ==> LookUpsAnswer(o.was.egress, o.fails, o.AllowStart())
    ensures RunDeletes(r) ==> NoneFails(o.fails, o.DeleteStart(), o.DeleteStart() + |o.Added()|)
    ensures r.at == AdmissionCheck || StageOf(r.at).Untouched? ==> EgressKept(o, r, restart)
  {
    hide LookUpsAnswer, LookUpOf, Allowed, Origin.AdmissionNumber, Origin.Added, RaisedWithin;
    SomethingFailed(o, r, restart);
    var k: nat :| o.from <= k < restart && o.fails(k);
    if AfterAllowing(r) {
      FailsAfterAllowing(o, r, restart, k);
      if o.Allows() {
        LookUpsWithin(o);
      }
    }
  }

  lemma FailsAfterAllowing(o: Origin, r: Outcome, restart: nat, k: nat)
    requires o.Valid() && r.Raised? && RaisedWithin(o, r, restart) && AfterAllowing(r)
    requires o.fails(k) && forall j: nat :: o.fails(j) ==> j == k
    ensures NoneFails(o.fails, o.AllowStart(), o.MigrationStart())
    ensures RunDeletes(r) ==> NoneFails(o.fails, o.DeleteStart(), o.DeleteStart() + |o.Added()|)
  {
    hide LookUpOf, Allowed, Origin.AdmissionNumber, Origin.Added;
    DeletesAfter(o);
  }

  lemma AdmissionAfter(o: Origin)
    requires o.Valid()
    ensures o.from <= o.AdmissionNumber() < o.AllowStart() <= o.MigrationStart() < o.DeleteStart()
  {
  }

  /** The policies under the recovery, which deletes what is recorded once Capsule is restored. */
  lemma EgressUnderRecovery(o: Origin, r: Outcome, restart: nat, left: set<string>, added: seq<string>)
    requires o.Valid() && r.Raised? && EgressLeft(o, left, added, r)
    ensures EgressEnd(o, r, restart)
            == if RestoresCapsule(o, r, restart) then left - Deleted(added, o.fails, restart + ItemsLeft(o, r)) else left
    ensures DeletesBy(o, r, restart, restart + ItemsLeft(o, r) + |added|)
  {
    hide Stuck, Origin.Added, Origin.DeleteStart, Origin.RefusedAt, Origin.Patches;
    if added == [] {
      assert Deleted(added, o.fails, restart + ItemsLeft(o, r)) == {};
    }
  }

  /** What the plan says when an exception is caught. */
  lemma PlanWhenCaught(o: Origin, now: Targets, plan: seq<Item>, r: Outcome)
    requires o.Valid() && r.Raised? && CapsuleLeft(o.was.capsule, o.Seen(), now, plan, r)
    ensures |plan| == ItemsLeft(o, r)
    ensures plan == [] ==> CapsuleEnds(o, r, now) && !Stuck(o, r)
    ensures plan != [] ==>
      && PlanOf(o.was.capsule, o.Seen(), |o.was.capsule|, plan) && AlreadyRun(r) <= |plan|
      && now == RestoredUpTo(o.was.capsule, o.Seen(), plan, AlreadyRun(r))
      && (Rejected(o.was.capsule, o.Seen(), plan, AlreadyRun(r)) <==> Stuck(o, r))
      && CapsuleEnds(o, r, AllRestored(o.was.capsule, o.Seen(), |o.was.capsule|))
  {
    hide HasHook, BackOf, ExcludedTarget, RestoredTarget, ExcludedUpTo, AllRestored, Removes, PlanOf;
    if StageOf(r.at).ExclusionOn? || StageOf(r.at).EgressOpen? {
      PlanLength(o.was.capsule, o.Seen(), |o.was.capsule|, plan);
      PlanEnds(o.was.capsule, o.Seen(), plan);
      RejectedIff(o.was.capsule, o.Seen(), plan, AlreadyRun(r));
    }
  }

  /** A run that ends normally. */
  lemma NormalEnd(o: Origin, now: World, b: Books, restart: nat)
    requires o.Valid() && Mirror(o, WebhooksBack, now, b)
    ensures CapsuleAsBefore(o.was.capsule, now.capsule) && now.webhooks == o.was.webhooks + HookNames()
    ensures now.egress == EgressEnd(o, Done, restart)
  {
    RestoredIsAsBefore(o.was.capsule, o.Seen());
  }

  lemma WebhooksUnderRecovery(was: set<string>, left: set<string>, b: Books, r: Outcome)
    requires r.Raised? && WebhooksLeft(was, left, b, r)
    ensures (if b.deleted && b.saved then left + HookNames() else left) == WebhooksEnd(was, r)
  {
  }

  /** The webhooks after a recovery that restores them. */
  function WebhooksEnd(was: set<string>, r: Outcome): set<string> {
    if r.Done? then was + HookNames()
    else if r.at == DeleteWebhooks && r.applied <= |KEOSCLUSTER_WEBHOOKS| then was - Elems(KEOSCLUSTER_WEBHOOKS[..r.applied])
    else if StageOf(r.at).WebhooksGone? || StageOf(r.at).WebhooksBack? then was + HookNames()
    else was
  }

  predicate WebhooksKept(was: set<string>, r: Outcome) {
    if r.Raised? && r.at == DeleteWebhooks
    then r.applied <= |KEOSCLUSTER_WEBHOOKS| ==> Elems(KEOSCLUSTER_WEBHOOKS[..r.applied]) !! was
    else r.Done? || StageOf(r.at).WebhooksGone? || StageOf(r.at).WebhooksBack? ==> HookNames() <= was
  }

  lemma WebhooksKeptIff(was: set<string>, r: Outcome)
    ensures WebhooksEnd(was, r) == was <==> WebhooksKept(was, r)
  {
    if r.Raised? && r.at == DeleteWebhooks && r.applied <= |KEOSCLUSTER_WEBHOOKS| {
      var gone := Elems(KEOSCLUSTER_WEBHOOKS[..r.applied]);
      if was - gone == was {
        forall h | h in gone ensures h !in was {
          assert h !in was - gone;
        }
      }
    }
  }

  predicate ControllersRun(s: Setting, now: World) {
    !now.suspended && now.operator == 2 && (s.autoscaler > 0 ==> now.autoscaler == s.autoscaler)
  }

  /** What the recovery comes to when none of its requests fails. */
  ghost predicate RecoveredFrom(o: Origin, r: Outcome, restart: nat, now: World)
    requires o.Valid() && r.Raised?
  {
    && CapsuleEnds(o, r, now.capsule) && now.egress == EgressEnd(o, r, restart)
    && now.webhooks == WebhooksEnd(o.was.webhooks, r) && ControllersRun(o.s, now)
  }

  /** The exceptions whose traces the recovery does not cover. */
  ghost predicate Gap(o: Origin, r: Outcome, restart: nat)
    requires o.Valid() && r.Raised?
  {
    (r.at == Exclude && r.applied > 0) || !EgressKept(o, r, restart) || !WebhooksKept(o.was.webhooks, r)
  }

  /** Everything is as before exactly when there is no gap. */
  lemma RecoveryIsExact(o: Origin, r: Outcome, restart: nat, now: World)
    requires o.Valid() && FreshSelectors(o.was.capsule) && r.Raised? && RecoveredFrom(o, r, restart, now)
    ensures AsBefore(o.was, now, o.s) <==> !Gap(o, r, restart)
    ensures CapsuleAsBefore(o.was.capsule, now.capsule) <==> !(r.at == Exclude && r.applied > 0)
  {
    hide EgressEnd, EgressKept, WebhooksEnd, WebhooksKept, FreshSelectors, PartlyExcluded, AllRestored;
    CapsuleRecovered(o, r, now.capsule);
    EgressKeptIff(o, r, restart);
    WebhooksKeptIff(o.was.webhooks, r);
  }

  /** Capsule is as before exactly when the exclusion was not cut short after its first patch. */
  lemma CapsuleRecovered(o: Origin, r: Outcome, now: Targets)
    requires o.Valid() && FreshSelectors(o.was.capsule) && r.Raised? && CapsuleEnds(o, r, now)
    ensures CapsuleAsBefore(o.was.capsule, now) <==> !(r.at == Exclude && r.applied > 0)
  {
    hide FreshSelectors, KeysDistinct, PlanOf, ExcludedUpTo, RestoredTarget;
    RestoredIsAsBefore(o.was.capsule, o.Seen());
    if r.at == Exclude {
      if r.applied == 0 {
        NoPatchNoChange(o.was.capsule, o.Seen(), now, r.applied);
      } else {
        ExclusionShows(o.was.capsule, o.Seen(), now, r.applied);
      }
    }
  }

  // ---------------------------------------------------------------- excluding the targets

  lemma NoPatchNoChange(was: Targets, seen: set<nat>, now: Targets, applied: nat)
    requires AreLists(was) && PartlyExcluded(was, seen, now, applied) && applied == 0
    ensures now == was
  {
    hide HasHook, BackOf, ExcludedTarget, RestoredTarget;
    var n: nat, done: seq<Item> :| ExcludedSoFar(was, seen, now, n, done) && applied == |done|;
    assert done == [];
    NothingPlanned(was, seen, n);
  }

  /**
   How the exclusion of the targets that were seen ends: the patches are the requests from number `first` on, with the
   wait for Capsule to regenerate its webhooks behind them.
   */
  ghost predicate ExclusionEnds(was: Targets, seen: set<nat>, waits: bool, first: nat, fails: nat -> bool,
                                r: Outcome, plan: seq<Item>, now: Targets, calls: nat)
    requires AreLists(was)
  {
    match r
    case Done =>
      && PlanOf(was, seen, |was|, plan) && now == ExcludedUpTo(was, seen, |was|)
      && calls == first + Hooked(was, seen, |was|) + (if waits then 1 else 0) && NoneFails(fails, first, calls)
    case Raised(at, applied) =>
      && at == Exclude && PartlyExcluded(was, seen, now, applied)
      && calls == first + applied + 1 && NoneFails(fails, first, first + applied) && fails(first + applied)
      && applied < Hooked(was, seen, |was|) + if waits then 1 else 0
  }

  /** If a patch is the first request that fails, the exclusion ends with it. */
  lemma BrokenThere(was: Targets, seen: set<nat>, waits: bool, first: nat, fails: nat -> bool,
                    r: Outcome, plan: seq<Item>, now: Targets, calls: nat, a: nat)
    requires AreLists(was) && ExclusionEnds(was, seen, waits, first, fails, r, plan, now, calls)
    requires a < Hooked(was, seen, |was|) && fails(first + a) && NoneFails(fails, first, first + a)
    ensures r == Raised(Exclude, a)
  {
  }

  /** What the first helpers of a run leave of Capsule. */
  ghost predicate ExcludedOrNot(o: Origin, now: Targets, plan: seq<Item>, r: Outcome)
    requires o.Valid()
  {
    if r.Done? then CapsuleMirrored(o.was.capsule, o.Seen(), ExclusionOn, now, plan)
    else r.at in {StopAutoscaler, StopOperator, Exclude} && CapsuleLeft(o.was.capsule, o.Seen(), now, plan, r)
  }

  /** At the target version no exclusion is needed. */
  lemma NothingSeen(o: Origin)
    requires o.Valid() && o.s.atTarget
    ensures CapsuleMirrored(o.was.capsule, o.Seen(), ExclusionOn, o.was.capsule, [])
  {
    assert PlanOf(o.was.capsule, {}, |o.was.capsule|, []);
    NothingPlanned(o.was.capsule, {}, |o.was.capsule|);
  }

  lemma ExclusionBreaks(was: Targets, seen: set<nat>, waits: bool, from: nat, configured: nat, fails: nat -> bool,
                        r: Outcome, plan: seq<Item>, now: Targets, calls: nat)
    requires AreLists(was) && configured <= |was| && seen == SeenBy(|was|, configured, fails, from)
    requires ExclusionEnds(was, seen, waits, from + LookUps(|was|, configured, fails, from), fails, r, plan, now, calls)
    ensures from <= calls && (r.Raised? ==> fails(calls - 1))
    ensures forall a: nat | PatchFails(was, configured, fails, from, a) :: r == Raised(Exclude, a)
  {
    hide HasHook, BackOf, ExcludedTarget, RestoredTarget;
    var first := from + LookUps(|was|, configured, fails, from);
    forall a: nat | PatchFails(was, configured, fails, from, a) ensures r == Raised(Exclude, a) {
      BrokenThere(was, seen, waits, first, fails, r, plan, now, calls, a);
    }
  }

  /** Of an exclusion whose first request has number `from`, the (a+1)-th patch is the first request that fails. */
  ghost predicate PatchFails(was: Targets, configured: nat, fails: nat -> bool, from: nat, a: nat)
    requires configured <= |was|
  {
    var patch := from + LookUps(|was|, configured, fails, from) + a;
    a < Hooked(was, SeenBy(|was|, configured, fails, from), |was|) && fails(patch) && NoneFails(fails, from, patch)
  }

  /** What excluding target `t` adds to the plan. */
  ghost predicate ItemsOf(t: nat, target: Json, more: seq<Item>)
    requires target.List?
  {
    if HasHook(target) then |more| == 1 && more[0].target == t && BackOf(target, more[0].back) else more == []
  }

  /** The loop after `t` targets, of which only patches have been sent. */
  ghost predicate Excluding(was: Targets, seen: set<nat>, t: nat, fails: nat -> bool, first: nat, plan: seq<Item>, now: Targets, calls: nat)
    requires AreLists(was)
  {
    && t <= |was| && PlanOf(was, seen, t, plan) && now == ExcludedUpTo(was, seen, t) && |plan| == Hooked(was, seen, t)
    && calls == first + |plan| && NoneFails(fails, first, calls)
  }

  lemma ExcludingStarts(was: Targets, seen: set<nat>, fails: nat -> bool, first: nat)
    requires AreLists(was)
    ensures Excluding(was, seen, 0, fails, first, [], was, first)
  {
  }

  lemma ExcludingNext(was: Targets, seen: set<nat>, t: nat, fails: nat -> bool, first: nat, plan: seq<Item>, now: Targets, calls: nat, more: seq<Item>)
    requires AreLists(was) && t < |was| && t in seen && Excluding(was, seen, t, fails, first, plan, now, calls)
    requires ItemsOf(t, was[t], more) && (HasHook(was[t]) ==> !fails(calls))
    ensures if HasHook(was[t]) then Excluding(was, seen, t + 1, fails, first, plan + more, now[t := ExcludedTarget(was[t])], calls + 1)
            else Excluding(was, seen, t + 1, fails, first, plan + more, now, calls)
  {
    hide HasHook, BackOf, ExcludedTarget, RestoredTarget;
    if HasHook(was[t]) {
      PlanGrows(was, seen, t, plan, more[0].back);
      assert more == [Item(t, more[0].back)];
    } else {
      PlanSkips(was, seen, t, plan);
      assert plan + more == plan;
    }
  }

  lemma ExcludingSkips(was: Targets, seen: set<nat>, t: nat, fails: nat -> bool, first: nat, plan: seq<Item>, now: Targets, calls: nat)
    requires AreLists(was) && t < |was| && t !in seen && Excluding(was, seen, t, fails, first, plan, now, calls)
    ensures Excluding(was, seen, t + 1, fails, first, plan, now, calls)
  {
    hide HasHook, BackOf, ExcludedTarget, RestoredTarget;
    PlanSkips(was, seen, t, plan);
  }

  /** A target that is still to be patched counts. */
  lemma {:induction false} HookedMore(was: Targets, seen: set<nat>, t: nat, n: nat)
    requires t <= n <= |was|
    ensures Hooked(was, seen, t) <= Hooked(was, seen, n)
  {
    if t < n {
      HookedMore(was, seen, t, n - 1);
    }
  }

  lemma ExclusionComplete(was: Targets, seen: set<nat>, fails: nat -> bool, first: nat, plan: seq<Item>, now: Targets, calls: nat)
    requires AreLists(was) && Excluding(was, seen, |was|, fails, first, plan, now, calls)
    ensures ExclusionEnds(was, seen, false, first, fails, Done, plan, now, calls)
    ensures !fails(calls) ==> ExclusionEnds(was, seen, true, first, fails, Done, plan, now, calls + 1)
  {
    hide HasHook, BackOf, ExcludedTarget, RestoredTarget;
  }

  /** What an exception in the loop or after it amounts to. */
  lemma ExclusionBroken(was: Targets, seen: set<nat>, waits: bool, t: nat, fails: nat -> bool, first: nat, plan: seq<Item>, now: Targets, calls: nat)
    requires AreLists(was) && Excluding(was, seen, t, fails, first, plan, now, calls)
    requires |plan| < Hooked(was, seen, |was|) + if waits then 1 else 0
    ensures fails(calls) ==> ExclusionEnds(was, seen, waits, first, fails, Raised(Exclude, |plan|), plan, now, calls + 1)
  {
    hide HasHook, BackOf, ExcludedTarget, RestoredTarget;
    assert ExcludedSoFar(was, seen, now, t, plan);
  }

  lemma RestoredIsAsBefore(was: Targets, seen: set<nat>)
    requires AreLists(was)
    ensures CapsuleAsBefore(was, AllRestored(was, seen, |was|))
  {
    hide HasHook, BackOf, ExcludedTarget, RestoredTarget;
    var r := AllRestored(was, seen, |was|);
    forall t: nat | t < |was| ensures r[t] == was[t] || r[t] == RestoredTarget(was[t]) {
      AllRestoredAt(was, seen, |was|, t);
    }
  }

  /** A webhook that now carries the exclusion and did not before: neither as it was nor restored. */
  lemma ExclusionShows(was: Targets, seen: set<nat>, now: Targets, applied: nat)
    requires AreLists(was) && FreshSelectors(was) && (forall t: nat | t < |was| :: KeysDistinct(was[t]))
    requires PartlyExcluded(was, seen, now, applied) && applied > 0
    ensures !CapsuleAsBefore(was, now)
  {
    hide HasHook, BackOf, ExcludedTarget, RestoredTarget;
    var n: nat, done: seq<Item> :| ExcludedSoFar(was, seen, now, n, done) && applied == |done|;
    var t := done[0].target;
    ExcludedAt(was, seen, n, t);
    ExcludedTargetShows(was[t]);
  }

  lemma ExcludedTargetShows(t: Json)
    requires t.List? && HasHook(t) && KeysDistinct(t)
    requires forall w | w in t.items && NamespaceHook(w) :: Lookup(w, SELECTOR) != Some(CLUSTERCTL_NS_SELECTOR)
    ensures ExcludedTarget(t) != t && ExcludedTarget(t) != RestoredTarget(t)
  {
    var w :| w in t.items && NamespaceHook(w);
    var i: nat :| i < |t.items| && t.items[i] == w;
    SelectorOfExcluded(w);
    SelectorOfRestored(w);
    assert ExcludedTarget(t).items[i] == Excluded(w);
    assert RestoredTarget(t).items[i] == Restored(w);
  }

  lemma SelectorOfExcluded(w: Json)
    requires NamespaceHook(w)
    ensures Lookup(Excluded(w), SELECTOR) == Some(CLUSTERCTL_NS_SELECTOR)
  {
    if Lookup(w, SELECTOR).Some? {
      WithChildMember(w, Key(SELECTOR), CLUSTERCTL_NS_SELECTOR);
    } else {
      PositionAppended(w.entries, SELECTOR, CLUSTERCTL_NS_SELECTOR);
    }
  }

  lemma SelectorOfRestored(w: Json)
    requires NamespaceHook(w) && DistinctKeys(w)
    ensures Lookup(Restored(w), SELECTOR) == if HasSelector(w) then Lookup(w, SELECTOR) else None
  {
    BackOpAgain(0, w);
  }

  /** No webhook carried the exclusion before the run. */
  ghost predicate FreshSelectors(was: Targets)
    requires AreLists(was)
  {
    forall t: nat | t < |was| :: forall w | w in was[t].items && NamespaceHook(w) :: Lookup(w, SELECTOR) != Some(CLUSTERCTL_NS_SELECTOR)
  }

  // ---------------------------------------------------------------- restoring them

  /** One of the first `m` items removes a selector: running the plan from the start will not get past it. */
  ghost predicate Rejected(was: Targets, seen: set<nat>, plan: seq<Item>, m: nat)
    requires AreLists(was) && PlanOf(was, seen, |was|, plan) && m <= |plan|
  {
    exists p: nat :: p < m && Removes(was[plan[p].target])
  }

  /** In terms of the targets: the number of an item is the number of targets patched before its own. */
  lemma RejectedIff(was: Targets, seen: set<nat>, plan: seq<Item>, m: nat)
    requires AreLists(was) && PlanOf(was, seen, |was|, plan) && m <= |plan|
    ensures Rejected(was, seen, plan, m) <==> RejectsAgain(was, seen, m)
  {
    hide BackOf;
    if Rejected(was, seen, plan, m) {
      var p: nat :| p < m && Removes(was[plan[p].target]);
      ItemNumber(was, seen, plan, p);
      assert plan[p].target in seen;
    }
    if RejectsAgain(was, seen, m) {
      var t: nat :| t < |was| && t in seen && Removes(was[t]) && Hooked(was, seen, t) < m;
      assert HasHook(was[t]);
      assert Planned(plan, t);
      var p: nat :| p < |plan| && plan[p].target == t;
      ItemNumber(was, seen, plan, p);
    }
  }

  function Later(m: nat, n: nat): nat {
    if n < m then m else n
  }

  /** The plan is run from the start, after `m` of its items had been run, and has come to item `p`. */
  ghost predicate Restoring(was: Targets, seen: set<nat>, plan: seq<Item>, m: nat, p: nat, now: Targets)
    requires AreLists(was)
  {
    && PlanOf(was, seen, |was|, plan) && m <= |plan| && p <= |plan| && now == RestoredUpTo(was, seen, plan, Later(m, p))
    && forall q: nat | q < p && q < m :: !Removes(was[plan[q].target])
  }

  lemma RunItemFrom(was: Targets, seen: set<nat>, plan: seq<Item>, m: nat, p: nat)
    requires AreLists(was) && PlanOf(was, seen, |was|, plan) && m <= |plan| && p < |plan| && KeysDistinct(was[plan[p].target])
    ensures RunItem(RestoredUpTo(was, seen, plan, Later(m, p)), plan[p])
            == if p < m && Removes(was[plan[p].target]) then None else Some(RestoredUpTo(was, seen, plan, Later(m, p + 1)))
  {
    hide HasHook, BackOf, ExcludedTarget, RestoredTarget;
    if p < m {
      PlanStepAgain(was, seen, plan, m, p);
    } else {
      PlanStep(was, seen, plan, p);
    }
  }
}
