/**
 Bumping the Kubernetes version one minor at a time (Azure and GCP): which versions are patched, that the
 up-front check of the image map makes the check inside the loop unreachable, and how far workers fall behind.
 */
module Stepping {
  import opened Decimal

  type Version = (nat, nat)   // major, minor

  // ---------------------------------------------------------------- version strings

  function StepVersion(v: Version): string {
    "v" + Print(v.0) + "." + Print(v.1) + ".0"
  }

  /** The key of a step in the image map. */
  function StepKey(v: Version): string {
    Print(v.0) + "." + Print(v.1)
  }

  /** `s.lstrip("v")` */
  function WithoutV(s: string): string {
    if s != "" && s[0] == 'v' then WithoutV(s[1..]) else s
  }

  /** `s.rsplit(".", 1)[0]` */
  function BeforeLastDot(s: string): string {
    BeforeLastDotFrom(s, |s|)
  }

  function BeforeLastDotFrom(s: string, n: nat): string
    requires n <= |s|
  {
    if n == 0 then s else if s[n - 1] == '.' then s[..n - 1] else BeforeLastDotFrom(s, n - 1)
  }

  /** The key that the up-front check derives from a step's version string is the key the loop looks up. */
  lemma CheckedKeyIsUsedKey(v: Version)
    ensures BeforeLastDot(WithoutV(StepVersion(v))) == StepKey(v)
  {
    PrintIsCanonical(v.0);
    var rest := StepKey(v) + ".0";
    assert StepVersion(v)[1..] == rest;
    assert rest[0] == Print(v.0)[0] && IsDigit(rest[0]);
    assert WithoutV(rest) == rest;
    assert BeforeLastDotFrom(rest, |rest|) == BeforeLastDotFrom(rest, |rest| - 1) == rest[..|rest| - 2];
  }

  // ---------------------------------------------------------------- the steps

  /** Python's order on (major, minor). */
  predicate Below(a: Version, b: Version) {
    a.0 < b.0 || (a.0 == b.0 && a.1 < b.1)
  }

  /** Every minor after `current` up to `target`, in order. */
  function Steps(current: Version, target: Version): seq<Version>
    requires current.0 == target.0 && current.1 <= target.1
  {
    seq(target.1 - current.1, i requires 0 <= i < target.1 - current.1 => (current.0, current.1 + 1 + i))
  }

  /** The loop that lists the steps: it ends because the minor closes in on the target's. */
  method ListSteps(current: Version, target: Version) returns (steps: seq<Version>)
    requires current.0 == target.0 && current.1 <= target.1
    ensures steps == Steps(current, target)
  {
    steps := [];
    var minor := current.1;
    while (current.0, minor) != target
      invariant current.1 <= minor <= target.1 && steps == Steps(current, (current.0, minor))
      decreases target.1 - minor
    {
      minor := minor + 1;
      steps := steps + [(current.0, minor)];
    }
  }

  /** It ends exactly when the majors agree: from an older major the minors never meet the target. */
  lemma StepsEndIff(current: Version, target: Version)
    requires Below(current, target)
    ensures (exists n: nat :: Stepped(current, n) == target) <==> current.0 == target.0
  {
    if current.0 == target.0 {
      assert Stepped(current, target.1 - current.1) == target;
    }
  }

  function Stepped(v: Version, n: nat): Version {
    (v.0, v.1 + n)
  }

  // ---------------------------------------------------------------- the cluster while it is upgraded

  /** Minors of the control plane and of the worker groups that are waited for, and the minor last asked for. */
  datatype Fleet = Fleet(control: nat, workers: map<string, nat>, requested: nat)

  datatype Move = ControlMoves | WorkerMoves(name: string)

  /**
   What the controllers do in between: the control plane moves to the requested minor, and a worker group
   follows the control plane, never ahead of it.
   */
  function React(f: Fleet, m: Move): Fleet {
    match m
    case ControlMoves => f.(control := f.requested)
    case WorkerMoves(w) => if w in f.workers then f.(workers := f.workers[w := f.control]) else f
  }

  predicate ControlConverged(f: Fleet) {
    f.control == f.requested
  }

  ghost predicate WorkersConverged(f: Fleet) {
    forall w | w in f.workers :: f.workers[w] == f.requested
  }

  ghost predicate Converged(f: Fleet) {
    ControlConverged(f) && WorkersConverged(f)
  }

  /** Control plane minus worker minor is 0 or 1. */
  ghost predicate SkewAtMostOne(f: Fleet) {
    forall w | w in f.workers :: f.control == f.workers[w] || f.control == f.workers[w] + 1
  }

  /** While a step is under way only the minor before it is left anywhere. */
  ghost predicate StepUnderWay(f: Fleet) {
    && (f.control == f.requested || f.control + 1 == f.requested)
    && (forall w | w in f.workers :: f.workers[w] <= f.control && (f.workers[w] == f.requested || f.workers[w] + 1 == f.requested))
  }

  /** A stretch of such moves. */
  function ReactAll(f: Fleet, ms: seq<Move>): Fleet {
    if ms == [] then f else React(ReactAll(f, ms[..|ms| - 1]), ms[|ms| - 1])
  }

  /** The requests around the steps, each sent at most once: those of the preparation and those of the finally block. */
  datatype Guard =
    | PolicyLookup | PolicyBackup | PolicyWidening | HookLookup | HookRemoval
    | LaterPolicyLookup | NodeList | PolicyNarrowing | LaterHookLookup | HookReturn

  /** The network policy of the control plane: `Rendered` afresh from the nodes, which need not be as it was found. */
  datatype Policy = Absent | AsFound | Widened | Rendered

  /** Capsule's validating webhooks: not configured at all, or without or with the one for nodes. */
  datatype Hook = NotConfigured | Without | With

  /** What a bump changes around the steps, `saved` being the backup file of the nodes webhook. */
  datatype Around = Around(policy: Policy, hook: Hook, saved: bool) {
    predicate Opens(refused: set<Guard>) {
      policy != Absent && PolicyLookup !in refused && PolicyBackup !in refused && PolicyWidening !in refused
    }

    predicate OpeningRaises(refused: set<Guard>) {
      policy != Absent && PolicyLookup !in refused && (PolicyBackup in refused || PolicyWidening in refused)
    }

    predicate TakesHook(refused: set<Guard>) {
      hook == With && HookLookup !in refused && HookRemoval !in refused
    }

    predicate TakingRaises(refused: set<Guard>) {
      hook == With && HookLookup !in refused && HookRemoval in refused
    }

    predicate Closes(refused: set<Guard>) {
      policy != Absent && LaterPolicyLookup !in refused && NodeList !in refused && PolicyNarrowing !in refused
    }

    predicate ClosingRaises(refused: set<Guard>) {
      policy != Absent && LaterPolicyLookup !in refused && (NodeList in refused || PolicyNarrowing in refused)
    }

    /** A saved webhook that is missing is put back, whoever took it. */
    predicate ReturnsHook(refused: set<Guard>) {
      hook == Without && saved && LaterHookLookup !in refused && HookReturn !in refused
    }

    predicate ReturnRaises(refused: set<Guard>) {
      hook == Without && saved && LaterHookLookup !in refused && HookReturn in refused
    }

    predicate PreparationRaises(refused: set<Guard>) {
      OpeningRaises(refused) || TakingRaises(refused)
    }

    predicate RestorationRaises(refused: set<Guard>) {
      ClosingRaises(refused) || ReturnRaises(refused)
    }

    function Opened(refused: set<Guard>): Around {
      if Opens(refused) then this.(policy := Widened) else this
    }

    function Taken(refused: set<Guard>): Around {
      if TakesHook(refused) then this.(hook := Without, saved := true)
      else if TakingRaises(refused) then this.(saved := true) else this
    }

    /** After the preparation: the webhook is not looked at when the policy raises. */
    function Prepared(refused: set<Guard>): Around {
      if OpeningRaises(refused) then this else Opened(refused).Taken(refused)
    }

    function Closed(refused: set<Guard>): Around {
      if Closes(refused) then this.(policy := Rendered) else this
    }

    function Returned(refused: set<Guard>): Around {
      if ReturnsHook(refused) then this.(hook := With) else this
    }

    /** After the finally block: the webhook is not put back when the policy raises. */
    function Restored(refused: set<Guard>): Around {
      if ClosingRaises(refused) then this else Closed(refused).Returned(refused)
    }
  }

  /**
   The cluster a run works on. Request number k of the steps fails when `fails(k)`, a guard request is refused when
   it is in `refused`, and `moves(k)` happens before the k-th answer. A refused request changes nothing.
   */
  class Cluster {
    var fleet: Fleet
    var calls: nat
    var patches: seq<nat>            // the minors patched into the KeosCluster
    var around: Around
    ghost var history: seq<Fleet>    // every state the cluster has been in
    const fails: nat -> bool
    const moves: nat -> seq<Move>
    const refused: set<Guard>

    constructor (fleet: Fleet, around: Around, fails: nat -> bool, moves: nat -> seq<Move>, refused: set<Guard>)
      ensures this.fleet == fleet && history == [fleet] && patches == [] && this.around == around
      ensures this.fails == fails && this.moves == moves && this.refused == refused
    {
      this.fleet, this.around, this.fails, this.moves, this.refused := fleet, around, fails, moves, refused;
      this.calls, this.patches, this.history := 0, [], [fleet];
    }

    /** No request of the steps fails, and whatever is asked for has happened before the next answer. */
    ghost predicate Prompt(names: set<string>) {
      && (forall k :: !fails(k))
      && (forall k, f: Fleet | f.workers.Keys == names :: Converged(ReactAll(f, moves(k))))
    }

    ghost predicate Good()
      reads this
    {
      StepUnderWay(fleet) && forall i | 0 <= i < |history| :: SkewAtMostOne(history[i])
    }

    /** Nothing that has converged is undone. */
    twostate predicate KeepsConverged()
      reads this
    {
      && fleet.requested == old(fleet.requested) && fleet.workers.Keys == old(fleet.workers).Keys
      && (old(ControlConverged(fleet)) ==>
            ControlConverged(fleet)
            && forall w | w in old(fleet.workers) && old(fleet.workers)[w] == old(fleet.requested) ::
                 w in fleet.workers && fleet.workers[w] == fleet.requested)
    }

    /** What happens before the answer to a request. */
    method Meanwhile(ms: seq<Move>)
      requires Good()
      modifies this`fleet, this`history
      ensures Good() && KeepsConverged() && fleet == ReactAll(old(fleet), ms)
    {
      for i := 0 to |ms|
        invariant Good() && KeepsConverged() && fleet == ReactAll(old(fleet), ms[..i])
      {
        assert ms[..i + 1][..i] == ms[..i];
        fleet := React(fleet, ms[i]);
        history := history + [fleet];
      }
      assert ms[..|ms|] == ms;
    }

    /** Any request that has no effect of its own on the minors. */
    method Ask() returns (ok: bool)
      requires Good()
      modifies this`fleet, this`history, this`calls
      ensures Good() && KeepsConverged()
      ensures Prompt(old(fleet.workers.Keys)) ==> ok && Converged(fleet)
    {
      Meanwhile(moves(calls));
      ok := !fails(calls);
      calls := calls + 1;
    }

    /** One of the requests around the steps. */
    method AskGuard(g: Guard) returns (ok: bool)
      requires Good()
      modifies this`fleet, this`history, this`calls
      ensures Good() && KeepsConverged() && ok == (g !in refused)
      ensures Prompt(old(fleet.workers.Keys)) ==> Converged(fleet)
    {
      Meanwhile(moves(calls));
      ok := g !in refused;
      calls := calls + 1;
    }

    /** cp_global_network_policy("patch"): a silent look-up, then two requests that raise. */
    method OpenPolicy() returns (ok: bool)
      requires Good()
      modifies this`fleet, this`history, this`calls, this`around
      ensures Good() && KeepsConverged()
      ensures ok == !old(around).OpeningRaises(refused) && around == old(around).Opened(refused)
    {
      var found := AskGuard(PolicyLookup);
      if !found || around.policy == Absent {
        return true;
      }
      ok := AskGuard(PolicyBackup);
      if !ok {
        return;
      }
      ok := AskGuard(PolicyWidening);
      if ok {
        around := around.(policy := Widened);
      }
    }

    /** capsule_nodes_webhook("patch"): the entry is saved before the request that takes it out. */
    method TakeHook() returns (ok: bool)
      requires Good()
      modifies this`fleet, this`history, this`calls, this`around
      ensures Good() && KeepsConverged()
      ensures ok == !old(around).TakingRaises(refused) && around == old(around).Taken(refused)
    {
      var found := AskGuard(HookLookup);
      if !found || around.hook != With {
        return true;
      }
      around := around.(saved := true);
      ok := AskGuard(HookRemoval);
      if ok {
        around := around.(hook := Without);
      }
    }

    /** cp_global_network_policy("restore"): a silent look-up, then two requests that raise. */
    method ClosePolicy() returns (ok: bool)
      requires Good()
      modifies this`fleet, this`history, this`calls, this`around
      ensures Good() && KeepsConverged()
      ensures ok == !old(around).ClosingRaises(refused) && around == old(around).Closed(refused)
    {
      var found := AskGuard(LaterPolicyLookup);
      if !found || around.policy == Absent {
        return true;
      }
      ok := AskGuard(NodeList);
      if !ok {
        return;
      }
      ok := AskGuard(PolicyNarrowing);
      if ok {
        around := around.(policy := Rendered);
      }
    }

    /** capsule_nodes_webhook("restore"): a silent look-up, then one request that raises. */
    method ReturnHook() returns (ok: bool)
      requires Good()
      modifies this`fleet, this`history, this`calls, this`around
      ensures Good() && KeepsConverged()
      ensures ok == !old(around).ReturnRaises(refused) && around == old(around).Returned(refused)
    {
      var found := AskGuard(LaterHookLookup);
      if !found || !around.saved || around.hook != Without {
        return true;
      }
      ok := AskGuard(HookReturn);
      if ok {
        around := around.(hook := With);
      }
    }

    /** Asking for the next minor, once everything has converged on the present one. */
    method Patch(minor: nat) returns (ok: bool)
      requires Good() && ControlConverged(fleet) && WorkersConverged(fleet) && minor == fleet.requested + 1
      modifies this`fleet, this`history, this`calls, this`patches
      ensures Good() && (ok ==> fleet.requested == minor && patches == old(patches) + [minor])
      ensures !ok ==> patches == old(patches)
      ensures fleet.workers.Keys == old(fleet.workers.Keys) && (Prompt(old(fleet.workers.Keys)) ==> ok)
    {
      ok := Ask();
      if ok {
        fleet := fleet.(requested := minor);
        history := history + [fleet];
        patches := patches + [minor];
      }
    }

    /** A wait for the control plane: it only returns normally on convergence. */
    method WaitControl() returns (ok: bool)
      requires Good()
      modifies this`fleet, this`history, this`calls
      ensures Good() && KeepsConverged() && (ok ==> ControlConverged(fleet))
      ensures Prompt(old(fleet.workers.Keys)) ==> ok
    {
      ok := Ask();
      ok := ok && ControlConverged(fleet);
    }

    /** The waits for the workers, one after the other. */
    method WaitWorkers() returns (ok: bool)
      requires Good() && ControlConverged(fleet)
      modifies this`fleet, this`history, this`calls
      ensures Good() && fleet.requested == old(fleet.requested) && ControlConverged(fleet)
      ensures ok ==> WorkersConverged(fleet)
      ensures fleet.workers.Keys == old(fleet.workers.Keys) && (Prompt(old(fleet.workers.Keys)) ==> ok)
    {
      var todo := fleet.workers.Keys;
      while todo != {}
        invariant Good() && fleet.requested == old(fleet.requested) && ControlConverged(fleet)
        invariant fleet.workers.Keys == old(fleet.workers).Keys && todo <= fleet.workers.Keys
        invariant forall w | w in fleet.workers && w !in todo :: fleet.workers[w] == fleet.requested
        decreases todo
      {
        var w :| w in todo;
        var answered := Ask();
        if !answered || fleet.workers[w] != fleet.requested {
          return false;
        }
        todo := todo - {w};
      }
      ok := true;
    }
  }

  // ---------------------------------------------------------------- the bump

  datatype Reason =
    | Downgrade | NoImageMap | BadImages | MissingMinors(minors: seq<string>)
    | NoVersion | WorkersBehind | NotReady | PreparationFailed | PatchFailed | NotConverged | RestoreFailed | MissingInLoop

  datatype Result = Skipped | Bumped | Failed(reason: Reason)

  /** The run has come as far as the preparation of the steps, or further. */
  predicate CameToPrepare(r: Result) {
    r.Bumped? || (r.Failed? && (r.reason == PreparationFailed || r.reason == PatchFailed || r.reason == NotConverged || r.reason == RestoreFailed))
  }

  /**
   What a bump that ends with `r` leaves of the policy and the webhook, in terms of what it found and of the
   requests refused. Until the preparation it touches neither.
   */
  ghost predicate Leaves(was: Around, now: Around, refused: set<Guard>, r: Result) {
    if !CameToPrepare(r) then now == was else
      && (r == Failed(PreparationFailed) <==> was.PreparationRaises(refused))
      && (r == Failed(RestoreFailed) <==>
            !was.PreparationRaises(refused) && (was.ClosingRaises(refused) || HookIsRefused(was, refused)))
      && (now.policy == Widened <==> was.Opens(refused) && (was.TakingRaises(refused) || !was.Closes(refused)))
      && (now.policy == Rendered <==> !was.PreparationRaises(refused) && was.Closes(refused))
      && (was.hook == With ==>
            (now.hook == Without <==>
               && !was.OpeningRaises(refused) && was.TakesHook(refused)
               && (was.ClosingRaises(refused) || LaterHookLookup in refused || HookReturn in refused)))
      && (was.hook == Without ==>
            (now.hook == With <==>
               !was.PreparationRaises(refused) && !was.ClosingRaises(refused) && was.ReturnsHook(refused)))
      && (now.hook == NotConfigured <==> was.hook == NotConfigured)
      && (now.policy == Absent <==> was.policy == Absent)
  }

  /** The webhook is out, this run's doing or not, the look-up finds that, and its return is refused. */
  predicate HookIsRefused(was: Around, refused: set<Guard>) {
    (was.TakesHook(refused) && LaterHookLookup !in refused && HookReturn in refused) || was.ReturnRaises(refused)
  }

  /** No exception of the preparation and none of the finally block. */
  predicate NothingRaises(was: Around, refused: set<Guard>) {
    !was.PreparationRaises(refused) && !was.ClosingRaises(refused) && !HookIsRefused(was, refused)
  }

  /** The end of a run in which the preparation does not raise, whatever became of the steps. */
  lemma StepsInBetween(was: Around, refused: set<Guard>, steps: Result)
    requires was.policy == Absent || was.policy == AsFound
    requires !was.PreparationRaises(refused)
    requires steps.Bumped? || steps == Failed(PatchFailed) || steps == Failed(NotConverged)
    ensures was.Prepared(refused).RestorationRaises(refused) <==> was.ClosingRaises(refused) || HookIsRefused(was, refused)
    ensures Leaves(was, was.Prepared(refused).Restored(refused), refused,
                   if was.Prepared(refused).RestorationRaises(refused) then Failed(RestoreFailed) else steps)
  {
  }

  /** The minors asked for by a run through the steps. */
  function Minors(steps: seq<Version>): seq<nat> {
    seq(|steps|, i requires 0 <= i < |steps| => steps[i].1)
  }

  /** The minors after `from`, up to `to`. */
  function Rising(from: nat, to: nat): seq<nat>
    requires from <= to
  {
    seq(to - from, i requires 0 <= i < to - from => from + 1 + i)
  }

  lemma StepsRise(current: Version, target: Version)
    requires current.0 == target.0 && current.1 <= target.1
    ensures Minors(Steps(current, target)) == Rising(current.1, target.1)
  {
  }

  lemma RisingNext(from: nat, mid: nat, to: nat)
    requires from <= mid < to
    ensures Rising(from, mid) + [mid + 1] == Rising(from, mid + 1) && Rising(from, mid) <= Rising(from, to)
    ensures Rising(from, mid + 1) <= Rising(from, to)
  {
  }

  class Upgrade {
    const cluster: Cluster
    const current: Version
    const target: Version
    const given: bool   // whether there is an image map at all: the text `{}` gives an empty one
    const images: map<string, string>
    const isNodeImage: string -> bool

    constructor (cluster: Cluster, current: Version, target: Version, given: bool, images: map<string, string>,
                 isNodeImage: string -> bool)
      ensures this.cluster == cluster && this.current == current && this.target == target
      ensures this.given == given && this.images == images && this.isNodeImage == isNodeImage
    {
      this.cluster, this.current, this.target := cluster, current, target;
      this.given, this.images, this.isNodeImage := given, images, isNodeImage;
    }

    /** The cluster as an uninterrupted run finds it: asked for the current minor, and converged on it. */
    ghost predicate Ready()
      reads this, cluster
    {
      && cluster.Good() && cluster.patches == [] && cluster.fleet.requested == current.1
      && ControlConverged(cluster.fleet) && WorkersConverged(cluster.fleet)
      && (cluster.around.policy == Absent || cluster.around.policy == AsFound)
    }

    /** What every end of the bump promises: the right minors in the right order, and never too great a skew. */
    ghost predicate Promised(r: Result)
      reads this, cluster
    {
      && (forall i | 0 <= i < |cluster.history| :: SkewAtMostOne(cluster.history[i]))
      && (if current.0 == target.0 && current.1 < target.1
          then cluster.patches <= Minors(Steps(current, target))
               && (r.Bumped? ==> cluster.patches == Minors(Steps(current, target))
                                 && ControlConverged(cluster.fleet) && WorkersConverged(cluster.fleet)
                                 && cluster.fleet.requested == target.1)
          else cluster.patches == [] && !r.Bumped?)
      && r != Failed(MissingInLoop)
    }

    /** The steps, and with them the image map, are fit for the bump. */
    ghost predicate ImagesFit() {
      && given && (forall k | k in images :: isNodeImage(images[k]))
      && (forall m: nat | current.1 < m <= target.1 :: StepKey((current.0, m)) in images)
    }

    /** The keys of the steps that have no image. */
    method Missing(steps: seq<Version>) returns (minors: seq<string>)
      ensures minors == [] <==> forall i | 0 <= i < |steps| :: StepKey(steps[i]) in images
      ensures forall m :: m in minors <==> m !in images && exists i :: 0 <= i < |steps| && StepKey(steps[i]) == m
    {
      minors := [];
      for i := 0 to |steps|
        invariant minors == [] <==> forall j | 0 <= j < i :: StepKey(steps[j]) in images
        invariant forall m :: m in minors <==> m !in images && exists j :: 0 <= j < i && StepKey(steps[j]) == m
      {
        CheckedKeyIsUsedKey(steps[i]);
        var key := BeforeLastDot(WithoutV(StepVersion(steps[i])));
        if key !in images {
          minors := minors + [key];
        }
      }
    }

    /** bump_k8s_version() for Azure. */
    method BumpAzure(confirmed: bool, dryRun: bool) returns (r: Result)
      requires Ready() && !isNodeImage("")
      requires Below(current, target) ==> current.0 == target.0   // otherwise listing the steps does not end
      modifies cluster
      ensures Promised(r)
      ensures Below(target, current) ==> r == Failed(Downgrade)
      ensures CameToPrepare(r) || r == Failed(NotReady) <==> Below(current, target) && confirmed && !dryRun && ImagesFit()
      ensures Leaves(old(cluster.around), cluster.around, cluster.refused, r)
      ensures cluster.Prompt(old(cluster.fleet.workers.Keys)) && Below(current, target) && confirmed && !dryRun && ImagesFit() ==>
                CameToPrepare(r) && (r.Bumped? <==> NothingRaises(old(cluster.around), cluster.refused))
    {
      if current == target {
        var done := cluster.WaitWorkers();
        return if done then Skipped else Failed(WorkersBehind);
      }
      if Below(target, current) {
        return Failed(Downgrade);
      }
      var steps := ListSteps(current, target);
      var reason := CheckImages(steps);
      if reason != MissingMinors([]) {
        return Failed(reason);
      }
      if dryRun || !confirmed {
        return Skipped;
      }
      r := Guarded(steps);
    }

    lemma EveryStepHasImage(steps: seq<Version>)
      requires current.0 == target.0 && current.1 < target.1 && steps == Steps(current, target)
      ensures (forall i | 0 <= i < |steps| :: StepKey(steps[i]) in images)
              <==> (forall m: nat | current.1 < m <= target.1 :: StepKey((current.0, m)) in images)
    {
      forall m: nat | current.1 < m <= target.1
        ensures m - current.1 - 1 < |steps| && steps[m - current.1 - 1] == (current.0, m)
      {
      }
    }

    /** The checks of the image map ahead of everything else; a map that lacks nothing passes. */
    method CheckImages(steps: seq<Version>) returns (reason: Reason)
      requires current.0 == target.0 && current.1 < target.1 && steps == Steps(current, target)
      ensures reason == MissingMinors([]) <==> ImagesFit()
      ensures reason == NoImageMap <==> !given
      ensures reason == BadImages <==> given && exists k | k in images :: !isNodeImage(images[k])
      ensures reason == NoImageMap || reason == BadImages || reason.MissingMinors?
    {
      if !given {
        return NoImageMap;
      }
      if exists k | k in images :: !isNodeImage(images[k]) {
        return BadImages;
      }
      EveryStepHasImage(steps);
      var missing := Missing(steps);
      reason := MissingMinors(missing);
    }

    /** From the first real request on. */
    method Guarded(steps: seq<Version>) returns (r: Result)
      requires Ready() && current.0 == target.0 && current.1 < target.1 && steps == Steps(current, target)
      requires ImagesFit() && !isNodeImage("")
      modifies cluster
      ensures Promised(r) && (CameToPrepare(r) || r == Failed(NotReady))
      ensures Leaves(old(cluster.around), cluster.around, cluster.refused, r)
      ensures cluster.Prompt(old(cluster.fleet.workers.Keys)) ==>
                CameToPrepare(r) && (r.Bumped? <==> NothingRaises(old(cluster.around), cluster.refused))
    {
      var ok := cluster.WaitControl();
      if !ok {
        return Failed(NotReady);
      }
      ok := Prepare();
      if !ok {
        return Failed(PreparationFailed);   // outside the try: a policy that was widened stays so
      }
      EveryStepHasImage(steps);
      r := StepThrough(steps);
      StepsInBetween(old(cluster.around), cluster.refused, r);
      var closed := Finally();
      if !closed {
        r := Failed(RestoreFailed);
      }
    }

    /** The two calls ahead of the try block. */
    method Prepare() returns (ok: bool)
      requires cluster.Good()
      modifies cluster`fleet, cluster`history, cluster`calls, cluster`around
      ensures cluster.Good() && cluster.KeepsConverged()
      ensures ok == !old(cluster.around).PreparationRaises(cluster.refused)
      ensures cluster.around == old(cluster.around).Prepared(cluster.refused)
    {
      ok := cluster.OpenPolicy();
      if ok {
        ok := cluster.TakeHook();
      }
    }

    /** The finally block: an exception of the first restore keeps the second from being tried. */
    method Finally() returns (ok: bool)
      requires cluster.Good()
      modifies cluster`fleet, cluster`history, cluster`calls, cluster`around
      ensures cluster.Good() && cluster.KeepsConverged()
      ensures ok == !old(cluster.around).RestorationRaises(cluster.refused)
      ensures cluster.around == old(cluster.around).Restored(cluster.refused)
    {
      ok := cluster.ClosePolicy();
      if ok {
        ok := cluster.ReturnHook();
      }
    }

    /** The loop inside the try block. */
    method StepThrough(steps: seq<Version>) returns (r: Result)
      requires current.0 == target.0 && current.1 < target.1 && steps == Steps(current, target)
      requires forall i | 0 <= i < |steps| :: StepKey(steps[i]) in images
      requires !isNodeImage("") && forall k | k in images :: isNodeImage(images[k])
      requires cluster.Good() && cluster.patches == [] && cluster.fleet.requested == current.1
      requires ControlConverged(cluster.fleet) && WorkersConverged(cluster.fleet)
      modifies cluster`fleet, cluster`history, cluster`calls, cluster`patches
      ensures cluster.Good() && cluster.patches <= Minors(steps)
      ensures r.Bumped? || r == Failed(PatchFailed) || r == Failed(NotConverged)
      ensures r.Bumped? ==> cluster.patches == Minors(steps) && ControlConverged(cluster.fleet)
                            && WorkersConverged(cluster.fleet) && cluster.fleet.requested == target.1
      ensures cluster.Prompt(old(cluster.fleet.workers.Keys)) ==> r.Bumped?
    {
      StepsRise(current, target);
      var minor := current.1;
      while (current.0, minor) != target
        invariant current.1 <= minor <= target.1 && cluster.fleet.requested == minor
        invariant cluster.Good() && ControlConverged(cluster.fleet) && WorkersConverged(cluster.fleet)
        invariant cluster.patches == Rising(current.1, minor) && cluster.fleet.workers.Keys == old(cluster.fleet.workers.Keys)
        decreases target.1 - minor
      {
        RisingNext(current.1, minor, target.1);
        minor := minor + 1;
        assert steps[minor - current.1 - 1] == (current.0, minor);
        var key := StepKey((current.0, minor));
        var image := if key in images then images[key] else "";
        if image == "" {
          return Failed(MissingInLoop);
        }
        r := OneStep(minor);
        if r.Failed? {
          return;
        }
      }
      r := Bumped;
    }

    /** Patch, wait for the control plane, wait for the workers. */
    method OneStep(minor: nat) returns (r: Result)
      requires cluster.Good() && ControlConverged(cluster.fleet) && WorkersConverged(cluster.fleet)
      requires minor == cluster.fleet.requested + 1
      modifies cluster`fleet, cluster`history, cluster`calls, cluster`patches
      ensures cluster.Good() && (r.Bumped? || r == Failed(PatchFailed) || r == Failed(NotConverged))
      ensures r.Bumped? ==> cluster.patches == old(cluster.patches) + [minor] && cluster.fleet.requested == minor
                            && ControlConverged(cluster.fleet) && WorkersConverged(cluster.fleet)
      ensures cluster.patches == old(cluster.patches) || cluster.patches == old(cluster.patches) + [minor]
      ensures cluster.fleet.workers.Keys == old(cluster.fleet.workers.Keys)
      ensures cluster.Prompt(old(cluster.fleet.workers.Keys)) ==> r.Bumped?
    {
      var ok := cluster.Patch(minor);
      if !ok {
        return Failed(PatchFailed);
      }
      ok := cluster.WaitControl();
      if !ok {
        return Failed(NotConverged);
      }
      ok := cluster.WaitWorkers();
      r := if ok then Bumped else Failed(NotConverged);
    }

    /** bump_k8s_version() for GCP: no images, and the workers of every step are waited for. */
    method BumpGcp(confirmed: bool, dryRun: bool) returns (r: Result)
      requires Ready()
      requires Below(current, target) ==> current.0 == target.0
      modifies cluster
      ensures Promised(r) && cluster.around == old(cluster.around)
      ensures Below(target, current) ==> r == Failed(Downgrade)
      ensures cluster.Prompt(old(cluster.fleet.workers.Keys)) ==>
                (r.Bumped? <==> Below(current, target) && confirmed && !dryRun)
    {
      if current == target {
        var done := cluster.WaitWorkers();
        return if done then Skipped else Failed(WorkersBehind);
      }
      if Below(target, current) {
        return Failed(Downgrade);
      }
      var ok := cluster.Ask();   // a version for the target is resolved first
      if !ok {
        return Failed(NoVersion);
      }
      if dryRun || !confirmed {
        return Skipped;
      }
      var steps := ListSteps(current, target);
      r := StepThroughPools(steps);
    }

    /** The loop over the steps, with the settling after each. */
    method StepThroughPools(steps: seq<Version>) returns (r: Result)
      requires current.0 == target.0 && current.1 < target.1 && steps == Steps(current, target)
      requires cluster.Good() && cluster.patches == [] && cluster.fleet.requested == current.1
      requires ControlConverged(cluster.fleet) && WorkersConverged(cluster.fleet)
      modifies cluster`fleet, cluster`history, cluster`calls, cluster`patches
      ensures cluster.Good() && cluster.patches <= Minors(steps) && r != Failed(MissingInLoop) && !r.Skipped?
      ensures r.Bumped? ==> cluster.patches == Minors(steps) && ControlConverged(cluster.fleet)
                            && WorkersConverged(cluster.fleet) && cluster.fleet.requested == target.1
      ensures cluster.Prompt(old(cluster.fleet.workers.Keys)) ==> r.Bumped?
    {
      StepsRise(current, target);
      for i := 0 to |steps|
        invariant cluster.fleet.requested == current.1 + i && cluster.Good()
        invariant ControlConverged(cluster.fleet) && WorkersConverged(cluster.fleet)
        invariant cluster.patches == Rising(current.1, current.1 + i) && cluster.fleet.workers.Keys == old(cluster.fleet.workers.Keys)
      {
        RisingNext(current.1, current.1 + i, target.1);
        r := PoolStep(steps[i].1);
        if r.Failed? {
          return;
        }
      }
      r := Bumped;
    }

    /** Resolve the version, take the step, let the KeosCluster settle. */
    method PoolStep(minor: nat) returns (r: Result)
      requires cluster.Good() && ControlConverged(cluster.fleet) && WorkersConverged(cluster.fleet)
      requires minor == cluster.fleet.requested + 1
      modifies cluster`fleet, cluster`history, cluster`calls, cluster`patches
      ensures cluster.Good() && (r.Bumped? || r == Failed(NoVersion) || r == Failed(PatchFailed) || r == Failed(NotConverged))
      ensures r.Bumped? ==> cluster.patches == old(cluster.patches) + [minor] && cluster.fleet.requested == minor
                            && ControlConverged(cluster.fleet) && WorkersConverged(cluster.fleet)
      ensures cluster.patches == old(cluster.patches) || cluster.patches == old(cluster.patches) + [minor]
      ensures cluster.fleet.workers.Keys == old(cluster.fleet.workers.Keys)
      ensures cluster.Prompt(old(cluster.fleet.workers.Keys)) ==> r.Bumped?
    {
      var ok := cluster.Ask();
      if !ok {
        return Failed(NoVersion);
      }
      r := OneStep(minor);
      if r.Bumped? {
        ok := cluster.Ask();
        r := if ok then Bumped else Failed(NotConverged);
      }
    }
  }

  // ---------------------------------------------------------------- runs that leave the policy widened

  /** A bump from 1.27 to 1.28, without node groups to wait for, in which the steps go well. */
  method SmoothRun(around: Around, refused: set<Guard>) returns (cluster: Cluster, r: Result)
    requires around.policy == Absent || around.policy == AsFound
    ensures CameToPrepare(r) && Leaves(around, cluster.around, refused, r)
    ensures r.Bumped? <==> NothingRaises(around, refused)
    ensures r.Bumped? ==> cluster.patches == [28]
  {
    var fleet := Fleet(27, map[], 27);
    cluster := new Cluster(fleet, around, k => false, k => [ControlMoves], refused);
    forall k: nat, f: Fleet | f.workers.Keys == {}
      ensures Converged(ReactAll(f, cluster.moves(k)))
    {
      assert ReactAll(f, [ControlMoves]) == React(ReactAll(f, []), ControlMoves);
    }
    assert cluster.Prompt(fleet.workers.Keys);
    var image := "/CommunityGalleries/g/images/i/versions/1";
    var images := map[StepKey((1, 28)) := image];
    assert StepKey((1, 28)) in images;
    var upgrade := new Upgrade(cluster, (1, 27), (1, 28), true, images, s => s == image);
    assert upgrade.Ready() && upgrade.ImagesFit();
    r := upgrade.BumpAzure(true, false);
    assert r.Bumped? ==> cluster.patches == Minors(Steps((1, 27), (1, 28))) == [28];
  }

  /** Of all the requests only the look-up of the finally block fails: the bump succeeds and the policy stays widened. */
  method SilentLookUpLeavesItWidened() returns (cluster: Cluster, r: Result)
    ensures r == Bumped && cluster.around.policy == Widened && cluster.around.hook == With
  {
    cluster, r := SmoothRun(Around(AsFound, With, false), {LaterPolicyLookup});
  }

  /** Only the removal of the webhook fails: the policy stays widened although the steps were never begun. */
  method RefusedRemovalLeavesItWidened() returns (cluster: Cluster, r: Result)
    ensures r == Failed(PreparationFailed) && cluster.around.policy == Widened && cluster.around.hook == With
  {
    cluster, r := SmoothRun(Around(AsFound, With, false), {HookRemoval});
  }

  /** Only the narrowing fails: the webhook, for which every request would go through, is not put back either. */
  method RefusedNarrowingLosesTheHook() returns (cluster: Cluster, r: Result)
    ensures r == Failed(RestoreFailed) && cluster.around.policy == Widened && cluster.around.hook == Without
  {
    cluster, r := SmoothRun(Around(AsFound, With, false), {PolicyNarrowing});
  }
}
