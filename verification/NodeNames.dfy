/**
 Names of the nodes of a cluster, and the two nodes that are found by role and name: the bootstrap control plane and
 the endpoint of the API server (namer.go, roles.go, cluster_util.go, docker/provision.go).
 */
module NodeNames {
  import opened Decimal
  import opened Options
  import opened Text

  const CONTROL_PLANE := "control-plane"
  const WORKER := "worker"
  const LOAD_BALANCER := "external-load-balancer"

  // ---------------------------------------------------------------- names

  /** The name of the `n`th node of a role. */
  function NameOf(cluster: string, role: string, n: nat): string {
    cluster + "-" + role + (if n == 1 then "" else Print(n))
  }

  function Count(roles: seq<string>, role: string): nat {
    if roles == [] then 0
    else Count(roles[..|roles| - 1], role) + if roles[|roles| - 1] == role then 1 else 0
  }

  lemma CountMore(roles: seq<string>, last: string, role: string)
    ensures Count(roles + [last], role) == Count(roles, role) + if last == role then 1 else 0
  {
    assert (roles + [last])[..|roles|] == roles;
  }

  /** The closure of MakeNodeNamer(); `named` are the roles it was called with. */
  class Namer {
    const clusterName: string
    var counter: map<string, nat>
    ghost var named: seq<string>

    constructor (clusterName: string)
      ensures Valid() && this.clusterName == clusterName && named == []
    {
      this.clusterName, this.counter, this.named := clusterName, map[], [];
    }

    ghost predicate Valid()
      reads this
    {
      && (forall r | r in counter :: counter[r] > 0)
      && forall r :: Count(named, r) == if r in counter then counter[r] else 0
    }

    /** The nth call for a role returns the nth name of the role. */
    method Name(role: string) returns (name: string)
      requires Valid()
      modifies this
      ensures Valid() && named == old(named) + [role]
      ensures name == NameOf(clusterName, role, Count(named, role))
    {
      var count, suffix := 1, "";
      if role in counter {
        count := count + counter[role];
        suffix := Print(count);
      }
      forall r {
        CountMore(named, role, r);
      }
      counter := counter[role := count];
      name := clusterName + "-" + role + suffix;
      named := named + [role];
    }
  }

  /** The names that the namer gives to nodes of these roles, one after the other. */
  function Names(cluster: string, roles: seq<string>): (names: seq<string>)
    ensures |names| == |roles|
  {
    if roles == [] then []
    else
      var last := roles[|roles| - 1];
      Names(cluster, roles[..|roles| - 1]) + [NameOf(cluster, last, Count(roles, last))]
  }

  lemma {:induction false} NamesAt(cluster: string, roles: seq<string>, i: nat)
    requires i < |roles|
    ensures Names(cluster, roles)[i] == NameOf(cluster, roles[i], Count(roles[..i + 1], roles[i]))
    decreases |roles|
  {
    if i < |roles| - 1 {
      var front := roles[..|roles| - 1];
      NamesAt(cluster, front, i);
      assert front[..i + 1] == roles[..i + 1];
    } else {
      assert roles[..i + 1] == roles;
    }
  }

  /** ClusterHasImplicitLoadBalancer(). */
  method HasImplicitLoadBalancer(roles: seq<string>) returns (has: bool)
    ensures has <==> Count(roles, CONTROL_PLANE) > 1
  {
    var controlPlanes := 0;
    for i := 0 to |roles|
      invariant controlPlanes == Count(roles[..i], CONTROL_PLANE)
    {
      assert roles[..i + 1][..i] == roles[..i];
      if roles[i] == CONTROL_PLANE {
        controlPlanes := controlPlanes + 1;
      }
    }
    assert roles[..|roles|] == roles;
    has := controlPlanes > 1;
  }

  predicate Known(role: string) {
    role == CONTROL_PLANE || role == WORKER
  }

  /** A container: its name and the role in its label, if it can be read. */
  datatype Container = Container(name: string, role: Option<string>)

  function Plan(cluster: string, roles: seq<string>): seq<Container> {
    (if Count(roles, CONTROL_PLANE) > 1 then [Container(NameOf(cluster, LOAD_BALANCER, 1), Some(LOAD_BALANCER))] else [])
    + Planned(cluster, roles)
  }

  function Planned(cluster: string, roles: seq<string>): (cs: seq<Container>)
    ensures |cs| == |roles|
  {
    if roles == [] then []
    else
      var last := roles[|roles| - 1];
      Planned(cluster, roles[..|roles| - 1]) + [Container(NameOf(cluster, last, Count(roles, last)), Some(last))]
  }

  lemma {:induction false} PlannedAt(cluster: string, roles: seq<string>, i: nat)
    requires i < |roles|
    ensures Planned(cluster, roles)[i] == Container(Names(cluster, roles)[i], Some(roles[i]))
    decreases |roles|
  {
    if i < |roles| - 1 {
      PlannedAt(cluster, roles[..|roles| - 1], i);
    }
  }

  lemma TakeMore(roles: seq<string>, i: nat)
    requires i < |roles|
    ensures roles[..i + 1] == roles[..i] + [roles[i]] && roles[..i + 1][..i] == roles[..i]
  {
  }

  lemma PlannedNext(cluster: string, roles: seq<string>, i: nat)
    requires i < |roles|
    ensures Planned(cluster, roles[..i + 1])
            == Planned(cluster, roles[..i]) + [Container(Names(cluster, roles)[i], Some(roles[i]))]
  {
    TakeMore(roles, i);
    NamesAt(cluster, roles, i);
  }

  /** The first loop of planCreation(). */
  method NameNodes(namer: Namer, roles: seq<string>) returns (names: seq<string>)
    requires namer.Valid() && namer.named == []
    modifies namer
    ensures namer.Valid() && namer.named == roles && names == Names(namer.clusterName, roles)
  {
    names := [];
    for i := 0 to |roles|
      invariant namer.Valid() && namer.named == roles[..i] && names == Names(namer.clusterName, roles[..i])
    {
      var name := namer.Name(roles[i]);
      TakeMore(roles, i);
      names := names + [name];
    }
    assert roles[..|roles|] == roles;
  }

  /** The second loop of planCreation(). */
  method PlanNodes(cluster: string, roles: seq<string>, names: seq<string>) returns (plan: Option<seq<Container>>)
    requires Names(cluster, roles) <= names
    ensures plan.None? <==> exists i | 0 <= i < |roles| :: !Known(roles[i])
    ensures plan.Some? ==> plan.value == Planned(cluster, roles)
  {
    var containers: seq<Container> := [];
    for i := 0 to |roles|
      invariant containers == Planned(cluster, roles[..i])
      invariant forall j | 0 <= j < i :: Known(roles[j])
    {
      PlannedNext(cluster, roles, i);
      if roles[i] == CONTROL_PLANE || roles[i] == WORKER {
        containers := containers + [Container(names[i], Some(roles[i]))];
      } else {
        return None;
      }
    }
    assert roles[..|roles|] == roles;
    return Some(containers);
  }

  /** planCreation(), as far as it decides on names and on the load balancer; nothing is created for an unknown role. */
  method PlanCreation(cluster: string, roles: seq<string>) returns (plan: Option<seq<Container>>)
    ensures plan.None? <==> exists i | 0 <= i < |roles| :: !Known(roles[i])
    ensures plan.Some? ==> plan.value == Plan(cluster, roles)
  {
    var namer := new Namer(cluster);
    var names := NameNodes(namer, roles);
    var haveLoadbalancer := HasImplicitLoadBalancer(roles);
    var containers: seq<Container> := [];
    if haveLoadbalancer {
      var name := namer.Name(LOAD_BALANCER);
      names := names + [name];
      containers := [Container(names[|names| - 1], Some(LOAD_BALANCER))];
    }
    plan := PlanNodes(cluster, roles, names);
    if plan.Some? {
      UnknownIsNotCounted(roles, LOAD_BALANCER);
      CountMore(roles, LOAD_BALANCER, LOAD_BALANCER);
      plan := Some(containers + plan.value);
    }
  }

  lemma {:induction false} UnknownIsNotCounted(roles: seq<string>, role: string)
    requires forall j | 0 <= j < |roles| :: roles[j] != role
    ensures Count(roles, role) == 0
  {
    if roles != [] {
      UnknownIsNotCounted(roles[..|roles| - 1], role);
    }
  }

  // ---------------------------------------------------------------- names are distinct

  function Suffix(n: nat): string {
    if n == 1 then "" else Print(n)
  }

  lemma SuffixIsInjective(m: nat, n: nat)
    requires Suffix(m) == Suffix(n)
    ensures m == n
  {
    PrintIsCanonical(m);
    PrintIsCanonical(n);
    if m != 1 && n != 1 {
      PrintInjective(m, n);
    }
  }

  predicate Named(role: string) {
    Known(role) || role == LOAD_BALANCER
  }

  lemma CancelFront(front: string, a: string, b: string)
    requires front + a == front + b
    ensures a == b
  {
    assert (front + a)[|front|..] == a && (front + b)[|front|..] == b;
  }

  lemma NameParts(cluster: string, role: string, n: nat)
    ensures NameOf(cluster, role, n) == cluster + "-" + (role + Suffix(n))
  {
  }

  /** The first character tells the roles apart. */
  lemma RoleAndSuffix(r: string, m: nat, q: string, n: nat)
    requires Named(r) && Named(q) && r + Suffix(m) == q + Suffix(n)
    ensures r == q && m == n
  {
    assert (r + Suffix(m))[0] == r[0] && (q + Suffix(n))[0] == q[0];
    CancelFront(r, Suffix(m), Suffix(n));
    SuffixIsInjective(m, n);
  }

  /** A name tells role and number. */
  lemma NameIsInjective(cluster: string, r: string, m: nat, q: string, n: nat)
    requires Named(r) && Named(q) && NameOf(cluster, r, m) == NameOf(cluster, q, n)
    ensures r == q && m == n
  {
    NameParts(cluster, r, m);
    NameParts(cluster, q, n);
    CancelFront(cluster + "-", r + Suffix(m), q + Suffix(n));
    RoleAndSuffix(r, m, q, n);
  }

  lemma {:induction false} CountGrows(roles: seq<string>, i: nat, j: nat)
    requires i < j <= |roles|
    ensures Count(roles[..i], roles[j - 1]) + 1 <= Count(roles[..j], roles[j - 1])
    decreases j
  {
    CountMore(roles[..j - 1], roles[j - 1], roles[j - 1]);
    assert roles[..j - 1] + [roles[j - 1]] == roles[..j];
    CountMonotone(roles, i, j - 1, roles[j - 1]);
  }

  lemma {:induction false} CountMonotone(roles: seq<string>, i: nat, j: nat, role: string)
    requires i <= j <= |roles|
    ensures Count(roles[..i], role) <= Count(roles[..j], role)
    decreases j
  {
    if i < j {
      CountMonotone(roles, i, j - 1, role);
      CountMore(roles[..j - 1], roles[j - 1], role);
      assert roles[..j - 1] + [roles[j - 1]] == roles[..j];
    }
  }

  ghost predicate DistinctNames(cs: seq<Container>) {
    forall i, j | 0 <= i < j < |cs| :: cs[i].name != cs[j].name
  }

  lemma TwoNamesDiffer(cluster: string, roles: seq<string>, i: nat, j: nat)
    requires i < j < |roles| && Known(roles[i]) && Known(roles[j])
    ensures Names(cluster, roles)[i] != Names(cluster, roles)[j]
  {
    NamesAt(cluster, roles, i);
    NamesAt(cluster, roles, j);
    if Names(cluster, roles)[i] == Names(cluster, roles)[j] {
      NameIsInjective(cluster, roles[i], Count(roles[..i + 1], roles[i]), roles[j], Count(roles[..j + 1], roles[j]));
      CountGrows(roles, i + 1, j + 1);
    }
  }

  lemma LoadBalancerDiffers(cluster: string, roles: seq<string>, i: nat)
    requires i < |roles| && Known(roles[i])
    ensures Names(cluster, roles)[i] != NameOf(cluster, LOAD_BALANCER, 1)
  {
    NamesAt(cluster, roles, i);
    if Names(cluster, roles)[i] == NameOf(cluster, LOAD_BALANCER, 1) {
      NameIsInjective(cluster, roles[i], Count(roles[..i + 1], roles[i]), LOAD_BALANCER, 1);
    }
  }

  /** All names of a plan, that of the load balancer included, are different. */
  lemma PlannedNamesDiffer(cluster: string, roles: seq<string>)
    requires forall i | 0 <= i < |roles| :: Known(roles[i])
    ensures DistinctNames(Plan(cluster, roles))
  {
    var plan := Plan(cluster, roles);
    var k := |plan| - |roles|;
    forall i, j | 0 <= i < j < |plan| ensures plan[i].name != plan[j].name {
      PlannedAt(cluster, roles, j - k);
      if i < k {
        LoadBalancerDiffers(cluster, roles, j - k);
      } else {
        PlannedAt(cluster, roles, i - k);
        TwoNamesDiffer(cluster, roles, i - k, j - k);
      }
    }
  }

  // ---------------------------------------------------------------- finding nodes again

  predicate Readable(all: seq<Container>) {
    forall i | 0 <= i < |all| :: all[i].role.Some?
  }

  function Select(all: seq<Container>, role: string): seq<Container> {
    if all == [] then []
    else
      var last := all[|all| - 1];
      Select(all[..|all| - 1], role) + if last.role == Some(role) then [last] else []
  }

  /** SelectNodesByRole(). */
  method SelectNodesByRole(all: seq<Container>, role: string) returns (r: Option<seq<Container>>)
    ensures r == if Readable(all) then Some(Select(all, role)) else None
  {
    var out: seq<Container> := [];
    for i := 0 to |all|
      invariant out == Select(all[..i], role) && Readable(all[..i])
    {
      if all[i].role == None {
        return None;
      }
      assert all[..i + 1][..i] == all[..i];
      if all[i].role.value == role {
        out := out + [all[i]];
      }
    }
    assert all[..|all|] == all;
    return Some(out);
  }

  predicate InOrder(cs: seq<Container>) {
    forall i, j | 0 <= i < j < |cs| :: !Before(cs[j].name, cs[i].name)
  }

  method Insert(cs: seq<Container>, c: Container) returns (out: seq<Container>)
    requires InOrder(cs)
    ensures multiset(out) == multiset(cs) + multiset{c} && InOrder(out)
  {
    var k: nat := |cs|;
    while k > 0 && Before(c.name, cs[k - 1].name)
      invariant k <= |cs| && forall j | k <= j < |cs| :: Before(c.name, cs[j].name)
    {
      k := k - 1;
    }
    InOrderInsert(cs, k, c);
    assert cs == cs[..k] + cs[k..];
    out := cs[..k] + [c] + cs[k..];
  }

  /** sort.Slice() by name. */
  method SortByName(cs: seq<Container>) returns (out: seq<Container>)
    ensures multiset(out) == multiset(cs) && InOrder(out)
  {
    out := [];
    for i := 0 to |cs|
      invariant multiset(out) == multiset(cs[..i]) && InOrder(out)
    {
      out := Insert(out, cs[i]);
      assert cs[..i + 1] == cs[..i] + [cs[i]];
    }
    assert cs[..|cs|] == cs;
  }

  lemma InOrderInsert(out: seq<Container>, k: nat, c: Container)
    requires InOrder(out) && k <= |out| && (k > 0 ==> !Before(c.name, out[k - 1].name))
    requires forall j | k <= j < |out| :: Before(c.name, out[j].name)
    ensures InOrder(out[..k] + [c] + out[k..])
  {
    forall j | 0 <= j < k ensures !Before(c.name, out[j].name) {
      if Before(c.name, out[j].name) && j < k - 1 {
        BeforeTotal(out[j].name, out[k - 1].name);
        if Before(out[j].name, out[k - 1].name) {
          BeforeTransitive(c.name, out[j].name, out[k - 1].name);
        }
      }
    }
    forall j | k <= j < |out| ensures !Before(out[j].name, c.name) {
      BeforeAsymmetric(c.name, out[j].name);
    }
    var all := out[..k] + [c] + out[k..];
    assert forall i | 0 <= i < |all| :: all[i] == if i < k then out[i] else if i == k then c else out[i - 1];
  }

  /** ControlPlaneNodes(). */
  method ControlPlaneNodes(all: seq<Container>) returns (r: Option<seq<Container>>)
    ensures r.None? <==> !Readable(all)
    ensures r.Some? ==> multiset(r.value) == multiset(Select(all, CONTROL_PLANE)) && InOrder(r.value)
  {
    var selected := SelectNodesByRole(all, CONTROL_PLANE);
    if selected == None {
      return None;
    }
    var sorted := SortByName(selected.value);
    return Some(sorted);
  }

  /** The control plane of which no other comes before it by name. */
  ghost predicate IsBootstrap(all: seq<Container>, c: Container) {
    c in Select(all, CONTROL_PLANE) && forall d | d in Select(all, CONTROL_PLANE) :: !Before(d.name, c.name)
  }

  lemma SameLength<T>(a: seq<T>, b: seq<T>)
    requires multiset(a) == multiset(b)
    ensures |a| == |b| && (forall x :: x in a <==> x in b) && (|a| == 1 ==> a == b)
  {
    assert |multiset(a)| == |a| && |multiset(b)| == |b|;
    forall x ensures x in a <==> x in b {
      assert x in multiset(a) <==> x in multiset(b);
    }
    assert |a| == 1 ==> a[0] in b;
  }

  /** BootstrapControlPlaneNode(). */
  method BootstrapControlPlaneNode(all: seq<Container>) returns (r: Option<Container>)
    ensures r.None? <==> !Readable(all) || Select(all, CONTROL_PLANE) == []
    ensures r.Some? ==> IsBootstrap(all, r.value)
  {
    var nodes := ControlPlaneNodes(all);
    if nodes == None {
      return None;
    }
    SameLength(nodes.value, Select(all, CONTROL_PLANE));
    if |nodes.value| < 1 {
      return None;
    }
    BeforeIrreflexive(nodes.value[0].name);
    return Some(nodes.value[0]);
  }

  /** ExternalLoadBalancerNode(): an error, or perhaps a node. */
  method ExternalLoadBalancerNode(all: seq<Container>) returns (r: Option<Option<Container>>)
    ensures var lbs := Select(all, LOAD_BALANCER);
            r == if !Readable(all) || |lbs| > 1 then None else if lbs == [] then Some(None) else Some(Some(lbs[0]))
  {
    var selected := SelectNodesByRole(all, LOAD_BALANCER);
    if selected == None {
      return None;
    }
    if |selected.value| < 1 {
      return Some(None);
    }
    if |selected.value| > 1 {
      return None;
    }
    return Some(Some(selected.value[0]));
  }

  /** The node of the API server's endpoint; none if the list of nodes is invalid. */
  function Endpoint(all: seq<Container>): Option<Container> {
    var lbs, cps := Select(all, LOAD_BALANCER), Select(all, CONTROL_PLANE);
    if !Readable(all) || |lbs| > 1 then None
    else if |lbs| == 1 then Some(lbs[0])
    else if |cps| == 1 then Some(cps[0])
    else None
  }

  /** APIServerEndpointNode(). */
  method APIServerEndpointNode(all: seq<Container>) returns (r: Option<Container>)
    ensures r == Endpoint(all)
  {
    var lb := ExternalLoadBalancerNode(all);
    if lb == None {
      return None;
    }
    if lb.value.Some? {
      return lb.value;
    }
    var n := ControlPlaneNodes(all);
    if n == None {
      return None;
    }
    SameLength(n.value, Select(all, CONTROL_PLANE));
    if |n.value| != 1 {
      return None;
    }
    return Some(n.value[0]);
  }

  // ---------------------------------------------------------------- what is found in a planned cluster

  lemma {:induction false} SelectCounts(all: seq<Container>, role: string, x: Container)
    ensures multiset(Select(all, role))[x] == if x.role == Some(role) then multiset(all)[x] else 0
  {
    if all != [] {
      var front, last := all[..|all| - 1], all[|all| - 1];
      SelectCounts(front, role, x);
      assert all == front + [last];
    }
  }

  lemma SelectPermuted(a: seq<Container>, b: seq<Container>, role: string)
    requires multiset(a) == multiset(b)
    ensures multiset(Select(a, role)) == multiset(Select(b, role))
  {
    forall x ensures multiset(Select(a, role))[x] == multiset(Select(b, role))[x] {
      SelectCounts(a, role, x);
      SelectCounts(b, role, x);
    }
  }

  lemma SelectMore(front: seq<Container>, last: Container, role: string)
    ensures Select(front + [last], role) == Select(front, role) + if last.role == Some(role) then [last] else []
  {
    assert (front + [last])[..|front|] == front;
  }

  /** The first `n` containers of a role. */
  function Numbered(cluster: string, role: string, n: nat): (cs: seq<Container>)
    ensures |cs| == n
  {
    if n == 0 then [] else Numbered(cluster, role, n - 1) + [Container(NameOf(cluster, role, n), Some(role))]
  }

  lemma {:induction false} NumberedAt(cluster: string, role: string, n: nat, k: nat)
    requires k < n
    ensures Numbered(cluster, role, n)[k] == Container(NameOf(cluster, role, k + 1), Some(role))
  {
    if k < n - 1 {
      NumberedAt(cluster, role, n - 1, k);
    }
  }

  /** The planned nodes of a role are its first, second, third ... */
  lemma {:induction false} SelectPlanned(cluster: string, roles: seq<string>, role: string)
    ensures Select(Planned(cluster, roles), role) == Numbered(cluster, role, Count(roles, role))
  {
    if roles != [] {
      var front, last := roles[..|roles| - 1], roles[|roles| - 1];
      SelectPlanned(cluster, front, role);
      SelectMore(Planned(cluster, front), Container(NameOf(cluster, last, Count(roles, last)), Some(last)), role);
    }
  }

  lemma {:induction false} SelectAppend(a: seq<Container>, b: seq<Container>, role: string)
    ensures Select(a + b, role) == Select(a, role) + Select(b, role)
    decreases |b|
  {
    if b == [] {
      assert a + b == a;
    } else {
      var front, last := b[..|b| - 1], b[|b| - 1];
      SelectAppend(a, front, role);
      SelectMore(a + front, last, role);
      assert a + b == a + front + [last] && b == front + [last];
    }
  }

  /** The containers of a cluster as some runtime lists them. */
  ghost predicate Lists(all: seq<Container>, cluster: string, roles: seq<string>) {
    && (forall i | 0 <= i < |roles| :: Known(roles[i]))
    && multiset(all) == multiset(Plan(cluster, roles))
  }

  lemma ListedIsReadable(all: seq<Container>, cluster: string, roles: seq<string>)
    requires Lists(all, cluster, roles)
    ensures Readable(all)
  {
    forall i: nat | i < |roles| {
      PlannedAt(cluster, roles, i);
    }
    assert forall c | c in Plan(cluster, roles) :: c.role.Some?;
    SameLength(all, Plan(cluster, roles));
    assert forall i | 0 <= i < |all| :: all[i] in all;
  }

  lemma SelectedOfPlan(cluster: string, roles: seq<string>)
    requires forall i | 0 <= i < |roles| :: Known(roles[i])
    ensures Select(Plan(cluster, roles), CONTROL_PLANE) == Select(Planned(cluster, roles), CONTROL_PLANE)
    ensures Select(Plan(cluster, roles), LOAD_BALANCER)
            == if Count(roles, CONTROL_PLANE) > 1 then [Container(NameOf(cluster, LOAD_BALANCER, 1), Some(LOAD_BALANCER))] else []
  {
    var first := if Count(roles, CONTROL_PLANE) > 1
      then [Container(NameOf(cluster, LOAD_BALANCER, 1), Some(LOAD_BALANCER))] else [];
    SelectAppend(first, Planned(cluster, roles), CONTROL_PLANE);
    SelectAppend(first, Planned(cluster, roles), LOAD_BALANCER);
    SelectPlanned(cluster, roles, LOAD_BALANCER);
    UnknownIsNotCounted(roles, LOAD_BALANCER);
    if first != [] {
      SelectMore([], first[0], CONTROL_PLANE);
      SelectMore([], first[0], LOAD_BALANCER);
      assert [] + first == first;
    }
  }

  function FirstControlPlane(cluster: string): Container {
    Container(NameOf(cluster, CONTROL_PLANE, 1), Some(CONTROL_PLANE))
  }

  lemma ControlPlanesOfCluster(all: seq<Container>, cluster: string, roles: seq<string>)
    requires Lists(all, cluster, roles)
    ensures multiset(Select(all, CONTROL_PLANE)) == multiset(Numbered(cluster, CONTROL_PLANE, Count(roles, CONTROL_PLANE)))
  {
    SelectedOfPlan(cluster, roles);
    SelectPlanned(cluster, roles, CONTROL_PLANE);
    SelectPermuted(all, Plan(cluster, roles), CONTROL_PLANE);
  }

  lemma LoadBalancersOfCluster(all: seq<Container>, cluster: string, roles: seq<string>)
    requires Lists(all, cluster, roles)
    ensures Select(all, LOAD_BALANCER)
            == if Count(roles, CONTROL_PLANE) > 1 then [Container(NameOf(cluster, LOAD_BALANCER, 1), Some(LOAD_BALANCER))] else []
  {
    SelectedOfPlan(cluster, roles);
    SelectPermuted(all, Plan(cluster, roles), LOAD_BALANCER);
    SameLength(Select(all, LOAD_BALANCER), Select(Plan(cluster, roles), LOAD_BALANCER));
  }

  /**
   For every cluster with a control plane, in whatever order its containers are listed, the endpoint is found: the
   load balancer if there is more than one control plane, and the control plane if there is one.
   */
  lemma EndpointOfCluster(all: seq<Container>, cluster: string, roles: seq<string>)
    requires Lists(all, cluster, roles) && Count(roles, CONTROL_PLANE) > 0
    ensures Endpoint(all) == Some(if Count(roles, CONTROL_PLANE) > 1
                                  then Container(NameOf(cluster, LOAD_BALANCER, 1), Some(LOAD_BALANCER))
                                  else FirstControlPlane(cluster))
  {
    var cps := Numbered(cluster, CONTROL_PLANE, Count(roles, CONTROL_PLANE));
    ListedIsReadable(all, cluster, roles);
    LoadBalancersOfCluster(all, cluster, roles);
    ControlPlanesOfCluster(all, cluster, roles);
    SameLength(Select(all, CONTROL_PLANE), cps);
    NumberedAt(cluster, CONTROL_PLANE, |cps|, 0);
  }

  lemma {:induction false} BeforeLonger(front: string, more: string)
    requires more != ""
    ensures Before(front, front + more)
  {
    if front != "" {
      BeforeLonger(front[1..], more);
      assert (front + more)[1..] == front[1..] + more;
    }
  }

  /** The first name of a role comes before its others. */
  lemma FirstNameIsFirst(cluster: string, role: string, n: nat)
    requires n != 1
    ensures Before(NameOf(cluster, role, 1), NameOf(cluster, role, n))
  {
    PrintIsCanonical(n);
    BeforeLonger(cluster + "-" + role, Print(n));
    assert NameOf(cluster, role, 1) == cluster + "-" + role;
  }

  lemma FirstOfNumbered(cluster: string, role: string, n: nat, c: Container)
    requires c in Numbered(cluster, role, n) && forall d | d in Numbered(cluster, role, n) :: !Before(d.name, c.name)
    ensures c == Container(NameOf(cluster, role, 1), Some(role))
  {
    var cs := Numbered(cluster, role, n);
    var k: nat :| k < n && cs[k] == c;
    NumberedAt(cluster, role, n, k);
    NumberedAt(cluster, role, n, 0);
    assert cs[0] in cs;
    if k > 0 {
      FirstNameIsFirst(cluster, role, k + 1);
    }
  }

  /** The bootstrap node is the control plane that was declared first, in whatever order the containers are listed. */
  lemma BootstrapIsFirstDeclared(all: seq<Container>, cluster: string, roles: seq<string>, c: Container)
    requires Lists(all, cluster, roles) && IsBootstrap(all, c)
    ensures c == FirstControlPlane(cluster)
  {
    var cps := Numbered(cluster, CONTROL_PLANE, Count(roles, CONTROL_PLANE));
    ControlPlanesOfCluster(all, cluster, roles);
    SameLength(Select(all, CONTROL_PLANE), cps);
    FirstOfNumbered(cluster, CONTROL_PLANE, |cps|, c);
  }

  /** The first control plane of a plan bears the first name of the role, wherever it stands among the nodes. */
  lemma {:induction false} FirstDeclaredHasFirstName(cluster: string, roles: seq<string>, i: nat)
    requires i < |roles| && roles[i] == CONTROL_PLANE && forall j | 0 <= j < i :: roles[j] != CONTROL_PLANE
    ensures Planned(cluster, roles)[i] == FirstControlPlane(cluster)
  {
    PlannedAt(cluster, roles, i);
    NamesAt(cluster, roles, i);
    UnknownIsNotCounted(roles[..i], CONTROL_PLANE);
    CountMore(roles[..i], roles[i], CONTROL_PLANE);
    TakeMore(roles, i);
  }
}
