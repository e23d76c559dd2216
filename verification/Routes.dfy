/**
 The routes that kindnetd keeps to the pods of the other nodes (images/kindnetd/cmd/kindnetd/routes.go, main.go): a
 reconciliation that heals any routing table, and what it leaves alone.
 */
module Routes {
  import opened Options
  import opened Text

  datatype Family = V4 | V6
  datatype Ip = Ip(family: Family, bits: int)
  datatype Cidr = Cidr(family: Family, bits: int)

  /** A route of the kernel; `rest` stands for link, metric, source and whatever else tells routes apart. */
  datatype Route = Route(dst: Cidr, gw: Option<Ip>, rest: int)

  /** The parsers of Go's net package. */
  datatype Net = Net(parseIP: string -> Option<Ip>, parseCIDR: string -> Option<Cidr>)

  /** What one reconciliation wants of a destination. */
  datatype Want = Want(dst: Cidr, gw: Option<Ip>)

  // ---------------------------------------------------------------- one destination

  ghost predicate Has(rs: set<Route>, w: Want) {
    exists r :: r in rs && r.dst == w.dst && r.gw == w.gw
  }

  ghost function Kept(rs: set<Route>, w: Want): set<Route> {
    set r | r in rs && (r.dst != w.dst || r.gw == w.gw)
  }

  /** The table after one round of the loop of syncRoute(). */
  ghost function Sync(rs: set<Route>, w: Want): set<Route> {
    if Has(rs, w) then Kept(rs, w) else Kept(rs, w) + {Route(w.dst, w.gw, 0)}
  }

  ghost function SyncAll(rs: set<Route>, ws: seq<Want>): set<Route> {
    if ws == [] then rs else Sync(SyncAll(rs, ws[..|ws| - 1]), ws[|ws| - 1])
  }

  /** The destination has a route, and only by the wanted gateway. */
  ghost predicate Satisfied(rs: set<Route>, w: Want) {
    Has(rs, w) && forall r | r in rs && r.dst == w.dst :: r.gw == w.gw
  }

  ghost predicate SameAt(rs: set<Route>, rs': set<Route>, dst: Cidr) {
    forall r: Route | r.dst == dst :: r in rs <==> r in rs'
  }

  lemma SyncSatisfies(rs: set<Route>, w: Want)
    ensures Satisfied(Sync(rs, w), w)
    ensures forall d | d != w.dst :: SameAt(rs, Sync(rs, w), d)
  {
    if Has(rs, w) {
      var r :| r in rs && r.dst == w.dst && r.gw == w.gw;
      assert r in Sync(rs, w);
    } else {
      assert Route(w.dst, w.gw, 0) in Sync(rs, w);
    }
  }

  ghost predicate Mentions(ws: seq<Want>, dst: Cidr) {
    exists i | 0 <= i < |ws| :: ws[i].dst == dst
  }

  /** Routes to destinations that nobody wants are left alone. */
  lemma {:induction false} OthersUnchanged(rs: set<Route>, ws: seq<Want>, dst: Cidr)
    requires !Mentions(ws, dst)
    ensures SameAt(rs, SyncAll(rs, ws), dst)
  {
    if ws != [] {
      var front, last := ws[..|ws| - 1], ws[|ws| - 1];
      assert forall i | 0 <= i < |front| :: front[i] == ws[i];
      OthersUnchanged(rs, front, dst);
      SyncSatisfies(SyncAll(rs, front), last);
    }
  }

  /** The last want for every destination is satisfied in the end, from whatever table the pass starts. */
  lemma {:induction false} LastWins(rs: set<Route>, ws: seq<Want>, i: nat)
    requires i < |ws| && forall j | i < j < |ws| :: ws[j].dst != ws[i].dst
    ensures Satisfied(SyncAll(rs, ws), ws[i])
  {
    var front, last := ws[..|ws| - 1], ws[|ws| - 1];
    SyncSatisfies(SyncAll(rs, front), last);
    if i < |front| {
      LastWins(rs, front, i);
      var table := SyncAll(rs, front);
      var r :| r in table && r.dst == ws[i].dst && r.gw == ws[i].gw;
      assert SameAt(table, Sync(table, last), ws[i].dst);
      assert r in Sync(table, last);
    }
  }

  /** No destination is wanted by two gateways. */
  ghost predicate Consistent(ws: seq<Want>) {
    forall i, j | 0 <= i < j < |ws| :: ws[i].dst == ws[j].dst ==> ws[i].gw == ws[j].gw
  }

  lemma {:induction false} LastFor(ws: seq<Want>, i: nat) returns (k: nat)
    requires i < |ws|
    ensures i <= k < |ws| && ws[k].dst == ws[i].dst && forall j | k < j < |ws| :: ws[j].dst != ws[k].dst
    decreases |ws| - i
  {
    if j: nat :| i < j < |ws| && ws[j].dst == ws[i].dst {
      k := LastFor(ws, j);
    } else {
      k := i;
    }
  }

  /** A pass converges, whatever the table was, exactly when no destination is wanted by two gateways. */
  lemma ConvergesIff(rs: set<Route>, ws: seq<Want>)
    ensures (forall i | 0 <= i < |ws| :: Satisfied(SyncAll(rs, ws), ws[i])) <==> Consistent(ws)
  {
    var end := SyncAll(rs, ws);
    if Consistent(ws) {
      forall i | 0 <= i < |ws| ensures Satisfied(end, ws[i]) {
        var k := LastFor(ws, i);
        LastWins(rs, ws, k);
        assert ws[k] == ws[i];
      }
    }
    if forall i | 0 <= i < |ws| :: Satisfied(end, ws[i]) {
      forall i, j | 0 <= i < j < |ws| && ws[i].dst == ws[j].dst ensures ws[i].gw == ws[j].gw {
        assert Satisfied(end, ws[i]) && Satisfied(end, ws[j]);
        var r :| r in end && r.dst == ws[i].dst && r.gw == ws[i].gw;
      }
    }
  }

  lemma SatisfiedStays(rs: set<Route>, w: Want)
    requires Satisfied(rs, w)
    ensures Sync(rs, w) == rs
  {
  }

  lemma {:induction false} SatisfiedAllStays(rs: set<Route>, ws: seq<Want>)
    requires forall i | 0 <= i < |ws| :: Satisfied(rs, ws[i])
    ensures SyncAll(rs, ws) == rs
  {
    if ws != [] {
      SatisfiedAllStays(rs, ws[..|ws| - 1]);
      assert Satisfied(rs, ws[|ws| - 1]);
      SatisfiedStays(rs, ws[|ws| - 1]);
    }
  }

  /** A second pass changes nothing. */
  lemma SecondPassIsIdle(rs: set<Route>, ws: seq<Want>)
    requires Consistent(ws)
    ensures SyncAll(SyncAll(rs, ws), ws) == SyncAll(rs, ws)
  {
    ConvergesIff(rs, ws);
    SatisfiedAllStays(SyncAll(rs, ws), ws);
  }

  lemma {:induction false} SyncAllAppend(rs: set<Route>, xs: seq<Want>, ys: seq<Want>)
    ensures SyncAll(rs, xs + ys) == SyncAll(SyncAll(rs, xs), ys)
    decreases |ys|
  {
    if ys == [] {
      assert xs + ys == xs;
    } else {
      SyncAllAppend(rs, xs, ys[..|ys| - 1]);
      assert (xs + ys)[..|xs + ys| - 1] == xs + ys[..|ys| - 1];
    }
  }

  // ---------------------------------------------------------------- what a node is given

  datatype Node = Node(addresses: seq<(string, string)>, podCIDR: string, podCIDRs: seq<string>)

  predicate IsV6(net: Net, ip: string) {
    net.parseIP(ip).Some? && net.parseIP(ip).value.family == V6
  }

  predicate IsV6CIDR(net: Net, cidr: string) {
    net.parseCIDR(cidr).Some? && net.parseCIDR(cidr).value.family == V6
  }

  function InternalIPs(node: Node): set<string> {
    set a | a in node.addresses && a.0 == "InternalIP" :: a.1
  }

  /** internalIPs(). */
  method CollectIPs(node: Node) returns (ips: set<string>)
    ensures ips == InternalIPs(node)
  {
    ips := {};
    for i := 0 to |node.addresses|
      invariant ips == set a | a in node.addresses[..i] && a.0 == "InternalIP" :: a.1
    {
      assert node.addresses[..i + 1] == node.addresses[..i] + [node.addresses[i]];
      if node.addresses[i].0 == "InternalIP" {
        ips := ips + {node.addresses[i].1};
      }
    }
    assert node.addresses[..|node.addresses|] == node.addresses;
  }

  function OfFamily(net: Net, cidrs: seq<string>, v6: bool): seq<string> {
    if cidrs == [] then []
    else
      var n := |cidrs| - 1;
      OfFamily(net, cidrs[..n], v6) + (if IsV6CIDR(net, cidrs[n]) == v6 then [cidrs[n]] else [])
  }

  /** splitCIDRs(): what does not parse goes with version 4. */
  method SplitCIDRs(net: Net, cidrs: seq<string>) returns (v4: seq<string>, v6: seq<string>)
    ensures v4 == OfFamily(net, cidrs, false) && v6 == OfFamily(net, cidrs, true)
  {
    v4, v6 := [], [];
    for i := 0 to |cidrs|
      invariant v4 == OfFamily(net, cidrs[..i], false) && v6 == OfFamily(net, cidrs[..i], true)
    {
      assert cidrs[..i + 1][..i] == cidrs[..i];
      if IsV6CIDR(net, cidrs[i]) {
        v6 := v6 + [cidrs[i]];
      } else {
        v4 := v4 + [cidrs[i]];
      }
    }
    assert cidrs[..|cidrs|] == cidrs;
  }

  /** splitCIDRs() loses and invents nothing. */
  lemma {:induction false} SplitKeeps(net: Net, cidrs: seq<string>)
    ensures multiset(OfFamily(net, cidrs, false)) + multiset(OfFamily(net, cidrs, true)) == multiset(cidrs)
  {
    if cidrs != [] {
      var front, last := cidrs[..|cidrs| - 1], cidrs[|cidrs| - 1];
      SplitKeeps(net, front);
      assert cidrs == front + [last];
      var a, b := OfFamily(net, front, false), OfFamily(net, front, true);
      if IsV6CIDR(net, last) {
        assert OfFamily(net, cidrs, false) == a && OfFamily(net, cidrs, true) == b + [last];
      } else {
        assert OfFamily(net, cidrs, false) == a + [last] && OfFamily(net, cidrs, true) == b;
      }
    }
  }

  /** The last address of a family in the order of the strings, "" if there is none. */
  ghost predicate IsLast(net: Net, ips: set<string>, v6: bool, ip: string) {
    && (ip != "" ==> ip in ips && IsV6(net, ip) == v6)
    && forall x | x in ips && IsV6(net, x) == v6 :: x == ip || Before(x, ip)
  }

  lemma LastIsOne(net: Net, ips: set<string>, v6: bool, a: string, b: string)
    requires IsLast(net, ips, v6, a) && IsLast(net, ips, v6, b)
    ensures a == b
  {
    if a != b {
      assert a != "" ==> Before(a, b);
      assert b != "" ==> Before(b, a);
      if a != "" && b != "" {
        BeforeAsymmetric(a, b);
      }
    }
  }

  lemma OneMoreIp(net: Net, ips: set<string>, v6: bool, ip: string, x: string)
    requires IsLast(net, ips, v6, ip)
    ensures IsV6(net, x) != v6 ==> IsLast(net, ips + {x}, v6, ip)
    ensures IsV6(net, x) == v6 && (ip == "" || Before(ip, x)) ==> IsLast(net, ips + {x}, v6, x)
    ensures IsV6(net, x) == v6 && (x == ip || Before(x, ip)) ==> IsLast(net, ips + {x}, v6, ip)
  {
    forall y | y in ips && IsV6(net, y) == v6 && Before(y, ip) && Before(ip, x) ensures Before(y, x) {
      BeforeTransitive(y, ip, x);
    }
  }

  lemma {:induction false} LastExists(net: Net, ips: set<string>, v6: bool) returns (ip: string)
    ensures IsLast(net, ips, v6, ip)
  {
    ip := "";
    if ips != {} {
      var x :| x in ips;
      ip := LastExists(net, ips - {x}, v6);
      OneMoreIp(net, ips - {x}, v6, ip, x);
      BeforeTotal(ip, x);
      assert ips - {x} + {x} == ips;
      if IsV6(net, x) == v6 && (ip == "" || Before(ip, x)) {
        ip := x;
      }
    }
  }

  ghost function Gateway(net: Net, ips: set<string>, v6: bool): (ip: string)
    ensures IsLast(net, ips, v6, ip)
  {
    assert exists g :: IsLast(net, ips, v6, g) by {
      var g := LastExists(net, ips, v6);
    }
    var g :| IsLast(net, ips, v6, g);
    g
  }

  function Elements(list: seq<string>): set<string> {
    set x | x in list
  }

  /** The loop over nodeIPs.List(): of several addresses of one family the last in order is the gateway. */
  method Gateways(net: Net, ips: set<string>) returns (v4: string, v6: string)
    ensures v4 == Gateway(net, ips, false) && v6 == Gateway(net, ips, true)
  {
    v4, v6 := "", "";
    var list := Sorted(ips);
    for i := 0 to |list|
      invariant IsLast(net, Elements(list[..i]), false, v4) && IsLast(net, Elements(list[..i]), true, v6)
    {
      assert Elements(list[..i + 1]) == Elements(list[..i]) + {list[i]};
      assert forall x | x in list[..i] :: Before(x, list[i]);
      OneMoreIp(net, Elements(list[..i]), false, v4, list[i]);
      OneMoreIp(net, Elements(list[..i]), true, v6, list[i]);
      if IsV6(net, list[i]) {
        v6 := list[i];
      } else {
        v4 := list[i];
      }
    }
    assert Elements(list[..|list|]) == ips;
    LastIsOne(net, ips, false, v4, Gateway(net, ips, false));
    LastIsOne(net, ips, true, v6, Gateway(net, ips, true));
  }

  predicate Parses(net: Net, cidrs: seq<string>) {
    forall i | 0 <= i < |cidrs| :: net.parseCIDR(cidrs[i]).Some?
  }

  function WantsBy(net: Net, ip: string, cidrs: seq<string>): (ws: seq<Want>)
    requires Parses(net, cidrs)
    ensures |ws| == |cidrs|
  {
    seq(|cidrs|, i requires 0 <= i < |cidrs| => Want(net.parseCIDR(cidrs[i]).value, net.parseIP(ip)))
  }

  /** The pod networks of a node for which routes are made by its gateway of one family. */
  ghost function Routed(net: Net, dual: bool, host: string, node: Node, v6: bool): seq<string> {
    var ips := InternalIPs(node);
    if host in ips || Gateway(net, ips, v6) == "" then []
    else OfFamily(net, if dual then node.podCIDRs else [node.podCIDR], v6)
  }

  ghost predicate NodeParses(net: Net, dual: bool, host: string, node: Node) {
    Parses(net, Routed(net, dual, host, node, false)) && Parses(net, Routed(net, dual, host, node, true))
  }

  ghost function NodeWants(net: Net, dual: bool, host: string, node: Node): seq<Want>
    requires NodeParses(net, dual, host, node)
  {
    WantsBy(net, Gateway(net, InternalIPs(node), false), Routed(net, dual, host, node, false))
    + WantsBy(net, Gateway(net, InternalIPs(node), true), Routed(net, dual, host, node, true))
  }

  ghost predicate AllParse(net: Net, dual: bool, host: string, nodes: seq<Node>) {
    forall i | 0 <= i < |nodes| :: NodeParses(net, dual, host, nodes[i])
  }

  ghost function AllWants(net: Net, dual: bool, host: string, nodes: seq<Node>): seq<Want>
    requires AllParse(net, dual, host, nodes)
  {
    if nodes == [] then []
    else AllWants(net, dual, host, nodes[..|nodes| - 1]) + NodeWants(net, dual, host, nodes[|nodes| - 1])
  }

  /**
   A node that has no pod network yet is passed over only if the cluster is dual-stack, the node is this one, or it
   has no address of version 4: in a single-stack cluster the empty string is taken for a network.
   */
  lemma NoPodCIDRIsIgnoredIff(net: Net, dual: bool, host: string, node: Node)
    requires node.podCIDR == "" && node.podCIDRs == [] && net.parseCIDR("") == None
    ensures NodeParses(net, dual, host, node)
            <==> dual || host in InternalIPs(node) || Gateway(net, InternalIPs(node), false) == ""
  {
    var one := [""];
    assert one[..0] == [] && one[0] == "";
    assert OfFamily(net, one, true) == [];
    assert OfFamily(net, one, false) == one;
    assert !Parses(net, one);
    assert OfFamily(net, node.podCIDRs, false) == OfFamily(net, node.podCIDRs, true) == [];
  }

  // ---------------------------------------------------------------- the reconciliation

  /** `b` comes from `a` by removing wrong routes to wanted destinations and adding wanted routes. */
  ghost predicate Between(a: set<Route>, b: set<Route>, ws: seq<Want>) {
    && (forall r | r in a && r !in b :: exists w | w in ws :: r.dst == w.dst && r.gw != w.gw)
    && (forall r | r in b && r !in a :: exists w | w in ws :: r == Route(w.dst, w.gw, 0))
  }

  lemma NothingToSync(net: Net)
    ensures Parses(net, []) && forall ip :: WantsBy(net, ip, []) == []
    ensures forall v6 :: OfFamily(net, [], v6) == []
    ensures forall rs :: SyncAll(rs, []) == rs
  {
  }

  lemma BetweenNothing(a: set<Route>, ws: seq<Want>)
    ensures Between(a, a, ws)
  {
  }

  lemma BetweenWider(a: set<Route>, b: set<Route>, ws: seq<Want>, all: seq<Want>)
    requires Between(a, b, ws) && forall w | w in ws :: w in all
    ensures Between(a, b, all)
  {
  }

  lemma BetweenMore(a: set<Route>, b: set<Route>, c: set<Route>, ws: seq<Want>, more: seq<Want>, all: seq<Want>)
    requires Between(a, b, ws) && Between(b, c, more)
    requires (forall w | w in ws :: w in all) && forall w | w in more :: w in all
    ensures Between(a, c, all)
  {
  }

  /** The host: its routing table, and the fate of every request: number k fails when `fails(k)`, without effect. */
  class Host {
    var routes: set<Route>
    var calls: nat
    const fails: nat -> bool

    constructor (routes: set<Route>, fails: nat -> bool)
      ensures this.routes == routes && this.fails == fails && calls == 0
    {
      this.routes, this.calls, this.fails := routes, 0, fails;
    }

    /** Anything that can fail and does not touch the routes. */
    method Request() returns (ok: bool)
      modifies `calls
      ensures calls == old(calls) + 1 && ok == !fails(old(calls))
    {
      ok := !fails(calls);
      calls := calls + 1;
    }

    /** RouteListFiltered() by destination. */
    method List(dst: Cidr) returns (r: Option<seq<Route>>)
      modifies `calls
      ensures calls == old(calls) + 1 && r.Some? == !fails(old(calls))
      ensures r.Some? ==> Distinct(r.value) && forall x :: x in r.value <==> x in routes && x.dst == dst
    {
      var ok := Request();
      if !ok {
        return None;
      }
      var left := set x | x in routes && x.dst == dst;
      ghost var all := left;
      var list: seq<Route> := [];
      while left != {}
        invariant left <= all && Distinct(list) && forall x :: x in list <==> x in all - left
        decreases left
      {
        var x :| x in left;
        assert x !in list;
        list, left := list + [x], left - {x};
      }
      return Some(list);
    }

    method Delete(route: Route) returns (ok: bool)
      requires route in routes
      modifies `calls, `routes
      ensures calls == old(calls) + 1 && ok == !fails(old(calls))
      ensures routes == if ok then old(routes) - {route} else old(routes)
    {
      ok := Request();
      if ok {
        routes := routes - {route};
      }
    }

    /** RouteAdd(); the kernel refuses a second route that differs in the gateway only. */
    method Add(route: Route) returns (ok: bool)
      modifies `calls, `routes
      ensures calls == old(calls) + 1
      ensures ok <==> !fails(old(calls)) && !exists x | x in old(routes) :: x.dst == route.dst && x.rest == route.rest
      ensures routes == if ok then old(routes) + {route} else old(routes)
    {
      ok := Request();
      if ok {
        ok := !exists x | x in routes :: x.dst == route.dst && x.rest == route.rest;
      }
      if ok {
        routes := routes + {route};
      }
    }

    /** Some request since number `from` failed. */
    ghost predicate Failed(from: nat)
      reads this
    {
      exists k: nat :: from <= k < calls && fails(k)
    }

    /** One round of the loop of syncRoute(). */
    method SyncOne(w: Want) returns (ok: bool)
      modifies `calls, `routes
      ensures calls >= old(calls) && (ok <==> !Failed(old(calls)))
      ensures ok ==> routes == Sync(old(routes), w)
      ensures Between(old(routes), routes, [w])
    {
      var list := List(w.dst);
      if list == None {
        return false;
      }
      ghost var wrong: set<Route> := {};
      var found := false;
      for i := 0 to |list.value|
        invariant calls >= old(calls) && !Failed(old(calls))
        invariant wrong == (set r | r in list.value[..i] && r.gw != w.gw)
        invariant routes == old(routes) - wrong
        invariant found <==> exists r :: r in list.value[..i] && r.gw == w.gw
      {
        var route := list.value[i];
        assert list.value[..i + 1] == list.value[..i] + [route];
        assert route !in list.value[..i];
        if route.gw == w.gw {
          found := true;
          continue;
        }
        ok := Delete(route);
        if !ok {
          return;
        }
        wrong := wrong + {route};
      }
      assert list.value[..|list.value|] == list.value;
      assert found <==> Has(old(routes), w);
      assert routes == Kept(old(routes), w);
      if !found {
        ok := Add(Route(w.dst, w.gw, 0));
        if !ok {
          return;
        }
      }
      ok := true;
    }

    /** syncRoute(). */
    method SyncRoute(net: Net, nodeIP: string, podCIDRs: seq<string>) returns (ok: bool)
      modifies `calls, `routes
      ensures calls >= old(calls) && (ok <==> Parses(net, podCIDRs) && !Failed(old(calls)))
      ensures ok ==> routes == SyncAll(old(routes), WantsBy(net, nodeIP, podCIDRs))
      ensures Between(old(routes), routes, Attempted(net, nodeIP, podCIDRs))
    {
      var ip := net.parseIP(nodeIP);
      ghost var ws: seq<Want> := [];
      for i := 0 to |podCIDRs|
        invariant calls >= old(calls) && !Failed(old(calls)) && Parses(net, podCIDRs[..i])
        invariant ws == WantsBy(net, nodeIP, podCIDRs[..i]) && routes == SyncAll(old(routes), ws)
        invariant Between(old(routes), routes, Attempted(net, nodeIP, podCIDRs))
      {
        assert podCIDRs[..i + 1] == podCIDRs[..i] + [podCIDRs[i]];
        var dst := net.parseCIDR(podCIDRs[i]);
        if dst == None {
          return false;
        }
        var w := Want(dst.value, ip);
        AttemptedHas(net, nodeIP, podCIDRs, i);
        ghost var before := routes;
        ok := SyncOne(w);
        BetweenMore(old(routes), before, routes, Attempted(net, nodeIP, podCIDRs), [w], Attempted(net, nodeIP, podCIDRs));
        if !ok {
          return;
        }
        assert (ws + [w])[..|ws|] == ws;
        ws := ws + [w];
        assert ws == WantsBy(net, nodeIP, podCIDRs[..i + 1]);
      }
      assert podCIDRs[..|podCIDRs|] == podCIDRs;
      ok := true;
    }

    /** reconcileNode(). */
    method ReconcileNode(net: Net, dual: bool, host: string, node: Node) returns (ok: bool)
      modifies `calls, `routes
      ensures calls >= old(calls) && (ok <==> NodeParses(net, dual, host, node) && !Failed(old(calls)))
      ensures ok ==> routes == SyncAll(old(routes), NodeWants(net, dual, host, node))
      ensures Between(old(routes), routes, NodeAttempted(net, dual, host, node))
    {
      hide Between, IsLast, OfFamily, WantsBy, Parses, Attempted, SyncAll;
      var nodeIPs := CollectIPs(node);
      BetweenNothing(routes, NodeAttempted(net, dual, host, node));
      NothingToSync(net);
      if host in nodeIPs {
        ok := Request();
        return;
      }
      var podCIDRs := if dual then node.podCIDRs else [node.podCIDR];
      if |podCIDRs| == 0 {
        assert podCIDRs == [] && NodeWants(net, dual, host, node) == [];
        return true;
      }
      var podCIDRsv4, podCIDRsv6 := SplitCIDRs(net, podCIDRs);
      var nodeIPv4, nodeIPv6 := Gateways(net, nodeIPs);
      ghost var ws4, ws6 := Routed(net, dual, host, node, false), Routed(net, dual, host, node, true);
      ghost var all := NodeAttempted(net, dual, host, node);
      if nodeIPv4 != "" && |podCIDRsv4| > 0 {
        ok := SyncRoute(net, nodeIPv4, podCIDRsv4);
        BetweenWider(old(routes), routes, Attempted(net, nodeIPv4, podCIDRsv4), all);
        if !ok {
          return;
        }
      }
      assert Parses(net, ws4) && routes == SyncAll(old(routes), WantsBy(net, nodeIPv4, ws4));
      ghost var before := routes;
      if nodeIPv6 != "" && |podCIDRsv6| > 0 {
        ok := SyncRoute(net, nodeIPv6, podCIDRsv6);
        BetweenMore(old(routes), before, routes, all, Attempted(net, nodeIPv6, podCIDRsv6), all);
        if !ok {
          return;
        }
      }
      assert Parses(net, ws6) && routes == SyncAll(before, WantsBy(net, nodeIPv6, ws6));
      SyncAllAppend(old(routes), WantsBy(net, nodeIPv4, ws4), WantsBy(net, nodeIPv6, ws6));
      ok := true;
    }

    /** The reconciler for all nodes, in the order of the list. */
    method Reconcile(net: Net, dual: bool, host: string, nodes: seq<Node>) returns (ok: bool)
      modifies `calls, `routes
      ensures calls >= old(calls) && (ok <==> AllParse(net, dual, host, nodes) && !Failed(old(calls)))
      ensures ok ==> routes == SyncAll(old(routes), AllWants(net, dual, host, nodes))
      ensures Between(old(routes), routes, AllAttempted(net, dual, host, nodes))
    {
      ghost var all := AllAttempted(net, dual, host, nodes);
      for i := 0 to |nodes|
        invariant calls >= old(calls) && !Failed(old(calls)) && AllParse(net, dual, host, nodes[..i])
        invariant routes == SyncAll(old(routes), AllWants(net, dual, host, nodes[..i]))
        invariant Between(old(routes), routes, all)
      {
        ghost var before := routes;
        ok := ReconcileNode(net, dual, host, nodes[i]);
        AllAttemptedHas(net, dual, host, nodes, i);
        BetweenMore(old(routes), before, routes, all, NodeAttempted(net, dual, host, nodes[i]), all);
        if !ok {
          return;
        }
        AllWantsMore(net, dual, host, nodes, i);
        SyncAllAppend(old(routes), AllWants(net, dual, host, nodes[..i]), NodeWants(net, dual, host, nodes[i]));
      }
      assert nodes[..|nodes|] == nodes;
      ok := true;
    }

    /**
     The reconciliation with its retries.  A pass that succeeds after any failures leaves every wanted route, if no
     destination is wanted by two gateways, and in any case touches no destination that is not wanted.
     */
    method ReconcileWithRetries(net: Net, dual: bool, host: string, nodes: seq<Node>) returns (ok: bool)
      modifies `calls, `routes
      ensures ok ==> AllParse(net, dual, host, nodes)
      ensures ok && Consistent(AllWants(net, dual, host, nodes)) ==>
        forall w | w in AllWants(net, dual, host, nodes) :: Satisfied(routes, w)
      ensures forall d | !Mentions(AllAttempted(net, dual, host, nodes), d) :: SameAt(old(routes), routes, d)
      ensures !ok && AllParse(net, dual, host, nodes) ==> calls >= old(calls) + 5
    {
      ghost var all := AllAttempted(net, dual, host, nodes);
      ok := false;
      for i := 0 to 5
        invariant Between(old(routes), routes, all)
        invariant !ok && (AllParse(net, dual, host, nodes) ==> calls >= old(calls) + i)
      {
        ghost var before := routes;
        ok := Reconcile(net, dual, host, nodes);
        BetweenMore(old(routes), before, routes, all, all, all);
        if ok {
          if Consistent(AllWants(net, dual, host, nodes)) {
            ConvergesIff(before, AllWants(net, dual, host, nodes));
          }
          break;
        }
      }
      forall d | !Mentions(all, d) ensures SameAt(old(routes), routes, d) {
        NotMentioned(old(routes), routes, all, d);
      }
    }
  }

  lemma AllWantsMore(net: Net, dual: bool, host: string, nodes: seq<Node>, i: nat)
    requires i < |nodes| && AllParse(net, dual, host, nodes[..i]) && NodeParses(net, dual, host, nodes[i])
    ensures AllParse(net, dual, host, nodes[..i + 1])
    ensures AllWants(net, dual, host, nodes[..i + 1])
            == AllWants(net, dual, host, nodes[..i]) + NodeWants(net, dual, host, nodes[i])
  {
    assert nodes[..i + 1] == nodes[..i] + [nodes[i]];
    assert nodes[..i + 1][..i] == nodes[..i];
  }

  lemma NotMentioned(a: set<Route>, b: set<Route>, ws: seq<Want>, d: Cidr)
    requires Between(a, b, ws) && !Mentions(ws, d)
    ensures SameAt(a, b, d)
  {
    assert forall w | w in ws :: w.dst != d;
  }

  ghost function NodeAttempted(net: Net, dual: bool, host: string, node: Node): seq<Want> {
    Attempted(net, Gateway(net, InternalIPs(node), false), Routed(net, dual, host, node, false))
    + Attempted(net, Gateway(net, InternalIPs(node), true), Routed(net, dual, host, node, true))
  }

  ghost function AllAttempted(net: Net, dual: bool, host: string, nodes: seq<Node>): seq<Want> {
    if nodes == [] then []
    else AllAttempted(net, dual, host, nodes[..|nodes| - 1]) + NodeAttempted(net, dual, host, nodes[|nodes| - 1])
  }

  lemma {:induction false} AllAttemptedHas(net: Net, dual: bool, host: string, nodes: seq<Node>, i: nat)
    requires i < |nodes|
    ensures forall w | w in NodeAttempted(net, dual, host, nodes[i]) :: w in AllAttempted(net, dual, host, nodes)
    decreases |nodes|
  {
    if i < |nodes| - 1 {
      AllAttemptedHas(net, dual, host, nodes[..|nodes| - 1], i);
    }
  }

  /** The wants of the networks that parse. */
  function Attempted(net: Net, ip: string, cidrs: seq<string>): seq<Want> {
    if cidrs == [] then []
    else
      var front, last := Attempted(net, ip, cidrs[..|cidrs| - 1]), net.parseCIDR(cidrs[|cidrs| - 1]);
      if last.Some? then front + [Want(last.value, net.parseIP(ip))] else front
  }

  lemma {:induction false} AttemptedHas(net: Net, ip: string, cidrs: seq<string>, i: nat)
    requires i < |cidrs| && net.parseCIDR(cidrs[i]).Some?
    ensures Want(net.parseCIDR(cidrs[i]).value, net.parseIP(ip)) in Attempted(net, ip, cidrs)
    decreases |cidrs|
  {
    if i < |cidrs| - 1 {
      AttemptedHas(net, ip, cidrs[..|cidrs| - 1], i);
    }
  }
}
