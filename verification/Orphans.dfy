/**
 Removal of orphaned control-plane resources: candidates are tracked over polls, and only what has been a
 candidate without a break for the whole confirmation window is removed, one at a time.
 */
module Orphans {
  import opened Options

  const CP_ORPHAN_CONFIRM_SECONDS := 600

  // ---------------------------------------------------------------- tracking candidates

  /** A first-seen table, updated in place by every evaluation. */
  class Tracker<K(==)> {
    var firstSeen: map<K, int>

    constructor ()
      ensures firstSeen == map[]
    {
      firstSeen := map[];
    }

    /** The two loops of confirmed_orphans(): new candidates are entered, the others forgotten. */
    method Update(keys: set<K>, now: int)
      modifies this
      ensures firstSeen == Track(old(firstSeen), keys, now)
    {
      var todo := keys;
      while todo != {}
        invariant todo <= keys
        invariant firstSeen.Keys == old(firstSeen).Keys + (keys - todo)
        invariant forall k | k in firstSeen :: firstSeen[k] == if k in old(firstSeen) then old(firstSeen)[k] else now
        decreases todo
      {
        var key :| key in todo;
        if key !in firstSeen {
          firstSeen := firstSeen[key := now];
        }
        todo := todo - {key};
      }
      var stale := firstSeen.Keys - keys;
      ghost var all := firstSeen;
      while stale != {}
        invariant stale <= all.Keys - keys
        invariant firstSeen.Keys == keys + stale
        invariant forall k | k in firstSeen :: firstSeen[k] == all[k]
        decreases stale
      {
        var key :| key in stale;
        firstSeen := firstSeen - {key};
        stale := stale - {key};
      }
    }
  }

  function Track<K>(seen: map<K, int>, keys: set<K>, now: int): map<K, int> {
    map k | k in keys :: if k in seen then seen[k] else now
  }

  predicate Confirmed<K>(seen: map<K, int>, key: K, now: int) {
    key in seen && now - seen[key] >= CP_ORPHAN_CONFIRM_SECONDS
  }

  /** The confirmed candidates, in the order they were listed. */
  function Select<C, K>(candidates: seq<C>, keyOf: C -> K, seen: map<K, int>, now: int): seq<C> {
    if candidates == [] then []
    else (if Confirmed(seen, keyOf(candidates[0]), now) then [candidates[0]] else [])
         + Select(candidates[1..], keyOf, seen, now)
  }

  function SeenAt<C, K>(c: C, keyOf: C -> K, seen: map<K, int>): int {
    if keyOf(c) in seen then seen[keyOf(c)] else 0
  }

  /** `sorted(..., key=...)`: stable, oldest first. */
  function OldestFirst<C, K>(cs: seq<C>, keyOf: C -> K, seen: map<K, int>): seq<C> {
    if cs == [] then [] else InsertOldest(cs[0], OldestFirst(cs[1..], keyOf, seen), keyOf, seen)
  }

  function InsertOldest<C, K>(c: C, cs: seq<C>, keyOf: C -> K, seen: map<K, int>): seq<C> {
    if cs == [] || SeenAt(c, keyOf, seen) <= SeenAt(cs[0], keyOf, seen) then [c] + cs
    else [cs[0]] + InsertOldest(c, cs[1..], keyOf, seen)
  }

  ghost predicate OldestAscending<C(!new), K(!new)>(cs: seq<C>, keyOf: C -> K, seen: map<K, int>) {
    forall i | 0 < i < |cs| :: SeenAt(cs[i - 1], keyOf, seen) <= SeenAt(cs[i], keyOf, seen)
  }

  /** Those first seen at `time`, in their order. */
  function SeenJustAt<C, K>(cs: seq<C>, keyOf: C -> K, seen: map<K, int>, time: int): seq<C> {
    if cs == [] then []
    else (if SeenAt(cs[0], keyOf, seen) == time then [cs[0]] else []) + SeenJustAt(cs[1..], keyOf, seen, time)
  }

  /** The same candidates at every time, in the same order. */
  ghost predicate SameAges<C(!new), K(!new)>(a: seq<C>, b: seq<C>, keyOf: C -> K, seen: map<K, int>) {
    forall time :: SeenJustAt(a, keyOf, seen, time) == SeenJustAt(b, keyOf, seen, time)
  }

  lemma {:induction false} InsertAscends<C(!new), K(!new)>(c: C, cs: seq<C>, keyOf: C -> K, seen: map<K, int>)
    requires OldestAscending(cs, keyOf, seen)
    ensures OldestAscending(InsertOldest(c, cs, keyOf, seen), keyOf, seen)
    ensures InsertOldest(c, cs, keyOf, seen) != [] && InsertOldest(c, cs, keyOf, seen)[0] in [c] + cs
  {
    if cs != [] && SeenAt(c, keyOf, seen) > SeenAt(cs[0], keyOf, seen) {
      InsertAscends(c, cs[1..], keyOf, seen);
      var rest := InsertOldest(c, cs[1..], keyOf, seen);
      if rest[0] != c {
        assert OldestAscending(cs, keyOf, seen) && rest[0] == cs[1..][0];
      }
    }
  }

  lemma {:induction false} InsertIsStable<C(!new), K(!new)>(c: C, cs: seq<C>, keyOf: C -> K, seen: map<K, int>, time: int)
    ensures SeenJustAt(InsertOldest(c, cs, keyOf, seen), keyOf, seen, time) == SeenJustAt([c] + cs, keyOf, seen, time)
  {
    assert ([c] + cs)[1..] == cs;
    if cs != [] && SeenAt(c, keyOf, seen) > SeenAt(cs[0], keyOf, seen) {
      InsertIsStable(c, cs[1..], keyOf, seen, time);
      assert ([c] + cs[1..])[1..] == cs[1..];
    }
  }

  /** The order is ascending, and candidates seen first at the same time keep theirs. */
  lemma {:induction false} OldestFirstSorts<C(!new), K(!new)>(cs: seq<C>, keyOf: C -> K, seen: map<K, int>)
    ensures OldestAscending(OldestFirst(cs, keyOf, seen), keyOf, seen)
    ensures SameAges(OldestFirst(cs, keyOf, seen), cs, keyOf, seen)
  {
    if cs != [] {
      var rest := OldestFirst(cs[1..], keyOf, seen);
      OldestFirstSorts(cs[1..], keyOf, seen);
      InsertAscends(cs[0], rest, keyOf, seen);
      forall time ensures SeenJustAt(OldestFirst(cs, keyOf, seen), keyOf, seen, time) == SeenJustAt(cs, keyOf, seen, time) {
        InsertIsStable(cs[0], rest, keyOf, seen, time);
        assert ([cs[0]] + rest)[1..] == rest;
      }
    }
  }

  function KeysOf<C, K>(candidates: seq<C>, keyOf: C -> K): set<K> {
    set i | 0 <= i < |candidates| :: keyOf(candidates[i])
  }

  lemma {:induction false} SelectMembers<C, K>(candidates: seq<C>, keyOf: C -> K, seen: map<K, int>, now: int, c: C)
    ensures c in Select(candidates, keyOf, seen, now) <==> c in candidates && Confirmed(seen, keyOf(c), now)
  {
    if candidates != [] {
      SelectMembers(candidates[1..], keyOf, seen, now, c);
      assert c in candidates <==> c == candidates[0] || c in candidates[1..];
    }
  }

  /** The head of the sorted list: the first listed of the oldest. */
  lemma {:induction false} OldestComesFirst<C, K>(cs: seq<C>, keyOf: C -> K, seen: map<K, int>) returns (i: nat)
    requires cs != []
    ensures i < |cs| && OldestFirst(cs, keyOf, seen) != [] && OldestFirst(cs, keyOf, seen)[0] == cs[i]
    ensures forall j | 0 <= j < |cs| :: SeenAt(cs[i], keyOf, seen) <= SeenAt(cs[j], keyOf, seen)
    ensures forall j | 0 <= j < i :: SeenAt(cs[i], keyOf, seen) < SeenAt(cs[j], keyOf, seen)
  {
    i := 0;
    if |cs| > 1 {
      var k := OldestComesFirst(cs[1..], keyOf, seen);
      if SeenAt(cs[0], keyOf, seen) > SeenAt(cs[1..][k], keyOf, seen) {
        i := k + 1;
      }
    }
  }

  lemma {:induction false} InsertKeeps<C, K>(c: C, cs: seq<C>, keyOf: C -> K, seen: map<K, int>)
    ensures multiset(InsertOldest(c, cs, keyOf, seen)) == multiset{c} + multiset(cs)
  {
    if cs != [] && SeenAt(c, keyOf, seen) > SeenAt(cs[0], keyOf, seen) {
      InsertKeeps(c, cs[1..], keyOf, seen);
      assert cs == [cs[0]] + cs[1..];
    }
  }

  /** Sorting loses nobody and invents nobody. */
  lemma {:induction false} OldestFirstKeeps<C, K>(cs: seq<C>, keyOf: C -> K, seen: map<K, int>)
    ensures multiset(OldestFirst(cs, keyOf, seen)) == multiset(cs)
  {
    if cs != [] {
      OldestFirstKeeps(cs[1..], keyOf, seen);
      InsertKeeps(cs[0], OldestFirst(cs[1..], keyOf, seen), keyOf, seen);
      assert cs == [cs[0]] + cs[1..];
    }
  }

  lemma {:induction false} NoneEarlier<C(!new), K(!new)>(cs: seq<C>, keyOf: C -> K, seen: map<K, int>, time: int)
    requires OldestAscending(cs, keyOf, seen) && (cs == [] || time < SeenAt(cs[0], keyOf, seen))
    ensures SeenJustAt(cs, keyOf, seen, time) == []
  {
    if cs != [] {
      assert cs[1..] == [] || SeenAt(cs[0], keyOf, seen) <= SeenAt(cs[1..][0], keyOf, seen);
      NoneEarlier(cs[1..], keyOf, seen, time);
    }
  }

  lemma TailOf<C, K>(cs: seq<C>, keyOf: C -> K, seen: map<K, int>, time: int)
    requires cs != []
    ensures SeenAt(cs[0], keyOf, seen) == time ==> SeenJustAt(cs, keyOf, seen, time) != []
    ensures SeenJustAt(cs[1..], keyOf, seen, time)
            == if SeenAt(cs[0], keyOf, seen) == time then SeenJustAt(cs, keyOf, seen, time)[1..] else SeenJustAt(cs, keyOf, seen, time)
  {
    var rest := SeenJustAt(cs[1..], keyOf, seen, time);
    assert ([cs[0]] + rest)[1..] == rest && [] + rest == rest;
  }

  lemma HeadsAgree<C(!new), K(!new)>(a: seq<C>, b: seq<C>, keyOf: C -> K, seen: map<K, int>)
    requires OldestAscending(a, keyOf, seen) && OldestAscending(b, keyOf, seen) && SameAges(a, b, keyOf, seen)
    requires a != [] && (b == [] || SeenAt(a[0], keyOf, seen) <= SeenAt(b[0], keyOf, seen))
    ensures b != [] && a[0] == b[0]
  {
    var time := SeenAt(a[0], keyOf, seen);
    if b == [] || time < SeenAt(b[0], keyOf, seen) {
      NoneEarlier(b, keyOf, seen, time);
    }
    TailOf(a, keyOf, seen, time);
    assert SeenJustAt(a, keyOf, seen, time) == SeenJustAt(b, keyOf, seen, time);
  }

  lemma TailsAgree<C(!new), K(!new)>(a: seq<C>, b: seq<C>, keyOf: C -> K, seen: map<K, int>)
    requires a != [] && b != [] && a[0] == b[0] && SameAges(a, b, keyOf, seen)
    ensures SameAges(a[1..], b[1..], keyOf, seen)
  {
    forall time ensures SeenJustAt(a[1..], keyOf, seen, time) == SeenJustAt(b[1..], keyOf, seen, time) {
      hide SeenJustAt;
      TailOf(a, keyOf, seen, time);
      TailOf(b, keyOf, seen, time);
    }
  }

  /** Ascending order and stability leave only one way to sort. */
  lemma {:induction false} SortedOneWay<C(!new), K(!new)>(a: seq<C>, b: seq<C>, keyOf: C -> K, seen: map<K, int>)
    requires OldestAscending(a, keyOf, seen) && OldestAscending(b, keyOf, seen) && SameAges(a, b, keyOf, seen)
    ensures a == b
  {
    hide SeenJustAt;
    if a != [] || b != [] {
      if a == [] || (b != [] && SeenAt(b[0], keyOf, seen) < SeenAt(a[0], keyOf, seen)) {
        HeadsAgree(b, a, keyOf, seen);
      } else {
        HeadsAgree(a, b, keyOf, seen);
      }
      TailsAgree(a, b, keyOf, seen);
      SortedOneWay(a[1..], b[1..], keyOf, seen);
    }
  }

  lemma ConfirmedAre<C(!new), K(!new)>(candidates: seq<C>, keyOf: C -> K, seen: map<K, int>, now: int, confirmed: seq<C>)
    requires OldestAscending(confirmed, keyOf, seen)
    requires SameAges(confirmed, Select(candidates, keyOf, seen, now), keyOf, seen)
    ensures confirmed == OldestFirst(Select(candidates, keyOf, seen, now), keyOf, seen)
  {
    OldestFirstSorts(Select(candidates, keyOf, seen, now), keyOf, seen);
    SortedOneWay(confirmed, OldestFirst(Select(candidates, keyOf, seen, now), keyOf, seen), keyOf, seen);
  }

  /**
   The confirmed candidates, each as often as it is listed, oldest first, and those first seen at the same time in the
   order they were listed: this leaves one result.
   */
  method ConfirmedOrphans<C(==,!new), K(==,!new)>(candidates: seq<C>, keyOf: C -> K, tracker: Tracker<K>, now: int) returns (confirmed: seq<C>)
    modifies tracker
    ensures tracker.firstSeen == Track(old(tracker.firstSeen), KeysOf(candidates, keyOf), now)
    ensures forall c :: c in confirmed <==> c in candidates && Confirmed(tracker.firstSeen, keyOf(c), now)
    ensures OldestAscending(confirmed, keyOf, tracker.firstSeen)
    ensures SameAges(confirmed, Select(candidates, keyOf, tracker.firstSeen, now), keyOf, tracker.firstSeen)
    ensures multiset(confirmed) == multiset(Select(candidates, keyOf, tracker.firstSeen, now))
  {
    tracker.Update(KeysOf(candidates, keyOf), now);
    ghost var selected := Select(candidates, keyOf, tracker.firstSeen, now);
    confirmed := OldestFirst(Select(candidates, keyOf, tracker.firstSeen, now), keyOf, tracker.firstSeen);
    OldestFirstSorts(selected, keyOf, tracker.firstSeen);
    OldestFirstKeeps(selected, keyOf, tracker.firstSeen);
    forall c ensures c in confirmed <==> c in candidates && Confirmed(tracker.firstSeen, keyOf(c), now) {
      SelectMembers(candidates, keyOf, tracker.firstSeen, now, c);
      assert c in confirmed <==> c in multiset(confirmed);
      assert c in selected <==> c in multiset(selected);
    }
  }

  // ---------------------------------------------------------------- over a run of evaluations

  datatype Poll<K> = Poll(now: int, keys: set<K>)

  /** The table after the given evaluations. */
  function Tracked<K>(polls: seq<Poll<K>>): map<K, int> {
    if polls == [] then map[] else Track(Tracked(polls[..|polls| - 1]), polls[|polls| - 1].keys, polls[|polls| - 1].now)
  }

  /** `key` has been a candidate in every evaluation from number `start` on, and not in the one before. */
  ghost predicate Streak<K>(polls: seq<Poll<K>>, key: K, start: nat) {
    && start < |polls|
    && (forall i | start <= i < |polls| :: key in polls[i].keys)
    && (start > 0 ==> key !in polls[start - 1].keys)
  }

  /** The table holds exactly the last evaluation's candidates, each with the time its unbroken streak began. */
  lemma {:induction false} TrackedIsStreak<K>(polls: seq<Poll<K>>, key: K) returns (start: nat)
    requires polls != []
    ensures key in Tracked(polls) <==> key in polls[|polls| - 1].keys
    ensures key in Tracked(polls) ==> Streak(polls, key, start) && Tracked(polls)[key] == polls[start].now
  {
    var earlier := polls[..|polls| - 1];
    start := |polls| - 1;
    if earlier != [] && key in polls[|polls| - 1].keys {
      var s := TrackedIsStreak(earlier, key);
      if key in Tracked(earlier) {
        start := s;
        assert forall i | start <= i < |earlier| :: key in earlier[i].keys;
        assert start > 0 ==> key !in earlier[start - 1].keys;
      }
    }
  }

  // ---------------------------------------------------------------- one clean-up

  datatype Machine = Machine(nodeRef: Option<string>, running: bool)

  datatype Member = Member(id: nat, name: string)

  datatype Node = Node(name: string, ready: bool)

  /**
   What the commands of one clean-up answer; None is an answer that does not parse.  Candidates are evaluated
   at two moments, and a removal is only attempted outside a dry run.
   */
  datatype Observation = Observation(
    machines: Option<seq<Machine>>, members: Option<seq<Member>>, nodes: Option<seq<Node>>,
    memberTime: int, nodeTime: int, dryRun: bool)

  function LiveNames(machines: seq<Machine>): set<string> {
    set m | m in machines && m.nodeRef.Some? :: m.nodeRef.value
  }

  predicate Judged(o: Observation) {
    o.machines.Some? && LiveNames(o.machines.value) != {}
  }

  /** The members are looked at: some Machine is Running with a Node, and its etcd answers with a list. */
  predicate MembersSeen(o: Observation) {
    && Judged(o) && (exists m | m in o.machines.value :: m.running && m.nodeRef.Some?)
    && o.members.Some? && o.members.value != []
  }

  predicate NodesSeen(o: Observation) {
    Judged(o) && o.nodes.Some? && o.nodes.value != []
  }

  function OrphanMembers(ms: seq<Member>, live: set<string>): seq<Member> {
    if ms == [] then []
    else (if ms[0].name !in live then [ms[0]] else []) + OrphanMembers(ms[1..], live)
  }

  /** A Node that is still Ready is a mismatch of names, not an orphan. */
  function OrphanNodes(ns: seq<Node>, live: set<string>): seq<Node> {
    if ns == [] then []
    else (if ns[0].name !in live && !ns[0].ready then [ns[0]] else []) + OrphanNodes(ns[1..], live)
  }

  class Cleaner {
    const members: Tracker<nat>
    const nodes: Tracker<string>

    constructor ()
      ensures members.firstSeen == map[] && nodes.firstSeen == map[] && fresh(members) && fresh(nodes)
    {
      members := new Tracker<nat>();
      nodes := new Tracker<string>();
    }

    /** cleanup_orphaned_cp_resources(): what it asks to be removed. */
    method CleanUp(o: Observation) returns (member: Option<Member>, node: Option<Node>)
      modifies members, nodes
      ensures members.firstSeen == MembersAfter(old(members.firstSeen), o)
      ensures nodes.firstSeen == NodesAfter(old(nodes.firstSeen), o)
      ensures member == MemberToRemove(old(members.firstSeen), o)
      ensures node == NodeToDelete(old(nodes.firstSeen), o)
    {
      hide OldestAscending, SameAges, Select, OldestFirst, Confirmed, Track;
      member, node := None, None;
      if !Judged(o) {
        return;
      }
      var live := LiveNames(o.machines.value);
      if MembersSeen(o) {
        var confirmed := ConfirmedOrphans(OrphanMembers(o.members.value, live), (m: Member) => m.id, members, o.memberTime);
        ConfirmedAre(OrphanMembers(o.members.value, live), (m: Member) => m.id, members.firstSeen, o.memberTime, confirmed);
        if confirmed != [] && |o.members.value| >= 3 && !o.dryRun {
          member := Some(confirmed[0]);
        }
      }
      if !NodesSeen(o) {
        return;
      }
      var confirmedNodes := ConfirmedOrphans(OrphanNodes(o.nodes.value, live), (n: Node) => n.name, nodes, o.nodeTime);
      ConfirmedAre(OrphanNodes(o.nodes.value, live), (n: Node) => n.name, nodes.firstSeen, o.nodeTime, confirmedNodes);
      if confirmedNodes != [] && |o.nodes.value| >= 2 && !o.dryRun {
        node := Some(confirmedNodes[0]);
      }
    }
  }

  // ---------------------------------------------------------------- the clean-up as functions

  function MemberPoll(o: Observation): Poll<nat>
    requires MembersSeen(o)
  {
    Poll(o.memberTime, KeysOf(OrphanMembers(o.members.value, LiveNames(o.machines.value)), (m: Member) => m.id))
  }

  function NodePoll(o: Observation): Poll<string>
    requires NodesSeen(o)
  {
    Poll(o.nodeTime, KeysOf(OrphanNodes(o.nodes.value, LiveNames(o.machines.value)), (n: Node) => n.name))
  }

  /** An answer that cannot be judged leaves the table alone. */
  function MembersAfter(seen: map<nat, int>, o: Observation): map<nat, int> {
    if MembersSeen(o) then Track(seen, MemberPoll(o).keys, o.memberTime) else seen
  }

  function NodesAfter(seen: map<string, int>, o: Observation): map<string, int> {
    if NodesSeen(o) then Track(seen, NodePoll(o).keys, o.nodeTime) else seen
  }

  function MemberToRemove(seen: map<nat, int>, o: Observation): Option<Member> {
    if !MembersSeen(o) || |o.members.value| < 3 || o.dryRun then None
    else
      var after := MembersAfter(seen, o);
      var keyOf := (m: Member) => m.id;
      var confirmed := OldestFirst(Select(OrphanMembers(o.members.value, LiveNames(o.machines.value)), keyOf, after, o.memberTime), keyOf, after);
      if confirmed == [] then None else Some(confirmed[0])
  }

  function NodeToDelete(seen: map<string, int>, o: Observation): Option<Node> {
    if !NodesSeen(o) || |o.nodes.value| < 2 || o.dryRun then None
    else
      var after := NodesAfter(seen, o);
      var keyOf := (n: Node) => n.name;
      var confirmed := OldestFirst(Select(OrphanNodes(o.nodes.value, LiveNames(o.machines.value)), keyOf, after, o.nodeTime), keyOf, after);
      if confirmed == [] then None else Some(confirmed[0])
  }

  // ---------------------------------------------------------------- over a run of clean-ups

  /** The evaluations of the members among a run of clean-ups. */
  function MemberPolls(os: seq<Observation>): seq<Poll<nat>> {
    if os == [] then []
    else MemberPolls(os[..|os| - 1]) + (if MembersSeen(os[|os| - 1]) then [MemberPoll(os[|os| - 1])] else [])
  }

  function NodePolls(os: seq<Observation>): seq<Poll<string>> {
    if os == [] then []
    else NodePolls(os[..|os| - 1]) + (if NodesSeen(os[|os| - 1]) then [NodePoll(os[|os| - 1])] else [])
  }

  function MembersAfterAll(os: seq<Observation>): map<nat, int> {
    if os == [] then map[] else MembersAfter(MembersAfterAll(os[..|os| - 1]), os[|os| - 1])
  }

  function NodesAfterAll(os: seq<Observation>): map<string, int> {
    if os == [] then map[] else NodesAfter(NodesAfterAll(os[..|os| - 1]), os[|os| - 1])
  }

  lemma {:induction false} TablesAreTracked(os: seq<Observation>)
    ensures MembersAfterAll(os) == Tracked(MemberPolls(os))
    ensures NodesAfterAll(os) == Tracked(NodePolls(os))
  {
    if os != [] {
      var front := os[..|os| - 1];
      TablesAreTracked(front);
      var p, q := MemberPolls(os), NodePolls(os);
      assert if MembersSeen(os[|os| - 1]) then p[..|p| - 1] == MemberPolls(front) else p == MemberPolls(front);
      assert if NodesSeen(os[|os| - 1]) then q[..|q| - 1] == NodePolls(front) else q == NodePolls(front);
    }
  }

  lemma {:induction false} OrphanMembersAre(ms: seq<Member>, live: set<string>, m: Member)
    ensures m in OrphanMembers(ms, live) <==> m in ms && m.name !in live
  {
    if ms != [] {
      OrphanMembersAre(ms[1..], live, m);
      assert m in ms <==> m == ms[0] || m in ms[1..];
    }
  }

  lemma {:induction false} OrphanNodesAre(ns: seq<Node>, live: set<string>, n: Node)
    ensures n in OrphanNodes(ns, live) <==> n in ns && n.name !in live && !n.ready
  {
    if ns != [] {
      OrphanNodesAre(ns[1..], live, n);
      assert n in ns <==> n == ns[0] || n in ns[1..];
    }
  }

  /** `c` is the head of the confirmed candidates: confirmed itself, and none of the others is older. */
  lemma HeadIsConfirmed<C, K>(candidates: seq<C>, keyOf: C -> K, seen: map<K, int>, now: int, c: C)
    requires var confirmed := OldestFirst(Select(candidates, keyOf, seen, now), keyOf, seen); confirmed != [] && confirmed[0] == c
    ensures c in candidates && Confirmed(seen, keyOf(c), now)
    ensures forall d | d in candidates && Confirmed(seen, keyOf(d), now) :: seen[keyOf(c)] <= seen[keyOf(d)]
  {
    var selected := Select(candidates, keyOf, seen, now);
    var i := OldestComesFirst(selected, keyOf, seen);
    SelectMembers(candidates, keyOf, seen, now, c);
    forall d | d in candidates && Confirmed(seen, keyOf(d), now) ensures seen[keyOf(c)] <= seen[keyOf(d)] {
      SelectMembers(candidates, keyOf, seen, now, d);
      var j :| 0 <= j < |selected| && selected[j] == d;
    }
  }

  /**
   In any run of clean-ups, a member that the last one removes bears no live Node's name, has been a candidate in
   every evaluation for at least the confirmation window, is the longest such, and leaves two members behind.
   */
  lemma MemberRemovalIsSafe(os: seq<Observation>, m: Member) returns (start: nat)
    requires os != [] && MemberToRemove(MembersAfterAll(os[..|os| - 1]), os[|os| - 1]) == Some(m)
    ensures var o := os[|os| - 1]; var polls := MemberPolls(os);
            && MembersSeen(o) && m in o.members.value && m.name !in LiveNames(o.machines.value)
            && |o.members.value| - 1 >= 2 && !o.dryRun
            && Streak(polls, m.id, start) && o.memberTime - polls[start].now >= CP_ORPHAN_CONFIRM_SECONDS
            && (forall d: Member, s: nat | d in o.members.value && Streak(polls, d.id, s)
                  && o.memberTime - polls[s].now >= CP_ORPHAN_CONFIRM_SECONDS && d.name !in LiveNames(o.machines.value) ::
                  polls[start].now <= polls[s].now)
  {
    var o := os[|os| - 1];
    var live := LiveNames(o.machines.value);
    var polls := MemberPolls(os);
    var after := MembersAfterAll(os);
    var orphans := OrphanMembers(o.members.value, live);
    TablesAreTracked(os);
    HeadIsConfirmed(orphans, (m: Member) => m.id, after, o.memberTime, m);
    OrphanMembersAre(o.members.value, live, m);
    start := TrackedIsStreak(polls, m.id);
    forall d: Member, s: nat | d in o.members.value && Streak(polls, d.id, s)
      && o.memberTime - polls[s].now >= CP_ORPHAN_CONFIRM_SECONDS && d.name !in live
      ensures polls[start].now <= polls[s].now
    {
      OrphanMembersAre(o.members.value, live, d);
      var t := TrackedIsStreak(polls, d.id);
      StreakUnique(polls, d.id, s, t);
    }
  }

  /** And whenever such a member is there, with a third one beside two others, one is removed. */
  lemma ConfirmedMemberIsRemoved(os: seq<Observation>, d: Member, s: nat)
    requires os != [] && var o := os[|os| - 1];
             MembersSeen(o) && !o.dryRun && |o.members.value| >= 3 && d in o.members.value && d.name !in LiveNames(o.machines.value)
    requires Streak(MemberPolls(os), d.id, s)
    requires os[|os| - 1].memberTime - MemberPolls(os)[s].now >= CP_ORPHAN_CONFIRM_SECONDS
    ensures MemberToRemove(MembersAfterAll(os[..|os| - 1]), os[|os| - 1]).Some?
  {
    var o := os[|os| - 1];
    var keyOf := (m: Member) => m.id;
    var orphans := OrphanMembers(o.members.value, LiveNames(o.machines.value));
    TablesAreTracked(os);
    OrphanMembersAre(o.members.value, LiveNames(o.machines.value), d);
    var t := TrackedIsStreak(MemberPolls(os), d.id);
    var i :| 0 <= i < |orphans| && orphans[i] == d;
    assert d.id in MemberPoll(o).keys;
    StreakUnique(MemberPolls(os), d.id, s, t);
    SelectMembers(orphans, keyOf, MembersAfterAll(os), o.memberTime, d);
    var head := OldestComesFirst(Select(orphans, keyOf, MembersAfterAll(os), o.memberTime), keyOf, MembersAfterAll(os));
  }

  lemma StreakUnique<K>(polls: seq<Poll<K>>, key: K, s: nat, t: nat)
    requires Streak(polls, key, s) && Streak(polls, key, t)
    ensures s == t
  {
    assert s > 0 ==> key !in polls[s - 1].keys;
    assert t > 0 ==> key !in polls[t - 1].keys;
  }

  /** The same for Nodes: not Ready, no Machine's Node, confirmed, and at least one Node stays. */
  lemma NodeRemovalIsSafe(os: seq<Observation>, n: Node) returns (start: nat)
    requires os != [] && NodeToDelete(NodesAfterAll(os[..|os| - 1]), os[|os| - 1]) == Some(n)
    ensures var o := os[|os| - 1]; var polls := NodePolls(os);
            && NodesSeen(o) && n in o.nodes.value && n.name !in LiveNames(o.machines.value) && !n.ready
            && |o.nodes.value| - 1 >= 1 && !o.dryRun
            && Streak(polls, n.name, start) && o.nodeTime - polls[start].now >= CP_ORPHAN_CONFIRM_SECONDS
  {
    var o := os[|os| - 1];
    var live := LiveNames(o.machines.value);
    TablesAreTracked(os);
    HeadIsConfirmed(OrphanNodes(o.nodes.value, live), (n: Node) => n.name, NodesAfterAll(os), o.nodeTime, n);
    OrphanNodesAre(o.nodes.value, live, n);
    start := TrackedIsStreak(NodePolls(os), n.name);
  }

  // ---------------------------------------------------------------- quorum

  /** How many members bear a live Node's name. */
  function LiveCount(ms: seq<Member>, live: set<string>): nat {
    if ms == [] then 0 else (if ms[0].name in live then 1 else 0) + LiveCount(ms[1..], live)
  }

  predicate Quorate(ms: seq<Member>, live: set<string>) {
    2 * LiveCount(ms, live) > |ms|
  }

  lemma {:induction false} LiveCountSplit(a: seq<Member>, b: seq<Member>, live: set<string>)
    ensures LiveCount(a + b, live) == LiveCount(a, live) + LiveCount(b, live)
  {
    if a == [] {
      assert a + b == b;
    } else {
      assert (a + b)[1..] == a[1..] + b;
      LiveCountSplit(a[1..], b, live);
    }
  }

  /** Removing a member without a live Node takes no live member away, so a quorum of live members stays one. */
  lemma QuorumKept(ms: seq<Member>, live: set<string>, i: nat)
    requires i < |ms| && ms[i].name !in live
    ensures var rest := ms[..i] + ms[i + 1..];
            LiveCount(rest, live) == LiveCount(ms, live) && (Quorate(ms, live) ==> Quorate(rest, live))
  {
    assert ms == ms[..i] + ([ms[i]] + ms[i + 1..]);
    LiveCountSplit(ms[..i], [ms[i]] + ms[i + 1..], live);
    LiveCountSplit([ms[i]], ms[i + 1..], live);
    LiveCountSplit(ms[..i], ms[i + 1..], live);
  }
}
