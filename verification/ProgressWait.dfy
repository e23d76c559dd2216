/**
 Waits whose deadline starts again on strictly better progress.  What every poll reads from the cluster and
 from the clock is a parameter; that the loops end for all of them is what is proved here.
 */
module ProgressWait {

  /** One look at a worker rollout; a poll that does not parse makes no progress. */
  datatype Poll = Unparsed | Converged | Converging(nodes: nat)

  /**
   The clock of a polling loop, which reads it twice a round and then sleeps.  `WaitRollout` checks the deadline at
   `top` and sets it anew at `mid`, `WaitSettled` sets it anew at `top` and checks it at `mid`.
   */
  ghost predicate Clock(start: int, top: nat -> int, mid: nat -> int, sleep: nat) {
    start <= top(0) && forall i: nat {:trigger mid(i)} :: top(i) <= mid(i) && mid(i) + sleep <= top(i + 1)
  }

  /** No poll ever sees more than `most` nodes. */
  ghost predicate AtMost(polls: nat -> Poll, most: nat) {
    forall i | polls(i).Converging? :: polls(i).nodes <= most
  }

  const SLEEP := 10

  /**
   wait_for_capi_md_convergence().  It ends for every clock and every environment: the deadline is set anew at
   most once per node count, and every window holds at most stall / 10 + 1 polls.  It gives up only after a full
   window in which no poll saw more nodes than some poll had seen before.
   */
  method WaitRollout(stall: nat, start: int, top: nat -> int, mid: nat -> int, polls: nat -> Poll, ghost most: nat)
    returns (converged: bool, n: nat, ghost restarts: nat, ghost since: int)
    requires Clock(start, top, mid, SLEEP) && AtMost(polls, most)
    ensures restarts <= most + 1
    ensures n <= (restarts + 1) * (stall / SLEEP + 1)
    ensures converged ==> polls(n).Converged? && forall i: nat | i < n :: !polls(i).Converged?
    ensures !converged ==>
      && (forall i: nat | i < n :: !polls(i).Converged?)
      && top(n) >= since + stall
      && (since == start || exists k: nat :: k < n && Better(polls, k) && since == mid(k))
      && (forall i: nat | i < n && mid(i) > since :: !Better(polls, i))
  {
    var best, deadline := -1, start + stall;
    n, restarts, since := 0, 0, start;
    ghost var inWindow := 0;   // polls since the deadline was set
    ghost var windows := stall / SLEEP + 1;
    while top(n) < deadline
      invariant -1 <= best <= most && restarts <= best + 1
      invariant deadline == since + stall && top(n) >= since + SLEEP * inWindow
      invariant inWindow <= windows && n <= restarts * windows + inWindow
      invariant forall i: nat | i < n :: !polls(i).Converged?
      invariant Best(polls, n, best)
      invariant since == start || exists k: nat :: k < n && Better(polls, k) && since == mid(k)
      invariant forall i: nat | i < n && mid(i) > since :: !Better(polls, i)
      invariant forall i: nat | i < n :: mid(i) <= top(n)
      decreases most - best, deadline - top(n)
    {
      assert top(n) <= mid(n) && mid(n) + SLEEP <= top(n + 1);
      if polls(n).Converged? {
        return true, n, restarts, since;
      }
      var progress := if polls(n).Converging? then polls(n).nodes else best;
      BestNext(polls, n, best);
      if progress > best {
        best, deadline := progress, mid(n) + stall;
        restarts, since := restarts + 1, mid(n);
        assert restarts * windows == (restarts - 1) * windows + windows;
        inWindow := 0;
      }
      inWindow := if progress > best then inWindow else inWindow + 1;
      n := n + 1;
    }
    converged := false;
  }

  /** Poll `i` saw more nodes than every poll before it. */
  ghost predicate Better(polls: nat -> Poll, i: nat) {
    polls(i).Converging? && forall j: nat | j < i && polls(j).Converging? :: polls(j).nodes < polls(i).nodes
  }

  /** `best` is the most that the first `n` polls saw, or -1. */
  ghost predicate Best(polls: nat -> Poll, n: nat, best: int) {
    && (forall j: nat | j < n && polls(j).Converging? :: polls(j).nodes <= best)
    && (best == -1 || exists j: nat :: j < n && polls(j).Converging? && polls(j).nodes == best)
  }

  lemma BestNext(polls: nat -> Poll, n: nat, best: int)
    requires best >= -1 && Best(polls, n, best) && !polls(n).Converged?
    ensures var progress := if polls(n).Converging? then polls(n).nodes else best;
            Best(polls, n + 1, if progress > best then progress else best) && (Better(polls, n) <==> progress > best)
  {
  }

  // ---------------------------------------------------------------- storage migration

  const SETTLE_SLEEP := 15

  /** Poll `i` counts fewer pending CRDs than every poll before it. */
  ghost predicate Fewest(pending: nat -> nat, i: nat) {
    forall j: nat | j < i :: pending(i) < pending(j)
  }

  /** Of the first `n` polls, none of which counted nothing, `k` is the last that counted fewer than all before it. */
  ghost predicate Lowest(pending: nat -> nat, n: nat, k: nat) {
    && k < n && Fewest(pending, k)
    && (forall i: nat | i < n :: 0 < pending(k) <= pending(i))
    && (forall i: nat | k < i < n :: !Fewest(pending, i))
  }

  lemma LowestNext(pending: nat -> nat, n: nat, k: nat)
    requires pending(n) > 0 && (n > 0 ==> Lowest(pending, n, k))
    ensures Lowest(pending, n + 1, if n == 0 || pending(n) < pending(k) then n else k)
  {
  }

  /**
   The waiting loop of wait_storage_migration().  The deadline is set anew at most once per CRD that was
   unsettled at the first poll; the loop is left when nothing is pending, or after a full window without the
   number of pending CRDs going below every earlier one.
   */
  method WaitSettled(stall: nat, start: int, top: nat -> int, mid: nat -> int, pending: nat -> nat)
    returns (settled: bool, n: nat, ghost restarts: nat)
    requires Clock(start, top, mid, SETTLE_SLEEP)
    ensures restarts <= pending(0)
    ensures n <= restarts * (stall / SETTLE_SLEEP + 1)
    ensures settled <==> pending(n) == 0
    ensures forall i: nat | i < n :: pending(i) > 0
    ensures !settled ==> exists k: nat :: Lowest(pending, n + 1, k) && mid(n) > top(k) + stall
  {
    var deadline, last := start + stall, 0;
    n, restarts := 0, 0;
    ghost var k, inWindow, budget := 0, 0, 0;
    ghost var windows := stall / SETTLE_SLEEP + 1;
    while true
      invariant n == 0 ==> restarts == 0 && inWindow == 0
      invariant n > 0 ==> Lowest(pending, n, k) && last == pending(k) && restarts + last <= pending(0) + 1
      invariant n > 0 ==> deadline == top(k) + stall >= mid(n - 1) && top(n) >= top(k) + SETTLE_SLEEP * inWindow
      invariant budget == restarts * windows && inWindow <= windows && n <= budget
      invariant n > 0 ==> n <= budget - windows + inWindow
      decreases if n == 0 then pending(0) + 1 else last, if n == 0 then 0 else deadline - mid(n - 1)
    {
      assert top(n) <= mid(n) && mid(n) + SETTLE_SLEEP <= top(n + 1);
      if pending(n) == 0 {
        return true, n, restarts;
      }
      LowestNext(pending, n, k);
      if n == 0 || pending(n) < last {
        deadline, last := top(n) + stall, pending(n);
        assert (restarts + 1) * windows == budget + windows;
        k, restarts, inWindow, budget := n, restarts + 1, 0, budget + windows;
      }
      if mid(n) > deadline {
        return false, n, restarts;
      }
      inWindow := inWindow + 1;
      n := n + 1;
    }
  }
}
