/**
 The temporary egress policies of the kubeadm namespaces: which are created, recorded and deleted, as a function of the
 policies found and of the numbers of the requests that fail.
 */
module KubeadmEgress {

  const KUBEADM_NAMESPACES := ["capi-kubeadm-bootstrap-system", "capi-kubeadm-control-plane-system"]

  function Elems(s: seq<string>): set<string> {
    set x | x in s
  }

  lemma NamespacesDiffer(i: nat, j: nat)
    requires i < |KUBEADM_NAMESPACES| && j < |KUBEADM_NAMESPACES|
    ensures KUBEADM_NAMESPACES[i] == KUBEADM_NAMESPACES[j] ==> i == j
  {
    assert |KUBEADM_NAMESPACES[0]| != |KUBEADM_NAMESPACES[1]|;
  }

  // ---------------------------------------------------------------- allowing

  /** The number of the look-up for the i-th namespace, if the first one is number `from` and no request before it raises. */
  ghost function LookUpOf(was: set<string>, fails: nat -> bool, from: nat, i: nat): (r: nat)
    requires i <= |KUBEADM_NAMESPACES|
    ensures r >= from
    decreases i, 0
  {
    if i == 0 then from
    else LookUpOf(was, fails, from, i - 1) + if Applies(was, fails, from, i - 1) then 2 else 1
  }

  /** The policy of the i-th namespace is applied: there is none, or the look-up fails, which reads as none. */
  ghost predicate Applies(was: set<string>, fails: nat -> bool, from: nat, i: nat)
    requires i < |KUBEADM_NAMESPACES|
    decreases i, 1
  {
    KUBEADM_NAMESPACES[i] !in was || fails(LookUpOf(was, fails, from, i))
  }

  /** And that request fails. */
  ghost predicate Refuses(was: set<string>, fails: nat -> bool, from: nat, i: nat)
    requires i < |KUBEADM_NAMESPACES|
  {
    Applies(was, fails, from, i) && fails(LookUpOf(was, fails, from, i) + 1)
  }

  /** The first namespace whose policy is refused, or the number of namespaces. */
  ghost function Refusal(was: set<string>, fails: nat -> bool, from: nat, i: nat): (r: nat)
    requires i <= |KUBEADM_NAMESPACES|
    ensures i <= r <= |KUBEADM_NAMESPACES|
    ensures r < |KUBEADM_NAMESPACES| ==> Refuses(was, fails, from, r)
    ensures forall j: nat | i <= j < r :: !Refuses(was, fails, from, j)
    decreases |KUBEADM_NAMESPACES| - i
  {
    if i == |KUBEADM_NAMESPACES| || Refuses(was, fails, from, i) then i else Refusal(was, fails, from, i + 1)
  }

  /** Those of the first `n` namespaces in which the policy is applied. */
  ghost function Allowed(was: set<string>, fails: nat -> bool, from: nat, n: nat): seq<string>
    requires n <= |KUBEADM_NAMESPACES|
  {
    if n == 0 then []
    else Allowed(was, fails, from, n - 1) + if Applies(was, fails, from, n - 1) then [KUBEADM_NAMESPACES[n - 1]] else []
  }

  lemma {:induction false} LookUpsAscend(was: set<string>, fails: nat -> bool, from: nat, i: nat, n: nat)
    requires i < n <= |KUBEADM_NAMESPACES|
    ensures from <= LookUpOf(was, fails, from, i) < LookUpOf(was, fails, from, n)
  {
    if i < n - 1 {
      LookUpsAscend(was, fails, from, i, n - 1);
    }
  }

  /** Where a namespace stands among those allowed. */
  lemma {:induction false} AllowedAt(was: set<string>, fails: nat -> bool, from: nat, n: nat, i: nat)
    requires i < n <= |KUBEADM_NAMESPACES|
    ensures |Allowed(was, fails, from, i)| <= |Allowed(was, fails, from, n)|
    ensures Applies(was, fails, from, i) ==>
      |Allowed(was, fails, from, i)| < |Allowed(was, fails, from, n)|
      && Allowed(was, fails, from, n)[|Allowed(was, fails, from, i)|] == KUBEADM_NAMESPACES[i]
  {
    if i < n - 1 {
      AllowedAt(was, fails, from, n - 1, i);
    }
  }

  lemma {:induction false} AllowedFrom(was: set<string>, fails: nat -> bool, from: nat, n: nat, j: nat) returns (i: nat)
    requires n <= |KUBEADM_NAMESPACES| && j < |Allowed(was, fails, from, n)|
    ensures i < n && Applies(was, fails, from, i) && |Allowed(was, fails, from, i)| == j
    ensures Allowed(was, fails, from, n)[j] == KUBEADM_NAMESPACES[i]
  {
    if j < |Allowed(was, fails, from, n - 1)| {
      i := AllowedFrom(was, fails, from, n - 1, j);
    } else {
      i := n - 1;
    }
  }

  /** A policy that was there is recorded as the run's own exactly if its own look-up fails. */
  lemma RecordedIff(was: set<string>, fails: nat -> bool, from: nat, n: nat, i: nat)
    requires i < n <= |KUBEADM_NAMESPACES|
    ensures KUBEADM_NAMESPACES[i] in Allowed(was, fails, from, n)
            <==> KUBEADM_NAMESPACES[i] !in was || fails(LookUpOf(was, fails, from, i))
  {
    AllowedAt(was, fails, from, n, i);
    if KUBEADM_NAMESPACES[i] in Allowed(was, fails, from, n) {
      var j: nat :| j < |Allowed(was, fails, from, n)| && Allowed(was, fails, from, n)[j] == KUBEADM_NAMESPACES[i];
      var k := AllowedFrom(was, fails, from, n, j);
      NamespacesDiffer(i, k);
    }
  }

  /** A later namespace is not among the earlier ones. */
  lemma NotYetAllowed(was: set<string>, fails: nat -> bool, from: nat, i: nat)
    requires i < |KUBEADM_NAMESPACES|
    ensures KUBEADM_NAMESPACES[i] !in Allowed(was, fails, from, i)
  {
    if KUBEADM_NAMESPACES[i] in Allowed(was, fails, from, i) {
      var j: nat :| j < |Allowed(was, fails, from, i)| && Allowed(was, fails, from, i)[j] == KUBEADM_NAMESPACES[i];
      var k := AllowedFrom(was, fails, from, i, j);
      NamespacesDiffer(i, k);
    }
  }

  // ---------------------------------------------------------------- deleting

  /** The policies that are deleted when the first delete is number `from`. */
  ghost function Deleted(added: seq<string>, fails: nat -> bool, from: nat): set<string> {
    set j: nat | j < |added| && !fails(from + j) :: added[j]
  }

  lemma DeletedMore(added: seq<string>, fails: nat -> bool, from: nat, j: nat)
    requires j < |added|
    ensures Deleted(added[..j + 1], fails, from) == Deleted(added[..j], fails, from) + if fails(from + j) then {} else {added[j]}
  {
    var longer, shorter := added[..j + 1], added[..j];
    assert forall i: nat | i < j :: longer[i] == shorter[i];
    assert longer[j] == added[j];
  }

  /** The policies in the end. */
  ghost function Closed(was: set<string>, added: seq<string>, fails: nat -> bool, from: nat): set<string> {
    was + Elems(added) - Deleted(added, fails, from)
  }

  /**
   Every policy is as it was: one that was taken for the run's own is not deleted because that request fails too, and
   one that is the run's own is deleted.
   */
  ghost predicate DeletesMatch(was: set<string>, fails: nat -> bool, from: nat, n: nat, deletes: nat)
    requires n <= |KUBEADM_NAMESPACES|
  {
    forall i: nat | i < n && Applies(was, fails, from, i) ::
      (KUBEADM_NAMESPACES[i] in was <==> fails(deletes + |Allowed(was, fails, from, i)|))
  }

  lemma DeletedIff(was: set<string>, fails: nat -> bool, from: nat, n: nat, deletes: nat, i: nat)
    requires i < n <= |KUBEADM_NAMESPACES| && Applies(was, fails, from, i)
    ensures KUBEADM_NAMESPACES[i] in Deleted(Allowed(was, fails, from, n), fails, deletes)
            <==> !fails(deletes + |Allowed(was, fails, from, i)|)
  {
    var added := Allowed(was, fails, from, n);
    AllowedAt(was, fails, from, n, i);
    if KUBEADM_NAMESPACES[i] in Deleted(added, fails, deletes) {
      var j: nat :| j < |added| && !fails(deletes + j) && added[j] == KUBEADM_NAMESPACES[i];
      var k := AllowedFrom(was, fails, from, n, j);
      NamespacesDiffer(i, k);
    }
  }

  /** After the deletes the policies are as before exactly if the failing look-ups and deletes match. */
  lemma ClosedIff(was: set<string>, fails: nat -> bool, from: nat, n: nat, deletes: nat)
    requires n <= |KUBEADM_NAMESPACES|
    ensures Closed(was, Allowed(was, fails, from, n), fails, deletes) == was <==> DeletesMatch(was, fails, from, n, deletes)
  {
    var added := Allowed(was, fails, from, n);
    var now := Closed(was, added, fails, deletes);
    forall i: nat | i < n && Applies(was, fails, from, i)
      ensures KUBEADM_NAMESPACES[i] in now <==> fails(deletes + |Allowed(was, fails, from, i)|)
    {
      AllowedAt(was, fails, from, n, i);
      DeletedIff(was, fails, from, n, deletes, i);
    }
    if DeletesMatch(was, fails, from, n, deletes) {
      forall x ensures x in now <==> x in was {
        if x in added {
          var j: nat :| j < |added| && added[j] == x;
          var i := AllowedFrom(was, fails, from, n, j);
        }
      }
    }
  }

  /** Without the deletes they are as before exactly if nothing was created. */
  lemma OpenIff(was: set<string>, fails: nat -> bool, from: nat, n: nat)
    requires n <= |KUBEADM_NAMESPACES|
    ensures was + Elems(Allowed(was, fails, from, n)) == was <==> forall i: nat | i < n :: KUBEADM_NAMESPACES[i] in was
  {
    var added := Allowed(was, fails, from, n);
    forall i: nat | i < n ensures KUBEADM_NAMESPACES[i] in was + Elems(added) {
      RecordedIff(was, fails, from, n, i);
    }
    forall x | x in added ensures exists i: nat :: i < n && KUBEADM_NAMESPACES[i] == x {
      var j: nat :| j < |added| && added[j] == x;
      var i := AllowedFrom(was, fails, from, n, j);
    }
  }

  ghost predicate LookUpsAnswer(was: set<string>, fails: nat -> bool, from: nat) {
    forall i: nat | i < |KUBEADM_NAMESPACES| :: !fails(LookUpOf(was, fails, from, i))
  }

  /** If no look-up and no delete fails, nobody else's policy is touched and none of the run's own is left. */
  lemma WithoutFailures(was: set<string>, fails: nat -> bool, from: nat, n: nat, deletes: nat)
    requires n <= |KUBEADM_NAMESPACES| && LookUpsAnswer(was, fails, from)
    requires forall k: nat | deletes <= k < deletes + |Allowed(was, fails, from, n)| :: !fails(k)
    ensures DeletesMatch(was, fails, from, n, deletes)
  {
    forall i: nat | i < n && Applies(was, fails, from, i)
      ensures KUBEADM_NAMESPACES[i] in was <==> fails(deletes + |Allowed(was, fails, from, i)|)
    {
      AllowedAt(was, fails, from, n, i);
      assert !fails(LookUpOf(was, fails, from, i));
      var k: nat := deletes + |Allowed(was, fails, from, i)|;
      assert !fails(k);
    }
  }
}
