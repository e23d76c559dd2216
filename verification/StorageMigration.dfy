/**
 The storage-version migration of one CustomResourceDefinition, run while other clients write.

 The API server is a value that every request replaces.  What the other clients do before each request of
 the migrator, and what the connection does to that request, are parameters, so a statement over all of
 them is a statement over every interleaving.
 */
module StorageMigration {
  import opened Text

  const V1BETA2 := "v1beta2"

  type Key = string

  /** A persisted object: its identity, the revision of its last write and the version that write was encoded in. */
  datatype Object = Object(uid: nat, revision: nat, storedAt: string)

  /** `next` is the revision the next write gets; it also names new objects. */
  datatype Api = Api(storage: string, stored: seq<string>, crdRevision: nat, objects: map<Key, Object>, next: nat)

  // ---------------------------------------------------------------- the other clients

  datatype Event =
    | Create(key: Key) | Update(key: Key) | Delete(key: Key)
    | EditStorage(version: string) | EditStored(versions: seq<string>)

  /**
   One request of another client.  Objects are always encoded in the storage version of the moment; a CRD
   edit takes a new revision, and the server keeps the storage version among the stored ones.
   */
  function React(s: Api, e: Event): Api {
    match e
    case Create(k) =>
      if k in s.objects then s
      else s.(objects := s.objects[k := Object(s.next, s.next, s.storage)], next := s.next + 1)
    case Update(k) =>
      if k !in s.objects then s
      else s.(objects := s.objects[k := Object(s.objects[k].uid, s.next, s.storage)], next := s.next + 1)
    case Delete(k) => s.(objects := s.objects - {k})
    case EditStorage(v) =>
      s.(storage := v, stored := if v in s.stored then s.stored else s.stored + [v], crdRevision := s.next, next := s.next + 1)
    case EditStored(vs) =>
      if s.storage !in vs then s else s.(stored := vs, crdRevision := s.next, next := s.next + 1)
  }

  function ReactAll(s: Api, es: seq<Event>): Api
    decreases |es|
  {
    if es == [] then s else ReactAll(React(s, es[0]), es[1..])
  }

  // ---------------------------------------------------------------- the migrator's requests

  /** What the migrator keeps of a listed object: the stub it applies carries the uid and the revision. */
  datatype Item = Item(key: Key, uid: nat, revision: nat)

  datatype Reply = Applied | NotFound | Conflict

  predicate Current(it: Item, objects: map<Key, Object>) {
    it.key in objects && objects[it.key].uid == it.uid && objects[it.key].revision == it.revision
  }

  /** A no-op server-side apply of the stub: it re-encodes the object if it still is the listed one. */
  function ApplyStub(s: Api, it: Item): (Api, Reply) {
    if it.key !in s.objects then (s, NotFound)
    else if !Current(it, s.objects) then (s, Conflict)
    else if s.objects[it.key].storedAt == s.storage then (s, Applied)
    else (s.(objects := s.objects[it.key := Object(it.uid, s.next, s.storage)], next := s.next + 1), Applied)
  }

  /** The status patch, with the CRD revision read at the start as its precondition. */
  function PatchStored(s: Api, seen: nat): (Api, bool) {
    if s.crdRevision != seen then (s, false)
    else (s.(stored := [V1BETA2], crdRevision := s.next, next := s.next + 1), true)
  }

  /**
   What the connection does to one request: the server's own answer arrives, the request never gets as far as
   the object, or it took effect and only its answer is lost.  The text is what the command printed.
   */
  datatype Network = Served | Refused(stderr: string) | Unheard(stderr: string)

  const TOLERATED: seq<string> := ["NotFound", "not found", "Conflict", "the object has been modified"]

  /** The search that decides whether a failed apply is skipped. */
  predicate Tolerated(stderr: string) {
    exists i | 0 <= i < |TOLERATED| :: Contains(stderr, TOLERATED[i])
  }

  /** What the command prints for the server's answer: the reason stands in parentheses. */
  function Printed(r: Reply): string {
    match r
    case Applied => ""
    case NotFound => "Error from server (NotFound)"
    case Conflict => "Error from server (Conflict)"
  }

  lemma AnswersAreTolerated()
    ensures Tolerated(Printed(NotFound)) && Tolerated(Printed(Conflict))
  {
    assert OccursAt(Printed(NotFound), TOLERATED[0], 19);
    assert OccursAt(Printed(Conflict), TOLERATED[2], 19);
  }

  // ---------------------------------------------------------------- the run as a function

  /** The apply loop from item `i` on; the flag says whether it got to the end. */
  function Rewrite(s: Api, items: seq<Item>, i: nat, others: nat -> seq<Event>, net: nat -> Network): (Api, bool)
    requires i <= |items|
    decreases |items| - i
  {
    if i == |items| then (s, true)
    else
      var before := ReactAll(s, others(i));
      var after := ApplyStub(before, items[i]).0;
      match net(i)
      case Served => Rewrite(after, items, i + 1, others, net)
      case Refused(e) => if Tolerated(e) then Rewrite(before, items, i + 1, others, net) else (before, false)
      case Unheard(e) => if Tolerated(e) then Rewrite(after, items, i + 1, others, net) else (after, false)
  }

  /** What the patch leaves on the server, and whether it took effect. */
  function AfterPatch(s: Api, seen: nat, net: Network): (Api, bool) {
    if net.Refused? then (s, false) else PatchStored(s, seen)
  }

  /** Everything after the listing: the applies, then the patch.  The flag says whether the patch took effect. */
  function Finish(s: Api, seen: nat, items: seq<Item>, others: nat -> seq<Event>, net: nat -> Network): (Api, bool) {
    var (t, complete) := Rewrite(s, items, 0, others, net);
    if complete then AfterPatch(ReactAll(t, others(|items|)), seen, net(|items|)) else (t, false)
  }

  /** What one apply leaves on the server, whatever came back. */
  function AfterApply(before: Api, it: Item, net: Network): Api {
    if net.Refused? then before else ApplyStub(before, it).0
  }

  /** What one apply prints, with the flag that it succeeded. */
  function Outcome(before: Api, it: Item, net: Network): (bool, string) {
    var reply := ApplyStub(before, it).1;
    if net.Served? then (reply.Applied?, Printed(reply)) else (false, net.stderr)
  }

  /** One iteration of the loop in the terms the loop tests. */
  lemma RewriteStep(s: Api, items: seq<Item>, i: nat, others: nat -> seq<Event>, net: nat -> Network)
    requires i < |items|
    ensures var before := ReactAll(s, others(i));
            var after := AfterApply(before, items[i], net(i));
            var (done, stderr) := Outcome(before, items[i], net(i));
            Rewrite(s, items, i, others, net)
            == if done || Tolerated(stderr) then Rewrite(after, items, i + 1, others, net) else (after, false)
  {
    AnswersAreTolerated();
  }

  // ---------------------------------------------------------------- what a listing is

  ghost predicate Lists(items: seq<Item>, s: Api) {
    && (forall k | k in s.objects :: exists i :: 0 <= i < |items| && items[i].key == k)
    && (forall i | 0 <= i < |items| :: Current(items[i], s.objects))
  }

  /** Revisions are handed out in order. */
  ghost predicate Ordered(s: Api) {
    && s.crdRevision < s.next
    && (forall k | k in s.objects :: s.objects[k].revision < s.next)
  }

  /** No persisted object is encoded in anything but v1beta2. */
  ghost predicate Migrated(s: Api) {
    forall k | k in s.objects :: s.objects[k].storedAt == V1BETA2
  }

  /** A CRD that unsettled_crds() returns. */
  predicate Unsettled(s: Api) {
    s.storage == V1BETA2 && s.stored != [V1BETA2]
  }

  // ---------------------------------------------------------------- the invariant of a run

  /** An item that an apply has not dealt with: still to come, or refused with a tolerated text. */
  ghost predicate Open(j: nat, i: nat, net: nat -> Network) {
    j >= i || (net(j).Refused? && Tolerated(net(j).stderr))
  }

  /** The CRD was read at revision `seen`, with storage v1beta2: as long as that is its revision, so it still is. */
  predicate SameCrd(s: Api, seen: nat) {
    seen < s.next && (s.crdRevision == seen ==> s.storage == V1BETA2)
  }

  ghost predicate Sighted(s: Api, seen: nat) {
    Ordered(s) && SameCrd(s, seen)
  }

  lemma {:induction false} SightedReactAll(s: Api, seen: nat, es: seq<Event>)
    requires Sighted(s, seen)
    ensures Sighted(ReactAll(s, es), seen)
    decreases |es|
  {
    if es != [] {
      SightedReactAll(React(s, es[0]), seen, es[1..]);
    }
  }

  /**
   Before item `i`: unless the CRD was edited since it was read, an object in an older version is still the
   listed one, and its item is open.
   */
  ghost predicate Pending(s: Api, seen: nat, items: seq<Item>, i: nat, net: nat -> Network) {
    && Sighted(s, seen)
    && (s.crdRevision == seen ==>
          && (forall k | k in s.objects && s.objects[k].storedAt != V1BETA2 ::
                exists j :: 0 <= j < |items| && Open(j, i, net) && items[j].key == k && Current(items[j], s.objects)))
  }

  lemma PendingReact(s: Api, seen: nat, items: seq<Item>, i: nat, net: nat -> Network, e: Event)
    requires Pending(s, seen, items, i, net)
    ensures Pending(React(s, e), seen, items, i, net)
  {
    var t := React(s, e);
    if t.crdRevision == seen {
      forall k | k in t.objects && t.objects[k].storedAt != V1BETA2
        ensures exists j :: 0 <= j < |items| && Open(j, i, net) && items[j].key == k && Current(items[j], t.objects)
      {
        assert s.objects[k] == t.objects[k];
        var j :| 0 <= j < |items| && Open(j, i, net) && items[j].key == k && Current(items[j], s.objects);
      }
    }
  }

  lemma {:induction false} PendingReactAll(s: Api, seen: nat, items: seq<Item>, i: nat, net: nat -> Network, es: seq<Event>)
    requires Pending(s, seen, items, i, net)
    ensures Pending(ReactAll(s, es), seen, items, i, net)
    decreases |es|
  {
    if es != [] {
      PendingReact(s, seen, items, i, net, es[0]);
      PendingReactAll(React(s, es[0]), seen, items, i, net, es[1..]);
    }
  }

  /** An apply that reached the server closes its item: rewritten, already rewritten, or gone. */
  lemma PendingApply(s: Api, seen: nat, items: seq<Item>, i: nat, net: nat -> Network)
    requires i < |items| && Pending(s, seen, items, i, net)
    ensures Pending(ApplyStub(s, items[i]).0, seen, items, i + 1, net)
  {
    var t := ApplyStub(s, items[i]).0;
    if t.crdRevision == seen {
      forall k | k in t.objects && t.objects[k].storedAt != V1BETA2
        ensures exists j :: 0 <= j < |items| && Open(j, i + 1, net) && items[j].key == k && Current(items[j], t.objects)
      {
        assert s.objects[k] == t.objects[k];
        var j :| 0 <= j < |items| && Open(j, i, net) && items[j].key == k && Current(items[j], s.objects);
        assert j != i;
        assert Open(j, i + 1, net);
      }
    }
  }

  lemma PendingSkip(s: Api, seen: nat, items: seq<Item>, i: nat, net: nat -> Network)
    requires i < |items| && Pending(s, seen, items, i, net) && net(i).Refused? && Tolerated(net(i).stderr)
    ensures Pending(s, seen, items, i + 1, net)
  {
    assert forall j: nat | Open(j, i, net) :: Open(j, i + 1, net);
  }

  lemma {:induction false} PendingRewrite(s: Api, seen: nat, items: seq<Item>, i: nat, others: nat -> seq<Event>, net: nat -> Network)
    requires i <= |items| && Pending(s, seen, items, i, net)
    ensures var (t, complete) := Rewrite(s, items, i, others, net); complete ==> Pending(t, seen, items, |items|, net)
    decreases |items| - i
  {
    if i < |items| {
      var before := ReactAll(s, others(i));
      PendingReactAll(s, seen, items, i, net, others(i));
      PendingApply(before, seen, items, i, net);
      match net(i)
      case Refused(e) =>
        if Tolerated(e) {
          PendingSkip(before, seen, items, i, net);
          PendingRewrite(before, seen, items, i + 1, others, net);
        }
      case _ => PendingRewrite(ApplyStub(before, items[i]).0, seen, items, i + 1, others, net);
    }
  }

  /** A listing makes everything pending, whatever happened between reading the CRD and listing. */
  lemma PendingListed(s: Api, seen: nat, items: seq<Item>, net: nat -> Network)
    requires Sighted(s, seen) && Lists(items, s)
    ensures Pending(s, seen, items, 0, net)
  {
    forall k | k in s.objects
      ensures exists j :: 0 <= j < |items| && Open(j, 0, net) && items[j].key == k && Current(items[j], s.objects)
    {
      var j :| 0 <= j < |items| && items[j].key == k;
      assert Open(j, 0, net);
    }
  }

  // ---------------------------------------------------------------- main results

  /** A run that starts by reading an unsettled CRD in `read` and lists after `between`. */
  ghost predicate Starts(read: Api, between: seq<Event>, items: seq<Item>) {
    Ordered(read) && Unsettled(read) && Lists(items, ReactAll(read, between))
  }

  /**
   Whenever the patch takes effect, an object left in an older version is one whose own apply was refused
   before it reached the server with a text that happened to be tolerated, and that nobody wrote since.
   */
  lemma LeftBehind(read: Api, between: seq<Event>, items: seq<Item>, others: nat -> seq<Event>, net: nat -> Network, k: Key)
    requires Starts(read, between, items)
    requires Finish(ReactAll(read, between), read.crdRevision, items, others, net).1
    requires var end := Finish(ReactAll(read, between), read.crdRevision, items, others, net).0;
             k in end.objects && end.objects[k].storedAt != V1BETA2
    ensures var end := Finish(ReactAll(read, between), read.crdRevision, items, others, net).0;
            exists j :: 0 <= j < |items| && items[j].key == k && Current(items[j], end.objects)
                        && net(j).Refused? && Tolerated(net(j).stderr)
  {
    var seen := read.crdRevision;
    var listed := ReactAll(read, between);
    SightedReactAll(read, seen, between);
    PendingListed(listed, seen, items, net);
    PendingRewrite(listed, seen, items, 0, others, net);
    var t := Rewrite(listed, items, 0, others, net).0;
    PendingReactAll(t, seen, items, |items|, net, others(|items|));
    var u := ReactAll(t, others(|items|));
    var j :| 0 <= j < |items| && Open(j, |items|, net) && items[j].key == k && Current(items[j], u.objects);
  }

  /**
   The status patch only takes effect when it is right, be its answer lost: storage is v1beta2, every persisted object is encoded
   in it, so dropping the older versions from storedVersions loses track of nothing.
   */
  lemma TrimIsSafe(read: Api, between: seq<Event>, items: seq<Item>, others: nat -> seq<Event>, net: nat -> Network)
    requires Starts(read, between, items)
    requires forall j | net(j).Refused? :: !Tolerated(net(j).stderr)
    ensures var (end, trimmed) := Finish(ReactAll(read, between), read.crdRevision, items, others, net);
            trimmed ==> Migrated(end) && end.storage == V1BETA2 && end.stored == [V1BETA2]
  {
    var (end, trimmed) := Finish(ReactAll(read, between), read.crdRevision, items, others, net);
    if trimmed {
      forall k | k in end.objects ensures end.objects[k].storedAt == V1BETA2 {
        if end.objects[k].storedAt != V1BETA2 {
          LeftBehind(read, between, items, others, net, k);
        }
      }
      SightedFinish(read, between, items, others, net);
    }
  }

  lemma {:induction false} SightedRewrite(s: Api, seen: nat, items: seq<Item>, i: nat, others: nat -> seq<Event>, net: nat -> Network)
    requires i <= |items| && Sighted(s, seen)
    ensures Sighted(Rewrite(s, items, i, others, net).0, seen)
    decreases |items| - i
  {
    if i < |items| {
      var before := ReactAll(s, others(i));
      SightedReactAll(s, seen, others(i));
      SightedRewrite(before, seen, items, i + 1, others, net);
      SightedRewrite(ApplyStub(before, items[i]).0, seen, items, i + 1, others, net);
    }
  }

  /** A storage version changed by somebody since the CRD was read is noticed: the patch then fails. */
  lemma SightedFinish(read: Api, between: seq<Event>, items: seq<Item>, others: nat -> seq<Event>, net: nat -> Network)
    requires Ordered(read) && Unsettled(read)
    ensures var (end, trimmed) := Finish(ReactAll(read, between), read.crdRevision, items, others, net);
            trimmed ==> end.storage == V1BETA2
  {
    var seen := read.crdRevision;
    SightedReactAll(read, seen, between);
    SightedRewrite(ReactAll(read, between), seen, items, 0, others, net);
    SightedReactAll(Rewrite(ReactAll(read, between), items, 0, others, net).0, seen, others(|items|));
  }

  /** Since the state `then`, an object is either untouched or was written again, in v1beta2 if the CRD was not edited. */
  ghost predicate Since(was: Api, now: Api, seen: nat) {
    && was.next <= now.next
    && (forall k | k in now.objects ::
          || (k in was.objects && now.objects[k] == was.objects[k])
          || (now.objects[k].revision >= was.next && (now.crdRevision == seen ==> now.objects[k].storedAt == V1BETA2)))
  }

  lemma {:induction false} SinceReactAll(was: Api, now: Api, seen: nat, es: seq<Event>)
    requires Sighted(now, seen) && Since(was, now, seen)
    ensures Since(was, ReactAll(now, es), seen)
    decreases |es|
  {
    if es != [] {
      SightedReactAll(now, seen, [es[0]]);
      assert ReactAll(now, [es[0]]) == ReactAll(React(now, es[0]), []);
      SinceReactAll(was, React(now, es[0]), seen, es[1..]);
    }
  }

  /**
   What the two tolerated answers mean.  NotFound: the object is gone.  Conflict: it was created or written
   again since the listing, so with an unedited CRD it already is in v1beta2.
   */
  lemma ToleratedAnswers(listed: Api, seen: nat, es: seq<Event>, it: Item)
    requires Sighted(listed, seen) && Current(it, listed.objects)
    ensures var now := ReactAll(listed, es);
            match ApplyStub(now, it).1
            case NotFound => it.key !in now.objects
            case Conflict => it.key in now.objects && now.objects[it.key].revision >= listed.next
                             && (now.crdRevision == seen ==> now.objects[it.key].storedAt == V1BETA2)
            case Applied => it.key in now.objects && now.objects[it.key] == listed.objects[it.key]
  {
    SinceReactAll(listed, listed, seen, es);
  }

  // ---------------------------------------------------------------- which networks are safe

  /** The refusals of this connection all print one of the given texts. */
  ghost predicate Prints(net: nat -> Network, texts: iset<string>) {
    forall j | net(j).Refused? :: net(j).stderr in texts
  }

  /** No run over a connection whose refusals print these texts trims storedVersions too early. */
  ghost predicate AlwaysSafe(texts: iset<string>) {
    forall read, between, items, others, net |
      Starts(read, between, items) && Prints(net, texts)
      && Finish(ReactAll(read, between), read.crdRevision, items, others, net).1 ::
        Migrated(Finish(ReactAll(read, between), read.crdRevision, items, others, net).0)
  }

  /** One object in v1alpha4, and a refusal that is mistaken for an answer about that object. */
  lemma MistakenRefusal(text: string) returns (read: Api, items: seq<Item>, others: nat -> seq<Event>, net: nat -> Network)
    requires Tolerated(text)
    ensures Starts(read, [], items) && Prints(net, iset{text}) && forall j | 0 <= j < |items| :: net(j) == Refused(text)
    ensures var (end, trimmed) := Finish(ReactAll(read, []), read.crdRevision, items, others, net);
            trimmed && end.stored == [V1BETA2] && end.objects == map["m" := Object(0, 1, "v1alpha4")]
  {
    read := Api(V1BETA2, ["v1alpha4", V1BETA2], 2, map["m" := Object(0, 1, "v1alpha4")], 3);
    items := [Item("m", 0, 1)];
    others := (j: nat) => [];
    net := (j: nat) => if j == 0 then Refused(text) else Served;
    assert Lists(items, read) by {
      assert items[0].key == "m";
    }
    assert Rewrite(read, items, 1, others, net) == (read, true);
  }

  /**
   The migration is safe exactly when no refusal that never reached the object can print a tolerated text.
   The promise is that only an object's own NotFound or Conflict is skipped; the code looks for the words anywhere.
   */
  lemma SafeIffRefusalsAreRecognised(texts: iset<string>)
    ensures AlwaysSafe(texts) <==> forall text | text in texts :: !Tolerated(text)
  {
    if forall text | text in texts :: !Tolerated(text) {
      forall read, between, items, others, net | Starts(read, between, items) && Prints(net, texts)
        && Finish(ReactAll(read, between), read.crdRevision, items, others, net).1
        ensures Migrated(Finish(ReactAll(read, between), read.crdRevision, items, others, net).0)
      {
        TrimIsSafe(read, between, items, others, net);
      }
    } else {
      var text :| text in texts && Tolerated(text);
      var read, items, others, net := MistakenRefusal(text);
      var end := Finish(ReactAll(read, []), read.crdRevision, items, others, net).0;
      assert end.objects["m"].storedAt == "v1alpha4";
    }
  }

  /** A text that a missing conversion webhook service prints, and that is taken for a missing object. */
  lemma MissingWebhookIsTolerated()
    ensures Tolerated("failed calling webhook: service \"capi-webhook-service\" not found")
  {
    var text := "failed calling webhook: service \"capi-webhook-service\" not found";
    assert OccursAt(text, TOLERATED[1], |text| - |TOLERATED[1]|);
  }

  // ---------------------------------------------------------------- the run itself

  class Server {
    var api: Api

    constructor (api: Api)
      ensures this.api == api
    {
      this.api := api;
    }

    /** The other clients' requests, one after the other. */
    method Serve(es: seq<Event>)
      modifies this
      ensures api == ReactAll(old(api), es)
    {
      var i := 0;
      while i < |es|
        invariant i <= |es| && ReactAll(api, es[i..]) == ReactAll(old(api), es)
      {
        api := React(api, es[i]);
        i := i + 1;
      }
    }

    method List() returns (items: seq<Item>)
      ensures Lists(items, api)
    {
      items := [];
      var rest := api.objects.Keys;
      while rest != {}
        invariant rest <= api.objects.Keys
        invariant forall k | k in api.objects && k !in rest :: exists i :: 0 <= i < |items| && items[i].key == k
        invariant forall i | 0 <= i < |items| :: Current(items[i], api.objects)
        decreases rest
      {
        var k :| k in rest;
        ghost var before := items;
        items := items + [Item(k, api.objects[k].uid, api.objects[k].revision)];
        assert items[|items| - 1].key == k;
        assert forall i | 0 <= i < |before| :: items[i] == before[i];
        rest := rest - {k};
      }
    }

    method Apply(it: Item, net: Network) returns (ok: bool, stderr: string)
      modifies this
      ensures api == AfterApply(old(api), it, net)
      ensures (ok, stderr) == Outcome(old(api), it, net)
    {
      var reply := Applied;
      if !net.Refused? {
        var (after, answer) := ApplyStub(api, it);
        api, reply := after, answer;
      }
      ok, stderr := net.Served? && reply.Applied?, if net.Served? then Printed(reply) else net.stderr;
    }

    /**
     The status patch: refused without a trace when the CRD has another revision, or on the way.  Otherwise only the
     stored versions change, which settles a CRD whose storage version is v1beta2, and the revision is a new one, so
     that no patch with the same precondition takes effect again.  Its answer may be lost.
     */
    method Patch(seen: nat, net: Network) returns (ok: bool, ghost trimmed: bool)
      modifies this
      ensures trimmed <==> old(api).crdRevision == seen && !net.Refused?
      ensures ok <==> trimmed && net.Served?
      ensures !trimmed ==> api == old(api)
      ensures trimmed ==> api.stored == [V1BETA2] && api.objects == old(api).objects && api.storage == old(api).storage
      ensures trimmed ==> api.crdRevision == old(api).next && api.next == old(api).next + 1
      ensures trimmed && api.storage == V1BETA2 ==> !Unsettled(api)
      ensures Ordered(old(api)) ==> Ordered(api) && (trimmed ==> seen < api.crdRevision)
    {
      var done := false;
      if !net.Refused? {
        var (after, accepted) := PatchStored(api, seen);
        api, done := after, accepted;
      }
      ok, trimmed := done && net.Served?, done;
    }
  }

  /**
   migrate_crd() for a CRD read at revision `seen`, with the other clients at work before the listing, before
   every apply and before the patch.  Not `ok` is the exception it raises, after which the patch may have taken effect.
   */
  method MigrateCrd(server: Server, seen: nat, between: seq<Event>, others: nat -> seq<Event>, net: nat -> Network)
    returns (ok: bool, items: seq<Item>, ghost trimmed: bool)
    modifies server
    ensures Lists(items, ReactAll(old(server.api), between))
    ensures (server.api, trimmed) == Finish(ReactAll(old(server.api), between), seen, items, others, net)
    ensures ok <==> trimmed && net(|items|).Served?
  {
    server.Serve(between);
    items := server.List();
    var i := 0;
    while i < |items|
      invariant i <= |items|
      invariant Rewrite(server.api, items, i, others, net) == Rewrite(ReactAll(old(server.api), between), items, 0, others, net)
    {
      RewriteStep(server.api, items, i, others, net);
      server.Serve(others(i));
      var done, stderr := server.Apply(items[i], net(i));
      if !done && !Tolerated(stderr) {
        return false, items, false;
      }
      i := i + 1;
    }
    server.Serve(others(|items|));
    ok, trimmed := server.Patch(seen, net(|items|));
  }
}
