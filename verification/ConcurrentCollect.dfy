/**
 The two functions of pkg/errors/concurrent.go that run functions in goroutines and collect their errors through a
 buffered channel, as one interleaving state machine.  `fs[i]` is what function `i` returns when it returns.
 */
module ConcurrentCollect {
  import opened Options
  import opened ErrorAggregate

  /** UntilErrorConcurrent() or AggregateConcurrent(). */
  datatype Mode = Until | Gather

  /** A goroutine: before `go`, in its function, about to send, behind the send, ended. */
  datatype Worker = Idle | Running | Sending | Sent | Ended

  /** The caller: in the loop that starts goroutines, at wg.Wait(), in its loop of receives, behind close(). */
  datatype Caller =
    | Starting(next: nat, added: bool)
    | Waiting
    | Receiving
    | Draining
    | Returned(result: Option<Error>)

  /** The channel holds the senders in order; `got` are the senders of what was received. */
  datatype State =
    State(workers: seq<Worker>, channel: seq<nat>, got: seq<nat>, group: int, closed: bool, caller: Caller)

  function Init(n: nat): State {
    State(seq(n, _ => Idle), [], [], 0, false, Starting(0, false))
  }

  datatype Action = Add | Go | Started | Compute(i: nat) | Send(i: nat) | Exit(i: nat) | Receive | Empty | Close

  predicate At(s: State, i: nat, w: Worker) {
    i < |s.workers| && s.workers[i] == w
  }

  /** The channel has room for one result of every function. */
  predicate Enabled(mode: Mode, fs: seq<Option<Error>>, s: State, a: Action) {
    match a
    case Add => mode == Gather && s.caller.Starting? && s.caller.next < |fs| && !s.caller.added
    case Go => s.caller.Starting? && s.caller.next < |fs| && (s.caller.added <==> mode == Gather)
    case Started => s.caller.Starting? && s.caller.next == |fs|
    case Compute(i) => At(s, i, Running)
    case Send(i) => At(s, i, Sending) && |s.channel| < |fs| && !s.closed
    case Exit(i) => At(s, i, Sent)
    case Receive => (s.caller == Draining || (s.caller == Receiving && |s.got| < |fs|)) && s.channel != []
    case Empty => (s.caller == Draining && s.channel == []) || (s.caller == Receiving && |s.got| == |fs|)
    case Close => s.caller == Waiting && s.group == 0
  }

  /** What the receives returned, without nil. */
  function Collected(fs: seq<Option<Error>>, got: seq<nat>): seq<Error> {
    if got == [] then []
    else
      var front, last := Collected(fs, got[..|got| - 1]), got[|got| - 1];
      if last < |fs| && fs[last].Some? then front + [fs[last].value] else front
  }

  function AllPresent(errs: seq<Error>): seq<Option<Error>> {
    seq(|errs|, i requires 0 <= i < |errs| => Some(errs[i]))
  }

  /** The end of AggregateConcurrent(); 0 names the error that NewAggregate() makes with a stack. */
  function Summary(errs: seq<Error>): Option<Error> {
    if |errs| > 1 then Made(AllPresent(errs), 0) else if |errs| == 1 then Some(errs[0]) else None
  }

  function Do(mode: Mode, fs: seq<Option<Error>>, s: State, a: Action): State
    requires |s.workers| == |fs| && Enabled(mode, fs, s, a) && forall i | i in s.channel :: i < |fs|
  {
    match a
    case Add => s.(group := s.group + 1, caller := s.caller.(added := true))
    case Go => s.(workers := s.workers[s.caller.next := Running], caller := Starting(s.caller.next + 1, false))
    case Started => s.(caller := if mode == Until then Receiving else Waiting)
    case Compute(i) => s.(workers := s.workers[i := Sending])
    case Send(i) => s.(workers := s.workers[i := Sent], channel := s.channel + [i])
    case Exit(i) => s.(workers := s.workers[i := Ended], group := if mode == Gather then s.group - 1 else s.group)
    case Receive =>
      var i := s.channel[0];
      assert i in s.channel;
      s.(channel := s.channel[1..], got := s.got + [i],
         caller := if s.caller == Receiving && fs[i].Some? then Returned(fs[i]) else s.caller)
    case Empty => s.(caller := Returned(if mode == Until then None else Summary(Collected(fs, s.got))))
    case Close => s.(closed := true, caller := Draining)
  }

  // ---------------------------------------------------------------- what every run keeps

  ghost function Senders(ws: seq<Worker>): set<nat> {
    set i: nat | i < |ws| && (ws[i] == Sent || ws[i] == Ended)
  }

  /** Goroutines that were started and have not ended. */
  ghost function Open(ws: seq<Worker>): set<nat> {
    set i: nat | i < |ws| && ws[i] != Idle && ws[i] != Ended
  }

  ghost predicate AllNil(fs: seq<Option<Error>>, got: seq<nat>) {
    forall j | 0 <= j < |got| :: got[j] < |fs| && fs[got[j]].None?
  }

  ghost predicate CallerInv(mode: Mode, fs: seq<Option<Error>>, s: State) {
    match s.caller
    case Starting(next, added) => next <= |fs| && s.got == [] && (added ==> mode == Gather && next < |fs|)
    case Waiting => mode == Gather && s.got == []
    case Receiving => mode == Until && AllNil(fs, s.got)
    case Draining => mode == Gather && s.closed
    case Returned(r) =>
      if mode == Gather then s.closed && s.channel == [] && r == Summary(Collected(fs, s.got))
      else if r.Some? then r in fs
      else |s.got| == |fs| && AllNil(fs, s.got)
  }

  /** Every sender is once in the channel or once among what was received. */
  ghost predicate SentOnce(channel: seq<nat>, got: seq<nat>, senders: set<nat>) {
    multiset(channel) + multiset(got) == multiset(senders)
  }

  lemma OneMore<T>(s: set<T>, x: T)
    requires x !in s
    ensures multiset(s + {x}) == multiset(s) + multiset{x}
  {
  }

  lemma OneMoreSent(channel: seq<nat>, got: seq<nat>, senders: set<nat>, i: nat)
    requires SentOnce(channel, got, senders) && i !in senders
    ensures SentOnce(channel + [i], got, senders + {i})
  {
    assert multiset(channel + [i]) == multiset(channel) + multiset{i};
    OneMore(senders, i);
  }

  lemma OneMoreReceived(channel: seq<nat>, got: seq<nat>, senders: set<nat>)
    requires SentOnce(channel, got, senders) && channel != []
    ensures SentOnce(channel[1..], got + [channel[0]], senders)
  {
    assert channel == [channel[0]] + channel[1..];
  }

  ghost predicate Inv(mode: Mode, fs: seq<Option<Error>>, s: State) {
    && |s.workers| == |fs| && SentOnce(s.channel, s.got, Senders(s.workers))
    && (forall i: nat | i < |fs| :: s.workers[i] == Idle <==> s.caller.Starting? && s.caller.next <= i)
    && (mode == Gather ==> s.group == |Open(s.workers)| + (if s.caller.Starting? && s.caller.added then 1 else 0))
    && (s.closed ==> mode == Gather && !s.caller.Starting? && Open(s.workers) == {})
    && CallerInv(mode, fs, s)
  }

  ghost function Below(n: nat): (r: set<nat>)
    ensures |r| == n && forall i: nat :: i in r <==> i < n
  {
    if n == 0 then {} else Below(n - 1) + {n - 1}
  }

  lemma InChannel(mode: Mode, fs: seq<Option<Error>>, s: State, i: nat)
    requires Inv(mode, fs, s) && (i in s.channel || i in s.got)
    ensures i < |fs| && i in Senders(s.workers)
  {
    assert i in multiset(s.channel) + multiset(s.got);
  }

  /** Every received or waiting result was sent once, so there are never more than functions. */
  lemma ChannelCount(mode: Mode, fs: seq<Option<Error>>, s: State)
    requires Inv(mode, fs, s)
    ensures |s.channel| + |s.got| == |Senders(s.workers)| <= |fs|
  {
    assert |multiset(s.channel) + multiset(s.got)| == |s.channel| + |s.got|;
    SubsetCount(Senders(s.workers), Below(|fs|));
  }

  lemma {:induction false} SubsetCount<T>(a: set<T>, b: set<T>)
    requires a <= b
    ensures |a| <= |b| && (|a| == |b| ==> a == b)
  {
    if a != {} {
      var x :| x in a;
      SubsetCount(a - {x}, b - {x});
    }
  }

  /** No goroutine is ever kept at its send, neither by a full channel, whoever still receives, nor by a closed one. */
  lemma SendsNeverBlock(mode: Mode, fs: seq<Option<Error>>, s: State, i: nat)
    requires Inv(mode, fs, s) && At(s, i, Sending)
    ensures Enabled(mode, fs, s, Send(i))
  {
    ChannelCount(mode, fs, s);
    assert i in Below(|fs|) && i !in Senders(s.workers);
    SubsetCount(Senders(s.workers), Below(|fs|));
    assert i in Open(s.workers);
  }

  lemma InitInv(mode: Mode, fs: seq<Option<Error>>)
    ensures Inv(mode, fs, Init(|fs|))
  {
    assert Senders(Init(|fs|).workers) == {} && Open(Init(|fs|).workers) == {};
  }

  lemma WorkerSets(ws: seq<Worker>, i: nat, w: Worker)
    requires i < |ws|
    ensures Senders(ws[i := w]) == Senders(ws) - {i} + (if w == Sent || w == Ended then {i} else {})
    ensures Open(ws[i := w]) == Open(ws) - {i} + (if w == Idle || w == Ended then {} else {i})
  {
  }

  lemma InvSend(mode: Mode, fs: seq<Option<Error>>, s: State, i: nat)
    requires Inv(mode, fs, s) && Enabled(mode, fs, s, Send(i)) && forall j | j in s.channel :: j < |fs|
    ensures Inv(mode, fs, Do(mode, fs, s, Send(i)))
  {
    WorkerSets(s.workers, i, Sent);
    OneMoreSent(s.channel, s.got, Senders(s.workers), i);
    assert Senders(s.workers) - {i} + {i} == Senders(s.workers) + {i};
    assert i in Open(s.workers) && Open(s.workers) - {i} + {i} == Open(s.workers);
  }

  lemma InvCompute(mode: Mode, fs: seq<Option<Error>>, s: State, i: nat)
    requires Inv(mode, fs, s) && Enabled(mode, fs, s, Compute(i)) && forall j | j in s.channel :: j < |fs|
    ensures Inv(mode, fs, Do(mode, fs, s, Compute(i)))
  {
    var ws := s.workers[i := Sending];
    assert Senders(ws) == Senders(s.workers) && Open(ws) == Open(s.workers);
  }

  lemma InvExit(mode: Mode, fs: seq<Option<Error>>, s: State, i: nat)
    requires Inv(mode, fs, s) && Enabled(mode, fs, s, Exit(i)) && forall j | j in s.channel :: j < |fs|
    ensures Inv(mode, fs, Do(mode, fs, s, Exit(i)))
  {
    WorkerSets(s.workers, i, Ended);
    assert i in Senders(s.workers) && Senders(s.workers) - {i} + {i} == Senders(s.workers);
    assert i in Open(s.workers) && Open(s.workers) - {i} + {} == Open(s.workers) - {i};
  }

  lemma InvGo(mode: Mode, fs: seq<Option<Error>>, s: State)
    requires Inv(mode, fs, s) && Enabled(mode, fs, s, Go) && forall j | j in s.channel :: j < |fs|
    ensures Inv(mode, fs, Do(mode, fs, s, Go))
  {
    var i := s.caller.next;
    WorkerSets(s.workers, i, Running);
    assert s.workers[i] == Idle;
    assert i !in Senders(s.workers) && Senders(s.workers) - {i} + {} == Senders(s.workers);
    assert i !in Open(s.workers) && Open(s.workers) - {i} + {i} == Open(s.workers) + {i};
  }

  lemma InvReceive(mode: Mode, fs: seq<Option<Error>>, s: State)
    requires Inv(mode, fs, s) && Enabled(mode, fs, s, Receive) && forall j | j in s.channel :: j < |fs|
    ensures Inv(mode, fs, Do(mode, fs, s, Receive))
  {
    OneMoreReceived(s.channel, s.got, Senders(s.workers));
    assert s.channel[0] in s.channel;
  }

  lemma InvOther(mode: Mode, fs: seq<Option<Error>>, s: State, a: Action)
    requires Inv(mode, fs, s) && Enabled(mode, fs, s, a) && forall j | j in s.channel :: j < |fs|
    requires a.Add? || a.Started? || a.Empty? || a.Close?
    ensures Inv(mode, fs, Do(mode, fs, s, a))
  {
    assert a.Close? ==> |Open(s.workers)| == 0;
  }

  /** Every step of every goroutine keeps the invariant. */
  lemma InvStep(mode: Mode, fs: seq<Option<Error>>, s: State, a: Action)
    requires Inv(mode, fs, s) && Enabled(mode, fs, s, a)
    ensures (forall i | i in s.channel :: i < |fs|) && Inv(mode, fs, Do(mode, fs, s, a))
  {
    forall i | i in s.channel ensures i < |fs| {
      InChannel(mode, fs, s, i);
    }
    match a
    case Compute(i) => InvCompute(mode, fs, s, i);
    case Send(i) => InvSend(mode, fs, s, i);
    case Exit(i) => InvExit(mode, fs, s, i);
    case Go => InvGo(mode, fs, s);
    case Receive => InvReceive(mode, fs, s);
    case _ => InvOther(mode, fs, s, a);
  }

  /** A run from the start: a schedule, and the states it goes through. */
  ghost predicate Run(mode: Mode, fs: seq<Option<Error>>, acts: seq<Action>, states: seq<State>) {
    && |states| == |acts| + 1 && states[0] == Init(|fs|)
    && forall k | 0 <= k < |acts| :: Steps(mode, fs, states[k], acts[k], states[k + 1])
  }

  ghost predicate Steps(mode: Mode, fs: seq<Option<Error>>, s: State, a: Action, s': State) {
    && Enabled(mode, fs, s, a) && |s.workers| == |fs| && (forall i | i in s.channel :: i < |fs|)
    && s' == Do(mode, fs, s, a)
  }

  lemma {:induction false} RunInv(mode: Mode, fs: seq<Option<Error>>, acts: seq<Action>, states: seq<State>, k: nat)
    requires Run(mode, fs, acts, states) && k <= |acts|
    ensures Inv(mode, fs, states[k])
  {
    if k == 0 {
      InitInv(mode, fs);
    } else {
      RunInv(mode, fs, acts, states, k - 1);
      assert Steps(mode, fs, states[k - 1], acts[k - 1], states[k]);
      InvStep(mode, fs, states[k - 1], acts[k - 1]);
    }
  }

  // ---------------------------------------------------------------- every run ends

  function Left(w: Worker): nat {
    match w case Idle => 4 case Running => 3 case Sending => 2 case Sent => 1 case Ended => 0
  }

  function WorkLeft(ws: seq<Worker>): nat {
    if ws == [] then 0 else Left(ws[0]) + WorkLeft(ws[1..])
  }

  lemma {:induction false} WorkLeftAfter(ws: seq<Worker>, i: nat, w: Worker)
    requires i < |ws|
    ensures WorkLeft(ws[i := w]) == WorkLeft(ws) - Left(ws[i]) + Left(w)
  {
    if i > 0 {
      WorkLeftAfter(ws[1..], i - 1, w);
      assert ws[i := w][1..] == ws[1..][i - 1 := w];
    } else {
      assert ws[i := w][1..] == ws[1..];
    }
  }

  function CallerLeft(c: Caller, n: nat): int {
    match c
    case Starting(next, added) => 3 * n + 4 - 2 * next - (if added then 1 else 0)
    case Waiting => n + 3
    case Receiving => n + 2
    case Draining => n + 2
    case Returned(_) => n
  }

  /** The steps that may still be taken. */
  function StepsLeft(fs: seq<Option<Error>>, s: State): int {
    WorkLeft(s.workers) + CallerLeft(s.caller, |fs|) - |s.got|
  }

  lemma StepsDecrease(mode: Mode, fs: seq<Option<Error>>, s: State, a: Action)
    requires Inv(mode, fs, s) && Enabled(mode, fs, s, a) && forall i | i in s.channel :: i < |fs|
    ensures StepsLeft(fs, Do(mode, fs, s, a)) < StepsLeft(fs, s)
  {
    ChannelCount(mode, fs, s);
    match a
    case Go => WorkLeftAfter(s.workers, s.caller.next, Running);
    case Compute(i) => WorkLeftAfter(s.workers, i, Sending);
    case Send(i) => WorkLeftAfter(s.workers, i, Sent);
    case Exit(i) => WorkLeftAfter(s.workers, i, Ended);
    case _ =>
  }

  /** Nothing is ever stuck: some step is enabled until the caller has returned and every goroutine has ended. */
  lemma Progress(mode: Mode, fs: seq<Option<Error>>, s: State)
    requires Inv(mode, fs, s)
    ensures (exists a :: Enabled(mode, fs, s, a))
            || (s.caller.Returned? && forall i: nat | i < |fs| :: s.workers[i] == Ended)
  {
    if i: nat :| i < |fs| && s.workers[i] != Ended && s.workers[i] != Idle {
      if s.workers[i] == Sending {
        SendsNeverBlock(mode, fs, s, i);
      }
      var a := match s.workers[i] case Running => Compute(i) case Sending => Send(i) case _ => Exit(i);
      assert Enabled(mode, fs, s, a);
    } else if s.caller.Starting? {
      var a := if s.caller.next == |fs| then Started else if mode == Gather && !s.caller.added then Add else Go;
      assert Enabled(mode, fs, s, a);
    } else {
      assert Open(s.workers) == {};
      ChannelCount(mode, fs, s);
      assert Senders(s.workers) == Below(|fs|);
      if !s.caller.Returned? {
        var a := if s.caller == Waiting then Close else if s.channel != [] then Receive else Empty;
        assert Enabled(mode, fs, s, a);
      }
    }
  }

  lemma {:induction false} WorkLeftAtStart(n: nat)
    ensures WorkLeft(seq(n, _ => Idle)) == 4 * n
  {
    if n > 0 {
      WorkLeftAtStart(n - 1);
      assert seq(n, _ => Idle)[1..] == seq(n - 1, _ => Idle);
    }
  }

  /** However the goroutines are scheduled, a run takes at most so many steps. */
  lemma {:induction false} RunsAreShort(mode: Mode, fs: seq<Option<Error>>, acts: seq<Action>, states: seq<State>, k: nat)
    requires Run(mode, fs, acts, states) && k <= |acts|
    ensures k + StepsLeft(fs, states[k]) <= 7 * |fs| + 4 && k <= 7 * |fs| + 4
  {
    RunInv(mode, fs, acts, states, k);
    ChannelCount(mode, fs, states[k]);
    if k == 0 {
      WorkLeftAtStart(|fs|);
    } else {
      RunsAreShort(mode, fs, acts, states, k - 1);
      RunInv(mode, fs, acts, states, k - 1);
      assert Steps(mode, fs, states[k - 1], acts[k - 1], states[k]);
      StepsDecrease(mode, fs, states[k - 1], acts[k - 1]);
    }
  }

  // ---------------------------------------------------------------- what is returned

  lemma AllReceived(fs: seq<Option<Error>>, channel: seq<nat>, got: seq<nat>, senders: set<nat>)
    requires SentOnce(channel, got, senders) && senders <= Below(|fs|) && |got| >= |fs|
    ensures channel == [] && multiset(got) == multiset(Below(|fs|))
  {
    assert |multiset(channel) + multiset(got)| == |channel| + |got|;
    SubsetCount(senders, Below(|fs|));
  }

  /** UntilErrorConcurrent() returns nil exactly when every function does, and otherwise the error of one of them. */
  lemma UntilErrorResult(fs: seq<Option<Error>>, s: State)
    requires Inv(Until, fs, s) && s.caller.Returned?
    ensures s.caller.result.None? <==> forall i | 0 <= i < |fs| :: fs[i].None?
    ensures s.caller.result.Some? ==> s.caller.result in fs
  {
    if s.caller.result.None? {
      AllReceived(fs, s.channel, s.got, Senders(s.workers));
      forall i | 0 <= i < |fs| ensures fs[i].None? {
        assert i in multiset(Below(|fs|));
        assert i in s.got;
      }
    }
  }

  function UpTo(n: nat): seq<nat> {
    if n == 0 then [] else UpTo(n - 1) + [n - 1]
  }

  lemma {:induction false} UpToIsBelow(n: nat)
    ensures multiset(UpTo(n)) == multiset(Below(n))
  {
    if n > 0 {
      UpToIsBelow(n - 1);
      OneMore(Below(n - 1), n - 1);
    }
  }

  lemma CollectedMore(fs: seq<Option<Error>>, got: seq<nat>, i: nat)
    ensures Collected(fs, got + [i]) == Collected(fs, got) + (if i < |fs| && fs[i].Some? then [fs[i].value] else [])
  {
    assert (got + [i])[..|got|] == got;
  }

  lemma {:induction false} CollectedAppend(fs: seq<Option<Error>>, a: seq<nat>, b: seq<nat>)
    ensures Collected(fs, a + b) == Collected(fs, a) + Collected(fs, b)
    decreases |b|
  {
    if b == [] {
      assert a + b == a;
    } else {
      var front, last := b[..|b| - 1], b[|b| - 1];
      CollectedAppend(fs, a, front);
      CollectedMore(fs, a + front, last);
      assert a + b == a + front + [last];
    }
  }

  function Without(s: seq<nat>, j: nat): seq<nat>
    requires j < |s|
  {
    s[..j] + s[j + 1..]
  }

  lemma WithoutOne(s: seq<nat>, j: nat)
    requires j < |s|
    ensures multiset(Without(s, j)) == multiset(s) - multiset{s[j]}
  {
    assert s == s[..j] + [s[j]] + s[j + 1..];
  }

  /** Of two lists with the same elements, the first one without its head and the second without the same element. */
  lemma PermutedRest(a: seq<nat>, b: seq<nat>) returns (j: nat)
    requires multiset(a) == multiset(b) && a != []
    ensures j < |b| && b[j] == a[0] && multiset(Without(a, 0)) == multiset(Without(b, j))
  {
    assert a[0] in multiset(b);
    j :| j < |b| && b[j] == a[0];
    WithoutOne(a, 0);
    WithoutOne(b, j);
  }

  lemma CollectedAt(fs: seq<Option<Error>>, s: seq<nat>, j: nat)
    requires j < |s|
    ensures multiset(Collected(fs, s)) == multiset(Collected(fs, Without(s, j))) + multiset(Collected(fs, [s[j]]))
  {
    var l, r := s[..j], s[j + 1..];
    assert s == l + [s[j]] + r;
    CollectedAppend(fs, l + [s[j]], r);
    CollectedAppend(fs, l, [s[j]]);
    CollectedAppend(fs, l, r);
  }

  /** In whatever order they are received, the same errors are collected. */
  lemma {:induction false} CollectedPermuted(fs: seq<Option<Error>>, a: seq<nat>, b: seq<nat>)
    requires multiset(a) == multiset(b)
    ensures multiset(Collected(fs, a)) == multiset(Collected(fs, b))
    decreases |a|
  {
    if a == [] {
      assert |multiset(b)| == |b|;
    } else {
      var j := PermutedRest(a, b);
      CollectedPermuted(fs, Without(a, 0), Without(b, j));
      CollectedAt(fs, a, 0);
      CollectedAt(fs, b, j);
    }
  }

  lemma {:induction false} CollectedInOrder(fs: seq<Option<Error>>, n: nat)
    requires n <= |fs|
    ensures Collected(fs, UpTo(n)) == Present(fs[..n])
  {
    if n > 0 {
      CollectedInOrder(fs, n - 1);
      CollectedMore(fs, UpTo(n - 1), n - 1);
      PresentMore(fs[..n - 1], fs[n - 1]);
      assert fs[..n] == fs[..n - 1] + [fs[n - 1]];
    }
  }

  /**
   AggregateConcurrent() has closed the channel only after the last send, received everything, and collected exactly
   the errors that the functions returned, each as often as it was returned; nil exactly when there are none.
   */
  lemma AggregateResult(fs: seq<Option<Error>>, s: State)
    requires Inv(Gather, fs, s) && s.caller.Returned?
    ensures s.caller.result == Summary(Collected(fs, s.got))
    ensures multiset(Collected(fs, s.got)) == multiset(Present(fs))
    ensures forall i: nat | i < |fs| :: s.workers[i] == Ended
  {
    forall i: nat | i < |fs| ensures s.workers[i] == Ended {
      assert i !in Open(s.workers);
    }
    assert Senders(s.workers) == Below(|fs|);
    assert multiset(s.channel) == multiset{};
    UpToIsBelow(|fs|);
    CollectedPermuted(fs, s.got, UpTo(|fs|));
    CollectedInOrder(fs, |fs|);
    assert fs[..|fs|] == fs;
  }

  lemma {:induction false} PresentOfAll(errs: seq<Error>)
    ensures Present(AllPresent(errs)) == errs
  {
    if errs != [] {
      PresentOfAll(errs[1..]);
      assert AllPresent(errs)[1..] == AllPresent(errs[1..]);
    }
  }

  lemma SummaryIsNilIff(errs: seq<Error>)
    requires forall i | 0 <= i < |errs| :: Filled(errs[i])
    ensures Summary(errs).None? <==> errs == []
  {
    if |errs| > 1 {
      PresentOfAll(errs);
      FilledLeaves(errs);
    }
  }

  /** What AggregateConcurrent() returns matches what any of the returned errors matches. */
  lemma SummaryMatches(errs: seq<Error>, target: int)
    requires Summary(errs).Some?
    ensures Matches(Summary(errs).value, target) <==> AnyMatches(errs, target) || (|errs| > 1 && target == 0)
  {
    PresentOfAll(errs);
    if |errs| > 1 {
      MadeKeepsMeaning(AllPresent(errs), 0, target);
    } else {
      assert AnyMatches(errs, target) <==> Matches(errs[0], target);
    }
  }
}
