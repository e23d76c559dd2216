/**
 Aggregated errors (pkg/errors/aggregate_forked.go, aggregate.go): trees of errors that print, match and are taken
 apart as the list of their leaves.
 */
module ErrorAggregate {
  import opened Options
  import Text

  /**
   A plain error with the targets that errors.Is() finds in it, an error with a cause, and an aggregate.  A wrapping
   error may put a message before that of its cause; it is a target itself, named by `id`.
   */
  datatype Error =
    | Plain(message: string, targets: set<int>)
    | Wrapped(id: int, prefix: Option<string>, cause: Error)
    | Aggregate(errs: seq<Error>)

  // ---------------------------------------------------------------- leaves

  /** The errors of an aggregate and of the aggregates in it, in order.  A wrapped aggregate is a leaf. */
  function Leaves(errs: seq<Error>): (r: seq<Error>)
    ensures forall l | l in r :: !l.Aggregate?
    decreases errs
  {
    if errs == [] then [] else LeavesOf(errs[0]) + Leaves(errs[1..])
  }

  function LeavesOf(e: Error): (r: seq<Error>)
    ensures forall l | l in r :: !l.Aggregate?
    decreases e
  {
    if e.Aggregate? then Leaves(e.errs) else [e]
  }

  lemma {:induction false} LeavesAppend(xs: seq<Error>, ys: seq<Error>)
    ensures Leaves(xs + ys) == Leaves(xs) + Leaves(ys)
    decreases |xs|
  {
    if xs == [] {
      assert xs + ys == ys;
    } else {
      LeavesAppend(xs[1..], ys);
      assert (xs + ys)[1..] == xs[1..] + ys;
    }
  }

  lemma LeavesMore(errs: seq<Error>, i: nat)
    requires i < |errs|
    ensures Leaves(errs[..i + 1]) == Leaves(errs[..i]) + LeavesOf(errs[i])
  {
    assert errs[..i + 1] == errs[..i] + [errs[i]];
    LeavesAppend(errs[..i], [errs[i]]);
    assert Leaves([errs[i]]) == LeavesOf(errs[i]) + Leaves([]);
  }

  /** A list without aggregates is its own list of leaves. */
  lemma {:induction false} LeavesOfLeaves(errs: seq<Error>)
    requires forall e | e in errs :: !e.Aggregate?
    ensures Leaves(errs) == errs
    decreases |errs|
  {
    if errs != [] {
      LeavesOfLeaves(errs[1..]);
      assert errs == [errs[0]] + errs[1..];
    }
  }

  // ---------------------------------------------------------------- building and flattening

  function Present(errlist: seq<Option<Error>>): seq<Error>
    decreases |errlist|
  {
    if errlist == [] then []
    else (if errlist[0].Some? then [errlist[0].value] else []) + Present(errlist[1..])
  }

  lemma {:induction false} PresentMore(errlist: seq<Option<Error>>, last: Option<Error>)
    ensures Present(errlist + [last]) == Present(errlist) + (if last.Some? then [last.value] else [])
    decreases |errlist|
  {
    if errlist != [] {
      PresentMore(errlist[1..], last);
      assert (errlist + [last])[1..] == errlist[1..] + [last];
    }
  }

  function AggregateOf(errs: seq<Error>): Option<Error> {
    if errs == [] then None else Some(Aggregate(errs))
  }

  /** newAggregate(). */
  method NewAggregateOf(errlist: seq<Option<Error>>) returns (r: Option<Error>)
    ensures r == AggregateOf(Present(errlist))
  {
    if |errlist| == 0 {
      return None;
    }
    var errs := [];
    for i := 0 to |errlist|
      invariant errs == Present(errlist[..i])
    {
      PresentMore(errlist[..i], errlist[i]);
      assert errlist[..i + 1] == errlist[..i] + [errlist[i]];
      if errlist[i].Some? {
        errs := errs + [errlist[i].value];
      }
    }
    assert errlist[..|errlist|] == errlist;
    if |errs| == 0 {
      return None;
    }
    return Some(Aggregate(errs));
  }

  /** flatten() of the errors of an aggregate. */
  method Flatten(errs: seq<Error>) returns (r: Option<Error>)
    ensures r == AggregateOf(Leaves(errs))
    decreases errs
  {
    var result: seq<Error> := [];
    for i := 0 to |errs|
      invariant result == Leaves(errs[..i])
    {
      LeavesMore(errs, i);
      if errs[i].Aggregate? {
        var flat := Flatten(errs[i].errs);
        if flat.Some? {
          result := result + flat.value.errs;
        }
      } else {
        result := result + [errs[i]];
      }
    }
    assert errs[..|errs|] == errs;
    r := AggregateOf(result);
  }

  /** flatten() twice is flatten() once, and its result has no aggregate in it. */
  lemma FlattenIsIdempotent(errs: seq<Error>)
    ensures AggregateOf(Leaves(Leaves(errs))) == AggregateOf(Leaves(errs))
  {
    LeavesOfLeaves(Leaves(errs));
  }

  /** reduce(). */
  function Reduce(e: Option<Error>): Option<Error> {
    if e.Some? && e.value.Aggregate? && |e.value.errs| == 1 then Some(e.value.errs[0])
    else if e.Some? && e.value.Aggregate? && |e.value.errs| == 0 then None
    else e
  }

  /** What NewAggregate() makes of a list of errors. */
  function Made(errlist: seq<Option<Error>>, id: int): Option<Error> {
    var leaves := Leaves(Present(errlist));
    if leaves == [] then None else Some(Wrapped(id, None, if |leaves| == 1 then leaves[0] else Aggregate(leaves)))
  }

  /** NewAggregate(); `id` names the error that WithStack() makes. */
  method NewAggregate(errlist: seq<Option<Error>>, id: int) returns (r: Option<Error>)
    ensures r == Made(errlist, id)
  {
    var e := NewAggregateOf(errlist);
    if e.Some? {
      e := Flatten(e.value.errs);
    }
    e := Reduce(e);
    r := if e.None? then None else Some(Wrapped(id, None, e.value));
  }

  /** The end of a chain of causes. */
  function Innermost(e: Error): (r: Error)
    ensures !r.Wrapped?
  {
    if e.Wrapped? then Innermost(e.cause) else e
  }

  /** Errors(): the errors of the innermost aggregate; an aggregate has no cause, so it can only be the last. */
  method Errors(e: Error) returns (r: seq<Error>)
    ensures r == if Innermost(e).Aggregate? then Innermost(e).errs else []
  {
    var err := e;
    r := [];
    while true
      invariant Innermost(err) == Innermost(e) && r == []
      decreases err
    {
      if err.Aggregate? {
        r := err.errs;
      }
      if err.Wrapped? {
        err := err.cause;
      } else {
        break;
      }
    }
  }

  // ---------------------------------------------------------------- messages

  /** Every message once, where it comes first. */
  function Firsts(ms: seq<string>): seq<string> {
    if ms == [] then []
    else
      var n := |ms| - 1;
      if ms[n] in ms[..n] then Firsts(ms[..n]) else Firsts(ms[..n]) + [ms[n]]
  }

  function Listed(ms: seq<string>): string {
    if |ms| == 0 then "" else if |ms| == 1 then ms[0] else Listed(ms[..|ms| - 1]) + ", " + ms[|ms| - 1]
  }

  function Rendered(ms: seq<string>): string {
    if |Firsts(ms)| == 1 then Listed(Firsts(ms)) else "[" + Listed(Firsts(ms)) + "]"
  }

  /** What Error() returns. */
  function ErrorText(e: Error): string
    decreases e, 0
  {
    match e
    case Plain(message, _) => message
    case Wrapped(_, prefix, cause) => if prefix.Some? then prefix.value + ": " + ErrorText(cause) else ErrorText(cause)
    case Aggregate(errs) =>
      if |errs| == 0 then "" else if |errs| == 1 then ErrorText(errs[0]) else Rendered(Messages(errs))
  }

  /** The messages of the leaves. */
  function Messages(errs: seq<Error>): seq<string>
    decreases errs
  {
    if errs == [] then [] else MessagesOf(errs[0]) + Messages(errs[1..])
  }

  function MessagesOf(e: Error): seq<string>
    decreases e, 1
  {
    if e.Aggregate? then Messages(e.errs) else [ErrorText(e)]
  }

  lemma {:induction false} MessagesAppend(xs: seq<Error>, ys: seq<Error>)
    ensures Messages(xs + ys) == Messages(xs) + Messages(ys)
    decreases |xs|
  {
    if xs == [] {
      assert xs + ys == ys;
    } else {
      MessagesAppend(xs[1..], ys);
      assert (xs + ys)[1..] == xs[1..] + ys;
    }
  }

  /** The messages of a tree are those of its leaves. */
  lemma {:induction false} MessagesOfLeaves(errs: seq<Error>)
    ensures Messages(Leaves(errs)) == Messages(errs)
    decreases errs
  {
    if errs != [] {
      var e := errs[0];
      MessagesOfLeaves(errs[1..]);
      MessagesAppend(LeavesOf(e), Leaves(errs[1..]));
      if e.Aggregate? {
        MessagesOfLeaves(e.errs);
      } else {
        assert Messages([e]) == MessagesOf(e) + Messages([]);
      }
    }
  }

  /** The shortcut for a single error, be it an aggregate itself, prints what the general case would. */
  lemma {:induction false} ShortcutAgrees(errs: seq<Error>)
    requires Messages(errs) != []
    ensures ErrorText(Aggregate(errs)) == Rendered(Messages(errs))
    decreases errs
  {
    if |errs| == 1 {
      var e := errs[0];
      assert Messages(errs) == MessagesOf(e) + Messages([]) == MessagesOf(e);
      if e.Aggregate? {
        ShortcutAgrees(e.errs);
      } else {
        var m := ErrorText(e);
        assert [m][..0] == [];
        assert Firsts([m]) == [m];
      }
    }
  }

  /** An empty aggregate, or one around which every aggregate holds nothing else. */
  predicate HoldsNothing(errs: seq<Error>)
    decreases errs
  {
    |errs| == 0 || (|errs| == 1 && errs[0].Aggregate? && HoldsNothing(errs[0].errs))
  }

  /** Without any leaf there is nothing to print, and a pair of brackets around it if there are several empty aggregates. */
  lemma {:induction false} NothingToPrint(errs: seq<Error>)
    requires Messages(errs) == []
    ensures ErrorText(Aggregate(errs)) == if HoldsNothing(errs) then "" else "[]"
    decreases errs
  {
    if |errs| == 1 {
      assert Messages(errs) == MessagesOf(errs[0]) + Messages([]);
      NothingToPrint(errs[0].errs);
    }
  }

  lemma {:induction false} LeavesHaveMessages(errs: seq<Error>)
    requires forall e | e in errs :: !e.Aggregate?
    ensures |Messages(errs)| == |errs|
    decreases |errs|
  {
    if errs != [] {
      LeavesHaveMessages(errs[1..]);
    }
  }

  /** flatten() does not change what is printed. */
  lemma FlattenKeepsText(errs: seq<Error>)
    requires Leaves(errs) != []
    ensures ErrorText(Aggregate(Leaves(errs))) == ErrorText(Aggregate(errs))
  {
    MessagesOfLeaves(errs);
    LeavesHaveMessages(Leaves(errs));
    ShortcutAgrees(errs);
    ShortcutAgrees(Leaves(errs));
  }

  /** Firsts() keeps every message, once, in the order of their first occurrences. */
  lemma {:induction false} FirstsSpec(ms: seq<string>)
    ensures Text.Distinct(Firsts(ms)) && (forall m :: m in Firsts(ms) <==> m in ms)
    ensures forall i, j | 0 <= i < j < |Firsts(ms)| :: ComesBefore(ms, Firsts(ms)[i], Firsts(ms)[j])
  {
    if ms != [] {
      var n := |ms| - 1;
      var front, last := ms[..n], ms[n];
      FirstsSpec(front);
      assert ms == front + [last];
      var fs := Firsts(front);
      forall i, j | 0 <= i < j < |Firsts(ms)| ensures ComesBefore(ms, Firsts(ms)[i], Firsts(ms)[j]) {
        if j < |fs| {
          ComesBeforeInLonger(front, last, fs[i], fs[j]);
        } else {
          assert fs[i] in front && last !in front;
          var k :| 0 <= k < n && front[k] == fs[i];
          assert ms[k] == fs[i] && last !in ms[..k + 1] by {
            assert ms[..k + 1] == front[..k + 1];
          }
        }
      }
    }
  }

  /** Some occurrence of `a` comes before all of `b`. */
  ghost predicate ComesBefore(ms: seq<string>, a: string, b: string) {
    exists k | 0 <= k < |ms| :: ms[k] == a && b !in ms[..k + 1]
  }

  lemma ComesBeforeInLonger(front: seq<string>, last: string, a: string, b: string)
    requires ComesBefore(front, a, b)
    ensures ComesBefore(front + [last], a, b)
  {
    var k :| 0 <= k < |front| && front[k] == a && b !in front[..k + 1];
    assert (front + [last])[k] == a && (front + [last])[..k + 1] == front[..k + 1];
  }

  function Elements(ms: seq<string>): set<string> {
    set m | m in ms
  }

  /** The state of the closure of Error() after the messages `ms`. */
  ghost predicate Collected(ms: seq<string>, seen: set<string>, result: string) {
    seen == Elements(ms) && |seen| == |Firsts(ms)| && result == Listed(Firsts(ms))
  }

  lemma FirstsMore(ms: seq<string>, msg: string)
    ensures Firsts(ms + [msg]) == if msg in ms then Firsts(ms) else Firsts(ms) + [msg]
    ensures Elements(ms + [msg]) == if msg in ms then Elements(ms) else Elements(ms) + {msg}
  {
    assert (ms + [msg])[..|ms|] == ms;
  }

  lemma ListedMore(ms: seq<string>, msg: string)
    ensures Listed(ms + [msg]) == if ms == [] then msg else Listed(ms) + ", " + msg
  {
    assert (ms + [msg])[..|ms|] == ms;
  }

  lemma CollectedMore(ms: seq<string>, seen: set<string>, result: string, msg: string)
    requires Collected(ms, seen, result)
    ensures msg in seen ==> Collected(ms + [msg], seen, result)
    ensures msg !in seen ==> Collected(ms + [msg], seen + {msg}, if seen == {} then msg else result + ", " + msg)
    ensures seen == {} ==> result == ""
  {
    FirstsMore(ms, msg);
    ListedMore(Firsts(ms), msg);
    assert |seen| == 0 <==> Firsts(ms) == [];
  }

  /** The closure of Error(). */
  method Collect(msg: string, seen: set<string>, result: string, ghost ms: seq<string>)
    returns (seen': set<string>, result': string)
    requires Collected(ms, seen, result)
    ensures Collected(ms + [msg], seen', result')
  {
    CollectedMore(ms, seen, result, msg);
    if msg in seen {
      return seen, result;
    }
    seen', result' := seen + {msg}, result;
    if |seen'| > 1 {
      result' := result' + ", ";
    }
    result' := result' + msg;
  }

  /** visit() with the closure of Error(). */
  method Visit(errs: seq<Error>, seen: set<string>, result: string, ghost ms: seq<string>)
    returns (seen': set<string>, result': string)
    requires Collected(ms, seen, result)
    ensures Collected(ms + Messages(errs), seen', result')
    decreases errs
  {
    seen', result' := seen, result;
    assert ms + [] == ms;
    for i := 0 to |errs|
      invariant Collected(ms + Messages(errs[..i]), seen', result')
    {
      MessagesNext(errs, i);
      ghost var before := ms + Messages(errs[..i]);
      assert before + MessagesOf(errs[i]) == ms + Messages(errs[..i + 1]);
      if errs[i].Aggregate? {
        seen', result' := Visit(errs[i].errs, seen', result', before);
      } else {
        var msg := ErrorMessage(errs[i]);
        seen', result' := Collect(msg, seen', result', before);
      }
    }
    assert errs[..|errs|] == errs;
  }

  lemma MessagesNext(errs: seq<Error>, i: nat)
    requires i < |errs|
    ensures Messages(errs[..i + 1]) == Messages(errs[..i]) + MessagesOf(errs[i])
  {
    assert errs[..i + 1] == errs[..i] + [errs[i]];
    MessagesAppend(errs[..i], [errs[i]]);
    assert Messages([errs[i]]) == MessagesOf(errs[i]) + Messages([]);
  }

  /** Error(): the first occurrences of the messages of the leaves, in brackets if they are several. */
  method ErrorMessage(e: Error) returns (s: string)
    ensures s == ErrorText(e)
    decreases e
  {
    match e
    case Plain(message, _) =>
      s := message;
    case Wrapped(_, prefix, cause) =>
      s := ErrorMessage(cause);
      if prefix.Some? {
        s := prefix.value + ": " + s;
      }
    case Aggregate(errs) =>
      if |errs| == 0 {
        return "";
      }
      if |errs| == 1 {
        s := ErrorMessage(errs[0]);
        return;
      }
      assert Elements([]) == {};
      var seen, result := Visit(errs, {}, "", []);
      assert [] + Messages(errs) == Messages(errs);
      s := if |seen| == 1 then result else "[" + result + "]";
  }

  // ---------------------------------------------------------------- matching

  /** errors.Is(e, target): in a leaf, in a wrapping error or its cause, or in any error of an aggregate. */
  ghost predicate Matches(e: Error, target: int)
    decreases e
  {
    match e
    case Plain(_, targets) => target in targets
    case Wrapped(id, _, cause) => target == id || Matches(cause, target)
    case Aggregate(errs) => exists i | 0 <= i < |errs| :: Matches(errs[i], target)
  }

  /** Some error of the list matches. */
  ghost predicate AnyMatches(errs: seq<Error>, target: int) {
    exists i | 0 <= i < |errs| :: Matches(errs[i], target)
  }

  lemma AnyInParts(xs: seq<Error>, ys: seq<Error>, target: int)
    ensures AnyMatches(xs + ys, target) <==> AnyMatches(xs, target) || AnyMatches(ys, target)
  {
    var zs := xs + ys;
    if AnyMatches(zs, target) {
      var i :| 0 <= i < |zs| && Matches(zs[i], target);
      assert if i < |xs| then Matches(xs[i], target) else Matches(ys[i - |xs|], target);
    }
    if AnyMatches(xs, target) {
      var i :| 0 <= i < |xs| && Matches(xs[i], target);
      assert Matches(zs[i], target);
    }
    if AnyMatches(ys, target) {
      var i :| 0 <= i < |ys| && Matches(ys[i], target);
      assert Matches(zs[|xs| + i], target);
    }
  }

  /** What a tree matches, its leaves match: flatten() does not change Is(). */
  lemma {:induction false} FlattenKeepsMatches(errs: seq<Error>, target: int)
    ensures AnyMatches(Leaves(errs), target) <==> AnyMatches(errs, target)
    decreases errs
  {
    if errs != [] {
      var e := errs[0];
      FlattenKeepsMatches(errs[1..], target);
      if e.Aggregate? {
        FlattenKeepsMatches(e.errs, target);
      }
      AnyInParts(LeavesOf(e), Leaves(errs[1..]), target);
      AnyInParts([e], errs[1..], target);
      assert errs == [e] + errs[1..];
      assert AnyMatches([e], target) <==> Matches([e][0], target);
      assert e.Aggregate? ==> (Matches(e, target) <==> AnyMatches(e.errs, target));
    }
  }

  /** Is() of an aggregate, by visit(); for every other error what errors.Is() does without it. */
  method Is(e: Error, target: int) returns (found: bool)
    ensures found <==> Matches(e, target)
    decreases e
  {
    match e
    case Plain(_, targets) =>
      found := target in targets;
    case Wrapped(id, _, cause) =>
      if target == id {
        return true;
      }
      found := Is(cause, target);
    case Aggregate(errs) =>
      for i := 0 to |errs|
        invariant forall j | 0 <= j < i :: !Matches(errs[j], target)
      {
        found := Is(errs[i], target);
        if found {
          return true;
        }
      }
      return false;
  }

  /** It prints as the errors that were given would together, and matches what any of them matches. */
  lemma MadeKeepsMeaning(errlist: seq<Option<Error>>, id: int, target: int)
    requires Made(errlist, id).Some?
    ensures ErrorText(Made(errlist, id).value) == ErrorText(Aggregate(Present(errlist)))
    ensures Matches(Made(errlist, id).value, target) <==> target == id || AnyMatches(Present(errlist), target)
  {
    var errs := Present(errlist);
    var leaves := Leaves(errs);
    FlattenKeepsText(errs);
    FlattenKeepsMatches(errs, target);
    if |leaves| == 1 {
      assert leaves == [leaves[0]];
      assert AnyMatches(leaves, target) <==> Matches(leaves[0], target);
    } else {
      assert Matches(Aggregate(leaves), target) <==> AnyMatches(leaves, target);
    }
  }

  /** Every aggregate in the error has errors, as newAggregate() makes them. */
  predicate Filled(e: Error) {
    match e
    case Plain(_, _) => true
    case Wrapped(_, _, cause) => Filled(cause)
    case Aggregate(errs) => errs != [] && forall i | 0 <= i < |errs| :: Filled(errs[i])
  }

  lemma {:induction false} FilledLeaves(errs: seq<Error>)
    requires forall i | 0 <= i < |errs| :: Filled(errs[i])
    ensures (errs != [] ==> Leaves(errs) != []) && forall l | l in Leaves(errs) :: Filled(l)
    decreases errs
  {
    if errs != [] {
      FilledLeaves(errs[1..]);
      if errs[0].Aggregate? {
        FilledLeaves(errs[0].errs);
      }
    }
  }

  lemma {:induction false} PresentIsFilled(errlist: seq<Option<Error>>)
    requires forall i | 0 <= i < |errlist| && errlist[i].Some? :: Filled(errlist[i].value)
    ensures forall i | 0 <= i < |Present(errlist)| :: Filled(Present(errlist)[i])
    ensures Present(errlist) == [] <==> forall i | 0 <= i < |errlist| :: errlist[i].None?
    decreases |errlist|
  {
    if errlist != [] {
      PresentIsFilled(errlist[1..]);
      assert forall i | 1 <= i < |errlist| :: errlist[i] == errlist[1..][i - 1];
      if errlist[0].None? {
        assert forall i | 0 <= i < |errlist[1..]| :: errlist[1..][i] == errlist[i + 1];
      }
    }
  }

  /** It is nil exactly when all that were given are, and never holds an empty aggregate. */
  lemma MadeIsNilIff(errlist: seq<Option<Error>>, id: int)
    requires forall i | 0 <= i < |errlist| && errlist[i].Some? :: Filled(errlist[i].value)
    ensures Made(errlist, id).None? <==> forall i | 0 <= i < |errlist| :: errlist[i].None?
    ensures Made(errlist, id).Some? ==> Filled(Made(errlist, id).value)
  {
    PresentIsFilled(errlist);
    FilledLeaves(Present(errlist));
    var leaves := Leaves(Present(errlist));
    assert forall i | 0 <= i < |leaves| :: leaves[i] in leaves;
  }

  /** Errors() takes two or more errors out of it again, without the trees they came in. */
  lemma ErrorsOfMade(errlist: seq<Option<Error>>, id: int)
    requires |Leaves(Present(errlist))| > 1
    ensures Innermost(Made(errlist, id).value) == Aggregate(Leaves(Present(errlist)))
  {
  }
}
