/**
 The status line of the CLI (pkg/internal/cli/status.go): the one controller that starts and stops the spinner.
 */
module Status {

  /** What a status asks of the spinner and prints, in order. */
  datatype Event =
    | Suffix(text: string) | StartSpinner | StopSpinner | Rewind
    | Announced(status: string)
    | Finished(status: string, success: bool)

  /** `status` is empty when no phase is open. */
  datatype Line = Line(status: string, log: seq<Event>)

  datatype Command = Begin(status: string) | End(success: bool)

  // ---------------------------------------------------------------- the calls

  function Ended(l: Line, spinner: bool, success: bool): Line {
    if l.status == "" then l
    else Line("", l.log + (if spinner then [StopSpinner, Rewind] else []) + [Finished(l.status, success)])
  }

  function Begun(l: Line, spinner: bool, status: string): Line {
    Line(status, Ended(l, spinner, true).log
                 + if spinner then [Suffix(" " + status + " "), StartSpinner] else [Announced(status)])
  }

  function Do(l: Line, spinner: bool, c: Command): Line {
    match c
    case Begin(status) => Begun(l, spinner, status)
    case End(success) => Ended(l, spinner, success)
  }

  /** The line after these calls. */
  function After(cs: seq<Command>, spinner: bool): Line {
    if cs == [] then Line("", []) else Do(After(cs[..|cs| - 1], spinner), spinner, cs[|cs| - 1])
  }

  class StatusLine {
    var status: string
    const spinner: bool    // whether the logger writes to a spinner
    ghost var log: seq<Event>

    constructor (spinner: bool)
      ensures this.spinner == spinner && Value() == After([], spinner)
    {
      this.status, this.spinner, this.log := "", spinner, [];
    }

    ghost function Value(): Line
      reads this
    {
      Line(status, log)
    }

    method Start(status: string)
      modifies this
      ensures Value() == Do(old(Value()), spinner, Begin(status))
    {
      Finish(true);
      this.status := status;
      if spinner {
        log := log + [Suffix(" " + status + " ")];
        log := log + [StartSpinner];
      } else {
        log := log + [Announced(status)];
      }
    }

    /** End(). */
    method Finish(success: bool)
      modifies this
      ensures Value() == Do(old(Value()), spinner, End(success))
    {
      if status == "" {
        return;
      }
      if spinner {
        log := log + [StopSpinner];
        log := log + [Rewind];
      }
      log := log + [Finished(status, success)];
      status := "";
    }
  }

  // ---------------------------------------------------------------- the spinner turns while a phase is open

  /** Whether the last that was asked of the spinner is to start. */
  function Turning(log: seq<Event>): bool {
    log != [] && match log[|log| - 1]
                 case StartSpinner => true
                 case StopSpinner => false
                 case _ => Turning(log[..|log| - 1])
  }

  lemma TurningMore(log: seq<Event>, e: Event)
    ensures Turning(log + [e]) == match e case StartSpinner => true case StopSpinner => false case _ => Turning(log)
  {
    assert (log + [e])[..|log|] == log;
  }

  lemma TurningAfter(l: Line, c: Command)
    ensures var m := Do(l, true, c);
            Turning(m.log) <==> match c case Begin(_) => true case End(_) => Turning(l.log) && l.status == ""
  {
    var stopped := l.log + [StopSpinner];
    TurningMore(l.log, StopSpinner);
    TurningMore(stopped, Rewind);
    var ended := stopped + [Rewind];
    assert forall success :: l.log + [StopSpinner, Rewind] + [Finished(l.status, success)] == ended + [Finished(l.status, success)];
    forall success {
      TurningMore(ended, Finished(l.status, success));
    }
    if c.Begin? {
      var before := Ended(l, true, true).log;
      var suffixed := before + [Suffix(" " + c.status + " ")];
      TurningMore(suffixed, StartSpinner);
      assert before + [Suffix(" " + c.status + " "), StartSpinner] == suffixed + [StartSpinner];
    }
  }

  /** Before the run and after each of its calls, the spinner has been asked to turn just when a phase is open. */
  ghost predicate InStep(cs: seq<Command>) {
    && (cs != [] ==> InStep(cs[..|cs| - 1]))
    && var l := After(cs, true); Turning(l.log) <==> l.status != ""
  }

  /**
   The spinner turns just while a phase is open, exactly if no phase has an empty text: such a phase starts the
   spinner, and End() takes it for none and does not stop it.
   */
  lemma {:induction false} InStepIff(cs: seq<Command>)
    ensures InStep(cs) <==> Begin("") !in cs
    decreases |cs|
  {
    if cs != [] {
      var front, last := cs[..|cs| - 1], cs[|cs| - 1];
      InStepIff(front);
      TurningAfter(After(front, true), last);
      assert cs == front + [last];
    }
  }

  // ---------------------------------------------------------------- every phase ends in one line

  /** The texts of the phases that were begun. */
  function Phases(cs: seq<Command>): seq<string> {
    if cs == [] then []
    else
      var last := cs[|cs| - 1];
      Phases(cs[..|cs| - 1]) + if last.Begin? && last.status != "" then [last.status] else []
  }

  /** The texts of the lines that say how a phase ended. */
  function Lines(log: seq<Event>): seq<string> {
    if log == [] then []
    else
      var last := log[|log| - 1];
      Lines(log[..|log| - 1]) + if last.Finished? then [last.status] else []
  }

  lemma {:induction false} LinesAppend(a: seq<Event>, b: seq<Event>)
    ensures Lines(a + b) == Lines(a) + Lines(b)
    decreases |b|
  {
    if b == [] {
      assert a + b == a;
    } else {
      LinesAppend(a, b[..|b| - 1]);
      assert (a + b)[..|a + b| - 1] == a + b[..|b| - 1];
    }
  }

  lemma LinesAfterEnd(l: Line, spinner: bool, success: bool)
    ensures Lines(Ended(l, spinner, success).log) == Lines(l.log) + if l.status == "" then [] else [l.status]
  {
    if l.status != "" {
      var stop: seq<Event> := if spinner then [StopSpinner, Rewind] else [];
      var line := [Finished(l.status, success)];
      LinesAppend(l.log + stop, line);
      LinesAppend(l.log, stop);
      assert [StopSpinner, Rewind][..1] == [StopSpinner] && [StopSpinner][..0] == [] && line[..0] == [];
    }
  }

  /** Every phase ends in exactly one line, in the order they were begun; only the open one has none yet. */
  lemma {:induction false} EveryPhaseEndsOnce(cs: seq<Command>, spinner: bool)
    ensures var l := After(cs, spinner); Lines(l.log) + (if l.status == "" then [] else [l.status]) == Phases(cs)
    decreases |cs|
  {
    if cs != [] {
      var front, last := cs[..|cs| - 1], cs[|cs| - 1];
      EveryPhaseEndsOnce(front, spinner);
      var l := After(front, spinner);
      match last
      case End(success) => LinesAfterEnd(l, spinner, success);
      case Begin(status) => LinesAfterBegin(l, spinner, status);
    }
  }

  lemma LinesAfterBegin(l: Line, spinner: bool, status: string)
    ensures Lines(Begun(l, spinner, status).log) == Lines(l.log) + if l.status == "" then [] else [l.status]
  {
    LinesAfterEnd(l, spinner, true);
    var more := if spinner then [Suffix(" " + status + " "), StartSpinner] else [Announced(status)];
    LinesAppend(Ended(l, spinner, true).log, more);
    NoLines(more);
  }

  lemma {:induction false} NoLines(log: seq<Event>)
    requires forall i | 0 <= i < |log| :: !log[i].Finished?
    ensures Lines(log) == []
  {
    if log != [] {
      NoLines(log[..|log| - 1]);
    }
  }
}
