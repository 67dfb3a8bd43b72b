/** Whole runs of the networked chronometer: the device is polled, what the poll reports goes through
    the main loop, and other sources send commands of their own in between. */
module ChronoRuns {
  import opened CBase
  import opened TextTools
  import opened MainStatus
  import opened Canometroweb
  import opened Commands

  datatype Sys = Sys(seen: Seen, st: Status)

  datatype Input = Poll(d: Device) | Command(tokens: seq<string>)

  // What one input did: the poll's event and whether the main loop accepted it, or a foreign command.
  datatype Mark = Polled(e: Event, ok: bool) | Commanded(tokens: seq<string>)

  // One poll, through the text that is sent.
  function PollTurn(s: Sys, d: Device): (Sys, Mark) {
    var e := PollEvent(s.seen, s.st, d);
    var seen := Seen(d.tiempo, d.running);
    if e == Quiet then (Sys(seen, s.st), Polled(e, true))
    else
      TextMeans(s.st, e);
      var r := Exec(s.st, Tokens(Wire(NET_TAG, Text(e))));
      (Sys(seen, r.0), Polled(e, r.1))
  }

  ghost predicate Allowed(inputs: seq<Input>) {
    forall i :: 0 <= i < |inputs| && inputs[i].Command? ==> Deliverable(inputs[i].tokens)
  }

  function Turn(s: Sys, x: Input): (Sys, Mark)
    requires x.Command? ==> Deliverable(x.tokens)
  {
    match x
    case Poll(d) => PollTurn(s, d)
    case Command(tokens) => (Sys(s.seen, Exec(s.st, tokens).0), Commanded(tokens))
  }

  // The marks of a run.
  function Run(s: Sys, inputs: seq<Input>): (marks: seq<Mark>)
    requires Allowed(inputs)
    ensures |marks| == |inputs|
    decreases |inputs|
  {
    if inputs == [] then [] else var t := Turn(s, inputs[0]); [t.1] + Run(t.0, inputs[1..])
  }

  lemma PollTurnMeans(s: Sys, d: Device)
    ensures var e := PollEvent(s.seen, s.st, d); var a := Apply(s.st, e);
      PollTurn(s, d) == (Sys(Seen(d.tiempo, d.running), a.0), Polled(e, a.1))
  {
    hide Exec, Apply, Tokens, Wire, Text;
    var e := PollEvent(s.seen, s.st, d);
    if e == Quiet {
      QuietMeans(s.st);
    } else {
      TextMeans(s.st, e);
    }
  }

  lemma QuietMeans(st: Status)
    ensures Apply(st, Quiet) == (st, true)
  {
  }

  /** One round of the manager thread and the main loop on the objects themselves. */
  method Round(poller: Poller, data: Device) returns (buffer: string)
    modifies poller, poller.config
    ensures var t := PollTurn(old(Sys(poller.Last(), poller.config.Now())), data);
      Sys(poller.Last(), poller.config.Now()) == t.0 && buffer == Text(t.1.e)
  {
    hide Exec, Tokens, Wire, EdgeOf, Text;
    ghost var e := PollEvent(poller.Last(), poller.config.Now(), data);
    TextEmpty(e);
    buffer := poller.ModuleRead(data);
    if buffer != "" {
      TextMeans(poller.config.Now(), e);
      var res := poller.config.Handle(Tokens(Wire(NET_TAG, buffer)));
    }
  }

  lemma TextEmpty(e: Event)
    ensures Text(e) == "" <==> e == Quiet
  {
    hide Decimal;
  }

  // ---- STOP and INT only inside a race

  predicate IsStart(m: Mark) { m.Polled? && m.e == Start }

  predicate EndsRace(m: Mark) { m.Polled? && (m.e.Halted? || m.e == Cleared) }

  // The last start the poller reported has not been ended by it.
  predicate Armed(marks: seq<Mark>) {
    marks != [] && var m := marks[|marks| - 1]; IsStart(m) || (!EndsRace(m) && Armed(marks[..|marks| - 1]))
  }

  ghost predicate StartBefore(marks: seq<Mark>, i: nat)
    requires i <= |marks|
  {
    exists j :: 0 <= j < i && IsStart(marks[j]) && forall k :: j < k < i ==> !EndsRace(marks[k])
  }

  lemma {:induction false} ArmedHasStart(marks: seq<Mark>)
    requires Armed(marks)
    ensures StartBefore(marks, |marks|)
    decreases |marks|
  {
    var n := |marks| - 1;
    if IsStart(marks[n]) {
    } else {
      ArmedHasStart(marks[..n]);
      var j :| 0 <= j < n && IsStart(marks[..n][j]) && forall k :: j < k < n ==> !EndsRace(marks[..n][k]);
      assert marks[..n][j] == marks[j];
      forall k | j < k < n + 1 ensures !EndsRace(marks[k]) {
        assert k < n ==> marks[k] == marks[..n][k];
      }
    }
  }

  lemma {:induction false} StaysArmed(s: Sys, inputs: seq<Input>, past: seq<Mark>, i: nat)
    requires Allowed(inputs) && (s.seen.running != 0 ==> Armed(past)) && i < |inputs|
    requires var m := Run(s, inputs)[i]; m.Polled? && (m.e.Halted? || m.e.Split?)
    ensures Armed(past + Run(s, inputs)[..i])
    decreases |inputs|
  {
    hide Exec, Tokens, Wire, Text, Armed, PollTurn;
    var t := Turn(s, inputs[0]);
    if inputs[0].Poll? {
      PollTurnMeans(s, inputs[0].d);
    }
    if i == 0 {
      assert past + Run(s, inputs)[..0] == past;
    } else {
      OneMore(past, t.1);
      StaysArmed(t.0, inputs[1..], past + [t.1], i - 1);
      assert past + [t.1] + Run(t.0, inputs[1..])[..i - 1] == past + Run(s, inputs)[..i];
    }
  }

  lemma OneMore(past: seq<Mark>, m: Mark)
    ensures Armed(past + [m]) <==> IsStart(m) || (!EndsRace(m) && Armed(past))
  {
    assert (past + [m])[..|past|] == past;
  }

  /** In every run that begins with the clock not running, whatever other commands are sent, each STOP
      and INT the poller emits has an earlier START of its own with no STOP or RESET between. */
  lemma StopsAreStarted(s: Sys, inputs: seq<Input>, i: nat)
    requires Allowed(inputs) && s.seen.running == 0 && i < |inputs|
    requires var m := Run(s, inputs)[i]; m.Polled? && (m.e.Halted? || m.e.Split?)
    ensures StartBefore(Run(s, inputs), i)
  {
    hide Run, Armed;
    var marks := Run(s, inputs);
    StaysArmed(s, inputs, [], i);
    assert [] + marks[..i] == marks[..i];
    ArmedHasStart(marks[..i]);
    BeforeInWhole(marks, i);
  }

  lemma BeforeInWhole(marks: seq<Mark>, i: nat)
    requires i <= |marks| && StartBefore(marks[..i], i)
    ensures StartBefore(marks, i)
  {
    var j :| 0 <= j < i && IsStart(marks[..i][j]) && forall k :: j < k < i ==> !EndsRace(marks[..i][k]);
    assert IsStart(marks[j]);
    forall k | j < k < i ensures !EndsRace(marks[k]) {
      assert marks[k] == marks[..i][k];
    }
  }

  // ---- and the main loop accepts them

  // A command that leaves the main loop without a start time.
  predicate Unstarts(tokens: seq<string>) {
    |tokens| >= 2 && (tokens[1] == "reset" || (tokens[1] == "start" && |tokens| > 2 && Atoi(tokens[2]) < 0))
  }

  // A command that gives it one.
  predicate Restarts(tokens: seq<string>) {
    |tokens| >= 2 && tokens[1] == "start" && !Unstarts(tokens)
  }

  predicate Revives(m: Mark) { if m.Polled? then m.e == Start else Restarts(m.tokens) }

  predicate Kills(m: Mark) { if m.Polled? then m.e == Cleared else Unstarts(m.tokens) }

  /** Whether the main loop has a start time after these marks: the last mark that says anything about it,
      from any source, gives it one; live if none does. */
  predicate Live(marks: seq<Mark>, live: bool) {
    if marks == [] then live
    else
      var m := marks[|marks| - 1];
      Revives(m) || (!Kills(m) && Live(marks[..|marks| - 1], live))
  }

  lemma {:induction false} LiveFirst(m: Mark, rest: seq<Mark>, live: bool)
    ensures Live([m] + rest, live) <==> Live(rest, Revives(m) || (!Kills(m) && live))
    decreases |rest|
  {
    hide Revives, Kills;
    var marks := [m] + rest;
    if rest == [] {
      assert marks[..0] == [] && marks[0] == m;
    } else {
      assert marks[..|marks| - 1] == [m] + rest[..|rest| - 1];
      LiveFirst(m, rest[..|rest| - 1], live);
    }
  }

  lemma CommandLives(st: Status, tokens: seq<string>)
    requires Deliverable(tokens)
    ensures Exec(st, tokens).0.startTime >= 0 <==> Restarts(tokens) || (!Unstarts(tokens) && st.startTime >= 0)
  {
    hide Atoi, IndexOf;
  }

  // One turn: the start time, and what becomes of a poll.
  lemma TurnLives(s: Sys, x: Input)
    requires x.Command? ==> Deliverable(x.tokens)
    ensures var t := Turn(s, x);
      && (t.0.st.startTime >= 0 <==> Revives(t.1) || (!Kills(t.1) && s.st.startTime >= 0))
      && (t.1.Polled? ==> (t.1.ok <==> !(t.1.e.Halted? || t.1.e.Split?) || s.st.startTime >= 0))
  {
    hide PollTurn, Exec, Unstarts, Restarts;
    match x
    case Poll(d) => PollTurnMeans(s, d);
    case Command(tokens) => CommandLives(s.st, tokens);
  }

  /** In every run, from every state and with any commands in between, a poll is accepted iff it reports no
      STOP and no INT, or the main loop has a start time by then. */
  lemma {:induction false} AcceptedIff(s: Sys, inputs: seq<Input>, i: nat)
    requires Allowed(inputs) && i < |inputs|
    ensures var m := Run(s, inputs)[i];
      m.Polled? ==> (m.ok <==> !(m.e.Halted? || m.e.Split?) || Live(Run(s, inputs)[..i], s.st.startTime >= 0))
    decreases |inputs|
  {
    hide Turn, Revives, Kills;
    TurnLives(s, inputs[0]);
    if i > 0 {
      var t := Turn(s, inputs[0]);
      var rest := Run(t.0, inputs[1..]);
      AcceptedIff(t.0, inputs[1..], i - 1);
      LiveFirst(t.1, rest[..i - 1], s.st.startTime >= 0);
      assert Run(s, inputs)[..i] == [t.1] + rest[..i - 1];
    }
  }

  // While the clock runs there is a start time.
  predicate Started(s: Sys) { s.seen.running != 0 ==> s.st.startTime >= 0 }

  lemma {:induction false} MarkOf(s: Sys, inputs: seq<Input>, k: nat)
    requires Allowed(inputs) && k < |inputs|
    ensures var m := Run(s, inputs)[k]; m.Commanded? ==> inputs[k] == Command(m.tokens)
    decreases |inputs|
  {
    hide PollTurn, Exec;
    if k > 0 {
      MarkOf(Turn(s, inputs[0]).0, inputs[1..], k - 1);
    } else if inputs[0].Poll? {
      PollTurnMeans(s, inputs[0].d);
    }
  }

  // A race the poller has started and not ended is live, unless another source has interfered.
  lemma {:induction false} ArmedLives(marks: seq<Mark>, live: bool)
    requires Armed(marks) && forall k :: 0 <= k < |marks| && marks[k].Commanded? ==> !Unstarts(marks[k].tokens)
    ensures Live(marks, live)
    decreases |marks|
  {
    hide Unstarts, Restarts;
    var n := |marks| - 1;
    if !IsStart(marks[n]) {
      ArmedLives(marks[..n], live);
    }
  }

  /** So unless another source resets the status (or starts it at a negative time), the main loop never
      refuses the poller. */
  lemma NeverRefused(s: Sys, inputs: seq<Input>, i: nat)
    requires Allowed(inputs) && Started(s) && i < |inputs|
    requires forall k :: 0 <= k < |inputs| && inputs[k].Command? ==> !Unstarts(inputs[k].tokens)
    ensures Run(s, inputs)[i].Polled? ==> Run(s, inputs)[i].ok
  {
    hide Run, Unstarts, Armed, Live;
    var marks := Run(s, inputs);
    AcceptedIff(s, inputs, i);
    if marks[i].Polled? && (marks[i].e.Halted? || marks[i].e.Split?) {
      forall k | 0 <= k < |inputs| && marks[k].Commanded? ensures !Unstarts(marks[k].tokens) {
        MarkOf(s, inputs, k);
      }
      var past := if s.seen.running != 0 then [Polled(Start, true)] else [];
      StartIsArmed();
      StaysArmed(s, inputs, past, i);
      ArmedLives(past + marks[..i], s.st.startTime >= 0);
      if s.seen.running != 0 {
        LiveFirst(past[0], marks[..i], true);
        assert past == [past[0]];
      } else {
        assert past + marks[..i] == marks[..i];
      }
    }
  }

  lemma StartIsArmed()
    ensures Armed([Polled(Start, true)])
  {
  }

  /** And once another source has done so, every STOP and INT of the poller is refused until the poller or
      another source starts the main loop again. */
  lemma RefusedUntil(s: Sys, inputs: seq<Input>, j: nat, i: nat)
    requires Allowed(inputs) && j < i < |inputs|
    requires var marks := Run(s, inputs);
      marks[j].Commanded? && Unstarts(marks[j].tokens) && forall k :: j < k < i ==> !Revives(marks[k])
    ensures var m := Run(s, inputs)[i]; m.Polled? ==> (m.ok <==> !(m.e.Halted? || m.e.Split?))
  {
    hide Run, Live, Unstarts;
    AcceptedIff(s, inputs, i);
    DeadAfter(Run(s, inputs)[..i], s.st.startTime >= 0, j);
  }

  lemma {:induction false} DeadAfter(marks: seq<Mark>, live: bool, j: nat)
    requires j < |marks| && marks[j].Commanded? && Unstarts(marks[j].tokens)
    requires forall k :: j < k < |marks| ==> !Revives(marks[k])
    ensures !Live(marks, live)
    decreases |marks|
  {
    hide Unstarts;
    if j < |marks| - 1 {
      DeadAfter(marks[..|marks| - 1], live, j);
    }
  }

  /** For instance between a START and the next STOP. */
  lemma ResetRefuses(s: Sys, tokens: seq<string>, d1: Device, d2: Device)
    requires s.seen.running == 0 && Deliverable(tokens) && Unstarts(tokens)
    requires d1.running != 0 && d1.tiempo != 0 && d2.running == 0 && d2.tiempo != 0
    ensures Run(s, [Poll(d1), Command(tokens), Poll(d2)])
      == [Polled(Start, true), Commanded(tokens), Polled(Halted(d2.tiempo), false)]
  {
    hide Tokens, Wire, Text, Atoi, PollTurn;
    PollTurnMeans(s, d1);
    var s1 := PollTurn(s, d1).0;
    var s2 := Turn(s1, Command(tokens)).0;
    PollTurnMeans(s2, d2);
    var inputs := [Poll(d1), Command(tokens), Poll(d2)];
    assert inputs[1..] == [Command(tokens), Poll(d2)] && [Command(tokens), Poll(d2)][1..] == [Poll(d2)];
    assert [Poll(d2)][1..] == [];
    assert Run(s2, [Poll(d2)]) == [Polled(Halted(d2.tiempo), false)];
    assert Run(s1, [Command(tokens), Poll(d2)]) == [Commanded(tokens)] + Run(s2, [Poll(d2)]);
  }

  // ---- which commands a run of polls reports

  // What a device shows.
  datatype Clock = Clock(running: bool, time: nat)

  /** The device shows the same over one or more polls; the scores in the answers may change. */
  datatype Phase = Phase(clock: Clock, answers: seq<Device>)

  predicate Shows(d: Device, c: Clock) { (d.running != 0 <==> c.running) && d.tiempo == c.time }

  // Every phase shows something else than the one before.
  predicate Changing(before: Clock, phases: seq<Phase>)
    decreases |phases|
  {
    phases == [] ||
    (&& phases[0].clock != before && phases[0].answers != []
     && (forall k :: 0 <= k < |phases[0].answers| ==> Shows(phases[0].answers[k], phases[0].clock))
     && Changing(phases[0].clock, phases[1..]))
  }

  // The command for a change: a start or restart, a stop with its time, a clearing.
  function ChangeSays(before: Clock, now: Clock): seq<Event> {
    if now.running then
      if !before.running || now.time == 0 then [Start] else []
    else if now.time == 0 then [Cleared]
    else if before.running && before.time != 0 then [Halted(now.time)]
    else []
  }

  // The commands for n more polls that show the same: a split time each, if a time is shown and the clock runs.
  function HoldSays(c: Clock, n: int): seq<Event> {
    if n <= 0 || !c.running || c.time == 0 then [] else [Split(c.time)] + HoldSays(c, n - 1)
  }

  function Reported(before: Clock, phases: seq<Phase>): seq<Event>
    decreases |phases|
  {
    if phases == [] then []
    else ChangeSays(before, phases[0].clock) + HoldSays(phases[0].clock, |phases[0].answers| - 1) + Reported(phases[0].clock, phases[1..])
  }

  function AnswersOf(phases: seq<Phase>): seq<Device> {
    if phases == [] then [] else phases[0].answers + AnswersOf(phases[1..])
  }

  // The answers polled in a run, and the timing commands it emits.
  function Polls(inputs: seq<Input>): seq<Device> {
    if inputs == [] then [] else (if inputs[0].Poll? then [inputs[0].d] else []) + Polls(inputs[1..])
  }

  function Timing(marks: seq<Mark>): seq<Event> {
    if marks == [] then []
    else
      var m := marks[0];
      (if m.Polled? && (m.e == Start || m.e.Halted? || m.e.Split? || m.e == Cleared) then [m.e] else []) + Timing(marks[1..])
  }

  // The edges between successive answers.
  function Edges(was: Seen, ds: seq<Device>): seq<Event>
    decreases |ds|
  {
    if ds == [] then []
    else (if EdgeOf(was, ds[0]) == Quiet then [] else [EdgeOf(was, ds[0])]) + Edges(Seen(ds[0].tiempo, ds[0].running), ds[1..])
  }

  // Scores and other commands neither bring nor suppress a timing command.
  lemma {:induction false} TimingIsEdges(s: Sys, inputs: seq<Input>)
    requires Allowed(inputs)
    ensures Timing(Run(s, inputs)) == Edges(s.seen, Polls(inputs))
    decreases |inputs|
  {
    hide PollTurn, Exec, EdgeOf;
    if inputs != [] {
      var t := Turn(s, inputs[0]);
      var marks := Run(s, inputs);
      TimingIsEdges(t.0, inputs[1..]);
      assert marks[0] == t.1 && marks[1..] == Run(t.0, inputs[1..]);
      if inputs[0].Poll? {
        var d := inputs[0].d;
        PollTurnMeans(s, d);
        EdgeKinds(s.seen, d);
        assert Polls(inputs)[0] == d && Polls(inputs)[1..] == Polls(inputs[1..]);
      } else {
        assert Polls(inputs) == Polls(inputs[1..]);
      }
    }
  }

  lemma {:induction false} EdgeKinds(was: Seen, d: Device)
    ensures var e := EdgeOf(was, d); e == Quiet || e == Start || e.Halted? || e.Split? || e == Cleared
  {
  }

  lemma {:induction false} EdgesJoin(was: Seen, a: seq<Device>, b: seq<Device>)
    requires a != []
    ensures var d := a[|a| - 1]; Edges(was, a + b) == Edges(was, a) + Edges(Seen(d.tiempo, d.running), b)
    decreases |a|
  {
    hide EdgeOf;
    assert (a + b)[1..] == a[1..] + b;
    if |a| > 1 {
      EdgesJoin(Seen(a[0].tiempo, a[0].running), a[1..], b);
    } else {
      assert a[1..] == [] && [] + b == b;
    }
  }

  function ClockOf(was: Seen): Clock { Clock(was.running != 0, was.tiempo) }

  lemma {:induction false} HoldEdges(was: Seen, ds: seq<Device>)
    requires forall k :: 0 <= k < |ds| ==> Shows(ds[k], ClockOf(was))
    ensures Edges(was, ds) == HoldSays(ClockOf(was), |ds|)
    decreases |ds|
  {
    if ds != [] {
      HoldEdges(Seen(ds[0].tiempo, ds[0].running), ds[1..]);
    }
  }

  lemma {:induction false} PhaseEdges(was: Seen, p: Phase)
    requires p.clock != ClockOf(was) && p.answers != [] && forall k :: 0 <= k < |p.answers| ==> Shows(p.answers[k], p.clock)
    ensures Edges(was, p.answers) == ChangeSays(ClockOf(was), p.clock) + HoldSays(p.clock, |p.answers| - 1)
  {
    hide HoldSays;
    var d := p.answers[0];
    HoldEdges(Seen(d.tiempo, d.running), p.answers[1..]);
  }

  lemma {:induction false} PhasesEdges(was: Seen, phases: seq<Phase>)
    requires Changing(ClockOf(was), phases)
    ensures Edges(was, AnswersOf(phases)) == Reported(ClockOf(was), phases)
    decreases |phases|
  {
    hide Edges, ChangeSays, HoldSays;
    if phases == [] {
      assert Edges(was, []) == [] by {
        NoEdges(was);
      }
    } else {
      var p := phases[0];
      var last := p.answers[|p.answers| - 1];
      PhaseEdges(was, p);
      EdgesJoin(was, p.answers, AnswersOf(phases[1..]));
      assert ClockOf(Seen(last.tiempo, last.running)) == p.clock;
      PhasesEdges(Seen(last.tiempo, last.running), phases[1..]);
    }
  }

  lemma {:induction false} NoEdges(was: Seen)
    ensures Edges(was, []) == []
  {
  }

  /** Over any run of polls, other commands in between, the timing commands are one for each change that is
      one and a split time for each poll of a running clock that repeats a time. */
  lemma {:induction false} RunReports(s: Sys, inputs: seq<Input>, phases: seq<Phase>)
    requires Allowed(inputs) && Polls(inputs) == AnswersOf(phases) && Changing(ClockOf(s.seen), phases)
    ensures Timing(Run(s, inputs)) == Reported(ClockOf(s.seen), phases)
  {
    hide Run, Edges, Reported, Changing;
    TimingIsEdges(s, inputs);
    PhasesEdges(s.seen, phases);
  }

  // The clock runs on, its times rise.
  predicate Rising(t: nat, phases: seq<Phase>)
    decreases |phases|
  {
    phases == [] || (phases[0].clock.running && phases[0].clock.time > t && Rising(phases[0].clock.time, phases[1..]))
  }

  // A race: the clock starts at any time, 0 included, and its times rise.
  predicate IsRace(phases: seq<Phase>) {
    phases != [] && phases[0].clock.running && Rising(phases[0].clock.time, phases[1..])
  }

  // The split times of a race: of each time shown, as often as it was repeated.
  function Splits(phases: seq<Phase>): seq<Event> {
    if phases == [] then [] else HoldSays(phases[0].clock, |phases[0].answers| - 1) + Splits(phases[1..])
  }

  lemma {:induction false} RisingReports(before: Clock, phases: seq<Phase>, end: Phase)
    requires before.running && Rising(before.time, phases) && !end.clock.running && |end.answers| == 1
    requires before.time != 0 || phases != [] || end.clock.time == 0
    ensures Reported(before, phases + [end]) == Splits(phases) + [if end.clock.time == 0 then Cleared else Halted(end.clock.time)]
    decreases |phases|
  {
    hide HoldSays;
    var all := phases + [end];
    if phases == [] {
      assert all == [end] && [end][1..] == [];
      HoldNone(end.clock);
      assert Reported(end.clock, []) == [];
    } else {
      assert all[1..] == phases[1..] + [end];
      RisingReports(phases[0].clock, phases[1..], end);
    }
  }

  lemma {:induction false} RisingRuns(t: nat, phases: seq<Phase>)
    requires Rising(t, phases)
    ensures forall k :: 0 <= k < |phases| ==> phases[k].clock.running
    decreases |phases|
  {
    if phases != [] {
      RisingRuns(phases[0].clock.time, phases[1..]);
    }
  }

  lemma {:induction false} HoldNone(c: Clock)
    ensures HoldSays(c, 0) == []
  {
  }

  /** A whole race: one START, a split time for each poll that repeats the time shown and none while it rises,
      and one STOP with the final time or one RESET. (A race in which no time but 0 was ever seen has no STOP.) */
  lemma {:induction false} RaceReports(s: Sys, inputs: seq<Input>, phases: seq<Phase>, last: Device)
    requires Allowed(inputs) && s.seen.running == 0 && IsRace(phases) && last.running == 0
    requires Polls(inputs) == AnswersOf(phases) + [last] && Changing(ClockOf(s.seen), phases)
    ensures Timing(Run(s, inputs)) == [Start] + Splits(phases) +
      if last.tiempo == 0 then [Cleared]
      else if |phases| == 1 && phases[0].clock.time == 0 then []
      else [Halted(last.tiempo)]
  {
    hide Run, HoldSays, Timing;
    var end := Phase(Clock(false, last.tiempo), [last]);
    var all := phases + [end];
    AnswersJoin(phases, end);
    RisingRuns(phases[0].clock.time, phases[1..]);
    ChangingEnds(ClockOf(s.seen), phases, end);
    RunReports(s, inputs, all);
    assert all[0] == phases[0] && all[1..] == phases[1..] + [end];
    if last.tiempo != 0 && |phases| == 1 && phases[0].clock.time == 0 {
      assert all[1..] == [end] && [end][1..] == [];
      HoldNone(end.clock);
      assert Reported(end.clock, []) == [];
    } else {
      RisingReports(phases[0].clock, phases[1..], end);
    }
  }

  lemma {:induction false} AnswersJoin(phases: seq<Phase>, end: Phase)
    ensures AnswersOf(phases + [end]) == AnswersOf(phases) + end.answers
    decreases |phases|
  {
    if phases == [] {
      assert phases + [end] == [end] && [end][1..] == [] && end.answers + [] == end.answers;
    } else {
      assert (phases + [end])[1..] == phases[1..] + [end];
      AnswersJoin(phases[1..], end);
    }
  }

  lemma {:induction false} ChangingEnds(before: Clock, phases: seq<Phase>, end: Phase)
    requires Changing(before, phases) && phases != [] && phases[|phases| - 1].clock != end.clock
    requires |end.answers| == 1 && Shows(end.answers[0], end.clock)
    ensures Changing(before, phases + [end])
    decreases |phases|
  {
    var all := phases + [end];
    assert all[1..] == phases[1..] + [end];
    if |phases| > 1 {
      ChangingEnds(phases[0].clock, phases[1..], end);
    } else {
      assert all[1..] == [end] && [end][1..] == [];
    }
  }

  // ---- a device at rest

  // The state after n polls that all give the same answer.
  function After(s: Sys, d: Device, n: nat): Sys {
    if n == 0 then s else PollTurn(After(s, d, n - 1), d).0
  }

  function EventAt(s: Sys, d: Device, n: nat): Event {
    PollTurn(After(s, d, n), d).1.e
  }

  predicate Agrees(st: Status, d: Device) {
    Total(st) == d.faltas && st.refusals == d.rehuses && st.eliminated == d.eliminado
  }

  lemma {:induction false} SeenAtRest(s: Sys, d: Device, n: nat)
    requires n >= 1
    ensures After(s, d, n).seen == Seen(d.tiempo, d.running)
  {
    hide Apply, Text;
    PollTurnMeans(After(s, d, n - 1), d);
  }

  /** With the device stopped at a constant answer whose elimination is 0 or 1, at most the first two
      polls emit a command, every later one is quiet, and the main loop shows the device's score. */
  lemma {:induction false} Converges(s: Sys, d: Device, n: nat)
    requires d.running == 0 && (d.eliminado == 0 || d.eliminado == 1) && n >= 2
    ensures EventAt(s, d, n) == Quiet && Agrees(After(s, d, n).st, d)
    decreases n
  {
    hide Text, PollTurn;
    SeenAtRest(s, d, n - 1);
    SeenAtRest(s, d, n);
    PollTurnMeans(After(s, d, n - 1), d);
    PollTurnMeans(After(s, d, n), d);
    if n > 2 {
      Converges(s, d, n - 1);
    }
  }

  // The score is already shown, and the first poll does not clear it.
  predicate Settled(s: Sys, d: Device) {
    Agrees(s.st, d) && EdgeOf(s.seen, d) != Cleared
  }

  // Whether it is shown after the first poll.
  lemma AfterOne(s: Sys, d: Device)
    requires d.running == 0 && d.eliminado != 0 && d.eliminado != 1
    ensures Agrees(After(s, d, 1).st, d) <==> Settled(s, d)
  {
    hide Text, PollTurn;
    PollTurnMeans(s, d);
    assert After(s, d, 1) == PollTurn(After(s, d, 0), d).0;
  }

  // With another elimination than 0 and 1 later polls neither bring the agreement about nor end it.
  lemma {:induction false} StaysSo(s: Sys, d: Device, n: nat)
    requires d.running == 0 && d.eliminado != 0 && d.eliminado != 1 && n >= 1
    ensures Agrees(After(s, d, n).st, d) <==> Settled(s, d)
    decreases n
  {
    hide Text, PollTurn, Settled;
    AfterOne(s, d);
    if n > 1 {
      StaysSo(s, d, n - 1);
      SeenAtRest(s, d, n - 1);
      PollTurnMeans(After(s, d, n - 1), d);
    }
  }

  /** With any other elimination every poll from the second on sends the score, unless it was shown from the
      start: then every one of them is quiet. */
  lemma NeverSettles(s: Sys, d: Device, n: nat)
    requires d.running == 0 && d.eliminado != 0 && d.eliminado != 1 && n >= 1
    ensures EventAt(s, d, n) == if Settled(s, d) then Quiet else Score(d.faltas, d.rehuses, d.eliminado)
  {
    hide Text, PollTurn, Settled;
    StaysSo(s, d, n);
    SeenAtRest(s, d, n);
    PollTurnMeans(After(s, d, n), d);
  }

  ghost predicate QuietFrom(s: Sys, d: Device, m: nat) {
    forall n: nat :: n >= m ==> EventAt(s, d, n) == Quiet
  }

  /** A device at rest is left in peace iff its elimination is 0 or 1, or its score was shown from the start. */
  lemma ConvergesIff(s: Sys, d: Device)
    requires d.running == 0
    ensures (exists m: nat :: QuietFrom(s, d, m)) <==> (d.eliminado == 0 || d.eliminado == 1 || Settled(s, d))
  {
    hide EventAt, Settled;
    if d.eliminado == 0 || d.eliminado == 1 {
      forall n: nat | n >= 2 ensures EventAt(s, d, n) == Quiet {
        Converges(s, d, n);
      }
      assert QuietFrom(s, d, 2);
    } else if Settled(s, d) {
      forall n: nat | n >= 1 ensures EventAt(s, d, n) == Quiet {
        NeverSettles(s, d, n);
      }
      assert QuietFrom(s, d, 1);
    } else {
      forall m: nat ensures !QuietFrom(s, d, m) {
        NeverSettles(s, d, m + 1);
        assert EventAt(s, d, m + 1) != Quiet;
      }
    }
  }
}
