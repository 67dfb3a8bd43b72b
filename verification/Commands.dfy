/** From the text a manager sends to the effect on the status: command lines survive printing,
    splitting and reading back. */
module Commands {
  import opened CBase
  import opened TextTools
  import opened MainStatus
  import opened Canometroweb

  const NET_TAG := "net_server"

  // A word: nothing that ends a token or a line.
  predicate IsWord(s: string) {
    ' ' !in s && '\n' !in s
  }

  lemma DecimalIsWord(n: int)
    ensures IsWord(Decimal(n)) && ':' !in Decimal(n)
  {
    var d := Decimal(n);
    forall i | 0 <= i < |d| ensures d[i] != ' ' && d[i] != '\n' && d[i] != ':' {
    }
  }

  lemma WireThree(tag: string, cmd: string, arg: string, eol: string)
    requires IsWord(tag) && IsWord(cmd) && IsWord(arg) && (eol == "" || eol == "\n")
    ensures Tokens(Wire(tag, cmd + " " + arg + eol)) == [tag, Lower(cmd), arg]
  {
    UpToLine(cmd + " " + arg, eol);
    assert tag + " " + (cmd + " " + arg) == tag + " " + cmd + " " + arg;
    ThreeTokens(tag, cmd, arg);
  }

  lemma WireTwo(tag: string, cmd: string, eol: string)
    requires IsWord(tag) && IsWord(cmd) && (eol == "" || eol == "\n")
    ensures Tokens(Wire(tag, cmd + eol)) == [tag, Lower(cmd)]
  {
    UpToLine(cmd, eol);
    TwoTokens(tag, cmd);
  }

  lemma ColonSplit(a: string, b: string)
    requires ':' !in a
    ensures IndexOf(a + ":" + b, ':') == |a| && After(a + ":" + b, ':') == b && (a + ":" + b)[..|a|] == a
  {
    var s := a + ":" + b;
    FirstColon(a, b);
    assert s[|a| + 1..] == b;
  }

  lemma {:induction false} FirstColon(a: string, b: string)
    requires ':' !in a
    ensures IndexOf(a + ":" + b, ':') == |a|
    decreases |a|
  {
    var s := a + ":" + b;
    if a != "" {
      assert s[1..] == a[1..] + ":" + b;
      assert a[0] in a;
      FirstColon(a[1..], b);
    }
  }

  /** Whatever numbers are printed into it, a score text sets the shown total, the refusals and the
      elimination to them. */
  lemma SetScoreReads(st: Status, f: int, r: int, e: int)
    ensures var arg := ScoreText(f, r, e);
      && ':' in arg && ':' in After(arg, ':')
      && SetScore(st, arg) == st.(faults := f - st.touchs, refusals := r, eliminated := if e == 0 then 0 else 1)
  {
    hide Atoi, Decimal, IndexOf;
    DecimalIsWord(f);
    DecimalIsWord(r);
    var rest := Decimal(r) + ":" + Decimal(e);
    assert ScoreText(f, r, e) == Decimal(f) + ":" + rest;
    ColonSplit(Decimal(f), rest);
    ColonSplit(Decimal(r), Decimal(e));
    AtoiDecimal(f);
    AtoiDecimal(r);
    AtoiDecimal(e);
  }

  // ---- what main does with the poller's commands

  /** The meaning of a poll event for the status, and whether it is accepted. */
  function Apply(st: Status, e: Event): (Status, bool) {
    match e
    case Quiet => (st, true)
    case Start => (st.(startTime := 0), true)
    case Halted(t) => if st.startTime < 0 then (st, false) else (st.(stopTime := t), true)
    case Split(t) => if st.startTime < 0 then (st, false) else (st.(intTime := t), true)
    case Cleared => (Reset(st), true)
    case Score(f, r, e) => (st.(faults := f - st.touchs, refusals := r, eliminated := if e == 0 then 0 else 1), true)
  }

  lemma Names()
    ensures Lower("START") == "start" && Lower("STOP") == "stop" && Lower("INT") == "int"
    ensures Lower("RESET") == "reset" && Lower("DATA") == "data"
    ensures IsWord("START") && IsWord("STOP") && IsWord("INT") && IsWord("RESET") && IsWord("DATA") && IsWord(NET_TAG) && IsWord("0")
  {
  }

  lemma TimedMeans(st: Status, cmd: string, low: string, t: int)
    requires IsWord(cmd) && Lower(cmd) == low && (low == "start" || low == "stop" || low == "int")
    ensures var tokens := Tokens(Wire(NET_TAG, Line(cmd, Decimal(t), "\n")));
      tokens == [NET_TAG, low, Decimal(t)] && Atoi(tokens[2]) == t
  {
    hide Tokens, Wire, Atoi, Decimal, Lower;
    Names();
    DecimalIsWord(t);
    WireThree(NET_TAG, cmd, Decimal(t), "\n");
    AtoiDecimal(t);
  }

  lemma ScoreMeans(st: Status, f: int, r: int, e: int)
    ensures var tokens := Tokens(Wire(NET_TAG, Line("DATA", ScoreText(f, r, e), "")));
      Deliverable(tokens) && Exec(st, tokens) == Apply(st, Score(f, r, e))
  {
    hide Tokens, Wire, Atoi, Decimal, SetScore, Lower;
    Names();
    DecimalIsWord(f);
    DecimalIsWord(r);
    DecimalIsWord(e);
    WireThree(NET_TAG, "DATA", ScoreText(f, r, e), "");
    SetScoreReads(st, f, r, e);
  }

  lemma ZeroText()
    ensures Decimal(0) == "0"
  {
  }

  /** The text module_read writes, sent as the network manager sends it, split and looked up by the
      main loop, has exactly the meaning of the event. */
  lemma TextMeans(st: Status, e: Event)
    requires e != Quiet
    ensures var tokens := Tokens(Wire(NET_TAG, Text(e))); Deliverable(tokens) && Exec(st, tokens) == Apply(st, e)
  {
    hide Tokens, Wire, Atoi, SetScore, Lower, ScoreText, Decimal;
    Names();
    match e
    case Start =>
      ZeroText();
      TimedMeans(st, "START", "start", 0);
    case Halted(t) => TimedMeans(st, "STOP", "stop", t);
    case Split(t) => TimedMeans(st, "INT", "int", t);
    case Cleared => WireTwo(NET_TAG, "RESET", "\n");
    case Score(f, r, x) => ScoreMeans(st, f, r, x);
  }

  // ---- scores from the AgilityContest server (src/ajax_json.c:112-124, 162-174)

  // One component of a dog's score: "-1" keeps what is stored.
  function Keep(text: string, stored: int): int {
    if text == "-1" then stored else Atoi(text)
  }

  // The command made of a datos or crono_dat event.
  function MergeText(st: Status, flt: string, toc: string, reh: string, eli: string): string {
    Line("data", ScoreText(Keep(flt, st.faults) + Keep(toc, st.touchs), Keep(reh, st.refusals), Keep(eli, st.eliminated)), "\n")
  }

  const AJAX_TAG := "ac_server"

  /** End to end: after a datos or crono_dat event the shown total is the merged faults plus the merged
      touches (the stored touches stay as they were), and refusals and elimination are the merged ones. */
  lemma MergeMeans(st: Status, flt: string, toc: string, reh: string, eli: string)
    ensures var tokens := Tokens(Wire(AJAX_TAG, MergeText(st, flt, toc, reh, eli)));
      Deliverable(tokens) && var r := Exec(st, tokens);
      r.1 && Total(r.0) == Keep(flt, st.faults) + Keep(toc, st.touchs) && r.0.refusals == Keep(reh, st.refusals)
      && r.0.eliminated == (if Keep(eli, st.eliminated) == 0 then 0 else 1)
      && r.0 == st.(faults := r.0.faults, refusals := r.0.refusals, eliminated := r.0.eliminated)
  {
    hide Tokens, Wire, Atoi, Decimal, SetScore, Keep;
    var f, r, e := Keep(flt, st.faults) + Keep(toc, st.touchs), Keep(reh, st.refusals), Keep(eli, st.eliminated);
    DecimalIsWord(f);
    DecimalIsWord(r);
    DecimalIsWord(e);
    DataWord();
    WireThree(AJAX_TAG, "data", ScoreText(f, r, e), "\n");
    SetScoreReads(st, f, r, e);
  }

  lemma DataWord()
    ensures IsWord("data") && Lower("data") == "data" && IsWord(AJAX_TAG)
  {
  }

  // A component as the server writes it: a number, or "-1" for one it does not give.
  function Written(given: Option<int>): string {
    match given
    case None => "-1"
    case Some(n) => Decimal(n)
  }

  function Or(given: Option<int>, stored: int): int {
    match given
    case None => stored
    case Some(n) => n
  }

  lemma KeepWritten(given: Option<int>, stored: int)
    requires given != Some(-1)
    ensures Keep(Written(given), stored) == Or(given, stored)
  {
    hide Decimal, Atoi;
    if given.Some? {
      AtoiDecimal(given.value);
      AtoiDecimal(-1);
      MinusOne();
    }
  }

  lemma MinusOne()
    ensures Decimal(-1) == "-1"
  {
    assert Digits(1) == "1";
  }

  /** The components given replace the stored ones, the others stay: the total shown, the refusals and the
      elimination after a score of the server. */
  lemma ServerScoreMeans(st: Status, flt: Option<int>, toc: Option<int>, reh: Option<int>, eli: Option<int>)
    requires Some(-1) !in [flt, toc, reh, eli]
    ensures var tokens := Tokens(Wire(AJAX_TAG, MergeText(st, Written(flt), Written(toc), Written(reh), Written(eli))));
      Deliverable(tokens) && var r := Exec(st, tokens);
      && r.1 && Total(r.0) == Or(flt, st.faults) + Or(toc, st.touchs) && r.0.touchs == st.touchs
      && r.0.refusals == Or(reh, st.refusals) && (r.0.eliminated == 0 <==> Or(eli, st.eliminated) == 0)
  {
    hide Tokens, Wire, Keep, Written, MergeText, Exec;
    MergeMeans(st, Written(flt), Written(toc), Written(reh), Written(eli));
    assert flt in [flt, toc, reh, eli] && toc in [flt, toc, reh, eli] && reh in [flt, toc, reh, eli] && eli in [flt, toc, reh, eli];
    KeepWritten(flt, st.faults);
    KeepWritten(toc, st.touchs);
    KeepWritten(reh, st.refusals);
    KeepWritten(eli, st.eliminated);
  }
}
