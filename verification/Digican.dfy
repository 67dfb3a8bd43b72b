/** The serial chronometer of src/modules/digican.c, which cannot be told absolute counts: module_write
    keeps a mirror of the device's counters and sends relative commands. */
module Digican {
  import opened CBase
  import opened TextTools
  import opened MainStatus

  // ---- the device

  datatype Counters = Counters(faltas: int, rehuses: int)

  // What one word does to the device's counters.
  function Effect(w: string, c: Counters): Counters {
    match w
    case "FALT+" => c.(faltas := c.faltas + 1)
    case "FALT-" => c.(faltas := c.faltas - 1)
    case "REHU+" => c.(rehuses := c.rehuses + 1)
    case "REHU-" => c.(rehuses := c.rehuses - 1)
    case "RESET" => Counters(0, 0)
    case "RELOJ" => Counters(0, 0)
    case _ => c
  }

  function Effects(words: seq<string>, c: Counters): Counters {
    if words == [] then c else Effects(words[1..], Effect(words[0], c))
  }

  /** The device reads words ended by '$'. */
  function Played(text: string, c: Counters): Counters {
    Effects(Split(text, '$'), c)
  }

  lemma PlayedWord(w: string, rest: string, c: Counters)
    requires '$' !in w
    ensures Played(w + "$" + rest, c) == Played(rest, Effect(w, c))
  {
    SplitHead(w, '$', rest);
  }

  lemma PlayedNothing(c: Counters)
    ensures Played("", c) == c
  {
    assert Split("", '$') == [""];
    assert [""][1..] == [];
    assert Effect("", c) == c;
    assert Effects([], c) == c;
  }

  // n times the same word.
  function Repeat(w: string, n: nat): string {
    if n == 0 then "" else w + "$" + Repeat(w, n - 1)
  }

  lemma {:induction false} RepeatMore(w: string, n: nat)
    ensures Repeat(w, n) + w + "$" == Repeat(w, n + 1)
  {
    if n == 0 {
      assert Repeat(w, 1) == w + "$" + "";
      assert "" + w + "$" == w + "$";
    } else {
      RepeatMore(w, n - 1);
      assert Repeat(w, n) + w + "$" == w + "$" + (Repeat(w, n - 1) + w + "$");
    }
  }

  // Relative words for moving a counter from one value to another.
  function Move(up: string, down: string, from: int, to: int): string {
    if from <= to then Repeat(up, to - from) else Repeat(down, from - to)
  }

  // One counter moved by d.
  function Bump(c: Counters, fault: bool, d: int): Counters {
    if fault then c.(faltas := c.faltas + d) else c.(rehuses := c.rehuses + d)
  }

  lemma {:induction false} RepeatPlays(w: string, n: nat, fault: bool, up: bool, rest: string, c: Counters)
    requires '$' !in w && forall x: Counters :: Effect(w, x) == Bump(x, fault, if up then 1 else -1)
    ensures Played(Repeat(w, n) + rest, c) == Played(rest, Bump(c, fault, if up then n else 0 - n))
    decreases n
  {
    hide Effect, Played;
    if n == 0 {
      assert Repeat(w, 0) + rest == rest;
    } else {
      var tail := Repeat(w, n - 1) + rest;
      assert Repeat(w, n) + rest == w + "$" + tail;
      PlayedWord(w, tail, c);
      RepeatPlays(w, n - 1, fault, up, rest, Bump(c, fault, if up then 1 else -1));
    }
  }

  lemma FaultsMove(from: int, to: int, rest: string, c: Counters)
    ensures Played(Move("FALT+", "FALT-", from, to) + rest, c) == Played(rest, c.(faltas := c.faltas + to - from))
  {
    hide Played;
    if from <= to {
      RepeatPlays("FALT+", to - from, true, true, rest, c);
    } else {
      RepeatPlays("FALT-", from - to, true, false, rest, c);
    }
  }

  lemma RefusalsMove(from: int, to: int, rest: string, c: Counters)
    ensures Played(Move("REHU+", "REHU-", from, to) + rest, c) == Played(rest, c.(rehuses := c.rehuses + to - from))
  {
    hide Played;
    if from <= to {
      RepeatPlays("REHU+", to - from, false, true, rest, c);
    } else {
      RepeatPlays("REHU-", from - to, false, false, rest, c);
    }
  }

  // ---- the module

  // C division by ten, and printf %04d.
  function Tenth(n: int): int { if n < 0 then 0 - (-n) / 10 else n / 10 }

  function Padded(d: string): string
    requires d != ""
    decreases 4 - |d|
  {
    if |d| >= 4 then d else Padded(if d[0] == '-' then "-0" + d[1..] else "0" + d)
  }

  /** Where the fault command moves the mirror: up only if it is below the faults alone
      (src/modules/digican.c:174), though it is meant to end at faults plus touches. */
  function FaultTarget(mirror: int, st: Status): int {
    var ft := Total(st);
    if mirror < st.faults then (if mirror < ft then ft else mirror) else (if mirror > ft then ft else mirror)
  }

  // The words a command sends, given the mirror.
  function Emission(m: Counters, st: Status, cmd: string): string {
    match cmd
    case "start" => "START$"
    case "int" => "TEMPI$"
    case "stop" => "PARAR" + Padded(Decimal(Tenth(st.stopTime - st.startTime))) + "$"
    case "walk" => "RECON$"
    case "down" => "INICI$"
    case "fault" => Move("FALT+", "FALT-", m.faltas, FaultTarget(m.faltas, st))
    case "refusal" => Move("REHU+", "REHU-", m.rehuses, st.refusals)
    case "elim" => "ELIMI$"
    case "data" =>
      Move("FALT+", "FALT-", m.faltas, Total(st)) + Move("REHU+", "REHU-", m.rehuses, st.refusals)
      + if st.eliminated != 0 then "ELIMI$" else ""
    case "reset" => "RESET$"
    case "clock" => "RELOJ$"
    case _ => ""
  }

  // The mirror after a command.
  function Mirror(m: Counters, st: Status, cmd: string): Counters {
    match cmd
    case "fault" => m.(faltas := FaultTarget(m.faltas, st))
    case "refusal" => m.(rehuses := st.refusals)
    case "data" => Counters(Total(st), st.refusals)
    case "reset" => Counters(0, 0)
    case "clock" => Counters(0, 0)
    case _ => m
  }

  class Module {
    const config: Configuration
    var faltas: int
    var rehuses: int

    constructor (config: Configuration)
      ensures this.config == config && Now() == Counters(0, 0)
    {
      this.config := config;
      faltas, rehuses := 0, 0;
    }

    function Now(): Counters
      reads this
    {
      Counters(faltas, rehuses)
    }

    // for (; x < to; x++) buffer << up, or down to it.
    static method Step(up: string, down: string, from: int, to: int, upwards: bool) returns (x: int, text: string)
      ensures x == (if upwards then (if from < to then to else from) else (if from > to then to else from))
      ensures text == Move(up, down, from, x)
    {
      x, text := from, "";
      assert Repeat(up, 0) == "" == Repeat(down, 0);
      if upwards {
        while x < to
          invariant from <= x && (x <= to || x == from)
          invariant text == Repeat(up, x - from)
        {
          RepeatMore(up, x - from);
          text := text + up + "$";
          x := x + 1;
        }
      } else {
        while x > to
          invariant x <= from && (to <= x || x == from)
          invariant text == Repeat(down, from - x)
        {
          RepeatMore(down, from - x);
          text := text + down + "$";
          x := x - 1;
        }
      }
    }

    /** module_write (src/modules/digican.c:123-262): the text sent, and the mirror. */
    method ModuleWrite(cmd: string) returns (buffer: string)
      modifies this
      ensures buffer == Emission(old(Now()), config.Now(), cmd)
      ensures Now() == Mirror(old(Now()), config.Now(), cmd)
    {
      hide Move, Decimal, Padded;
      buffer := "";
      match cmd
      case "start" => buffer := "START$";
      case "int" => buffer := "TEMPI$";
      case "stop" =>
        buffer := "PARAR" + Padded(Decimal(Tenth(config.stopTime - config.startTime))) + "$";
      case "walk" => buffer := "RECON$";
      case "down" => buffer := "INICI$";
      case "fault" =>
        var ft := config.faults + config.touchs;
        faltas, buffer := Step("FALT+", "FALT-", faltas, ft, faltas < config.faults);
      case "refusal" =>
        rehuses, buffer := Step("REHU+", "REHU-", rehuses, config.refusals, rehuses < config.refusals);
      case "elim" => buffer := "ELIMI$";
      case "data" =>
        var ft := config.faults + config.touchs;
        var more;
        faltas, buffer := Step("FALT+", "FALT-", faltas, ft, faltas < ft);
        rehuses, more := Step("REHU+", "REHU-", rehuses, config.refusals, rehuses < config.refusals);
        buffer := buffer + more + (if config.eliminated != 0 then "ELIMI$" else "");
      case "reset" =>
        faltas, rehuses := 0, 0;
        buffer := "RESET$";
      case "clock" =>
        faltas, rehuses := 0, 0;
        buffer := "RELOJ$";
      case _ =>
    }
  }

  // ---- mirror and device

  lemma PaddedClean(d: string)
    requires d != "" && '$' !in d
    ensures '$' !in Padded(d) && |Padded(d)| >= 4
    decreases 4 - |d|
  {
    if |d| < 4 {
      PaddedClean(if d[0] == '-' then "-0" + d[1..] else "0" + d);
    }
  }

  lemma OneWord(w: string, c: Counters)
    requires '$' !in w
    ensures Played(w + "$", c) == Effect(w, c)
  {
    PlayedWord(w, "", c);
    assert w + "$" + "" == w + "$";
    PlayedNothing(Effect(w, c));
  }

  lemma StopText(t: int, c: Counters)
    ensures Played("PARAR" + Padded(Decimal(t)) + "$", c) == c
  {
    hide Played, Padded, Decimal;
    var d := Decimal(t);
    forall i | 0 <= i < |d| ensures d[i] != '$' {
    }
    PaddedClean(d);
    var w := "PARAR" + Padded(d);
    OneWord(w, c);
    assert w[0] == 'P';
  }

  lemma FixedWords(c: Counters)
    ensures Played("START$", c) == c && Played("TEMPI$", c) == c && Played("RECON$", c) == c
    ensures Played("INICI$", c) == c && Played("ELIMI$", c) == c && Played("", c) == c
    ensures Played("RESET$", c) == Counters(0, 0) && Played("RELOJ$", c) == Counters(0, 0)
  {
    hide Played;
    PlayedNothing(c);
    OneWord("START", c);
    assert "START" + "$" == "START$";
    OneWord("TEMPI", c);
    assert "TEMPI" + "$" == "TEMPI$";
    OneWord("RECON", c);
    assert "RECON" + "$" == "RECON$";
    OneWord("INICI", c);
    assert "INICI" + "$" == "INICI$";
    OneWord("ELIMI", c);
    assert "ELIMI" + "$" == "ELIMI$";
    OneWord("RESET", c);
    assert "RESET" + "$" == "RESET$";
    OneWord("RELOJ", c);
    assert "RELOJ" + "$" == "RELOJ$";
  }

  lemma DataPlays(m: Counters, st: Status, c: Counters)
    ensures Played(Emission(m, st, "data"), c) == Counters(c.faltas + Total(st) - m.faltas, c.rehuses + st.refusals - m.rehuses)
  {
    hide Played, Move;
    var tail := if st.eliminated != 0 then "ELIMI$" else "";
    var refusals := Move("REHU+", "REHU-", m.rehuses, st.refusals);
    var faults := Move("FALT+", "FALT-", m.faltas, Total(st));
    assert Emission(m, st, "data") == faults + (refusals + tail);
    FaultsMove(m.faltas, Total(st), refusals + tail, c);
    var c1 := c.(faltas := c.faltas + Total(st) - m.faltas);
    RefusalsMove(m.rehuses, st.refusals, tail, c1);
    FixedWords(c1.(rehuses := c1.rehuses + st.refusals - m.rehuses));
  }

  lemma MovePlays(m: Counters, st: Status, c: Counters)
    ensures Played(Emission(m, st, "fault"), c) == c.(faltas := c.faltas + FaultTarget(m.faltas, st) - m.faltas)
    ensures Played(Emission(m, st, "refusal"), c) == c.(rehuses := c.rehuses + st.refusals - m.rehuses)
  {
    hide Played, Move, FaultTarget;
    FaultsMove(m.faltas, FaultTarget(m.faltas, st), "", c);
    RefusalsMove(m.rehuses, st.refusals, "", c);
    var f, r := Emission(m, st, "fault"), Emission(m, st, "refusal");
    assert f + "" == f && r + "" == r;
    PlayedNothing(c.(faltas := c.faltas + FaultTarget(m.faltas, st) - m.faltas));
    PlayedNothing(c.(rehuses := c.rehuses + st.refusals - m.rehuses));
  }

  predicate Clears(cmd: string) { cmd == "reset" || cmd == "clock" }

  /** Every command keeps the difference between device and mirror, whatever it is; "reset" and
      "clock" make it zero. */
  lemma DriftKept(m: Counters, st: Status, cmd: string, c: Counters)
    ensures var c', m' := Played(Emission(m, st, cmd), c), Mirror(m, st, cmd);
      if Clears(cmd) then c' == m' == Counters(0, 0)
      else c'.faltas - m'.faltas == c.faltas - m.faltas && c'.rehuses - m'.rehuses == c.rehuses - m.rehuses
  {
    hide Played, Move, FaultTarget, Padded, Decimal;
    FixedWords(c);
    StopText(Tenth(st.stopTime - st.startTime), c);
    MovePlays(m, st, c);
    DataPlays(m, st, c);
  }

  // ---- the buffer

  const BUFFER := 1024   // terminator included

  function Distance(x: int, y: int): nat { if x <= y then y - x else x - y }

  lemma {:induction false} RepeatLength(w: string, n: nat)
    requires |w| == 5
    ensures |Repeat(w, n)| == 6 * n
  {
    if n > 0 {
      RepeatLength(w, n - 1);
    }
  }

  // Each relative word takes six characters.
  lemma MoveLength(up: string, down: string, from: int, to: int)
    requires |up| == |down| == 5
    ensures |Move(up, down, from, to)| == 6 * Distance(from, to)
  {
    RepeatLength(up, Distance(from, to));
    RepeatLength(down, Distance(from, to));
  }

  lemma PaddedLength(d: string)
    requires d != ""
    ensures |Padded(d)| == if |d| < 4 then 4 else |d|
    decreases 4 - |d|
  {
    if |d| < 4 {
      PaddedLength(if d[0] == '-' then "-0" + d[1..] else "0" + d);
    }
  }

  /** The text of a command fits the buffer of module_write iff the mirror is not further off than 170
      relative words make good; those of a score count together, its elimination as one more. */
  lemma BufferHoldsIff(m: Counters, st: Status, cmd: string)
    requires cmd != "stop"
    ensures |Emission(m, st, cmd)| < BUFFER <==>
      match cmd
      case "fault" => Distance(m.faltas, FaultTarget(m.faltas, st)) <= 170
      case "refusal" => Distance(m.rehuses, st.refusals) <= 170
      case "data" =>
        Distance(m.faltas, Total(st)) + Distance(m.rehuses, st.refusals) + (if st.eliminated != 0 then 1 else 0) <= 170
      case _ => true
  {
    hide Move, FaultTarget, Distance;
    MoveLength("FALT+", "FALT-", m.faltas, FaultTarget(m.faltas, st));
    MoveLength("FALT+", "FALT-", m.faltas, Total(st));
    MoveLength("REHU+", "REHU-", m.rehuses, st.refusals);
  }

  // A time always fits that has no more digits than the buffer has room for.
  lemma StopFitsIff(m: Counters, st: Status)
    ensures |Emission(m, st, "stop")| < BUFFER <==> |Decimal(Tenth(st.stopTime - st.startTime))| <= BUFFER - 7
  {
    hide Padded, Decimal;
    PaddedLength(Decimal(Tenth(st.stopTime - st.startTime)));
  }

  // A write, or the device clearing itself (its RESET is not written back to it).
  datatype Act = Write(st: Status, cmd: string) | SelfReset

  function Device(acts: seq<Act>, m: Counters, c: Counters): (Counters, Counters) {
    if acts == [] then (m, c)
    else
      match acts[0]
      case Write(st, cmd) => Device(acts[1..], Mirror(m, st, cmd), Played(Emission(m, st, cmd), c))
      case SelfReset => Device(acts[1..], m, Counters(0, 0))
  }

  /** Over any run of writes, with the status changing in any way between them, the device shows
      exactly the mirror. */
  lemma {:induction false} MirrorIsDevice(acts: seq<Act>, m: Counters)
    requires forall i :: 0 <= i < |acts| ==> acts[i].Write?
    ensures Device(acts, m, m).0 == Device(acts, m, m).1
    decreases |acts|
  {
    hide Played, Emission, Mirror;
    if acts != [] {
      var w := acts[0];
      DriftKept(m, w.st, w.cmd, m);
      MirrorIsDevice(acts[1..], Mirror(m, w.st, w.cmd));
    }
  }

  /** A difference between mirror and device lasts until the next "reset" or "clock" is written. */
  lemma {:induction false} DriftLasts(acts: seq<Act>, m: Counters, c: Counters)
    requires forall i :: 0 <= i < |acts| ==> acts[i].Write? && !Clears(acts[i].cmd)
    ensures Ahead(Device(acts, m, c)) == Ahead((m, c))
    decreases |acts|
  {
    hide Played, Emission, Mirror;
    if acts != [] {
      var w := acts[0];
      DriftKept(m, w.st, w.cmd, c);
      DriftLasts(acts[1..], Mirror(m, w.st, w.cmd), Played(Emission(m, w.st, w.cmd), c));
    }
  }

  // How far the device is ahead of the mirror.
  function Ahead(p: (Counters, Counters)): Counters {
    Counters(p.1.faltas - p.0.faltas, p.1.rehuses - p.0.rehuses)
  }

  // The mirror that the last self-reset found which no "reset" or "clock" has made good since; it starts as found.
  function Found(acts: seq<Act>, m: Counters, found: Counters): Counters {
    if acts == [] then found
    else
      match acts[0]
      case Write(st, cmd) => Found(acts[1..], Mirror(m, st, cmd), if Clears(cmd) then Counters(0, 0) else found)
      case SelfReset => Found(acts[1..], m, m)
  }

  /** Over any run, self-resets included, the device falls behind by exactly what the mirror held at the
      last self-reset that has not been made good. */
  lemma {:induction false} DriftIs(acts: seq<Act>, m: Counters, c: Counters)
    ensures var d := Found(acts, m, Ahead((c, m)));
      Ahead(Device(acts, m, c)) == Counters(0 - d.faltas, 0 - d.rehuses)
    decreases |acts|
  {
    hide Played, Emission, Mirror;
    if acts != [] {
      match acts[0]
      case Write(st, cmd) =>
        DriftKept(m, st, cmd, c);
        DriftIs(acts[1..], Mirror(m, st, cmd), Played(Emission(m, st, cmd), c));
      case SelfReset =>
        DriftIs(acts[1..], m, Counters(0, 0));
    }
  }

  /** So a run that starts in agreement ends in agreement iff that self-reset, if there was one, found the
      mirror at zero. */
  lemma AgreeIff(acts: seq<Act>, m: Counters)
    ensures Device(acts, m, m).0 == Device(acts, m, m).1 <==> Found(acts, m, Counters(0, 0)) == Counters(0, 0)
  {
    hide Device, Found;
    DriftIs(acts, m, m);
  }

  /** A score and then a self-reset: the device shows nothing, the mirror still the score. */
  lemma SelfResetDrifts(st: Status)
    ensures Device([Write(st, "data"), SelfReset], Counters(0, 0), Counters(0, 0)) == (Counters(Total(st), st.refusals), Counters(0, 0))
  {
    hide Played, Emission;
    var acts := [Write(st, "data"), SelfReset];
    var m := Counters(Total(st), st.refusals);
    assert acts[1..] == [SelfReset] && [SelfReset][1..] == [];
    assert Device([SelfReset], m, Played(Emission(Counters(0, 0), st, "data"), Counters(0, 0))) == (m, Counters(0, 0));
  }

  /** What a synchronised device shows: after "data" the total and the refusals; after "refusal" the
      refusals. */
  lemma DeviceFollows(m: Counters, st: Status)
    ensures Played(Emission(m, st, "data"), m) == Counters(Total(st), st.refusals)
    ensures Played(Emission(m, st, "refusal"), m).rehuses == st.refusals
  {
    hide Played, Emission;
    DriftKept(m, st, "data", m);
    DriftKept(m, st, "refusal", m);
  }

  /** After "fault" it shows the total exactly when the comparison with the faults alone picked the
      right direction; in particular whenever there are no touches. */
  lemma FaultFollowsIff(m: Counters, st: Status)
    ensures Played(Emission(m, st, "fault"), m).faltas == Total(st) <==>
      m.faltas == Total(st) || (m.faltas < st.faults <==> m.faltas < Total(st))
    ensures st.touchs == 0 ==> Played(Emission(m, st, "fault"), m).faltas == Total(st)
  {
    hide Played, Emission;
    DriftKept(m, st, "fault", m);
  }

  // ---- what is heard

  // strncmp over the word's characters.
  predicate StartsWith(s: string, w: string) {
    |w| <= |s| && s[..|w|] == w
  }

  // The command that a text from the device is for; none for what is not understood.
  function Heard(text: string): string {
    if StartsWith(text, "START") then "start 0\n"
    else if StartsWith(text, "PARAR") then "stop " + Decimal(10 * Atoi(text[5..])) + "\n"
    else if StartsWith(text, "RESET") then "reset\n"
    else if StartsWith(text, "INICI") then "down\n"
    else if StartsWith(text, "ELIMI") then "elim\n"
    else if text != "" && IsDigit(text[0]) then "stop " + Decimal(10 * Atoi(text)) + "\n"
    else ""
  }

  // module_read (src/modules/digican.c:94-115), for a text the device has sent.
  method ModuleRead(inbuff: string) returns (buffer: string)
    ensures buffer == Heard(inbuff)
  {
    hide Atoi, Decimal;
    if StartsWith(inbuff, "START") {
      buffer := "start 0\n";
    } else if StartsWith(inbuff, "PARAR") {
      var elapsed := 10 * Atoi(inbuff[5..]);
      buffer := "stop " + Decimal(elapsed) + "\n";
    } else if StartsWith(inbuff, "RESET") {
      buffer := "reset\n";
    } else if StartsWith(inbuff, "INICI") {
      buffer := "down\n";
    } else if StartsWith(inbuff, "ELIMI") {
      buffer := "elim\n";
    } else if inbuff != "" && IsDigit(inbuff[0]) {
      var elapsed := 10 * Atoi(inbuff);
      buffer := "stop " + Decimal(elapsed) + "\n";
    } else {
      buffer := "";
    }
  }

  lemma {:induction false} ZeroInFront(n: nat, rest: string)
    ensures AtoiDigits("0" + rest, n) == AtoiDigits(rest, 10 * n)
  {
    var s := "0" + rest;
    assert s[0] == '0' && s[1..] == rest;
  }

  // Zeros in front, behind a sign or not, leave the number.
  lemma {:induction false} PaddedReads(d: string, rest: string)
    requires d != "" && (IsDigit(d[0]) || d[0] == '-')
    ensures Atoi(Padded(d) + rest) == Atoi(d + rest)
    decreases 4 - |d|
  {
    hide AtoiDigits;
    if |d| < 4 {
      if d[0] == '-' {
        var e := "-0" + d[1..];
        PaddedReads(e, rest);
        assert e + rest == "-" + ("0" + (d[1..] + rest)) && d + rest == "-" + (d[1..] + rest);
        AtoiMinus("0" + (d[1..] + rest));
        AtoiMinus(d[1..] + rest);
        ZeroInFront(0, d[1..] + rest);
      } else {
        PaddedReads("0" + d, rest);
        assert "0" + d + rest == "0" + (d + rest);
        AtoiPlain("0" + (d + rest));
        AtoiPlain(d + rest);
        ZeroInFront(0, d + rest);
      }
    }
  }

  lemma StopReads(t: int, rest: string)
    ensures Atoi(Padded(Decimal(t)) + "$" + rest) == t
  {
    hide Atoi, Padded, Decimal;
    var tail := "$" + rest;
    PaddedReads(Decimal(t), tail);
    AtoiOfDecimal(t, tail);
    assert Padded(Decimal(t)) + "$" + rest == Padded(Decimal(t)) + tail;
  }

  lemma FixedTexts(m: Counters, st: Status)
    ensures Emission(m, st, "start") == "START$" && Emission(m, st, "int") == "TEMPI$" && Emission(m, st, "walk") == "RECON$"
    ensures Emission(m, st, "down") == "INICI$" && Emission(m, st, "elim") == "ELIMI$"
    ensures Emission(m, st, "reset") == "RESET$" && Emission(m, st, "clock") == "RELOJ$"
  {
    hide Move, Padded, Decimal, Tenth, FaultTarget;
  }

  // By its first five characters.
  lemma HeardBy(w: string, rest: string)
    requires |w| == 6 && w[5] == '$'
    ensures w == "START$" ==> Heard(w + rest) == "start 0\n"
    ensures w == "INICI$" ==> Heard(w + rest) == "down\n"
    ensures w == "RESET$" ==> Heard(w + rest) == "reset\n"
    ensures w == "ELIMI$" ==> Heard(w + rest) == "elim\n"
    ensures w == "TEMPI$" || w == "RECON$" || w == "RELOJ$" ==> Heard(w + rest) == ""
  {
    hide Decimal, Atoi;
    assert (w + rest)[..5] == w[..5];
    assert (w + rest)[0] == w[0] && w[..5][0] == w[0] && w[..5][1] == w[1] && w[..5][2] == w[2];
  }

  /** The device speaks the same words: "start", "down", "reset" and "elim", coming back from it, are
      heard as the commands they were written for, whatever stands behind them (for "stop" see StopHeard). The
      other fixed words are not understood. */
  lemma HeardAsWritten(m: Counters, st: Status, rest: string)
    ensures Heard(Emission(m, st, "start") + rest) == "start 0\n"
    ensures Heard(Emission(m, st, "down") + rest) == "down\n"
    ensures Heard(Emission(m, st, "reset") + rest) == "reset\n"
    ensures Heard(Emission(m, st, "elim") + rest) == "elim\n"
    ensures Heard(Emission(m, st, "int") + rest) == Heard(Emission(m, st, "walk") + rest) == Heard(Emission(m, st, "clock") + rest) == ""
  {
    hide Heard, Emission;
    FixedTexts(m, st);
    HeardBy("START$", rest);
    HeardBy("INICI$", rest);
    HeardBy("RESET$", rest);
    HeardBy("ELIMI$", rest);
    HeardBy("TEMPI$", rest);
    HeardBy("RECON$", rest);
    HeardBy("RELOJ$", rest);
  }

  /** The time of "stop" comes back in whole hundredths of a second, cut towards zero. */
  lemma StopHeard(m: Counters, st: Status, rest: string) returns (back: int)
    ensures Heard(Emission(m, st, "stop") + rest) == "stop " + Decimal(back) + "\n"
    ensures back % 10 == 0
    ensures var t := st.stopTime - st.startTime; if t >= 0 then back <= t < back + 10 else back - 10 < t <= back
  {
    hide Decimal, Atoi, Padded;
    var t := Tenth(st.stopTime - st.startTime);
    back := 10 * t;
    var text := Emission(m, st, "stop") + rest;
    var w := Padded(Decimal(t)) + "$" + rest;
    assert text == "PARAR" + w;
    assert text[..5] == "PARAR" && text[5..] == w;
    StopReads(t, rest);
  }
}
