/** The status kept by the main loop and the command handlers of src/main_mgr.c, from the line of
    text a source sends down to the fields it changes. */
module MainStatus {
  import opened CBase
  import opened TextTools

  datatype Status = Status(startTime: int, intTime: int, stopTime: int, faults: int, touchs: int, refusals: int,
                           eliminated: int, notpresent: int, numero: int, bright: int)

  // What the chronometer and the web pages show as faults.
  function Total(st: Status): int { st.faults + st.touchs }

  // src/sc_config.c:50-57
  const INITIAL := Status(-1, 0, 0, 0, 0, 0, 0, 0, 0, 0)

  // ---- from a line to tokens (src/main.c:309-332)

  function LowerChar(c: char): char {
    if 'A' <= c <= 'Z' then ((c as int + 32) as char) else c
  }

  function Lower(s: string): string {
    seq(|s|, (i: nat) requires i < |s| => LowerChar(s[i]))
  }

  const CAPITALS := "ABCDEFGHIJKLMNOPQRSTUVWXYZ"
  const SMALL := "abcdefghijklmnopqrstuvwxyz"

  // tolower, character by character.
  lemma LowerIs(s: string, k: nat)
    requires k < |s|
    ensures |Lower(s)| == |s|
    ensures forall i :: 0 <= i < 26 && s[k] == CAPITALS[i] ==> Lower(s)[k] == SMALL[i]
    ensures s[k] !in CAPITALS ==> Lower(s)[k] == s[k]
  {
    var c := s[k];
    if 'A' <= c <= 'Z' {
      assert CAPITALS[c as int - 65] == c;
    }
  }

  function Tokens(line: string): seq<string> {
    var t := Split(line, ' ');
    if |t| < 2 then t else t[1 := Lower(t[1])]
  }

  function UpTo(s: string, c: char): string {
    if s == "" || s[0] == c then "" else [s[0]] + UpTo(s[1..], c)
  }

  // What a manager thread sends: its tag, a blank, and the message up to the end of the line.
  function Wire(tag: string, msg: string): string {
    tag + " " + UpTo(msg, '\n')
  }

  lemma ThreeTokens(a: string, b: string, c: string)
    requires ' ' !in a && ' ' !in b && ' ' !in c
    ensures Tokens(a + " " + b + " " + c) == [a, Lower(b), c]
  {
    assert a + " " + b + " " + c == a + [' '] + (b + [' '] + c);
    SplitHead(a, ' ', b + [' '] + c);
    SplitHead(b, ' ', c);
    SplitWhole(c, ' ');
  }

  lemma TwoTokens(a: string, b: string)
    requires ' ' !in a && ' ' !in b
    ensures Tokens(a + " " + b) == [a, Lower(b)]
  {
    SplitHead(a, ' ', b);
    SplitWhole(b, ' ');
  }

  lemma {:induction false} UpToLine(s: string, rest: string)
    requires '\n' !in s && (rest == "" || rest[0] == '\n')
    ensures UpTo(s + rest, '\n') == s
    decreases |s|
  {
    if s == "" {
      assert s + rest == rest;
    } else {
      UpToLine(s[1..], rest);
      assert (s + rest)[1..] == s[1..] + rest;
      assert s == [s[0]] + s[1..];
    }
  }

  // ---- the handlers

  function After(s: string, c: char): string {
    if IndexOf(s, c) < |s| then s[IndexOf(s, c) + 1..] else ""
  }

  // main_mgr_data cuts its argument at two colons without looking whether they are there.
  predicate Deliverable(tokens: seq<string>) {
    |tokens| >= 2 && (tokens[1] == "data" && |tokens| > 2 ==> ':' in tokens[2] && ':' in After(tokens[2], ':'))
  }

  function Clip(n: int): int { if n < 0 then 0 else n }

  // A counter command: "+", "-" or a number; "+" when the argument is missing or there are too many.
  function Counter(n: int, tokens: seq<string>): int {
    if |tokens| != 3 || tokens[2] == "+" then n + 1 else if tokens[2] == "-" then n - 1 else Atoi(tokens[2])
  }

  /** The status after a command, and whether the handler accepts it. */
  function Exec(st: Status, tokens: seq<string>): (r: (Status, bool))
    requires Deliverable(tokens)
  {
    var n := |tokens|;
    match tokens[1]
    case "start" => (st.(startTime := if n == 2 then 0 else Atoi(tokens[2])), true)
    case "int" => if st.startTime < 0 || n == 2 then (st, false) else (st.(intTime := Atoi(tokens[2])), true)
    case "stop" => if st.startTime < 0 || n == 2 then (st, false) else (st.(stopTime := Atoi(tokens[2])), true)
    case "fault" =>
      if n == 3 && tokens[2] == "-" then
        (if st.faults > 0 then st.(faults := st.faults - 1, touchs := Clip(st.touchs))
         else if st.touchs > 0 then st.(faults := Clip(st.faults), touchs := st.touchs - 1)
         else st.(faults := Clip(st.faults), touchs := Clip(st.touchs)), true)
      else if n == 3 && tokens[2] != "+" then
        (st.(faults := Clip(Atoi(tokens[2]) - st.touchs), touchs := Clip(st.touchs)), true)
      else (st.(faults := Clip(st.faults + 1), touchs := Clip(st.touchs)), true)
    case "refusal" => (st.(refusals := Clip(Counter(st.refusals, tokens))), true)
    case "elim" =>
      (st.(eliminated := if n != 3 || tokens[2] == "+" then 1 else if tokens[2] == "-" || Atoi(tokens[2]) == 0 then 0 else 1), true)
    case "data" =>
      if n == 2 then (st, false)
      else (SetScore(st, tokens[2]), true)
    case "reset" => (Reset(st), true)
    case "turn" => (st.(numero := Clip(Counter(st.numero, tokens))), true)
    case "bright" =>
      var b := Clip(Counter(st.bright, tokens));
      (st.(bright := if b > 9 then 9 else b), true)
    case _ => (st, true)
  }

  // An argument faults:refusals:eliminated; the faults given are the shown total.
  function SetScore(st: Status, arg: string): Status
    requires ':' in arg && ':' in After(arg, ':')
  {
    var rest := After(arg, ':');
    st.(faults := Atoi(arg[..IndexOf(arg, ':')]) - st.touchs,
        refusals := Atoi(rest[..IndexOf(rest, ':')]),
        eliminated := if Atoi(After(rest, ':')) == 0 then 0 else 1)
  }

  function Reset(st: Status): Status {
    st.(startTime := -1, intTime := 0, stopTime := 0, faults := 0, touchs := 0, refusals := 0, eliminated := 0, notpresent := 0)
  }

  /** config->status and config->bright (include/sc_config.h:74-100, 136). */
  class Configuration {
    var startTime: int
    var intTime: int
    var stopTime: int
    var faults: int
    var touchs: int
    var refusals: int
    var eliminated: int
    var notpresent: int
    var numero: int
    var bright: int

    constructor ()
      ensures Now() == INITIAL
    {
      startTime, intTime, stopTime, faults, touchs := -1, 0, 0, 0, 0;
      refusals, eliminated, notpresent, numero, bright := 0, 0, 0, 0, 0;
    }

    function Now(): Status
      reads this
    {
      Status(startTime, intTime, stopTime, faults, touchs, refusals, eliminated, notpresent, numero, bright)
    }

    // src/main_mgr.c:79-97
    method FaultHandler(tokens: seq<string>)
      requires |tokens| >= 2 && tokens[1] == "fault"
      modifies this
      ensures Now() == Exec(old(Now()), tokens).0
    {
      if |tokens| == 3 {
        if tokens[2] == "+" {
          faults := faults + 1;
        } else if tokens[2] == "-" {
          if faults > 0 {
            faults := faults - 1;
          } else if touchs > 0 {
            touchs := touchs - 1;
          }
        } else {
          faults := Atoi(tokens[2]) - touchs;
        }
      } else {
        faults := faults + 1;
      }
      if faults < 0 {
        faults := 0;
      }
      if touchs < 0 {
        touchs := 0;
      }
    }

    // src/main_mgr.c:128-135
    method DataHandler(arg: string)
      requires ':' in arg && ':' in After(arg, ':')
      modifies this
      ensures Now() == SetScore(old(Now()), arg)
    {
      hide Atoi, IndexOf;
      var pt := IndexOf(arg, ':');
      var rest := arg[pt + 1..];
      var pt2 := IndexOf(rest, ':');
      faults := Atoi(arg[..pt]) - touchs;
      refusals := Atoi(rest[..pt2]);
      eliminated := if Atoi(rest[pt2 + 1..]) == 0 then 0 else 1;
    }

    // src/main_mgr.c:139-151
    method ResetHandler()
      modifies this
      ensures Now() == Reset(old(Now()))
    {
      startTime, intTime, stopTime := -1, 0, 0;
      faults, touchs, refusals, eliminated, notpresent := 0, 0, 0, 0, 0;
    }

    // + / - / number for refusals, turn and bright (src/main_mgr.c:100-106, 181-187, 193-199)
    static method Count(n: int, tokens: seq<string>) returns (m: int)
      ensures m == Counter(n, tokens)
    {
      m := n + 1;
      if |tokens| == 3 {
        if tokens[2] == "+" {
        } else if tokens[2] == "-" {
          m := n - 1;
        } else {
          m := Atoi(tokens[2]);
        }
      }
    }

    /** The handler of a command (src/main_mgr.c:219-246): 0, or -1 when it is refused. */
    method Handle(tokens: seq<string>) returns (res: int)
      requires Deliverable(tokens)
      modifies this
      ensures var r := Exec(old(Now()), tokens); Now() == r.0 && (res == 0 <==> r.1)
    {
      hide Atoi, IndexOf, SetScore;
      res := 0;
      match tokens[1]
      case "start" =>
        startTime := if |tokens| == 2 then 0 else Atoi(tokens[2]);
      case "int" =>
        if startTime < 0 || |tokens| == 2 {
          return -1;
        }
        intTime := Atoi(tokens[2]);
      case "stop" =>
        if startTime < 0 || |tokens| == 2 {
          return -1;
        }
        stopTime := Atoi(tokens[2]);
      case "fault" => FaultHandler(tokens);
      case "refusal" =>
        refusals := Count(refusals, tokens);
        if refusals < 0 {
          refusals := 0;
        }
      case "elim" =>
        if |tokens| == 3 {
          if tokens[2] == "+" {
            eliminated := 1;
          } else if tokens[2] == "-" {
            eliminated := 0;
          } else {
            eliminated := if Atoi(tokens[2]) == 0 then 0 else 1;
          }
        } else {
          eliminated := 1;
        }
      case "data" =>
        if |tokens| == 2 {
          return -1;
        }
        DataHandler(tokens[2]);
      case "reset" => ResetHandler();
      case "turn" =>
        numero := Count(numero, tokens);
        if numero < 0 {
          numero := 0;
        }
      case "bright" =>
        bright := Count(bright, tokens);
        if bright < 0 {
          bright := 0;
        }
        if bright > 9 {
          bright := 9;
        }
      case _ =>
    }
  }

  // ---- what the handlers keep

  predicate Sane(st: Status) {
    && st.faults >= 0 && st.touchs >= 0 && st.refusals >= 0 && (st.eliminated == 0 || st.eliminated == 1)
    && st.numero >= 0 && 0 <= st.bright <= 9
  }

  function GivenTotal(arg: string): int { Atoi(arg[..IndexOf(arg, ':')]) }

  function GivenRefusals(arg: string): int { Atoi(After(arg, ':')[..IndexOf(After(arg, ':'), ':')]) }

  // A score with a total below the stored touches, or with negative refusals.
  predicate LowScore(st: Status, tokens: seq<string>) {
    |tokens| > 2 && tokens[1] == "data" && (GivenTotal(tokens[2]) < st.touchs || GivenRefusals(tokens[2]) < 0)
  }

  /** A command keeps the status sane iff it is not such a score. */
  lemma ExecKeepsSane(st: Status, tokens: seq<string>)
    requires Deliverable(tokens) && Sane(st)
    ensures Sane(Exec(st, tokens).0) <==> !LowScore(st, tokens)
  {
    hide Atoi, IndexOf;
  }

  /** For the faults alone, whatever the other fields hold: a score given below the touches is the one way
      to make them negative. */
  lemma FaultsStayIff(st: Status, tokens: seq<string>)
    requires Deliverable(tokens) && st.faults >= 0
    ensures Exec(st, tokens).0.faults >= 0 <==> !(|tokens| > 2 && tokens[1] == "data" && GivenTotal(tokens[2]) < st.touchs)
  {
    hide Atoi, IndexOf;
  }

  /** "fault N" makes the shown total N, except that it cannot go below the touches. */
  lemma AbsoluteFault(st: Status, tokens: seq<string>)
    requires st.touchs >= 0 && |tokens| == 3 && tokens[1] == "fault" && tokens[2] != "+" && tokens[2] != "-"
    ensures Total(Exec(st, tokens).0) == Atoi(tokens[2]) <==> Atoi(tokens[2]) >= st.touchs
    ensures Total(Exec(st, tokens).0) >= st.touchs
  {
  }

  /** "fault +" moves the shown total one up exactly when the faults are not below -1; "fault -" moves it one
      down exactly when there is a fault, or a touch and no negative faults. */
  lemma FaultStepIff(st: Status, tag: string)
    requires st.touchs >= 0
    ensures Total(Exec(st, [tag, "fault", "+"]).0) == Total(st) + 1 <==> st.faults >= -1
    ensures Total(Exec(st, [tag, "fault"]).0) == Total(st) + 1 <==> st.faults >= -1
    ensures Total(Exec(st, [tag, "fault", "-"]).0) == Total(st) - 1 <==> st.faults > 0 || (st.faults == 0 && st.touchs > 0)
    ensures Sane(st) ==> (Total(Exec(st, [tag, "fault", "-"]).0) == Total(st) - 1 <==> Total(st) > 0)
  {
    hide Atoi;
  }

  /** After a score with a total below the touches, "fault -" shows one less than the touches: more than
      before exactly when the total was below that. */
  lemma LowScoreThenMinus(st: Status, tag: string, arg: string)
    requires Deliverable([tag, "data", arg]) && st.touchs > 0 && GivenTotal(arg) < st.touchs
    ensures var st1 := Exec(st, [tag, "data", arg]).0; var st2 := Exec(st1, [tag, "fault", "-"]).0;
      Total(st1) == GivenTotal(arg) && Total(st2) == st.touchs - 1 && (Total(st2) > Total(st1) <==> GivenTotal(arg) < st.touchs - 1)
  {
    hide Atoi, IndexOf;
  }

  // ---- what each spelling of an argument does

  lemma NumberIsNoSign(n: int)
    ensures Decimal(n) != "+" && Decimal(n) != "-"
  {
    hide Digits;
    var d := Decimal(n);
    if n < 0 {
      assert |d| >= 2;
    } else {
      assert IsDigit(d[0]);
    }
  }

  /** "start" with a time sets it, without one it sets zero; "int" and "stop" set theirs once a start is known,
      and are refused before it and without a time. */
  lemma TimesAre(st: Status, tag: string, t: int)
    ensures Exec(st, [tag, "start", Decimal(t)]) == (st.(startTime := t), true)
    ensures Exec(st, [tag, "start"]) == (st.(startTime := 0), true)
    ensures Exec(st, [tag, "int", Decimal(t)]) == if st.startTime >= 0 then (st.(intTime := t), true) else (st, false)
    ensures Exec(st, [tag, "stop", Decimal(t)]) == if st.startTime >= 0 then (st.(stopTime := t), true) else (st, false)
    ensures Exec(st, [tag, "int"]) == Exec(st, [tag, "stop"]) == Exec(st, [tag, "data"]) == (st, false)
  {
    hide Atoi, Decimal;
    AtoiDecimal(t);
  }

  /** "+" or nothing adds a fault; "-" takes one away, then a touch, and nothing where there is neither; a
      number not below the touches makes up for what the touches leave. */
  lemma FaultsAre(st: Status, tag: string, n: int)
    requires st.faults >= 0 && st.touchs >= 0
    ensures Exec(st, [tag, "fault", "+"]) == Exec(st, [tag, "fault"]) == (st.(faults := st.faults + 1), true)
    ensures st.faults > 0 ==> Exec(st, [tag, "fault", "-"]) == (st.(faults := st.faults - 1), true)
    ensures st.faults == 0 && st.touchs > 0 ==> Exec(st, [tag, "fault", "-"]) == (st.(touchs := st.touchs - 1), true)
    ensures st.faults == 0 && st.touchs == 0 ==> Exec(st, [tag, "fault", "-"]) == (st, true)
    ensures Exec(st, [tag, "fault", Decimal(n)]) == (st.(faults := if n >= st.touchs then n - st.touchs else 0), true)
  {
    hide Atoi, Decimal;
    NumberIsNoSign(n);
    AtoiDecimal(n);
  }

  /** Refusals: one more, one less but not below none, or the number given. */
  lemma RefusalsAre(st: Status, tag: string, n: nat)
    requires st.refusals >= 0
    ensures Exec(st, [tag, "refusal", "+"]) == Exec(st, [tag, "refusal"]) == (st.(refusals := st.refusals + 1), true)
    ensures Exec(st, [tag, "refusal", "-"]) == (if st.refusals > 0 then st.(refusals := st.refusals - 1) else st, true)
    ensures Exec(st, [tag, "refusal", Decimal(n)]) == (st.(refusals := n), true)
    ensures Exec(st, [tag, "refusal", Decimal(0 - n)]) == (st.(refusals := 0), true)
  {
    hide Atoi, Decimal;
    NumberIsNoSign(n);
    NumberIsNoSign(0 - n);
    AtoiDecimal(n);
    AtoiDecimal(0 - n);
  }

  /** The same for the number of the dog. */
  lemma TurnsAre(st: Status, tag: string, n: nat)
    requires st.numero >= 0
    ensures Exec(st, [tag, "turn", "+"]) == Exec(st, [tag, "turn"]) == (st.(numero := st.numero + 1), true)
    ensures Exec(st, [tag, "turn", "-"]) == (if st.numero > 0 then st.(numero := st.numero - 1) else st, true)
    ensures Exec(st, [tag, "turn", Decimal(n)]) == (st.(numero := n), true)
    ensures Exec(st, [tag, "turn", Decimal(0 - n)]) == (st.(numero := 0), true)
  {
    hide Atoi, Decimal;
    NumberIsNoSign(n);
    NumberIsNoSign(0 - n);
    AtoiDecimal(n);
    AtoiDecimal(0 - n);
  }

  /** The brightness moves one step within 0 to 9, and a number is taken to the nearest of these. */
  lemma BrightnessIs(st: Status, tag: string, n: int)
    requires 0 <= st.bright <= 9
    ensures Exec(st, [tag, "bright", "+"]) == Exec(st, [tag, "bright"])
    ensures Exec(st, [tag, "bright", "+"]) == (if st.bright < 9 then st.(bright := st.bright + 1) else st, true)
    ensures Exec(st, [tag, "bright", "-"]) == (if st.bright > 0 then st.(bright := st.bright - 1) else st, true)
    ensures 0 <= n <= 9 ==> Exec(st, [tag, "bright", Decimal(n)]) == (st.(bright := n), true)
    ensures n < 0 ==> Exec(st, [tag, "bright", Decimal(n)]) == (st.(bright := 0), true)
    ensures n > 9 ==> Exec(st, [tag, "bright", Decimal(n)]) == (st.(bright := 9), true)
  {
    hide Atoi, Decimal;
    NumberIsNoSign(n);
    AtoiDecimal(n);
  }

  /** "elim" eliminates, alone, with "+" or with any number but zero; "-" and zero take it back. */
  lemma EliminationIs(st: Status, tag: string, n: int)
    ensures Exec(st, [tag, "elim"]) == Exec(st, [tag, "elim", "+"]) == (st.(eliminated := 1), true)
    ensures Exec(st, [tag, "elim", "-"]) == Exec(st, [tag, "elim", Decimal(0)]) == (st.(eliminated := 0), true)
    ensures n != 0 ==> Exec(st, [tag, "elim", Decimal(n)]) == (st.(eliminated := 1), true)
  {
    hide Atoi, Decimal;
    NumberIsNoSign(n);
    NumberIsNoSign(0);
    AtoiDecimal(n);
    AtoiDecimal(0);
  }
}
