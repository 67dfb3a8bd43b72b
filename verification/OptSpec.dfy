/** What an option scanner means, read off the original argument list from left to right and
    without moving anything: the reference that the permuting scanner is proved against. */
module OptSpec {
  import opened CBase
  import opened LongOptions

  // What happens at a word that is not an option.
  datatype Mode = Permute | InOrder | StopAtFirst

  const BADCH: int := '?' as int
  const INORDER := 1

  /** options is the option-letter string without its leading '+' or '-'. */
  datatype Config = Config(options: string, longs: Option<seq<LongOption>>, longOnly: bool, mode: Mode)

  // src/getopt.c:354-359: mode and letters from the caller's option string and flags.
  function MakeConfig(options: string, longs: Option<seq<LongOption>>, permute: bool, longOnly: bool, posix: bool): Config {
    var minus, plus := options != "" && options[0] == '-', options != "" && options[0] == '+';
    Config(if minus || plus then options[1..] else options, longs, longOnly,
           if minus then InOrder else if posix || plus || !permute then StopAtFirst else Permute)
  }

  /** getopt_long gives the caller -1 for "no more options", so no long option may carry it. */
  ghost predicate Usable(cfg: Config) {
    cfg.longs.Some? ==> forall o :: o in cfg.longs.value ==> o.val != -1
  }

  function CharAt(s: string, i: nat): char {
    if i < |s| then s[i] else NUL
  }

  function BadArg(cfg: Config): int {
    if CharAt(cfg.options, 0) == ':' then ':' as int else '?' as int
  }

  predicate IsNonOption(cfg: Config, word: string) {
    word == "" || word[0] != '-' || (word == "-" && '-' !in cfg.options)
  }

  /** The effect of handling one option: result, argument, letters still to read in the word, and
      how many words are used up (0 while letters remain). optopt is None when left alone;
      starved says that an argument was wanted and the words had run out. */
  datatype Elem = Elem(ret: int, optarg: Option<string>, place: string, used: nat,
                       index: Option<nat>, store: Option<(nat, int)>, optopt: Option<int>, starved: bool)

  function Plain(ret: int, optarg: Option<string>, place: string, used: nat): Elem {
    Elem(ret, optarg, place, used, None, None, None, false)
  }

  function Complaint(ret: int, optopt: int, place: string, used: nat): Elem {
    Elem(ret, None, place, used, None, None, Some(optopt), false)
  }

  function Missing(cfg: Config, optopt: int, used: nat): Elem {
    Elem(BadArg(cfg), None, "", used, None, None, Some(optopt), true)
  }

  // parse_long_options (src/getopt.c:199-321) on text standing in word words[0].
  function LongElem(cfg: Config, longs: seq<LongOption>, text: string, words: seq<string>, shortToo: bool): Elem
    requires words != []
  {
    var eq := IndexOf(text, '=');
    var arg := if eq < |text| then Some(text[eq + 1..]) else None;
    match Resolve(longs, text[..eq], shortToo)
    case Ambiguous => Complaint(BADCH, 0, "", 1)
    case Unknown => if shortToo then Plain(-1, None, "", 0) else Complaint(BADCH, 0, "", 1)
    case Match(m) =>
      ResolveInRange(longs, text[..eq], shortToo);
      LongUse(cfg, longs[m], m, arg, words)
  }

  // The entry found, with the argument attached by '=', if any.
  function LongUse(cfg: Config, o: LongOption, m: nat, arg: Option<string>, words: seq<string>): Elem
    requires words != []
  {
    var optopt := if o.flag.None? then o.val else 0;
    if o.hasArg == NO_ARGUMENT && arg.Some? then Complaint(BadArg(cfg), optopt, "", 1)
    else if o.hasArg == REQUIRED_ARGUMENT && arg.None? && |words| == 1 then Missing(cfg, optopt, 1)
    else
      var next := o.hasArg == REQUIRED_ARGUMENT && arg.None?;
      Elem(if o.flag.Some? then 0 else o.val,
           if next then Some(words[1])
           else if o.hasArg == REQUIRED_ARGUMENT || o.hasArg == OPTIONAL_ARGUMENT then arg else None,
           "", if next then 2 else 1, Some(m),
           if o.flag.Some? then Some((o.flag.value, o.val)) else None, None, false)
  }

  lemma ResolveInRange(longs: seq<LongOption>, name: string, shortToo: bool)
    ensures Resolve(longs, name, shortToo).Match? ==> Resolve(longs, name, shortToo).index < |longs|
  {
    ResolveIsRight(longs, name, shortToo);
  }

  // Whether the rest of a word is tried as a long option (src/getopt.c:446-447).
  predicate TriesLong(cfg: Config, place: string, loneDash: bool) {
    cfg.longs.Some? && !loneDash && (CharAt(place, 0) == '-' || cfg.longOnly)
  }

  predicate ShortToo(cfg: Config, place: string) {
    CharAt(place, 0) != '-' && CharAt(place, 0) != ':' && CharAt(place, 0) in cfg.options
  }

  function LongText(place: string): string
    requires place != ""
  {
    if place[0] == '-' then place[1..] else place
  }

  // One option, at the letters place of word words[0] (src/getopt.c:446-517).
  function ElemAt(cfg: Config, place: string, loneDash: bool, words: seq<string>): Elem
    requires place != "" && words != []
  {
    if TriesLong(cfg, place, loneDash) then
      var e := LongElem(cfg, cfg.longs.value, LongText(place), words, ShortToo(cfg, place));
      if e.ret != -1 then e else ShortElem(cfg, place, words)
    else ShortElem(cfg, place, words)
  }

  function ShortElem(cfg: Config, place: string, words: seq<string>): Elem
    requires place != "" && words != []
  {
    var c, rest := place[0], place[1..];
    var done := if rest == "" then 1 else 0;
    if c == ':' || (c == '-' && rest != "") || c !in cfg.options then
      if c == '-' && rest == "" then Plain(-1, None, "", 0) else Complaint(BADCH, c as int, rest, done)
    else
      var i := IndexOf(cfg.options, c);
      var kind := CharAt(cfg.options, i + 1);
      if cfg.longs.Some? && c == 'W' && kind == ';' then
        if rest != "" then LongElem(cfg, cfg.longs.value, rest, words, false)
        else if |words| == 1 then Missing(cfg, c as int, 1)
        else
          var e := LongElem(cfg, cfg.longs.value, words[1], words[1..], false);
          e.(used := e.used + 1)
      else if kind != ':' then Plain(c as int, None, rest, done)
      else if rest != "" then Plain(c as int, Some(rest), "", 1)
      else if CharAt(cfg.options, i + 2) == ':' then Plain(c as int, None, "", 1)
      else if |words| == 1 then Missing(cfg, c as int, 1)
      else Plain(c as int, Some(words[1]), "", 2)
  }

  // Either letters of the word remain, or at least the word is used up, or the scan is stuck
  // at a '-' that ends a cluster of letters.
  lemma ElemProgress(cfg: Config, place: string, loneDash: bool, words: seq<string>)
    requires place != "" && words != [] && Usable(cfg)
    ensures var e := ElemAt(cfg, place, loneDash, words);
      if e.ret == -1 then e.place == "" && e.used == 0
      else (e.place != "" && e.used == 0 && |e.place| < |place|) || (e.place == "" && 1 <= e.used <= |words|)
  {
    if TriesLong(cfg, place, loneDash) {
      LongProgress(cfg, LongText(place), words, ShortToo(cfg, place));
    }
    ShortProgress(cfg, place, words);
  }

  lemma LongProgress(cfg: Config, text: string, words: seq<string>, shortToo: bool)
    requires words != [] && Usable(cfg) && cfg.longs.Some?
    ensures var e := LongElem(cfg, cfg.longs.value, text, words, shortToo);
      e.place == "" && (e.ret == -1 ==> shortToo && e == Plain(-1, None, "", 0)) && (e.ret != -1 ==> 1 <= e.used <= |words|)
  {
    ResolveInRange(cfg.longs.value, text[..IndexOf(text, '=')], shortToo);
  }

  lemma ShortProgress(cfg: Config, place: string, words: seq<string>)
    requires place != "" && words != [] && Usable(cfg)
    ensures var e := ShortElem(cfg, place, words);
      if e.ret == -1 then e.place == "" && e.used == 0 && place == "-" && '-' !in cfg.options
      else (e.place != "" && e.used == 0 && |e.place| < |place|) || (e.place == "" && 1 <= e.used <= |words|)
  {
    if cfg.longs.Some? {
      if |place| > 1 {
        LongProgress(cfg, place[1..], words, false);
      } else if |words| > 1 {
        LongProgress(cfg, words[1], words[1..], false);
      }
    }
  }

  /** What the caller of getopt_long sees of one call: the result, optarg, the table entry if one
      was named, what was stored through its flag address, and optopt if it was set. */
  datatype Result = Result(ret: int, optarg: Option<string>, index: Option<nat>, store: Option<(nat, int)>, optopt: Option<int>)

  function Seen(e: Elem): Result {
    Result(e.ret, e.optarg, e.index, e.store, e.optopt)
  }

  function InOrderResult(word: string): Result {
    Result(INORDER, Some(word), None, None, None)
  }

  /** A whole scan: what the caller sees call by call; the option words, the skipped words and the
      words never looked at; and whether it stopped at a '-' ending a cluster. */
  datatype Outcome = Outcome(results: seq<Result>, opts: seq<string>, nonopts: seq<string>, rest: seq<string>, stuck: bool)

  function Prepend(results: seq<Result>, opts: seq<string>, nonopts: seq<string>, o: Outcome): Outcome {
    o.(results := results + o.results, opts := opts + o.opts, nonopts := nonopts + o.nonopts)
  }

  // Letters left to read in the current word: a word not yet opened counts in full.
  function LettersLeft(place: string, words: seq<string>): nat {
    if place == "" && words != [] then 1 + |words[0]| else |place|
  }

  function Scan(cfg: Config, place: string, words: seq<string>): Outcome
    requires Usable(cfg) && (place != "" ==> words != [])
    decreases |words|, LettersLeft(place, words), 1
  {
    if place != "" then ScanElem(cfg, place, false, words)
    else if words == [] then Outcome([], [], [], [], false)
    else if IsNonOption(cfg, words[0]) then
      match cfg.mode
      case Permute => Prepend([], [], [words[0]], Scan(cfg, "", words[1..]))
      case InOrder => Prepend([InOrderResult(words[0])], [words[0]], [], Scan(cfg, "", words[1..]))
      case StopAtFirst => Outcome([], [], [], words, false)
    else if words[0] == "--" then Outcome([], ["--"], [], words[1..], false)
    else if words[0] == "-" then ScanElem(cfg, "-", true, words)
    else ScanElem(cfg, words[0][1..], false, words)
  }

  function ScanElem(cfg: Config, place: string, loneDash: bool, words: seq<string>): Outcome
    requires Usable(cfg) && place != "" && words != []
    decreases |words|, |place|, 0
  {
    var e := ElemAt(cfg, place, loneDash, words);
    ElemProgress(cfg, place, loneDash, words);
    if e.ret == -1 then Outcome([], [], [], words, true)
    else Prepend([Seen(e)], words[..e.used], [], Scan(cfg, e.place, words[e.used..]))
  }

  // The cases of Scan at a word boundary, one by one.
  lemma ScanAtEnd(cfg: Config)
    requires Usable(cfg)
    ensures Scan(cfg, "", []) == Outcome([], [], [], [], false)
  {
  }

  lemma ScanNonOption(cfg: Config, words: seq<string>)
    requires Usable(cfg) && words != [] && IsNonOption(cfg, words[0])
    ensures cfg.mode == Permute ==> Scan(cfg, "", words) == Prepend([], [], [words[0]], Scan(cfg, "", words[1..]))
    ensures cfg.mode == InOrder ==>
      Scan(cfg, "", words) == Prepend([InOrderResult(words[0])], [words[0]], [], Scan(cfg, "", words[1..]))
    ensures cfg.mode == StopAtFirst ==> Scan(cfg, "", words) == Outcome([], [], [], words, false)
  {
  }

  lemma ScanOption(cfg: Config, words: seq<string>)
    requires Usable(cfg) && words != [] && !IsNonOption(cfg, words[0])
    ensures words[0] == "--" ==> Scan(cfg, "", words) == Outcome([], ["--"], [], words[1..], false)
    ensures words[0] == "-" ==> Scan(cfg, "", words) == ScanElem(cfg, "-", true, words)
    ensures words[0] != "--" && words[0] != "-" ==> Scan(cfg, "", words) == ScanElem(cfg, words[0][1..], false, words)
  {
  }

  lemma ScanInside(cfg: Config, place: string, words: seq<string>)
    requires Usable(cfg) && words != [] && place != ""
    ensures Scan(cfg, place, words) == ScanElem(cfg, place, false, words)
  {
  }

  lemma PrependTwice(r: seq<Result>, o: seq<string>, n: seq<string>, r': seq<Result>, o': seq<string>, n': seq<string>, out: Outcome)
    ensures Prepend(r, o, n, Prepend(r', o', n', out)) == Prepend(r + r', o + o', n + n', out)
  {
    assert r + (r' + out.results) == (r + r') + out.results;
    assert o + (o' + out.opts) == (o + o') + out.opts;
    assert n + (n' + out.nonopts) == (n + n') + out.nonopts;
  }
}
