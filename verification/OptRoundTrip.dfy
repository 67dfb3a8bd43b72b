/** What the calls return: option letters are declared, options are written in any of their spellings with
    operands between them, and the scan of the words returns the options as meant, call by call. */
module OptRoundTrip {
  import opened CBase
  import opened LongOptions
  import opened OptSpec
  import OptScan

  // ---- the caller's option string

  datatype Kind = No | Required | Optional | Wide

  // A letter and what argument it takes; Wide is the "W;" that makes "-W name" a long option.
  datatype Decl = Decl(letter: char, kind: Kind)

  function Mark(kind: Kind): string {
    match kind case No => "" case Required => ":" case Optional => "::" case Wide => ";"
  }

  function Letters(decls: seq<Decl>): string {
    if decls == [] then "" else [decls[0].letter] + Mark(decls[0].kind) + Letters(decls[1..])
  }

  datatype Setup = Setup(prefix: string, quiet: bool, decls: seq<Decl>, longs: Option<seq<LongOption>>,
                         permute: bool, longOnly: bool, posix: bool)

  function OptionString(u: Setup): string {
    u.prefix + Quiet(u) + Letters(u.decls)
  }

  function Quiet(u: Setup): string { if u.quiet then ":" else "" }

  predicate Declares(decls: seq<Decl>, letter: char, kind: Kind) {
    exists k :: 0 <= k < |decls| && decls[k] == Decl(letter, kind)
  }

  predicate GoodDecls(decls: seq<Decl>) {
    && (forall i :: 0 <= i < |decls| ==> decls[i].letter !in ":;-" && (decls[i].kind == Wide ==> decls[i].letter == 'W'))
    && (forall i, j :: 0 <= i < j < |decls| ==> decls[i].letter != decls[j].letter)
  }

  ghost predicate GoodSetup(u: Setup) {
    && (u.prefix == "" || u.prefix == "+" || u.prefix == "-") && GoodDecls(u.decls)
    && (u.prefix == "" && !u.quiet && u.decls != [] ==> u.decls[0].letter != '+')
    && (Declares(u.decls, 'W', Wide) ==> u.longs.Some?)
    && (u.longs.Some? ==> forall o :: o in u.longs.value ==> o.val != -1)
  }

  function ConfigOf(u: Setup): Config {
    MakeConfig(OptionString(u), u.longs, u.permute, u.longOnly, u.posix)
  }

  function ModeOf(u: Setup): Mode {
    if u.prefix == "-" then InOrder
    else if u.prefix == "+" then StopAtFirst
    else if u.posix then StopAtFirst
    else if u.permute then Permute else StopAtFirst
  }

  lemma FirstLetter(decls: seq<Decl>)
    ensures Letters(decls) != "" ==> decls != [] && Letters(decls)[0] == decls[0].letter
  {
  }

  /** A leading '-' asks for operands in order; otherwise '+', POSIXLY_CORRECT or the flag ask to stop at the
      first; the letters are what follows. */
  lemma ConfigIs(u: Setup)
    requires GoodSetup(u)
    ensures ConfigOf(u) == Config(Quiet(u) + Letters(u.decls), u.longs, u.longOnly, ModeOf(u))
  {
    hide Letters, GoodDecls, Declares;
    var s := Quiet(u) + Letters(u.decls);
    FirstLetter(u.decls);
    var o := OptionString(u);
    assert o == u.prefix + s;
    if u.prefix == "" {
      BareString(u);
      assert o == s;
    } else {
      assert o != "" && o[0] == u.prefix[0] && o[1..] == s;
    }
  }

  lemma BareString(u: Setup)
    requires GoodSetup(u) && u.prefix == ""
    ensures var s := Quiet(u) + Letters(u.decls); s != "" ==> s[0] != '-' && s[0] != '+'
  {
    hide Letters;
    FirstLetter(u.decls);
    assert "" + Letters(u.decls) == Letters(u.decls);
  }

  // ---- finding a letter

  lemma {:induction false} IndexSkip(a: string, b: string, c: char)
    requires c !in a
    ensures IndexOf(a + b, c) == |a| + IndexOf(b, c)
    decreases |a|
  {
    if a == "" {
      assert a + b == b;
    } else {
      assert a[0] in a && (a + b)[1..] == a[1..] + b;
      IndexSkip(a[1..], b, c);
    }
  }

  // What the scanner sees at the letter.
  predicate KindSeen(options: string, letter: char, kind: Kind) {
    var i := IndexOf(options, letter);
    && i < |options|
    && match kind
       case No => CharAt(options, i + 1) !in ":;"
       case Required => CharAt(options, i + 1) == ':' && CharAt(options, i + 2) != ':'
       case Optional => CharAt(options, i + 1) == ':' && CharAt(options, i + 2) == ':'
       case Wide => CharAt(options, i + 1) == ';'
  }

  lemma KindSkip(front: string, options: string, letter: char, kind: Kind)
    requires letter !in front && KindSeen(options, letter, kind)
    ensures KindSeen(front + options, letter, kind)
  {
    IndexSkip(front, options, letter);
  }

  lemma {:induction false} KindInLetters(decls: seq<Decl>, letter: char, kind: Kind)
    requires GoodDecls(decls) && Declares(decls, letter, kind)
    ensures KindSeen(Letters(decls), letter, kind)
  {
    var d, rest := decls[0], Letters(decls[1..]);
    if d.letter == letter {
      assert d.kind == kind;
      assert rest != "" ==> rest[0] == decls[1..][0].letter;
      assert Letters(decls) == [letter] + (Mark(kind) + rest);
      HeadKind(letter, kind, rest);
    } else {
      var k :| 0 <= k < |decls| && decls[k] == Decl(letter, kind);
      assert decls[1..][k - 1] == Decl(letter, kind);
      KindInLetters(decls[1..], letter, kind);
      assert letter !in [d.letter] + Mark(d.kind);
      KindSkip([d.letter] + Mark(d.kind), rest, letter, kind);
    }
  }

  lemma HeadKind(letter: char, kind: Kind, rest: string)
    requires rest != "" ==> rest[0] !in ":;"
    ensures KindSeen([letter] + (Mark(kind) + rest), letter, kind)
  {
    var s := [letter] + (Mark(kind) + rest);
    assert IndexOf(s, letter) == 0;
    assert CharAt(s, 1) == CharAt(Mark(kind) + rest, 0) && CharAt(s, 2) == CharAt(Mark(kind) + rest, 1);
  }

  lemma KindOf(u: Setup, letter: char, kind: Kind)
    requires GoodSetup(u) && Declares(u.decls, letter, kind)
    ensures KindSeen(ConfigOf(u).options, letter, kind) && letter != ':' && letter != '-'
    ensures kind == Wide ==> letter == 'W'
  {
    hide KindSeen, MakeConfig, Letters;
    ConfigIs(u);
    KindInLetters(u.decls, letter, kind);
    KindSkip(Quiet(u), Letters(u.decls), letter, kind);
  }

  predicate Undeclared(u: Setup, c: char) {
    && (forall k :: 0 <= k < |u.decls| ==> u.decls[k].letter != c)
    && c != '-' && (c == ';' ==> !Declares(u.decls, 'W', Wide))
  }

  lemma {:induction false} NotInLetters(decls: seq<Decl>, c: char)
    requires forall k :: 0 <= k < |decls| ==> decls[k].letter != c
    requires c != ':' && (c == ';' ==> forall k :: 0 <= k < |decls| ==> decls[k].kind != Wide)
    ensures c !in Letters(decls)
  {
    if decls != [] {
      NotInLetters(decls[1..], c);
    }
  }

  lemma NotInOptions(u: Setup, c: char)
    requires GoodSetup(u) && Undeclared(u, c)
    ensures c == ':' || c !in ConfigOf(u).options
  {
    hide MakeConfig, Letters;
    ConfigIs(u);
    if c != ':' {
      NotInLetters(u.decls, c);
    }
  }

  lemma DashNotInOptions(u: Setup)
    requires GoodSetup(u)
    ensures '-' !in ConfigOf(u).options
  {
    hide MakeConfig, Letters;
    ConfigIs(u);
    NotInLetters(u.decls, '-');
  }

  // ---- options as they are written

  // The argument of a long option: none, behind '=', or the next word.
  datatype Given = Bare | Equals(v: string) | Next(v: string)

  // index is the table entry meant.
  datatype LongName = LongName(name: string, index: nat, given: Given)

  /** How a cluster of letters ends: with the letters, or with one that has an argument; and where long names
      may have one dash (getopt_long_only), with a long option, a name refused, or an argument too many. */
  datatype End = Done | Glued(letter: char, v: string) | Apart(letter: char, v: string) | Omitted(letter: char)
               | WideGlued(long: LongName) | WideApart(long: LongName) | Named(long: LongName)
               | NameRefused(name: string, more: string) | NameSurplus(name: string, index: nat, v: string)

  /** One entry of a command line: an operand; a cluster of letters; a long option; a long name that is
      unknown or ambiguous; an argument given to a long option that takes none. */
  datatype Item = Operand(text: string) | Cluster(letters: string, end: End) | Dashed(long: LongName)
                | Refused(name: string, more: string) | Surplus(name: string, index: nat, v: string)

  /** How the line ends; an option may lack its argument. */
  datatype Last = Complete | Dashes(words: seq<string>) | StarvedShort(letters: string, letter: char)
                | StarvedLong(name: string, index: nat) | StarvedWide(letters: string, name: string, index: nat, glued: bool)
                | StarvedNamed(letters: string, name: string, index: nat)

  function Body(ln: LongName): string {
    ln.name + if ln.given.Equals? then "=" + ln.given.v else ""
  }

  function NextWord(ln: LongName): seq<string> {
    if ln.given.Next? then [ln.given.v] else []
  }

  function EndText(end: End): string {
    match end
    case Done => ""
    case Glued(c, v) => [c] + v
    case Apart(c, _) => [c]
    case Omitted(c) => [c]
    case WideGlued(ln) => "W" + Body(ln)
    case WideApart(_) => "W"
    case Named(ln) => Body(ln)
    case NameRefused(name, more) => name + more
    case NameSurplus(name, _, v) => name + ("=" + v)
  }

  function WideTail(name: string, glued: bool): string {
    if glued then "W" + name else "W"
  }

  function EndWords(end: End): seq<string> {
    match end
    case Apart(_, v) => [v]
    case WideGlued(ln) => NextWord(ln)
    case WideApart(ln) => [Body(ln)] + NextWord(ln)
    case Named(ln) => NextWord(ln)
    case _ => []
  }

  function ItemWords(it: Item): seq<string> {
    match it
    case Operand(text) => [text]
    case Cluster(letters, end) => ["-" + (letters + EndText(end))] + EndWords(end)
    case Dashed(ln) => ["--" + Body(ln)] + NextWord(ln)
    case Refused(name, more) => ["--" + (name + more)]
    case Surplus(name, _, v) => ["--" + (name + ("=" + v))]
  }

  function LastWords(last: Last): seq<string> {
    match last
    case Complete => []
    case Dashes(words) => ["--"] + words
    case StarvedShort(letters, c) => ["-" + (letters + [c])]
    case StarvedLong(name, _) => ["--" + name]
    case StarvedWide(letters, name, _, glued) =>
      ["-" + (letters + WideTail(name, glued))] + if glued then [] else [name]
    case StarvedNamed(letters, name, _) => ["-" + (letters + name)]
  }

  function AllWords(items: seq<Item>, last: Last): seq<string> {
    if items == [] then LastWords(last) else ItemWords(items[0]) + AllWords(items[1..], last)
  }

  // ---- what may be written

  predicate GoodLetters(u: Setup, letters: string) {
    forall k :: 0 <= k < |letters| ==> Declares(u.decls, letters[k], No) || Undeclared(u, letters[k])
  }

  /** With long names behind one dash, letters are read as letters where the text from there on, up to '=', is
      no name of the table, and its first character is declared. */
  ghost predicate ReadsShort(u: Setup, place: string)
    requires place != ""
  {
    u.longOnly && u.longs.Some? ==> !Undeclared(u, place[0]) && Resolves(u.longs.value, place[..IndexOf(place, '=')], true, Unknown)
  }

  ghost predicate AllShort(u: Setup, letters: string, tail: string)
    decreases letters
  {
    letters == "" || (ReadsShort(u, letters + tail) && AllShort(u, letters[1..], tail))
  }

  // Without such names that is no limit.
  lemma {:induction false} LettersAlways(u: Setup, letters: string, tail: string)
    requires !u.longOnly || u.longs.None?
    ensures AllShort(u, letters, tail)
    decreases letters
  {
    if letters != "" {
      LettersAlways(u, letters[1..], tail);
    }
  }

  // Whether a name behind one dash might be a letter: a single character then abbreviates nothing.
  predicate MayBeShort(u: Setup, name: string)
    requires name != ""
  {
    !Undeclared(u, name[0])
  }

  ghost predicate Means(u: Setup, name: string, shortToo: bool, index: nat) {
    && u.longs.Some? && index < |u.longs.value| && name != "" && '=' !in name
    && Resolves(u.longs.value, name, shortToo, Match(index))
  }

  ghost predicate GoodLong(u: Setup, ln: LongName, shortToo: bool) {
    && Means(u, ln.name, shortToo, ln.index)
    && var hasArg := u.longs.value[ln.index].hasArg;
       match ln.given
       case Bare => hasArg == 0 || hasArg == 2
       case Equals(_) => hasArg == 1 || hasArg == 2
       case Next(_) => hasArg == 1
  }

  // Ambiguous or unknown; but an unknown one that may be a letter is read as that.
  ghost predicate GoodRefused(u: Setup, name: string, more: string, shortToo: bool) {
    && u.longs.Some? && name != "" && '=' !in name && (more == "" || more[0] == '=')
    && ((!shortToo && Resolves(u.longs.value, name, false, Unknown)) || Resolves(u.longs.value, name, shortToo, Ambiguous))
  }

  ghost predicate GoodSurplus(u: Setup, name: string, index: nat, shortToo: bool) {
    Means(u, name, shortToo, index) && u.longs.value[index].hasArg == 0
  }

  // A name behind one dash.
  predicate OneDash(u: Setup, name: string) { u.longOnly && name != "" && name[0] != '-' }

  ghost predicate GoodEnd(u: Setup, end: End) {
    match end
    case Done => true
    case Glued(c, v) => (Declares(u.decls, c, Required) || Declares(u.decls, c, Optional)) && v != "" && ReadsShort(u, [c] + v)
    case Apart(c, v) => Declares(u.decls, c, Required) && ReadsShort(u, [c])
    case Omitted(c) => Declares(u.decls, c, Optional) && ReadsShort(u, [c])
    case WideGlued(ln) => Declares(u.decls, 'W', Wide) && GoodLong(u, ln, false) && ReadsShort(u, "W" + Body(ln))
    case WideApart(ln) => Declares(u.decls, 'W', Wide) && GoodLong(u, ln, false) && ReadsShort(u, "W")
    case Named(ln) => OneDash(u, ln.name) && GoodLong(u, ln, MayBeShort(u, ln.name))
    case NameRefused(name, more) => OneDash(u, name) && GoodRefused(u, name, more, MayBeShort(u, name))
    case NameSurplus(name, index, _) => OneDash(u, name) && GoodSurplus(u, name, index, MayBeShort(u, name))
  }

  ghost predicate GoodItem(u: Setup, it: Item) {
    match it
    case Operand(text) => text == "" || text[0] != '-' || text == "-"
    case Cluster(letters, end) =>
      GoodLetters(u, letters) && AllShort(u, letters, EndText(end)) && GoodEnd(u, end) && letters + EndText(end) != ""
    case Dashed(ln) => GoodLong(u, ln, false)
    case Refused(name, more) => GoodRefused(u, name, more, false)
    case Surplus(name, index, _) => GoodSurplus(u, name, index, false)
  }

  ghost predicate GoodLast(u: Setup, last: Last) {
    match last
    case Complete => true
    case Dashes(_) => true
    case StarvedShort(letters, c) =>
      && GoodLetters(u, letters) && AllShort(u, letters, [c]) && ReadsShort(u, [c])
      && (Declares(u.decls, c, Required) || Declares(u.decls, c, Wide))
    case StarvedLong(name, index) => Means(u, name, false, index) && u.longs.value[index].hasArg == 1
    case StarvedWide(letters, name, index, glued) =>
      && GoodLetters(u, letters) && AllShort(u, letters, WideTail(name, glued)) && ReadsShort(u, WideTail(name, glued))
      && Declares(u.decls, 'W', Wide) && Means(u, name, false, index) && u.longs.value[index].hasArg == 1
    case StarvedNamed(letters, name, index) =>
      && GoodLetters(u, letters) && AllShort(u, letters, name) && OneDash(u, name)
      && Means(u, name, MayBeShort(u, name), index) && u.longs.value[index].hasArg == 1
  }

  ghost predicate GoodLine(u: Setup, items: seq<Item>, last: Last) {
    GoodSetup(u) && (forall k :: 0 <= k < |items| ==> GoodItem(u, items[k])) && GoodLast(u, last)
  }

  // ---- what is meant by it

  function Letter(c: char): Result { Result(c as int, None, None, None, None) }

  function WithArg(c: char, v: string): Result { Result(c as int, Some(v), None, None, None) }

  // '?' with what is wrong in optopt.
  function Wrong(what: int): Result { Result('?' as int, None, None, None, Some(what)) }

  // ':' instead if the option string asks for it.
  function Lacking(u: Setup, what: int): Result {
    Result(if u.quiet then ':' as int else '?' as int, None, None, None, Some(what))
  }

  function LetterResults(u: Setup, letters: string): seq<Result> {
    if letters == "" then []
    else [if Declares(u.decls, letters[0], No) then Letter(letters[0]) else Wrong(letters[0] as int)] + LetterResults(u, letters[1..])
  }

  // The entry's value, or 0 with the value stored through its flag.
  function LongResult(u: Setup, ln: LongName): Result
    requires u.longs.Some? && ln.index < |u.longs.value|
  {
    var o := u.longs.value[ln.index];
    var arg := match ln.given case Bare => None case Equals(v) => Some(v) case Next(v) => Some(v);
    if o.flag.None? then Result(o.val, arg, Some(ln.index), None, None)
    else Result(0, arg, Some(ln.index), Some((o.flag.value, o.val)), None)
  }

  function Blamed(u: Setup, index: nat): int
    requires u.longs.Some? && index < |u.longs.value|
  {
    if u.longs.value[index].flag.None? then u.longs.value[index].val else 0
  }

  ghost function EndResults(u: Setup, end: End): seq<Result>
    requires GoodEnd(u, end)
  {
    match end
    case Done => []
    case Glued(c, v) => [WithArg(c, v)]
    case Apart(c, v) => [WithArg(c, v)]
    case Omitted(c) => [Letter(c)]
    case WideGlued(ln) => [LongResult(u, ln)]
    case WideApart(ln) => [LongResult(u, ln)]
    case Named(ln) => [LongResult(u, ln)]
    case NameRefused(_, _) => [Wrong(0)]
    case NameSurplus(_, index, _) => [Lacking(u, Blamed(u, index))]
  }

  ghost function ItemResults(u: Setup, it: Item): seq<Result>
    requires GoodItem(u, it)
  {
    match it
    case Operand(text) => if ModeOf(u) == InOrder then [Result(1, Some(text), None, None, None)] else []
    case Cluster(letters, end) => LetterResults(u, letters) + EndResults(u, end)
    case Dashed(ln) => [LongResult(u, ln)]
    case Refused(_, _) => [Wrong(0)]
    case Surplus(_, index, _) => [Lacking(u, Blamed(u, index))]
  }

  ghost function LastResults(u: Setup, last: Last): seq<Result>
    requires GoodLast(u, last)
  {
    match last
    case Complete => []
    case Dashes(_) => []
    case StarvedShort(letters, c) => LetterResults(u, letters) + [Lacking(u, c as int)]
    case StarvedLong(_, index) => [Lacking(u, Blamed(u, index))]
    case StarvedWide(letters, _, index, _) => LetterResults(u, letters) + [Lacking(u, Blamed(u, index))]
    case StarvedNamed(letters, _, index) => LetterResults(u, letters) + [Lacking(u, Blamed(u, index))]
  }

  // An operand at which reading stops.
  predicate StopsAt(u: Setup, it: Item) { it.Operand? && ModeOf(u) == StopAtFirst }

  /** The results of the calls, ... */
  ghost function Results(u: Setup, items: seq<Item>, last: Last): seq<Result>
    requires GoodLine(u, items, last)
  {
    if items == [] then LastResults(u, last)
    else if StopsAt(u, items[0]) then []
    else ItemResults(u, items[0]) + Results(u, items[1..], last)
  }

  /** ... the words that end up as options, ... */
  function OptionWords(u: Setup, items: seq<Item>, last: Last): seq<string> {
    if items == [] then (if last.Dashes? then ["--"] else LastWords(last))
    else if StopsAt(u, items[0]) then []
    else (if items[0].Operand? && ModeOf(u) == Permute then [] else ItemWords(items[0])) + OptionWords(u, items[1..], last)
  }

  /** ... the operands passed over, ... */
  function Operands(u: Setup, items: seq<Item>): seq<string> {
    if items == [] || StopsAt(u, items[0]) then []
    else (if items[0].Operand? && ModeOf(u) == Permute then [items[0].text] else []) + Operands(u, items[1..])
  }

  /** ... and the words not read. */
  function Unread(u: Setup, items: seq<Item>, last: Last): seq<string> {
    if items == [] then (if last.Dashes? then last.words else [])
    else if StopsAt(u, items[0]) then AllWords(items, last)
    else Unread(u, items[1..], last)
  }

  // ---- one option read

  // The scan of words at an option written there, its results and words, and how it goes on.
  ghost predicate Reads(cfg: Config, place: string, words: seq<string>, results: seq<Result>, used: seq<string>, rest: seq<string>)
    requires Usable(cfg)
  {
    && place != "" && words == used + rest && used != []
    && var o := Scan(cfg, "", rest);
       ScanElem(cfg, place, false, words) == Outcome(results + o.results, used + o.opts, o.nonopts, o.rest, o.stuck)
  }

  lemma ElemReads(cfg: Config, place: string, words: seq<string>, e: Elem, used: seq<string>, rest: seq<string>)
    requires Usable(cfg) && place != "" && words == used + rest && used != []
    requires ElemAt(cfg, place, false, words) == e && e.ret != -1 && e.place == "" && e.used == |used|
    ensures Reads(cfg, place, words, [Seen(e)], used, rest)
  {
    hide ElemAt, Scan;
    assert words[..e.used] == used && words[e.used..] == rest;
    var o := Scan(cfg, "", rest);
    assert [] + o.nonopts == o.nonopts;
  }

  // A letter with more behind it.
  lemma LetterReads(cfg: Config, place: string, words: seq<string>, e: Elem, results: seq<Result>, used: seq<string>, rest: seq<string>)
    requires Usable(cfg) && |place| > 1 && words != [] && ElemAt(cfg, place, false, words) == e
    requires e.ret != -1 && e.place == place[1..] && e.used == 0 && Reads(cfg, place[1..], words, results, used, rest)
    ensures Reads(cfg, place, words, [Seen(e)] + results, used, rest)
  {
    hide ElemAt;
    ScanInside(cfg, place[1..], words);
    var o := Scan(cfg, "", rest);
    assert words[..0] == [] && words[0..] == words;
    assert [Seen(e)] + (results + o.results) == [Seen(e)] + results + o.results;
    assert [] + (used + o.opts) == used + o.opts && [] + o.nonopts == o.nonopts;
  }

  // Where the text is no long name, the letter is read.
  lemma ShortOnly(u: Setup, place: string, words: seq<string>)
    requires GoodSetup(u) && place != "" && place[0] != '-' && words != [] && ReadsShort(u, place)
    ensures ElemAt(ConfigOf(u), place, false, words) == ShortElem(ConfigOf(u), place, words)
  {
    hide MakeConfig, ShortElem, LongElem, Undeclared, Resolves, IndexOf;
    ConfigIs(u);
    if u.longOnly && u.longs.Some? {
      DeclaredIsListed(u, place[0]);
      NoLongName(u, place, words);
    }
  }

  lemma DeclaredIsListed(u: Setup, c: char)
    requires GoodSetup(u) && c != '-'
    ensures !Undeclared(u, c) <==> c != ':' && c in ConfigOf(u).options
  {
    hide MakeConfig, Letters, IndexOf;
    if Undeclared(u, c) {
      NotInOptions(u, c);
    } else if c == ';' && Declares(u.decls, 'W', Wide) {
      KindOf(u, 'W', Wide);
    } else {
      var k :| 0 <= k < |u.decls| && u.decls[k].letter == c;
      assert u.decls[k] == Decl(c, u.decls[k].kind);
      KindOf(u, c, u.decls[k].kind);
    }
  }

  lemma NoLongName(u: Setup, place: string, words: seq<string>)
    requires GoodSetup(u) && u.longs.Some? && place != "" && words != []
    requires Resolves(u.longs.value, place[..IndexOf(place, '=')], true, Unknown)
    ensures LongElem(ConfigOf(u), u.longs.value, place, words, true).ret == -1
  {
    hide MakeConfig, Resolve, Resolves, IndexOf;
    var name := place[..IndexOf(place, '=')];
    ResolveIsRight(u.longs.value, name, true);
    ResolvesUnique(u.longs.value, name, true, Unknown, Resolve(u.longs.value, name, true));
  }

  lemma ConfigUsable(u: Setup)
    requires GoodSetup(u)
    ensures Usable(ConfigOf(u)) && ConfigOf(u).longs == u.longs && ConfigOf(u).longOnly == u.longOnly
    ensures BadArg(ConfigOf(u)) == if u.quiet then ':' as int else '?' as int
  {
    hide MakeConfig;
    ConfigIs(u);
    var s := Letters(u.decls);
    assert u.decls != [] ==> s[0] == u.decls[0].letter;
    assert "" + s == s;
  }

  // One letter of a cluster, the last or not.
  lemma PlainLetter(u: Setup, place: string, words: seq<string>)
    requires GoodSetup(u) && place != "" && words != [] && ReadsShort(u, place)
    requires Declares(u.decls, place[0], No) || Undeclared(u, place[0])
    ensures var e := ElemAt(ConfigOf(u), place, false, words);
      && e.ret != -1 && e.place == place[1..] && e.used == (if |place| == 1 then 1 else 0)
      && Seen(e) == LetterResults(u, place[..1])[0]
  {
    hide MakeConfig, LongElem, Letters, IndexOf, Declares;
    var c := place[0];
    ConfigUsable(u);
    assert c != '-' by {
      if Declares(u.decls, c, No) {
        KindOf(u, c, No);
      }
    }
    ShortOnly(u, place, words);
    assert place[..1] == [c] && place[..1][1..] == "";
    if Declares(u.decls, c, No) {
      KindOf(u, c, No);
    } else {
      NotInOptions(u, c);
    }
  }

  // A letter with an argument in any of its spellings, or without the one it may have.
  lemma ArgumentReads(u: Setup, end: End, words: seq<string>, whole: string, rest: seq<string>)
    requires GoodSetup(u) && GoodEnd(u, end) && (end.Glued? || end.Apart? || end.Omitted?)
    requires words == [whole] + EndWords(end) + rest
    ensures Usable(ConfigOf(u)) && Reads(ConfigOf(u), EndText(end), words, EndResults(u, end), [whole] + EndWords(end), rest)
  {
    hide MakeConfig, LongElem, Letters, IndexOf, Declares, Scan, ScanElem, Reads;
    var place := EndText(end);
    var c := end.letter;
    var kind := if Declares(u.decls, c, Required) then Required else Optional;
    ConfigUsable(u);
    KindOf(u, c, kind);
    ShortOnly(u, place, words);
    var e := ElemAt(ConfigOf(u), place, false, words);
    if end.Glued? {
      assert place[1..] == end.v;
    } else {
      assert place[1..] == "";
    }
    if end.Omitted? {
      KindOf(u, c, Optional);
    }
    assert [Seen(e)] == EndResults(u, end);
    ElemReads(ConfigOf(u), place, words, e, [whole] + EndWords(end), rest);
  }

  // ---- long options

  // The name up to '=' and what it resolves to.
  lemma NameResolves(longs: seq<LongOption>, name: string, more: string, shortToo: bool, r: Resolution)
    requires '=' !in name && (more == "" || more[0] == '=') && Resolves(longs, name, shortToo, r)
    ensures var text := name + more;
      IndexOf(text, '=') == |name| && text[..|name|] == name && Resolve(longs, name, shortToo) == r
  {
    hide Resolve, Resolves, IndexOf;
    IndexSkip(name, more, '=');
    assert IndexOf(more, '=') == 0 by {
      EqualsFirst(more);
    }
    ResolveIsRight(longs, name, shortToo);
    ResolvesUnique(longs, name, shortToo, r, Resolve(longs, name, shortToo));
  }

  lemma EqualsFirst(more: string)
    requires more == "" || more[0] == '='
    ensures IndexOf(more, '=') == 0
  {
  }

  // A name that is accepted: what becomes of it is up to the table entry.
  lemma LongElemUses(u: Setup, name: string, more: string, shortToo: bool, index: nat, words: seq<string>)
    requires GoodSetup(u) && Means(u, name, shortToo, index) && (more == "" || more[0] == '=') && words != []
    ensures LongElem(ConfigOf(u), u.longs.value, name + more, words, shortToo)
      == LongUse(ConfigOf(u), u.longs.value[index], index, if more == "" then None else Some(more[1..]), words)
    ensures u.longs.value[index].val != -1
  {
    hide MakeConfig, Resolve, Resolves, IndexOf, LongUse;
    NameResolves(u.longs.value, name, more, shortToo, Match(index));
    assert u.longs.value[index] in u.longs.value;
    if more != "" {
      assert (name + more)[|name| + 1..] == more[1..];
    }
  }

  // A good long option, wherever its text stands.
  lemma LongElemReads(u: Setup, ln: LongName, shortToo: bool, words: seq<string>)
    requires GoodSetup(u) && GoodLong(u, ln, shortToo) && words != [] && (ln.given.Next? ==> |words| > 1 && words[1] == ln.given.v)
    ensures var e := LongElem(ConfigOf(u), u.longs.value, Body(ln), words, shortToo);
      e.ret != -1 && e.place == "" && e.used == 1 + |NextWord(ln)| && Seen(e) == LongResult(u, ln)
  {
    hide MakeConfig, Resolves, LongElem;
    var more := if ln.given.Equals? then "=" + ln.given.v else "";
    LongElemUses(u, ln.name, more, shortToo, ln.index, words);
    if ln.given.Equals? {
      assert more[1..] == ln.given.v;
    }
  }

  // A name that is not accepted, an argument too many, and one too few at the end.
  lemma LongElemFails(u: Setup, name: string, more: string, shortToo: bool, words: seq<string>)
    requires GoodSetup(u) && GoodRefused(u, name, more, shortToo) && words != []
    ensures var e := LongElem(ConfigOf(u), u.longs.value, name + more, words, shortToo);
      e.ret != -1 && e.place == "" && e.used == 1 && Seen(e) == Wrong(0)
  {
    hide MakeConfig, Resolve, Resolves, IndexOf;
    var r := if !shortToo && Resolves(u.longs.value, name, false, Unknown) then Unknown else Ambiguous;
    NameResolves(u.longs.value, name, more, shortToo, r);
  }

  lemma LongElemSurplus(u: Setup, name: string, index: nat, v: string, shortToo: bool, words: seq<string>)
    requires GoodSetup(u) && GoodSurplus(u, name, index, shortToo) && words != []
    ensures var e := LongElem(ConfigOf(u), u.longs.value, name + ("=" + v), words, shortToo);
      e.ret != -1 && e.place == "" && e.used == 1 && Seen(e) == Lacking(u, Blamed(u, index))
  {
    hide MakeConfig, Resolves, LongElem, Letters, GoodDecls;
    ConfigUsable(u);
    LongElemUses(u, name, "=" + v, shortToo, index, words);
  }

  lemma LongElemStarves(u: Setup, name: string, index: nat, shortToo: bool, word: string)
    requires GoodSetup(u) && Means(u, name, shortToo, index) && u.longs.value[index].hasArg == 1
    ensures var e := LongElem(ConfigOf(u), u.longs.value, name, [word], shortToo);
      e.ret != -1 && e.place == "" && e.used == 1 && Seen(e) == Lacking(u, Blamed(u, index))
  {
    hide MakeConfig, Resolves, LongElem;
    ConfigUsable(u);
    LongElemUses(u, name, "", shortToo, index, [word]);
    assert name + "" == name;
  }

  // "--text" is read as a long option.
  lemma DoubleDash(u: Setup, text: string, words: seq<string>)
    requires GoodSetup(u) && u.longs.Some? && words != []
    requires LongElem(ConfigOf(u), u.longs.value, text, words, false).ret != -1
    ensures ElemAt(ConfigOf(u), "-" + text, false, words) == LongElem(ConfigOf(u), u.longs.value, text, words, false)
  {
    hide MakeConfig, LongElem, ShortElem;
    ConfigUsable(u);
    assert ("-" + text)[1..] == text;
  }

  lemma LongReads(u: Setup, text: string, words: seq<string>, r: Result, used: seq<string>, rest: seq<string>)
    requires GoodSetup(u) && u.longs.Some? && words == used + rest && used != []
    requires var e := LongElem(ConfigOf(u), u.longs.value, text, words, false);
      e.ret != -1 && e.place == "" && e.used == |used| && Seen(e) == r
    ensures Usable(ConfigOf(u)) && Reads(ConfigOf(u), "-" + text, words, [r], used, rest)
  {
    hide MakeConfig, LongElem, ShortElem, ElemAt, Reads;
    ConfigUsable(u);
    DoubleDash(u, text, words);
    ElemReads(ConfigOf(u), "-" + text, words, LongElem(ConfigOf(u), u.longs.value, text, words, false), used, rest);
  }

  // "-W" with the name behind it or in the next word.
  lemma WideElem(u: Setup, text: string, words: seq<string>)
    requires GoodSetup(u) && Declares(u.decls, 'W', Wide) && words != [] && ReadsShort(u, "W" + text)
    ensures text != "" ==> ElemAt(ConfigOf(u), "W" + text, false, words) == LongElem(ConfigOf(u), u.longs.value, text, words, false)
    ensures text == "" && |words| > 1 ==>
      var e := LongElem(ConfigOf(u), u.longs.value, words[1], words[1..], false);
      ElemAt(ConfigOf(u), "W", false, words) == e.(used := e.used + 1)
    ensures text == "" && |words| == 1 ==>
      var e := ElemAt(ConfigOf(u), "W", false, words);
      e.ret != -1 && e.place == "" && e.used == 1 && Seen(e) == Lacking(u, 'W' as int)
  {
    hide MakeConfig, LongElem, Letters, IndexOf;
    ConfigUsable(u);
    KindOf(u, 'W', Wide);
    ShortOnly(u, "W" + text, words);
    assert ("W" + text)[1..] == text;
    assert text == "" ==> "W" + text == "W";
  }

  lemma WideReads(u: Setup, end: End, words: seq<string>, whole: string, rest: seq<string>)
    requires GoodSetup(u) && GoodEnd(u, end) && (end.WideGlued? || end.WideApart?)
    requires words == [whole] + EndWords(end) + rest
    ensures Usable(ConfigOf(u)) && Reads(ConfigOf(u), EndText(end), words, EndResults(u, end), [whole] + EndWords(end), rest)
  {
    hide MakeConfig, LongElem, Letters, ElemAt, Scan, ScanElem, Reads, Declares, Resolves;
    ConfigUsable(u);
    var ln := end.long;
    assert "W" + "" == "W";
    WideElem(u, if end.WideGlued? then Body(ln) else "", words);
    LongElemReads(u, ln, false, if end.WideApart? then words[1..] else words);
    var e := ElemAt(ConfigOf(u), EndText(end), false, words);
    assert [Seen(e)] == EndResults(u, end);
    ElemReads(ConfigOf(u), EndText(end), words, e, [whole] + EndWords(end), rest);
  }

  // ---- long names behind one dash

  lemma NamedElem(u: Setup, place: string, words: seq<string>)
    requires GoodSetup(u) && u.longs.Some? && OneDash(u, place) && words != []
    requires LongElem(ConfigOf(u), u.longs.value, place, words, MayBeShort(u, place)).ret != -1
    ensures ElemAt(ConfigOf(u), place, false, words) == LongElem(ConfigOf(u), u.longs.value, place, words, MayBeShort(u, place))
  {
    hide MakeConfig, LongElem, ShortElem, Undeclared;
    ConfigIs(u);
    DeclaredIsListed(u, place[0]);
  }

  lemma NamedReads(u: Setup, end: End, words: seq<string>, whole: string, rest: seq<string>)
    requires GoodSetup(u) && GoodEnd(u, end) && (end.Named? || end.NameRefused? || end.NameSurplus?)
    requires words == [whole] + EndWords(end) + rest
    ensures Usable(ConfigOf(u)) && Reads(ConfigOf(u), EndText(end), words, EndResults(u, end), [whole] + EndWords(end), rest)
  {
    hide MakeConfig, LongElem, Letters, ElemAt, Scan, ScanElem, Reads, Undeclared, Resolves;
    ConfigUsable(u);
    var place := EndText(end);
    match end {
      case Named(ln) =>
        assert place[0] == ln.name[0];
        LongElemReads(u, ln, MayBeShort(u, ln.name), words);
      case NameRefused(name, more) =>
        assert place[0] == name[0];
        LongElemFails(u, name, more, MayBeShort(u, name), words);
      case NameSurplus(name, index, v) =>
        assert place[0] == name[0];
        LongElemSurplus(u, name, index, v, MayBeShort(u, name), words);
    }
    NamedElem(u, place, words);
    var e := ElemAt(ConfigOf(u), place, false, words);
    assert [Seen(e)] == EndResults(u, end);
    ElemReads(ConfigOf(u), place, words, e, [whole] + EndWords(end), rest);
  }

  // ---- clusters

  // The letters in front of something that reads, or of nothing.
  lemma {:induction false} ClusterReads(u: Setup, letters: string, tail: string, words: seq<string>, results: seq<Result>,
                                        used: seq<string>, rest: seq<string>)
    requires GoodSetup(u) && GoodLetters(u, letters) && letters != "" && AllShort(u, letters, tail)
    requires words == used + rest && Usable(ConfigOf(u))
    requires if tail == "" then |used| == 1 && results == [] else Reads(ConfigOf(u), tail, words, results, used, rest)
    ensures Reads(ConfigOf(u), letters + tail, words, LetterResults(u, letters) + results, used, rest)
    decreases |letters|
  {
    hide ElemAt, Scan, ScanElem, MakeConfig, Reads, Declares, Undeclared, LetterResults, Usable, GoodSetup, ReadsShort;
    var place := letters + tail;
    ReadsUses(ConfigOf(u), tail, words, results, used, rest);
    PlainLetter(u, place, words);
    var e := ElemAt(ConfigOf(u), place, false, words);
    var more := LetterResults(u, letters[1..]) + results;
    assert place[..1] == letters[..1] && place[1..] == letters[1..] + tail;
    LettersFirst(u, letters, results);
    if |place| == 1 {
      LettersNone(u, results);
      assert letters[1..] == "" && [Seen(e)] + [] == [Seen(e)];
      ElemReads(ConfigOf(u), place, words, e, used, rest);
    } else {
      if |letters| > 1 {
        ClusterReads(u, letters[1..], tail, words, results, used, rest);
      } else {
        LettersNone(u, results);
        assert letters[1..] == "" && "" + tail == tail;
      }
      LetterReads(ConfigOf(u), place, words, e, more, used, rest);
    }
  }

  lemma LettersFirst(u: Setup, letters: string, results: seq<Result>)
    requires letters != ""
    ensures |LetterResults(u, letters[..1])| == 1
    ensures LetterResults(u, letters) + results == [LetterResults(u, letters[..1])[0]] + (LetterResults(u, letters[1..]) + results)
  {
    hide Declares;
    assert letters[..1][1..] == "" && letters[..1][0] == letters[0];
  }

  lemma LettersNone(u: Setup, results: seq<Result>)
    ensures LetterResults(u, "") + results == results
  {
    assert [] + results == results;
  }

  lemma ReadsUses(cfg: Config, tail: string, words: seq<string>, results: seq<Result>, used: seq<string>, rest: seq<string>)
    requires Usable(cfg) && if tail == "" then |used| == 1 && results == [] else Reads(cfg, tail, words, results, used, rest)
    ensures used != []
  {
    hide Scan, ScanElem;
  }

  lemma GroupReads(u: Setup, letters: string, end: End, rest: seq<string>)
    requires GoodSetup(u) && GoodItem(u, Cluster(letters, end))
    ensures var it := Cluster(letters, end);
      Usable(ConfigOf(u)) && Reads(ConfigOf(u), letters + EndText(end), ItemWords(it) + rest, ItemResults(u, it), ItemWords(it), rest)
  {
    hide Reads, GoodLetters, MakeConfig, ElemAt;
    var it := Cluster(letters, end);
    var used := ItemWords(it);
    ConfigUsable(u);
    if end.Done? {
      assert letters + "" == letters;
    } else if end.WideGlued? || end.WideApart? {
      WideReads(u, end, used + rest, used[0], rest);
    } else if end.Named? || end.NameRefused? || end.NameSurplus? {
      NamedReads(u, end, used + rest, used[0], rest);
    } else {
      ArgumentReads(u, end, used + rest, used[0], rest);
    }
    if letters == "" {
      assert LetterResults(u, "") == [];
      assert "" + EndText(end) == EndText(end) && [] + EndResults(u, end) == EndResults(u, end);
    } else {
      ClusterReads(u, letters, EndText(end), used + rest, EndResults(u, end), used, rest);
    }
  }

  // ---- whole lines

  // An option word opens the letters behind its dash.
  lemma OpenWord(cfg: Config, place: string, words: seq<string>, results: seq<Result>, used: seq<string>, rest: seq<string>)
    requires Usable(cfg) && words != [] && words[0] == "-" + place && place != "" && place != "-"
    requires Reads(cfg, place, words, results, used, rest)
    ensures var o := Scan(cfg, "", rest);
      Scan(cfg, "", words) == Outcome(results + o.results, used + o.opts, o.nonopts, o.rest, o.stuck)
  {
    hide ScanElem, Scan;
    assert words[0][1..] == place;
    ScanOption(cfg, words);
  }

  lemma LongItemReads(u: Setup, it: Item, rest: seq<string>)
    requires GoodSetup(u) && GoodItem(u, it) && (it.Dashed? || it.Refused? || it.Surplus?)
    ensures Usable(ConfigOf(u)) && var o := Scan(ConfigOf(u), "", rest);
      Scan(ConfigOf(u), "", ItemWords(it) + rest) == Outcome(ItemResults(u, it) + o.results, ItemWords(it) + o.opts, o.nonopts, o.rest, o.stuck)
  {
    hide Scan, Reads, MakeConfig, LongElem, GoodSetup, Resolves, Letters, GoodDecls;
    ConfigUsable(u);
    var used := ItemWords(it);
    var words := used + rest;
    match it
    case Dashed(ln) =>
      LongElemReads(u, ln, false, words);
      LongReads(u, Body(ln), words, LongResult(u, ln), used, rest);
      assert "--" + Body(ln) == "-" + ("-" + Body(ln));
      OpenWord(ConfigOf(u), "-" + Body(ln), words, ItemResults(u, it), used, rest);
    case Refused(name, more) =>
      LongElemFails(u, name, more, false, words);
      LongReads(u, name + more, words, Wrong(0), used, rest);
      assert "--" + (name + more) == "-" + ("-" + (name + more));
      OpenWord(ConfigOf(u), "-" + (name + more), words, ItemResults(u, it), used, rest);
    case Surplus(name, index, v) =>
      var text := name + ("=" + v);
      LongElemSurplus(u, name, index, v, false, words);
      LongReads(u, text, words, Lacking(u, Blamed(u, index)), used, rest);
      assert "--" + text == "-" + ("-" + text);
      OpenWord(ConfigOf(u), "-" + text, words, ItemResults(u, it), used, rest);
  }

  lemma ItemReads(u: Setup, it: Item, rest: seq<string>)
    requires GoodSetup(u) && GoodItem(u, it) && !it.Operand?
    ensures Usable(ConfigOf(u)) && var o := Scan(ConfigOf(u), "", rest);
      Scan(ConfigOf(u), "", ItemWords(it) + rest) == Outcome(ItemResults(u, it) + o.results, ItemWords(it) + o.opts, o.nonopts, o.rest, o.stuck)
  {
    hide Scan, Reads, MakeConfig, GoodSetup, Resolves, GoodEnd, EndResults, LetterResults;
    if it.Cluster? {
      ConfigUsable(u);
      var used := ItemWords(it);
      GroupReads(u, it.letters, it.end, rest);
      ClusterNotDash(u, it.letters, it.end);
      OpenWord(ConfigOf(u), it.letters + EndText(it.end), used + rest, ItemResults(u, it), used, rest);
    } else {
      LongItemReads(u, it, rest);
    }
  }

  lemma ClusterNotDash(u: Setup, letters: string, end: End)
    requires GoodSetup(u) && GoodLetters(u, letters) && GoodEnd(u, end)
    ensures letters + EndText(end) != "-"
  {
    hide Declares, GoodLong, GoodSurplus, GoodRefused, ReadsShort;
    NoDash(u);
    var text := EndText(end);
    if letters != "" {
      assert (letters + text)[0] == letters[0];
    } else {
      assert letters + text == text;
      match end
      case Done =>
      case Glued(c, _) => assert text[0] == c;
      case Apart(c, _) => assert text[0] == c;
      case Omitted(c) => assert text[0] == c;
      case Named(ln) => assert text[0] == ln.name[0];
      case NameRefused(name, _) => assert text[0] == name[0];
      case NameSurplus(name, _, _) => assert text[0] == name[0];
      case _ => assert text[0] == 'W';
    }
  }

  lemma NoDash(u: Setup)
    requires GoodSetup(u)
    ensures forall kind {:trigger Declares(u.decls, '-', kind)} :: !Declares(u.decls, '-', kind)
  {
  }

  lemma LastReads(u: Setup, last: Last)
    requires GoodSetup(u) && GoodLast(u, last)
    ensures Usable(ConfigOf(u))
    ensures Scan(ConfigOf(u), "", LastWords(last)) ==
      Outcome(LastResults(u, last), if last.Dashes? then ["--"] else LastWords(last), [], if last.Dashes? then last.words else [], false)
  {
    hide Scan, Reads, MakeConfig, LongElem, GoodSetup, Resolves, LetterResults, ElemAt;
    ConfigUsable(u);
    ScanAtEnd(ConfigOf(u));
    var words := LastWords(last);
    assert words + [] == words;
    match last
    case Complete =>
    case Dashes(rest) =>
      ScanOption(ConfigOf(u), words);
      assert words[1..] == rest;
    case StarvedShort(letters, c) =>
      StarvedShortReads(u, letters, c, words);
      OpenWord(ConfigOf(u), letters + [c], words, LastResults(u, last), words, []);
    case StarvedLong(name, index) =>
      LongElemStarves(u, name, index, false, words[0]);
      LongReads(u, name, words, Lacking(u, Blamed(u, index)), words, []);
      assert "--" + name == "-" + ("-" + name);
      OpenWord(ConfigOf(u), "-" + name, words, LastResults(u, last), words, []);
    case StarvedWide(letters, name, index, glued) =>
      StarvedWideReads(u, letters, name, index, glued, words);
      OpenWord(ConfigOf(u), letters + WideTail(name, glued), words, LastResults(u, last), words, []);
    case StarvedNamed(letters, name, index) =>
      StarvedNamedReads(u, letters, name, index, words);
      OpenWord(ConfigOf(u), letters + name, words, LastResults(u, last), words, []);
  }

  lemma StarvedNamedReads(u: Setup, letters: string, name: string, index: nat, words: seq<string>)
    requires GoodSetup(u) && GoodLast(u, StarvedNamed(letters, name, index)) && |words| == 1
    ensures Usable(ConfigOf(u)) && letters + name != "-"
    ensures Reads(ConfigOf(u), letters + name, words, LetterResults(u, letters) + [Lacking(u, Blamed(u, index))], words, [])
  {
    hide Reads, MakeConfig, LongElem, ElemAt, Letters, Declares, Undeclared, LetterResults, GoodLetters, Resolves, AllShort;
    ConfigUsable(u);
    assert (letters + name)[|letters|] == name[0];
    assert words + [] == words && words == [words[0]];
    LongElemStarves(u, name, index, MayBeShort(u, name), words[0]);
    NamedElem(u, name, words);
    var e := ElemAt(ConfigOf(u), name, false, words);
    ElemReads(ConfigOf(u), name, words, e, words, []);
    InFront(u, letters, name, words, [Lacking(u, Blamed(u, index))]);
  }

  lemma StarvedShortReads(u: Setup, letters: string, c: char, words: seq<string>)
    requires GoodSetup(u) && GoodLast(u, StarvedShort(letters, c)) && |words| == 1
    ensures Usable(ConfigOf(u)) && letters + [c] != "-"
    ensures Reads(ConfigOf(u), letters + [c], words, LetterResults(u, letters) + [Lacking(u, c as int)], words, [])
  {
    hide Reads, MakeConfig, LongElem, Letters, IndexOf, Declares, LetterResults, GoodLetters;
    ConfigUsable(u);
    NoDash(u);
    assert (letters + [c])[|letters|] == c;
    assert words + [] == words;
    if Declares(u.decls, c, Required) {
      KindOf(u, c, Required);
      ShortOnly(u, [c], words);
      assert [c][1..] == "";
    } else {
      KindOf(u, c, Wide);
      WideElem(u, "", words);
      assert [c] == "W";
    }
    var e := ElemAt(ConfigOf(u), [c], false, words);
    ElemReads(ConfigOf(u), [c], words, e, words, []);
    InFront(u, letters, [c], words, [Lacking(u, c as int)]);
  }

  // Letters, if any, in front of the option that lacks its argument.
  lemma InFront(u: Setup, letters: string, tail: string, words: seq<string>, results: seq<Result>)
    requires GoodSetup(u) && GoodLetters(u, letters) && AllShort(u, letters, tail) && Usable(ConfigOf(u)) && tail != ""
    requires Reads(ConfigOf(u), tail, words, results, words, [])
    ensures Reads(ConfigOf(u), letters + tail, words, LetterResults(u, letters) + results, words, [])
  {
    hide Reads, MakeConfig, GoodLetters;
    assert words + [] == words;
    if letters == "" {
      assert "" + tail == tail && [] + results == results;
    } else {
      ClusterReads(u, letters, tail, words, results, words, []);
    }
  }

  lemma StarvedWideReads(u: Setup, letters: string, name: string, index: nat, glued: bool, words: seq<string>)
    requires GoodSetup(u) && GoodLast(u, StarvedWide(letters, name, index, glued))
    requires words == LastWords(StarvedWide(letters, name, index, glued))
    ensures Usable(ConfigOf(u)) && var tail := WideTail(name, glued);
      letters + tail != "-" && Reads(ConfigOf(u), letters + tail, words, LetterResults(u, letters) + [Lacking(u, Blamed(u, index))], words, [])
  {
    hide Reads, MakeConfig, LongElem, Letters, ElemAt, Declares, LetterResults, GoodLetters, Resolves;
    ConfigUsable(u);
    var tail := WideTail(name, glued);
    assert words + [] == words;
    assert (letters + tail)[|letters|] == 'W';
    assert "W" + "" == "W";
    WideElem(u, if glued then name else "", words);
    LongElemStarves(u, name, index, false, if glued then words[0] else words[1]);
    assert words[|words| - 1..] == [words[|words| - 1]];
    var e := ElemAt(ConfigOf(u), tail, false, words);
    ElemReads(ConfigOf(u), tail, words, e, words, []);
    InFront(u, letters, tail, words, [Lacking(u, Blamed(u, index))]);
  }

  lemma OperandReads(u: Setup, text: string, rest: seq<string>)
    requires GoodSetup(u) && GoodItem(u, Operand(text))
    ensures Usable(ConfigOf(u)) && var o := Scan(ConfigOf(u), "", rest);
      Scan(ConfigOf(u), "", [text] + rest) ==
        match ModeOf(u)
        case Permute => o.(nonopts := [text] + o.nonopts)
        case InOrder => o.(results := [Result(1, Some(text), None, None, None)] + o.results, opts := [text] + o.opts)
        case StopAtFirst => Outcome([], [], [], [text] + rest, false)
  {
    hide Scan, MakeConfig;
    ConfigUsable(u);
    ConfigIs(u);
    DashNotInOptions(u);
    var words := [text] + rest;
    assert words[1..] == rest;
    ScanNonOption(ConfigOf(u), words);
    var o := Scan(ConfigOf(u), "", rest);
    assert [] + o.results == o.results && [] + o.opts == o.opts && [] + o.nonopts == o.nonopts;
  }

  /** Every line of options in any of their spellings, with operands between them, is read as it was meant:
      the results of the calls, the words taken for options, the operands passed over and the words left. */
  lemma {:induction false} ReadsBack(u: Setup, items: seq<Item>, last: Last)
    requires GoodLine(u, items, last)
    ensures Usable(ConfigOf(u))
    ensures Scan(ConfigOf(u), "", AllWords(items, last)) ==
      Outcome(Results(u, items, last), OptionWords(u, items, last), Operands(u, items), Unread(u, items, last), false)
    decreases |items|
  {
    hide Scan, MakeConfig, GoodSetup, GoodItem, GoodLast, ItemResults, LastResults, LastWords;
    ConfigUsable(u);
    if items == [] {
      LastReads(u, last);
    } else {
      ReadsBack(u, items[1..], last);
      var rest := AllWords(items[1..], last);
      if items[0].Operand? {
        OperandReads(u, items[0].text, rest);
        OperandMeans(u, items[0]);
      } else {
        ItemReads(u, items[0], rest);
        assert [] + Operands(u, items[1..]) == Operands(u, items[1..]);
      }
    }
  }

  lemma OperandMeans(u: Setup, it: Item)
    requires it.Operand? && GoodItem(u, it)
    ensures ItemWords(it) == [it.text]
    ensures ItemResults(u, it) == if ModeOf(u) == InOrder then [Result(1, Some(it.text), None, None, None)] else []
  {
  }

  /** The program's whole use of it (src/main.c:132-154), from the option string on: a line written in any
      spelling is seen as meant, and argv ends as option words, operands and words left. */
  method ParseLine(nargv: array<string>, u: Setup, ghost items: seq<Item>, ghost last: Last)
      returns (seen: seq<(int, Option<string>)>, optind: nat)
    requires nargv.Length >= 1 && GoodLine(u, items, last) && nargv[1..] == AllWords(items, last)
    modifies nargv
    ensures var results := Results(u, items, last);
      |seen| == |results| && forall k :: 0 <= k < |seen| ==> seen[k] == (results[k].ret, results[k].optarg)
    ensures nargv[..] == old(nargv[..1]) + OptionWords(u, items, last) + Operands(u, items) + Unread(u, items, last)
    ensures optind == 1 + |OptionWords(u, items, last)|
  {
    hide Scan, GoodLine, Results, OptionWords, Operands, Unread, AllWords, MakeConfig;
    ReadsBack(u, items, last);
    var getopt := new OptScan.Getopt();
    assert nargv[..][1..] == nargv[1..] && nargv[..][..1] == nargv[..1];
    seen := getopt.ScanArgs(nargv, OptionString(u), u.longs, u.permute, u.longOnly, u.posix);
    optind := getopt.optind;
  }
}
