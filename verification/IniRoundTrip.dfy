/** Round trip of src/ini.c: parsing a printed list of sections, entries, continuations and remarks makes
    exactly the handler calls the list stands for. */
module IniRoundTrip {
  import opened CBase
  import opened IniSpec

  /** A section, a name and value, a continuation, a comment or empty line, and a line that is wrong: with no
      closing bracket or no delimiter. Sections and entries may have blanks around their parts and comments. */
  datatype Item =
    | Header(indent: string, name: string, rest: string)
    | Entry(indent: string, name: string, before: string, delim: char, after: string, value: string, gap: string, comment: string)
    | Continued(indent: string, value: string)
    | Remark(indent: string, text: string)
    | Broken(indent: string, text: string, comment: string)

  function LineOf(it: Item): string {
    it.indent + Visible(it)
  }

  function Visible(it: Item): string {
    match it
    case Header(_, name, rest) => "[" + name + "]" + rest + "\n"
    case Entry(_, name, before, delim, after, value, gap, comment) =>
      name + before + [delim] + after + value + gap + comment + "\n"
    case Continued(_, value) => value + "\n"
    case Remark(_, text) => text + "\n"
    case Broken(_, text, comment) => text + comment + "\n"
  }

  function Print(items: seq<Item>): string {
    if items == [] then "" else LineOf(items[0]) + Print(items[1..])
  }

  // What can be printed so that it reads back

  predicate Blank(s: string) { forall i :: 0 <= i < |s| ==> IsSpace(s[i]) }

  predicate Trimmed(s: string) { s == "" || (!IsSpace(s[0]) && !IsSpace(s[|s| - 1])) }

  predicate NoComment(s: string) { forall i :: 0 < i < |s| && s[i] == ';' ==> !IsSpace(s[i - 1]) }

  predicate NoneOf(s: string, chars: string) { forall i :: 0 <= i < |s| ==> s[i] !in chars }

  predicate IsLine(s: string) {
    0 < |s| < MAX_LINE && s[|s| - 1] == '\n' && forall i :: 0 <= i < |s| - 1 ==> s[i] != '\n' && s[i] != NUL
  }

  predicate GoodEntry(it: Item)
    requires it.Entry?
  {
    && Trimmed(it.name) && NoneOf(it.name, "=:") && NoComment(it.name)
    && (if it.name == "" then it.before == "" else it.name[0] !in ";#[")
    && Blank(it.before) && it.delim in "=:"
    && Blank(it.after) && Trimmed(it.value) && Blank(it.gap) && NoComment(it.after + it.value)
    && (if it.comment == "" then it.gap == "" else it.comment[0] == ';' && it.after + it.gap != "" && (it.value == "" || it.gap != ""))
  }

  predicate GoodBroken(text: string, comment: string) {
    && text != "" && !IsSpace(text[0]) && text[0] !in ";#" && NoComment(text)
    && (comment == "" || (comment[0] == ';' && IsSpace(text[|text| - 1])))
    && if text[0] == '[' then NoneOf(text[1..], "]") else NoneOf(text, "=:")
  }

  // continues: the last name given is one that a continuation can belong to.
  predicate Good(it: Item, continues: bool) {
    && IsLine(LineOf(it)) && Blank(it.indent)
    && match it {
         case Header(indent, name, rest) => NoneOf(name, "]") && NoComment(name) && (indent == "" || !continues)
         case Entry(indent, _, _, _, _, _, _, _) => GoodEntry(it) && (indent == "" || !continues)
         case Continued(indent, value) => continues && indent != "" && value != "" && Trimmed(value) && value[0] !in ";#"
         case Remark(indent, text) => text == "" || text[0] in ";#"
         case Broken(indent, text, comment) => GoodBroken(text, comment) && (indent == "" || !continues)
       }
  }

  predicate Continues(it: Item, continues: bool) {
    match it
    case Header(_, _, _) => false
    case Entry(_, name, _, _, _, _, _, _) => name != ""
    case _ => continues
  }

  predicate GoodFrom(items: seq<Item>, continues: bool) {
    items == [] || (Good(items[0], continues) && GoodFrom(items[1..], Continues(items[0], continues)))
  }

  const BOM := "\U{EF}\U{BB}\U{BF}"

  // What may stand in front of the first line: a byte order mark, or nothing if the line does not look like one.
  predicate Printable(mark: string, items: seq<Item>) {
    && GoodFrom(items, false)
    && if mark == "" then items == [] || !HasBom(LineOf(items[0])) else mark == BOM && (items == [] || IsLine(mark + LineOf(items[0])))
  }

  // What a list stands for

  // What a buffer of 50 bytes keeps.
  function Kept(s: string): string {
    if |s| <= 49 then s else s[..49]
  }

  /** The handler calls: each entry under its section, each continuation under the last name; of a section's
      name, and of the name a continuation belongs to, the first 49 characters. */
  function CallsOf(items: seq<Item>, section: string, name: string): seq<Call> {
    if items == [] then []
    else CallOf(items[0], section, name) + CallsOf(items[1..], SectionAfter(items[0], section), NameAfter(items[0], name))
  }

  function CallOf(it: Item, section: string, name: string): seq<Call> {
    match it
    case Entry(_, n, _, _, _, value, _, _) => [Call(section, n, value)]
    case Continued(_, value) => [Call(section, name, value)]
    case _ => []
  }

  function SectionAfter(it: Item, section: string): string {
    if it.Header? then Kept(it.name) else section
  }

  function NameAfter(it: Item, name: string): string {
    match it
    case Header(_, _, _) => ""
    case Entry(_, n, _, _, _, _, _, _) => Kept(n)
    case _ => name
  }

  // The same with the items' own names.
  function OwnCalls(items: seq<Item>, section: string, name: string): seq<Call> {
    if items == [] then []
    else
      match items[0]
      case Header(_, n, _) => OwnCalls(items[1..], n, "")
      case Entry(_, n, _, _, _, value, _, _) => [Call(section, n, value)] + OwnCalls(items[1..], section, n)
      case Continued(_, value) => [Call(section, name, value)] + OwnCalls(items[1..], section, name)
      case _ => OwnCalls(items[1..], section, name)
  }

  /** With no name longer than 49 characters, the calls carry the names as they were given. */
  lemma {:induction false} ShortNames(items: seq<Item>, section: string, name: string)
    requires forall k :: 0 <= k < |items| && (items[k].Header? || items[k].Entry?) ==> |items[k].name| <= 49
    ensures CallsOf(items, section, name) == OwnCalls(items, section, name)
  {
    if items != [] {
      hide OwnCalls, CallOf, SectionAfter, NameAfter;
      OwnStep(items, section, name);
      ShortNames(items[1..], SectionAfter(items[0], section), NameAfter(items[0], name));
    }
  }

  lemma OwnStep(items: seq<Item>, section: string, name: string)
    requires items != [] && (items[0].Header? || items[0].Entry? ==> |items[0].name| <= 49)
    ensures OwnCalls(items, section, name) ==
      CallOf(items[0], section, name) + OwnCalls(items[1..], SectionAfter(items[0], section), NameAfter(items[0], name))
  {
    var rest := OwnCalls(items[1..], SectionAfter(items[0], section), NameAfter(items[0], name));
    assert [] + rest == rest;
  }

  /** The first wrong line, or the line of the first call that h refuses; 0 if there is neither. lineno and
      calls are those so far. */
  function FirstFault(items: seq<Item>, lineno: nat, calls: seq<Call>, section: string, name: string, h: Handler): nat {
    if items == [] then 0
    else
      var c := CallOf(items[0], section, name);
      if items[0].Broken? || (c != [] && !h(calls + c)) then lineno + 1
      else FirstFault(items[1..], lineno + 1, calls + c, SectionAfter(items[0], section), NameAfter(items[0], name), h)
  }

  // Lines

  lemma {:induction false} LineEndsThere(line: string, rest: string, i: nat, n: nat)
    requires IsLine(line) && i < |line| <= i + n
    ensures LineEnd(line + rest, i, n) == |line|
    decreases |line| - i
  {
    if i < |line| - 1 {
      LineEndsThere(line, rest, i + 1, n - 1);
    }
  }

  lemma ParsePrinted(st: State, items: seq<Item>, h: Handler)
    requires items != [] && IsLine(LineOf(items[0]))
    ensures Parse(st, Print(items), h) == Parse(AfterLine(st, LineOf(items[0]), h), Print(items[1..]), h)
  {
    hide AfterLine, LineOf;
    var line, rest := LineOf(items[0]), Print(items[1..]);
    LineEndsThere(line, rest, 0, MAX_LINE - 1);
    assert (line + rest)[..|line|] == line && (line + rest)[|line|..] == rest;
  }

  // Trimming and searching what was put together

  lemma {:induction false} RTrimJoin(x: string, y: string)
    ensures RTrim(x + y) == if RTrim(y) == "" then RTrim(x) else x + RTrim(y)
    decreases |y|
  {
    if y == "" {
      assert x + y == x;
    } else if IsSpace(y[|y| - 1]) {
      RTrimJoin(x, y[..|y| - 1]);
      assert (x + y)[..|x + y| - 1] == x + y[..|y| - 1];
    }
  }

  lemma {:induction false} RTrimBlank(b: string)
    requires Blank(b)
    ensures RTrim(b) == ""
  {
    if b != "" {
      RTrimBlank(b[..|b| - 1]);
    }
  }

  lemma {:induction false} LTrimBlank(b: string, s: string)
    requires Blank(b) && (s == "" || !IsSpace(s[0]))
    ensures LTrim(b + s) == s
  {
    hide LTrim;
    if b == "" {
      assert b + s == s;
      LTrimDone(s);
    } else {
      LTrimBlank(b[1..], s);
      assert (b + s)[1..] == b[1..] + s;
      LTrimStep(b + s);
    }
  }

  lemma LTrimStep(s: string)
    requires s != "" && IsSpace(s[0])
    ensures LTrim(s) == LTrim(s[1..])
  {
  }

  lemma LTrimDone(s: string)
    requires s == "" || !IsSpace(s[0])
    ensures LTrim(s) == s
  {
  }

  // t starts where the search must stop.
  lemma {:induction false} FindEnd(s: string, t: string, chars: string, wasSpace: bool)
    requires NoneOf(s, chars) && NoComment(s) && !(s != "" && wasSpace && s[0] == ';')
    requires t == "" || t[0] in chars || (t[0] == ';' && if s == "" then wasSpace else IsSpace(s[|s| - 1]))
    ensures Find(s + t, chars, wasSpace) == |s|
  {
    if s == "" {
      assert s + t == t;
    } else {
      FindEnd(s[1..], t, chars, IsSpace(s[0]));
      assert (s + t)[1..] == s[1..] + t;
    }
  }

  lemma TrimmedEnds(s: string)
    requires Trimmed(s)
    ensures RTrim(s) == s && LTrim(s) == s
  {
  }

  // The trimmed line of a text that starts and ends its line's visible part.
  lemma TrimVisible(indent: string, text: string, tail: string)
    requires Blank(indent) && text != "" && !IsSpace(text[0]) && RTrim(tail) == ""
    ensures RTrim(indent + text + tail) == indent + RTrim(text) && RTrim(text) != ""
    ensures LTrim(indent + RTrim(text)) == RTrim(text) && RTrim(text)[0] == text[0]
  {
    RTrimJoin(indent + text, tail);
    KeepsFirst(text);
    RTrimJoin(indent, text);
    LTrimBlank(indent, RTrim(text));
  }

  lemma {:induction false} KeepsFirst(s: string)
    requires s != "" && !IsSpace(s[0])
    ensures RTrim(s) != "" && RTrim(s)[0] == s[0]
  {
    RTrimJoin(s[..1], s[1..]);
    assert s == s[..1] + s[1..];
  }

  // One kind of line after another

  // What is left of a line with its first visible character behind the indent.
  lemma TrimIndent(indent: string, text: string, start: string)
    requires Blank(indent) && RTrim(text) == start && start != "" && !IsSpace(start[0])
    ensures RTrim(indent + text) == indent + start && LTrim(indent + start) == start
  {
    hide RTrim, LTrim;
    RTrimJoin(indent, text);
    LTrimBlank(indent, start);
  }

  // A line that is no continuation.
  lemma ReadStart(indent: string, text: string, start: string, continues: bool)
    requires Blank(indent) && RTrim(text) == start && start != "" && !IsSpace(start[0]) && start[0] !in ";#"
    requires indent == "" || !continues
    ensures LineMeaning(indent + text, false, continues) == Classify(start)
  {
    hide RTrim, LTrim, Classify, HasBom;
    TrimIndent(indent, text, start);
  }

  lemma ReadHeader(it: Item, continues: bool)
    requires it.Header? && Good(it, continues)
    ensures LineMeaning(LineOf(it), false, continues) == Section(it.name)
  {
    hide RTrim, LineMeaning, Classify, NoComment, NoneOf, IsLine, Blank;
    HeaderTrimmed(it.name, it.rest);
    ClassifyHeader(it.name, RTrim(it.rest));
    ReadStart(it.indent, Visible(it), "[" + it.name + "]" + RTrim(it.rest), continues);
  }

  lemma HeaderTrimmed(name: string, rest: string)
    ensures RTrim("[" + name + "]" + rest + "\n") == "[" + name + "]" + RTrim(rest)
  {
    hide RTrim;
    var open := "[" + name + "]";
    NewlineBlank();
    RTrimJoin(open + rest, "\n");
    RTrimJoin(open, rest);
    TrimmedBracket(name);
    assert open + "" == open;
  }

  lemma ClassifyHeader(name: string, tail: string)
    requires NoneOf(name, "]") && NoComment(name)
    ensures Classify("[" + name + "]" + tail) == Section(name)
  {
    hide RTrim, LTrim, Find, PairValue, NoComment, NoneOf;
    var start := "[" + name + "]" + tail;
    var end := "]" + tail;
    assert start[1..] == name + end;
    FindEnd(name, end, "]", false);
    assert (name + end)[..|name|] == name && end[0] == ']';
  }

  lemma NewlineBlank()
    ensures RTrim("\n") == ""
  {
    assert "\n"[..0] == "";
  }

  lemma TrimmedBracket(name: string)
    ensures RTrim("[" + name + "]") == "[" + name + "]"
  {
  }

  lemma ReadContinued(it: Item, continues: bool)
    requires it.Continued? && Good(it, continues)
    ensures LineMeaning(LineOf(it), false, continues) == More(it.value)
  {
    hide RTrim, LTrim, IsLine, LineMeaning, Blank;
    VisibleTrimmed(it.value);
    TrimIndent(it.indent, Visible(it), it.value);
    ReadIndented(LineOf(it), it.indent, it.value);
  }

  lemma VisibleTrimmed(text: string)
    requires Trimmed(text)
    ensures RTrim(text + "\n") == text
  {
    hide RTrim;
    NewlineBlank();
    RTrimJoin(text, "\n");
    TrimmedEnds(text);
  }

  lemma ReadIndented(line: string, indent: string, text: string)
    requires RTrim(line) == indent + text && LTrim(indent + text) == text && indent != "" && text != "" && text[0] !in ";#"
    ensures LineMeaning(line, false, true) == More(text)
  {
    hide RTrim, LTrim, Classify, HasBom;
  }

  lemma ReadRemark(it: Item, continues: bool)
    requires it.Remark? && Good(it, continues)
    ensures LineMeaning(LineOf(it), false, continues) == Nothing
  {
    hide RTrim, LTrim, Classify, IsLine, Blank, HasBom;
    if it.text == "" {
      assert LineOf(it) == it.indent + "\n";
      NewlineBlank();
      RTrimJoin(it.indent, "\n");
      RTrimBlank(it.indent);
      TrimmedEnds("");
    } else {
      NewlineBlank();
      RTrimJoin(it.text, "\n");
      KeepsFirst(it.text);
      TrimIndent(it.indent, Visible(it), RTrim(it.text));
    }
  }

  lemma ReadBroken(it: Item, continues: bool)
    requires it.Broken? && Good(it, continues)
    ensures LineMeaning(LineOf(it), false, continues) == IniSpec.Wrong
  {
    hide RTrim, LineMeaning, Classify, IsLine, Blank, GoodBroken;
    var start := BrokenTrimmed(it.text, it.comment);
    ReadStart(it.indent, Visible(it), start, continues);
  }

  lemma BrokenTrimmed(text: string, comment: string) returns (start: string)
    requires GoodBroken(text, comment)
    ensures RTrim(text + comment + "\n") == start && start != "" && !IsSpace(start[0]) && start[0] !in ";#"
    ensures Classify(start) == IniSpec.Wrong
  {
    hide RTrim, Classify, NoComment, NoneOf;
    NewlineBlank();
    RTrimJoin(text + comment, "\n");
    if comment == "" {
      assert text + comment == text;
      start := RTrim(text);
      KeepsFirst(text);
      PrefixClean(text, start);
      assert start + "" == start;
      NoneFound(start, "");
    } else {
      RTrimJoin(text, comment);
      CommentStays(comment);
      start := text + RTrim(comment);
      NoneFound(text, RTrim(comment));
    }
  }

  lemma PrefixClean(text: string, start: string)
    requires NoComment(text) && start <= text && start != ""
    requires if text[0] == '[' then NoneOf(text[1..], "]") else NoneOf(text, "=:")
    ensures NoComment(start) && start[0] == text[0]
    ensures if start[0] == '[' then NoneOf(start[1..], "]") else NoneOf(start, "=:")
  {
  }

  // Neither the bracket nor the delimiter is found before the comment or the end.
  lemma NoneFound(text: string, comment: string)
    requires text != "" && NoComment(text) && (if text[0] == '[' then NoneOf(text[1..], "]") else NoneOf(text, "=:"))
    requires comment == "" || (comment[0] == ';' && IsSpace(text[|text| - 1]))
    ensures Classify(text + comment) == IniSpec.Wrong
  {
    hide RTrim, LTrim, Find, PairValue;
    var start := text + comment;
    if text[0] == '[' {
      assert start[1..] == text[1..] + comment;
      FindEnd(text[1..], comment, "]", false);
    } else {
      FindEnd(text, comment, "=:", false);
    }
  }

  // The value behind the delimiter, with its inline comment.
  lemma ReadValue(after: string, value: string, gap: string, comment: string)
    requires Blank(after) && Trimmed(value) && Blank(gap) && NoComment(after + value)
    requires if comment == "" then gap == "" else comment[0] == ';' && after + gap != "" && (value == "" || gap != "")
    ensures PairValue(RTrim(after + value + gap + comment + "\n")) == value
  {
    hide RTrim, PairValue, NoComment, Blank, Trimmed;
    var shown := after + value + gap;
    NewlineBlank();
    RTrimJoin(shown + comment, "\n");
    if comment == "" {
      assert shown + comment == after + value;
      ReadPlain(after, value);
    } else {
      RTrimJoin(shown, comment);
      CommentStays(comment);
      ReadCommented(after, value, gap, RTrim(comment));
    }
  }

  lemma CommentStays(comment: string)
    requires comment != "" && comment[0] == ';'
    ensures RTrim(comment) != "" && RTrim(comment)[0] == ';'
  {
    hide RTrim;
    KeepsFirst(comment);
  }

  lemma ReadPlain(after: string, value: string)
    requires Blank(after) && Trimmed(value) && NoComment(after + value)
    ensures PairValue(RTrim(after + value)) == value
  {
    hide RTrim, LTrim, Find, Blank, Trimmed, PairValue;
    TrimmedEnds(value);
    RTrimJoin(after, value);
    RTrimBlank(after);
    if value == "" {
      ValueOf("", value);
    } else {
      LTrimBlank(after, value);
      ValueOf(after + value, value);
    }
  }

  // Without a comment the value is what trimming leaves.
  lemma ValueOf(v: string, value: string)
    requires NoComment(v) && LTrim(v) == value && RTrim(value) == value
    ensures PairValue(v) == value
  {
    hide RTrim, LTrim, Find, NoComment;
    NoneOfNothing(v);
    FindEnd(v, "", "", false);
    assert v + "" == v && v[..|v|] == v;
  }

  lemma ReadCommented(after: string, value: string, gap: string, comment: string)
    requires Blank(after) && Trimmed(value) && Blank(gap) && NoComment(after + value)
    requires comment != "" && comment[0] == ';' && after + gap != "" && (value == "" || gap != "")
    ensures PairValue(after + value + gap + comment) == value
  {
    hide RTrim, LTrim, Find, NoComment, Blank, Trimmed;
    var shown := after + value + gap;
    GapClean(after, value, gap);
    NoneOfNothing(shown);
    FindEnd(shown, comment, "", false);
    assert (shown + comment)[..|shown|] == shown;
    TrimShown(after, value, gap);
  }

  lemma NoneOfNothing(s: string)
    ensures NoneOf(s, "")
  {
  }

  lemma TrimShown(after: string, value: string, gap: string)
    requires Blank(after) && Trimmed(value) && Blank(gap)
    ensures RTrim(LTrim(after + value + gap)) == value
  {
    hide RTrim, LTrim, Blank, Trimmed;
    if value == "" {
      assert after + value + gap == after + gap;
      TrimNothing(after, gap);
    } else {
      VisibleFirst(value, gap);
      TrimmedEnds(value);
      RTrimBlank(gap);
      RTrimJoin(value, gap);
      assert after + value + gap == after + (value + gap);
      LTrimBlank(after, value + gap);
    }
  }

  lemma TrimNothing(after: string, gap: string)
    requires Blank(after) && Blank(gap)
    ensures RTrim(LTrim(after + gap)) == ""
  {
    hide RTrim, LTrim, Blank;
    BlankBoth(after, gap);
    assert after + gap == (after + gap) + "";
    LTrimBlank(after + gap, "");
    TrimmedEnds("");
  }

  lemma VisibleFirst(value: string, gap: string)
    requires Trimmed(value) && value != ""
    ensures !IsSpace((value + gap)[0])
  {
  }

  lemma BlankBoth(a: string, b: string)
    requires Blank(a) && Blank(b)
    ensures Blank(a + b)
  {
  }

  lemma GapClean(after: string, value: string, gap: string)
    requires Blank(after) && Blank(gap) && NoComment(after + value) && (value == "" || gap != "") && after + gap != ""
    ensures NoComment(after + value + gap)
    ensures after + value + gap != "" && IsSpace((after + value + gap)[|after + value + gap| - 1])
  {
    var s := after + value + gap;
    forall i | 0 < i < |s| && IsSpace(s[i - 1]) ensures s[i] != ';' {
      assert s[i] == if i < |after + value| then (after + value)[i] else gap[i - |after + value|];
    }
  }

  // The name before the delimiter, and the line cut there.
  lemma ReadName(it: Item, v: string)
    requires it.Entry? && GoodEntry(it)
    ensures var start := it.name + it.before + [it.delim] + v; start[0] !in ";#[" && Classify(start) == Pair(it.name, PairValue(v))
  {
    hide RTrim, LTrim, PairValue;
    var head := it.name + it.before;
    NameClean(it.name, it.before);
    FindEnd(head, [it.delim] + v, "=:", false);
    var start := head + [it.delim] + v;
    assert start == head + ([it.delim] + v);
    assert start[..|head|] == head && start[|head| + 1..] == v;
    TrimmedEnds(it.name);
    RTrimBlank(it.before);
    RTrimJoin(it.name, it.before);
  }

  lemma NameClean(name: string, before: string)
    requires NoneOf(name, "=:") && NoComment(name) && Blank(before)
    ensures NoneOf(name + before, "=:") && NoComment(name + before)
  {
  }

  lemma ReadEntry(it: Item, continues: bool)
    requires it.Entry? && Good(it, continues)
    ensures LineMeaning(LineOf(it), false, continues) == Pair(it.name, it.value)
  {
    hide RTrim, LineMeaning, PairValue, Classify, NoComment, NoneOf, Trimmed, Blank, IsLine;
    var v := RTrim(it.after + it.value + it.gap + it.comment + "\n");
    EntryTrimmed(it);
    ReadName(it, v);
    ReadValue(it.after, it.value, it.gap, it.comment);
    ReadStart(it.indent, Visible(it), it.name + it.before + [it.delim] + v, continues);
  }

  lemma EntryTrimmed(it: Item)
    requires it.Entry? && GoodEntry(it)
    ensures var head := it.name + it.before + [it.delim];
      RTrim(Visible(it)) == head + RTrim(it.after + it.value + it.gap + it.comment + "\n") && !IsSpace(head[0])
  {
    hide RTrim, NoComment, NoneOf, Trimmed, Blank;
    var head := it.name + it.before + [it.delim];
    var rest := it.after + it.value + it.gap + it.comment + "\n";
    assert Visible(it) == head + rest;
    RTrimJoin(head, rest);
    HeadTrimmed(it);
    assert head + "" == head;
  }

  lemma HeadTrimmed(it: Item)
    requires it.Entry? && GoodEntry(it)
    ensures var head := it.name + it.before + [it.delim]; RTrim(head) == head && !IsSpace(head[0])
  {
    hide NoComment, NoneOf;
  }

  // The whole list

  function Says(it: Item): Meaning {
    match it
    case Header(_, name, _) => Section(name)
    case Entry(_, name, _, _, _, value, _, _) => Pair(name, value)
    case Continued(_, value) => More(value)
    case Remark(_, _) => Nothing
    case Broken(_, _, _) => IniSpec.Wrong
  }

  lemma ReadItem(it: Item, continues: bool)
    requires Good(it, continues)
    ensures LineMeaning(LineOf(it), false, continues) == Says(it)
  {
    hide LineMeaning, LineOf, GoodEntry;
    match it
    case Header(_, _, _) => ReadHeader(it, continues);
    case Entry(_, _, _, _, _, _, _, _) => ReadEntry(it, continues);
    case Continued(_, _) => ReadContinued(it, continues);
    case Remark(_, _) => ReadRemark(it, continues);
    case Broken(_, _, _) => ReadBroken(it, continues);
  }

  // On the first line a byte order mark is read past, and nothing can be continued.
  lemma MarkPassed(mark: string, line: string)
    requires if mark == "" then !HasBom(line) else mark == BOM
    ensures LineMeaning(mark + line, true, false) == LineMeaning(line, false, false)
  {
    hide RTrim, LTrim, Classify, HasBom;
    if mark == "" {
      assert mark + line == line;
    } else {
      MarkHas(line);
    }
  }

  lemma MarkHas(line: string)
    ensures HasBom(BOM + line) && (BOM + line)[3..] == line
  {
  }

  /** Every item does exactly what it stands for. */
  lemma {:induction false} ItemsRead(st: State, items: seq<Item>, h: Handler)
    requires GoodFrom(items, st.prevName != "") && st.lineno > 0
    ensures var done := Parse(st, Print(items), h);
      && done.calls == st.calls + CallsOf(items, st.section, st.prevName)
      && done.error == if st.error != 0 then st.error
                       else FirstFault(items, st.lineno, st.calls, st.section, st.prevName, h)
    decreases |items|
  {
    hide LineOf, Parse, AfterLine, IsLine, Good, GoodFrom, Continues, Print, CallOf, NameAfter, SectionAfter, CallsOf, FirstFault;
    if items == [] {
      NothingRead(st, h);
    } else {
      GoodStep(items, st.prevName != "");
      ItemStep(st, LineOf(items[0]), items[0], h);
      ParsePrinted(st, items, h);
      ItemsRead(AfterLine(st, LineOf(items[0]), h), items[1..], h);
      CallsStep(st, items, h);
    }
  }

  lemma NothingRead(st: State, h: Handler)
    ensures Print([]) == "" && Parse(st, "", h) == st && CallsOf([], st.section, st.prevName) == []
    ensures st.calls + [] == st.calls
    ensures FirstFault([], st.lineno, st.calls, st.section, st.prevName, h) == 0
  {
  }

  lemma GoodStep(items: seq<Item>, continues: bool)
    requires GoodFrom(items, continues) && items != []
    ensures Good(items[0], continues) && GoodFrom(items[1..], Continues(items[0], continues)) && IsLine(LineOf(items[0]))
  {
  }

  lemma CallsStep(st: State, items: seq<Item>, h: Handler)
    requires items != []
    ensures var c := CallOf(items[0], st.section, st.prevName);
      var section, name := SectionAfter(items[0], st.section), NameAfter(items[0], st.prevName);
      && st.calls + CallsOf(items, st.section, st.prevName) == st.calls + c + CallsOf(items[1..], section, name)
      && FirstFault(items, st.lineno, st.calls, st.section, st.prevName, h) ==
         if items[0].Broken? || (c != [] && !h(st.calls + c)) then st.lineno + 1
         else FirstFault(items[1..], st.lineno + 1, st.calls + c, section, name, h)
  {
    hide CallOf, SectionAfter, NameAfter;
    var c := CallOf(items[0], st.section, st.prevName);
    var more := CallsOf(items[1..], SectionAfter(items[0], st.section), NameAfter(items[0], st.prevName));
    assert CallsOf(items, st.section, st.prevName) == c + more;
    assert st.calls + (c + more) == st.calls + c + more;
  }

  // What one item's line does to the parser's state; the first line may have a mark in front.
  lemma ItemStep(st: State, line: string, it: Item, h: Handler)
    requires Good(it, st.prevName != "")
    requires if st.lineno > 0 then line == LineOf(it) else LineMeaning(line, true, st.prevName != "") == Says(it)
    ensures var next := AfterLine(st, line, h);
      && next.lineno == st.lineno + 1 && (next.prevName != "" <==> Continues(it, st.prevName != ""))
      && next.section == SectionAfter(it, st.section) && next.prevName == NameAfter(it, st.prevName)
      && next.calls == st.calls + CallOf(it, st.section, st.prevName)
      && next.error == if st.error != 0 then st.error
                       else if it.Broken? || (CallOf(it, st.section, st.prevName) != [] && !h(next.calls)) then st.lineno + 1 else 0
  {
    hide LineOf, LineMeaning, IsLine, GoodEntry, GoodBroken;
    if st.lineno > 0 {
      ReadItem(it, st.prevName != "");
    }
  }

  // h takes every one of the calls to come, made after those done.
  ghost predicate TakesAll(h: Handler, done: seq<Call>, more: seq<Call>) {
    forall k :: 0 < k <= |more| ==> h(done + more[..k])
  }

  predicate NoneBroken(items: seq<Item>) { forall k :: 0 <= k < |items| ==> !items[k].Broken? }

  lemma {:induction false} AcceptedIff(items: seq<Item>, lineno: nat, calls: seq<Call>, section: string, name: string, h: Handler)
    ensures FirstFault(items, lineno, calls, section, name, h) == 0 <==>
      NoneBroken(items) && TakesAll(h, calls, CallsOf(items, section, name))
  {
    if items != [] {
      hide TakesAll, CallOf, SectionAfter, NameAfter;
      var c := CallOf(items[0], section, name);
      var section', name' := SectionAfter(items[0], section), NameAfter(items[0], name);
      AcceptedIff(items[1..], lineno + 1, calls + c, section', name', h);
      AtMostOne(items[0], section, name);
      if c == [] {
        assert calls + c == calls && c + CallsOf(items[1..], section', name') == CallsOf(items[1..], section', name');
      } else {
        TakesNext(calls, c[0], CallsOf(items[1..], section', name'), h);
        assert c == [c[0]];
      }
    }
  }

  lemma AtMostOne(it: Item, section: string, name: string)
    ensures |CallOf(it, section, name)| <= 1
  {
  }

  lemma TakesNext(done: seq<Call>, c: Call, more: seq<Call>, h: Handler)
    ensures TakesAll(h, done, [c] + more) <==> h(done + [c]) && TakesAll(h, done + [c], more)
  {
    forall k | 0 < k <= 1 + |more| ensures done + ([c] + more)[..k] == done + [c] + more[..k - 1] {
      assert ([c] + more)[..k] == [c] + more[..k - 1];
    }
    assert done + ([c] + more)[..1] == done + [c];
    if TakesAll(h, done, [c] + more) {
      forall k | 0 < k <= |more| ensures h(done + [c] + more[..k]) {
        assert h(done + ([c] + more)[..k + 1]);
      }
    } else if h(done + [c]) {
      var k :| 0 < k <= 1 + |more| && !h(done + ([c] + more)[..k]);
      assert done + [c] + more[..k - 1] == done + ([c] + more)[..k];
    }
  }

  // The first line, with what stands in front of it.
  lemma FirstLine(mark: string, items: seq<Item>, h: Handler)
    requires Printable(mark, items) && items != []
    ensures var line := mark + LineOf(items[0]);
      && Parse(START, mark + Print(items), h) == Parse(AfterLine(START, line, h), Print(items[1..]), h)
      && LineMeaning(line, true, false) == Says(items[0])
  {
    hide AfterLine, LineOf, LineMeaning, HasBom, GoodFrom;
    var line, rest := mark + LineOf(items[0]), Print(items[1..]);
    GoodStep(items, false);
    assert mark == "" ==> line == LineOf(items[0]);
    assert mark + Print(items) == line + rest;
    LineEndsThere(line, rest, 0, MAX_LINE - 1);
    assert (line + rest)[..|line|] == line && (line + rest)[|line|..] == rest;
    MarkPassed(mark, LineOf(items[0]));
    ReadItem(items[0], false);
  }

  // A text that is only a mark, or nothing.
  lemma NoLine(mark: string, h: Handler)
    requires mark == "" || mark == BOM
    ensures Parse(START, mark, h).calls == [] && Parse(START, mark, h).error == 0
  {
    hide LineMeaning;
    if mark == BOM {
      MarkIsLine();
      MarkSaysNothing();
    }
  }

  lemma MarkIsLine()
    ensures LineEnd(BOM, 0, MAX_LINE - 1) == 3 && BOM[..3] == BOM && BOM[3..] == ""
  {
    assert LineEnd(BOM, 3, MAX_LINE - 4) == 3;
    assert LineEnd(BOM, 2, MAX_LINE - 3) == 3;
    assert LineEnd(BOM, 1, MAX_LINE - 2) == 3;
  }

  lemma MarkSaysNothing()
    ensures LineMeaning(BOM, true, false) == Nothing
  {
    hide RTrim, LTrim, Classify, HasBom;
    MarkHas("");
    assert BOM + "" == BOM;
    TrimmedEnds("");
  }

  /** Parsing a printed list makes exactly the calls it stands for, in order; the result is the first wrong
      line or refused call, and 0 exactly when no line is wrong and the handler takes each call. */
  lemma RoundTrip(mark: string, items: seq<Item>, h: Handler)
    requires Printable(mark, items)
    ensures var st := Parse(START, mark + Print(items), h);
      && st.calls == CallsOf(items, "", "")
      && st.error == FirstFault(items, 0, [], "", "", h)
      && (st.error == 0 <==> NoneBroken(items) && TakesAll(h, [], st.calls))
  {
    hide Parse, Print, GoodFrom, CallsOf, FirstFault, TakesAll, AfterLine, LineOf, LineMeaning, Good, HasBom, Continues;
    AcceptedIff(items, 0, [], "", "", h);
    if items == [] {
      NoLine(mark, h);
      NothingRead(START, h);
      assert mark + "" == mark;
    } else {
      FirstLine(mark, items, h);
      GoodStep(items, false);
      ItemStep(START, mark + LineOf(items[0]), items[0], h);
      ItemsRead(AfterLine(START, mark + LineOf(items[0]), h), items[1..], h);
      CallsStep(START, items, h);
      assert [] + CallsOf(items, "", "") == CallsOf(items, "", "");
    }
  }

  // ---- the end of the text

  lemma {:induction false} LineEndStays(text: string, tail: string, i: nat, n: nat)
    requires i < |text| && n > 0
    requires var e := LineEnd(text, i, n); e < |text| || e == i + n || text[e - 1] == '\n'
    ensures LineEnd(text + tail, i, n) == LineEnd(text, i, n)
    decreases |text| - i
  {
    if text[i] != '\n' && n > 1 {
      if i + 1 < |text| {
        LineEndStays(text, tail, i + 1, n - 1);
      }
    }
  }

  lemma {:induction false} LineEndOpen(text: string, i: nat, n: nat)
    requires i <= |text| < i + n && LineEnd(text, i, n) == |text| && (i < |text| ==> text[|text| - 1] != '\n')
    ensures LineEnd(text + "\n", i, n) == |text| + 1
    decreases |text| - i
  {
    if i < |text| {
      LineEndOpen(text, i + 1, n - 1);
    }
  }

  lemma SameMeaning(line: string, first: bool, continues: bool)
    ensures LineMeaning(line + "\n", first, continues) == LineMeaning(line, first, continues)
  {
    hide RTrim, LTrim, Classify;
    NewlineBlank();
    RTrimJoin(line, "\n");
    if HasBom(line) {
      RTrimJoin(line[3..], "\n");
      assert (line + "\n")[3..] == line[3..] + "\n";
    }
  }

  lemma NewlineSaysNothing(first: bool, continues: bool)
    ensures LineMeaning("\n", first, continues) == Nothing
  {
    NewlineBlank();
  }

  lemma ParseLineEnd(st: State, text: string, h: Handler)
    requires text != ""
    ensures var e := LineEnd(text, 0, MAX_LINE - 1); 0 < e && Parse(st, text, h) == Parse(AfterLine(st, text[..e], h), text[e..], h)
  {
    hide AfterLine;
  }

  /** For any text whose last line leaves room for it, a newline at the end makes no difference to calls and
      answer. */
  lemma {:induction false} FinalNewline(st: State, text: string, h: Handler)
    requires text != "" ==> |Lines(text)[|Lines(text)| - 1]| < MAX_LINE - 1
    ensures Parse(st, text + "\n", h).calls == Parse(st, text, h).calls && Parse(st, text + "\n", h).error == Parse(st, text, h).error
    decreases |text|
  {
    hide Parse, AfterLine, LineEnd, LineMeaning;
    var n := MAX_LINE - 1;
    ParseLineEnd(st, text + "\n", h);
    if text == "" {
      assert text + "\n" == "\n";
      OneNewline(st, h);
    } else {
      var e := LineEnd(text, 0, n);
      ParseLineEnd(st, text, h);
      LineEndRight(text, 0, n);
      assert text[e..] != "" ==> Lines(text)[|Lines(text)| - 1] == Lines(text[e..])[|Lines(text[e..])| - 1];
      if e < |text| || text[e - 1] == '\n' {
        LineEndStays(text, "\n", 0, n);
        assert (text + "\n")[..e] == text[..e] && (text + "\n")[e..] == text[e..] + "\n";
        FinalNewline(AfterLine(st, text[..e], h), text[e..], h);
      } else {
        assert Lines(text) == [text[..e]] + Lines(text[e..]);
        LineEndOpen(text, 0, n);
        assert (text + "\n")[..e + 1] == text[..e] + "\n" && (text + "\n")[e + 1..] == "" == text[e..];
        SameAfter(st, text[..e], h);
      }
    }
  }

  lemma OneNewline(st: State, h: Handler)
    ensures var st' := Parse(st, "\n", h); st'.calls == Parse(st, "", h).calls && st'.error == Parse(st, "", h).error
  {
    hide AfterLine, LineMeaning;
    assert LineEnd("\n", 0, MAX_LINE - 1) == 1;
    assert "\n"[..1] == "\n" && "\n"[1..] == "";
    EmptyLine(st, h);
  }

  lemma EmptyLine(st: State, h: Handler)
    ensures AfterLine(st, "\n", h) == st.(lineno := st.lineno + 1)
  {
    hide LineMeaning;
    NewlineSaysNothing(st.lineno + 1 == 1, st.prevName != "");
  }

  lemma SameAfter(st: State, line: string, h: Handler)
    ensures AfterLine(st, line + "\n", h) == AfterLine(st, line, h)
  {
    hide LineMeaning;
    SameMeaning(line, st.lineno + 1 == 1, st.prevName != "");
  }
}
