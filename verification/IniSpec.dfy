/** What an INI text means (src/ini.c): cut into lines, each line trimmed and classified. */
module IniSpec {
  import opened CBase

  const MAX_LINE := 200
  const MAX_NAME := 50   // MAX_SECTION too

  function LTrim(s: string): (r: string)
    ensures |r| <= |s| && r == s[|s| - |r|..] && (r != "" ==> !IsSpace(r[0]))
  {
    if s == "" || !IsSpace(s[0]) then s else LTrim(s[1..])
  }

  function RTrim(s: string): (r: string)
    ensures r <= s && (r != "" ==> !IsSpace(r[|r| - 1]))
  {
    if s == "" || !IsSpace(s[|s| - 1]) then s else RTrim(s[..|s| - 1])
  }

  // First position of one of chars, or of a ';' behind a blank; |s| if there is none.
  function Find(s: string, chars: string, wasSpace: bool): (e: nat)
    ensures e <= |s|
  {
    if s == "" || s[0] in chars || (wasSpace && s[0] == ';') then 0 else 1 + Find(s[1..], chars, IsSpace(s[0]))
  }

  // strncpy0 into a buffer of MAX_NAME bytes
  function Clipped(s: string): string {
    if |s| < MAX_NAME then s else s[..MAX_NAME - 1]
  }

  predicate HasBom(s: string) {
    |s| >= 3 && s[0] == '\U{EF}' && s[1] == '\U{BB}' && s[2] == '\U{BF}'
  }

  datatype Meaning = Nothing | Section(name: string) | Pair(name: string, value: string) | More(value: string) | Wrong

  function PairValue(v: string): string {
    RTrim(LTrim(v[..Find(v, "", false)]))
  }

  // A line that is no comment and no continuation.
  function Classify(start: string): Meaning
    requires start != ""
  {
    if start[0] == '[' then
      var body := start[1..];
      var end := Find(body, "]", false);
      if end < |body| && body[end] == ']' then Section(body[..end]) else Wrong
    else
      var end := Find(start, "=:", false);
      if end < |start| && (start[end] == '=' || start[end] == ':')
      then Pair(RTrim(start[..end]), PairValue(start[end + 1..]))
      else Wrong
  }

  /** What a line says (src/ini.c:140-198); continues: a name has been read that it could continue. */
  function LineMeaning(line: string, first: bool, continues: bool): Meaning {
    var bom := first && HasBom(line);
    var trimmed := RTrim(if bom then line[3..] else line);
    var start := LTrim(trimmed);
    if start == "" || start[0] == ';' || start[0] == '#' then Nothing
    else if continues && (bom || |start| < |trimmed|) then More(start)
    else Classify(start)
  }

  datatype Call = Call(section: string, name: string, value: string)

  // The user's handler: its answer may depend on all calls so far.
  type Handler = seq<Call> -> bool

  datatype State = State(section: string, prevName: string, lineno: nat, error: nat, calls: seq<Call>)

  const START := State("", "", 0, 0, [])

  function Called(st: State, c: Call, h: Handler): State {
    var calls := st.calls + [c];
    st.(calls := calls, error := if !h(calls) && st.error == 0 then st.lineno else st.error)
  }

  function AfterLine(st0: State, line: string, h: Handler): State {
    var st := st0.(lineno := st0.lineno + 1);
    match LineMeaning(line, st.lineno == 1, st.prevName != "")
    case Nothing => st
    case Section(name) => st.(section := Clipped(name), prevName := "")
    case Pair(name, value) => Called(st, Call(st.section, name, value), h).(prevName := Clipped(name))
    case More(value) => Called(st, Call(st.section, st.prevName, value), h)
    case Wrong => st.(error := if st.error == 0 then st.lineno else st.error)
  }

  /** The reader's next line: up to and including a newline, but at most n characters. */
  function LineEnd(text: string, i: nat, n: nat): (e: nat)
    requires i <= |text|
    ensures i <= e <= |text| && e <= i + n && (i < |text| && n > 0 ==> i < e)
    decreases |text| - i
  {
    if i == |text| || n == 0 then i else if text[i] == '\n' then i + 1 else LineEnd(text, i + 1, n - 1)
  }

  function Parse(st: State, text: string, h: Handler): State
    decreases |text|
  {
    if text == "" then st
    else
      var e := LineEnd(text, 0, MAX_LINE - 1);
      Parse(AfterLine(st, text[..e], h), text[e..], h)
  }

  /** Lines cut the text into pieces that together are the text; each ends at a newline, at the size
      limit or at the end of the text. */
  function Lines(text: string): seq<string>
    decreases |text|
  {
    if text == "" then [] else var e := LineEnd(text, 0, MAX_LINE - 1); [text[..e]] + Lines(text[e..])
  }

  function Concat(lines: seq<string>): string {
    if lines == [] then "" else lines[0] + Concat(lines[1..])
  }

  predicate EndsRight(line: string, last: bool) {
    && 0 < |line| < MAX_LINE && (forall i :: 0 <= i < |line| - 1 ==> line[i] != '\n')
    && (line[|line| - 1] == '\n' || |line| == MAX_LINE - 1 || last)
  }

  lemma {:induction false} LinesAreText(text: string)
    ensures Concat(Lines(text)) == text
    decreases |text|
  {
    if text != "" {
      var e := LineEnd(text, 0, MAX_LINE - 1);
      LinesAreText(text[e..]);
      assert Lines(text)[1..] == Lines(text[e..]);
      assert text == text[..e] + text[e..];
    }
  }

  lemma {:induction false} LinesEndRight(text: string, k: nat)
    requires k < |Lines(text)|
    ensures EndsRight(Lines(text)[k], k == |Lines(text)| - 1)
    decreases |text|
  {
    var e := LineEnd(text, 0, MAX_LINE - 1);
    LineEndRight(text, 0, MAX_LINE - 1);
    if k > 0 {
      LinesEndRight(text[e..], k - 1);
    }
  }

  lemma LineEndRight(text: string, i: nat, n: nat)
    requires i < |text| && n > 0
    ensures var e := LineEnd(text, i, n);
      (text[e - 1] == '\n' || e == i + n || e == |text|) && forall j :: i <= j < e - 1 ==> text[j] != '\n'
    decreases |text| - i
  {
    if text[i] != '\n' && n > 1 && i + 1 < |text| {
      LineEndRight(text, i + 1, n - 1);
    }
  }
}
