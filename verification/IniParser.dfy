/** The line reader and the parser loop of src/ini.c, which trim and cut each line inside one buffer. */
module IniParser {
  import opened CBase
  import opened IniSpec

  // Only the part of the buffer from lo to hi (hi included) has changed.
  ghost predicate Within(was: seq<char>, now: seq<char>, lo: nat, hi: nat) {
    lo <= hi < |was| == |now| && now[..lo] == was[..lo] && now[hi + 1..] == was[hi + 1..]
  }

  lemma NoNulInside(text: string, i: nat, j: nat)
    requires NUL !in text && i <= j <= |text|
    ensures NUL !in text[i..j]
  {
    forall c | c in text[i..j] ensures c != NUL {
      assert c in text;
    }
  }

  // ini_parse_string_ctx
  class StringReader {
    const text: string
    var ptr: nat
    var numLeft: nat

    constructor (text: string)
      ensures this.text == text && ptr == 0 && numLeft == |text|
    {
      this.text := text;
      ptr, numLeft := 0, |text|;
    }

    // src/ini.c:235-258
    method Read(str: array<char>, size: nat) returns (more: bool)
      requires ptr + numLeft == |text| && 2 <= size <= str.Length && NUL !in text
      modifies this, str
      ensures ptr + numLeft == |text| && (more <==> old(ptr) < |text|)
      ensures more ==> ptr == LineEnd(text, old(ptr), size - 1) && CString(str[..], 0, text[old(ptr)..ptr])
      ensures !more ==> ptr == old(ptr)
    {
      if numLeft == 0 {
        return false;
      }
      ghost var start := ptr;
      var num, strp := size, 0;
      while num > 1 && numLeft != 0
        invariant 1 <= num <= size && strp + num == size && strp == ptr - start && ptr + numLeft == |text|
        invariant str[..strp] == text[start..ptr]
        invariant LineEnd(text, start, size - 1) == LineEnd(text, ptr, num - 1)
        decreases num
      {
        ghost var before := str[..strp];
        var c := text[ptr];
        ptr := ptr + 1;
        numLeft := numLeft - 1;
        str[strp] := c;
        strp := strp + 1;
        assert str[..strp] == before + [c] == text[start..ptr];
        if c == '\n' {
          assert LineEnd(text, start, size - 1) == ptr;
          break;
        }
        num := num - 1;
      }
      ghost var read := str[..strp];
      NoNulInside(text, start, ptr);
      str[strp] := NUL;
      assert str[..][0..0 + strp] == str[..strp] == read;
      return true;
    }
  }

  // The string from its k-th character on.
  lemma TailAt(b: seq<char>, p: nat, w: string, k: nat)
    requires CString(b, p, w) && k <= |w|
    ensures p + |w| < |b| && CString(b, p + k, w[k..])
    ensures b[p + k] == (if k < |w| then w[k] else NUL) && (k < |w| ==> w[k] != NUL)
  {
    assert b[p + k..p + |w|] == b[p..p + |w|][k..];
    if k < |w| {
      assert b[p + k] == b[p..p + |w|][k];
      assert w[k] in w;
    }
  }

  // Cutting a string short.
  lemma CutAt(b: seq<char>, p: nat, w: string, k: nat)
    requires CString(b, p, w) && k <= |w|
    ensures CString(b[p + k := NUL], p, w[..k]) && Within(b, b[p + k := NUL], p, p + |w|)
  {
    assert b[p + k := NUL][p..p + k] == b[p..p + |w|][..k];
  }

  lemma WithinTwice(a: seq<char>, b: seq<char>, c: seq<char>, lo: nat, hi: nat, lo': nat, hi': nat)
    requires Within(a, b, lo, hi) && Within(b, c, lo', hi') && lo <= lo' && hi' <= hi
    ensures Within(a, c, lo, hi)
  {
    assert c[..lo] == c[..lo'][..lo] == b[..lo'][..lo];
    assert c[hi + 1..] == c[hi' + 1..][hi - hi'..] == b[hi' + 1..][hi - hi'..];
  }

  method StrLen(buf: array<char>, s: nat, ghost w: string) returns (n: nat)
    requires CString(buf[..], s, w)
    ensures n == |w|
  {
    n := 0;
    TailAt(buf[..], s, w, 0);
    while buf[s + n] != NUL
      invariant n <= |w| && buf[s + n] == (if n < |w| then w[n] else NUL)
      invariant n < |w| ==> w[n] != NUL
      decreases |w| - n
    {
      TailAt(buf[..], s, w, n + 1);
      n := n + 1;
    }
  }

  lemma RstripStarts(b: seq<char>, s: nat, w: string)
    requires CString(b, s, w)
    ensures s + |w| < |b| && Within(b, b, s, s + |w|)
  {
  }

  // src/ini.c:34-40
  method Rstrip(buf: array<char>, s: nat, ghost w: string)
    requires CString(buf[..], s, w)
    modifies buf
    ensures CString(buf[..], s, RTrim(w)) && Within(old(buf[..]), buf[..], s, s + |w|)
  {
    hide CString, Within;
    RstripStarts(buf[..], s, w);
    var n := StrLen(buf, s, w);
    ghost var v := w;
    while n > 0 && IsSpace(buf[s + n - 1])
      invariant n == |v| <= |w| && CString(buf[..], s, v) && RTrim(w) == RTrim(v)
      invariant Within(old(buf[..]), buf[..], s, s + |w|)
      decreases n
    {
      TailAt(buf[..], s, v, n - 1);
      CutAt(buf[..], s, v, n - 1);
      WithinTwice(old(buf[..]), buf[..], buf[..][s + n - 1 := NUL], s, s + |w|, s, s + n);
      n := n - 1;
      buf[s + n] := NUL;
      v := v[..n];
    }
    if n > 0 {
      TailAt(buf[..], s, v, n - 1);
    }
  }

  // src/ini.c:43-48
  method Lskip(buf: array<char>, s: nat, ghost w: string) returns (p: nat)
    requires CString(buf[..], s, w)
    ensures p == s + |w| - |LTrim(w)| && CString(buf[..], p, LTrim(w))
  {
    hide CString;
    p := s;
    ghost var v := w;
    TailAt(buf[..], p, v, 0);
    while buf[p] != NUL && IsSpace(buf[p])
      invariant s <= p && p - s == |w| - |v| && p < buf.Length && CString(buf[..], p, v) && LTrim(w) == LTrim(v)
      invariant buf[p] == if v != "" then v[0] else NUL
      decreases |v|
    {
      TailAt(buf[..], p, v, 1);
      p := p + 1;
      v := v[1..];
      TailAt(buf[..], p, v, 0);
    }
    TailAt(buf[..], p, v, 0);
  }

  // src/ini.c:53-68
  method FindCharsOrComment(buf: array<char>, s: nat, chars: string, ghost w: string) returns (e: nat)
    requires CString(buf[..], s, w)
    ensures e == s + Find(w, chars, false)
  {
    hide CString;
    var wasSpace := false;
    e := s;
    ghost var v := w;
    TailAt(buf[..], e, v, 0);
    while buf[e] != NUL && buf[e] !in chars && !(wasSpace && buf[e] == ';')
      invariant s <= e && e - s == |w| - |v| && e < buf.Length && CString(buf[..], e, v)
      invariant buf[e] == if v != "" then v[0] else NUL
      invariant Find(w, chars, false) == e - s + Find(v, chars, wasSpace)
      decreases |v|
    {
      TailAt(buf[..], e, v, 1);
      wasSpace := IsSpace(buf[e]);
      e := e + 1;
      v := v[1..];
      TailAt(buf[..], e, v, 0);
    }
    TailAt(buf[..], e, v, 0);
  }

  // The string a pointer into the buffer stands for.
  method CopyString(buf: array<char>, p: nat, ghost w: string) returns (r: string)
    requires CString(buf[..], p, w)
    ensures r == w
  {
    r := "";
    TailAt(buf[..], p, w, 0);
    while buf[p + |r|] != NUL
      invariant |r| <= |w| && r == w[..|r|]
      invariant p + |r| < buf.Length && buf[p + |r|] == if |r| < |w| then w[|r|] else NUL
      decreases |w| - |r|
    {
      TailAt(buf[..], p, w, |r| + 1);
      r := r + [buf[p + |r|]];
    }
    TailAt(buf[..], p, w, |r|);
  }

  lemma StringAfter(b: seq<char>, c: seq<char>, p: nat, w: string, lo: nat, hi: nat)
    requires CString(b, p, w) && Within(b, c, lo, hi) && hi < p
    ensures CString(c, p, w)
  {
    forall k | p <= k <= p + |w| ensures c[k] == b[k] {
      assert c[k] == c[hi + 1..][k - hi - 1] == b[hi + 1..][k - hi - 1];
    }
    assert c[p..p + |w|] == b[p..p + |w|];
  }

  // Overwrites the end of a string found at its e-th character.
  method CutString(buf: array<char>, p: nat, ghost w: string, end: nat)
    requires CString(buf[..], p, w) && p <= end <= p + |w| < buf.Length
    modifies buf
    ensures CString(buf[..], p, w[..end - p]) && Within(old(buf[..]), buf[..], end, end)
    ensures CString(old(buf[..]), end, w[end - p..])
  {
    TailAt(buf[..], p, w, end - p);
    CutAt(buf[..], p, w, end - p);
    buf[end] := NUL;
  }

  // A "[section]" line, its first character at start (src/ini.c:163-172).
  method SectionLine(line: array<char>, start: nat, ghost w: string) returns (ok: bool, name: string)
    requires CString(line[..], start, w) && w != "" && w[0] == '['
    modifies line
    ensures if ok then Classify(w) == Section(name) else Classify(w) == Wrong
  {
    hide CString, Within, Find;
    ghost var body := w[1..];
    TailAt(line[..], start, w, 1);
    var end := FindCharsOrComment(line, start + 1, "]", body);
    TailAt(line[..], start + 1, body, Find(body, "]", false));
    name := "";
    ok := line[end] == ']';
    if ok {
      CutString(line, start + 1, body, end);
      name := CopyString(line, start + 1, body[..end - start - 1]);
    }
  }

  // src/ini.c:182-184
  method CutComment(line: array<char>, start: nat, ghost v: string) returns (end: nat)
    requires CString(line[..], start, v)
    modifies line
    ensures end == start + Find(v, "", false) && end < line.Length && start + |v| < line.Length
    ensures CString(line[..], start, v[..Find(v, "", false)]) && Within(old(line[..]), line[..], end, end)
  {
    hide CString, Within, Find;
    end := FindCharsOrComment(line, start, "", v);
    TailAt(line[..], start, v, Find(v, "", false));
    CutString(line, start, v, end);
  }

  // The value behind the delimiter (src/ini.c:181-187): its comment cut off, and trimmed.
  method ValuePart(line: array<char>, start: nat, ghost v: string) returns (value: string)
    requires CString(line[..], start, v)
    modifies line
    ensures value == PairValue(v) && Within(old(line[..]), line[..], start, start + |v|)
  {
    hide CString, Within, Find, LTrim, RTrim;
    var end := CutComment(line, start, v);
    ghost var e := Find(v, "", false);
    ghost var cut := line[..];
    var p := Lskip(line, start, v[..e]);
    ValueBounds(v);
    Rstrip(line, p, LTrim(v[..e]));
    value := CopyString(line, p, PairValue(v));
    WithinTail(old(line[..]), cut, line[..], start, start + |v|, p, end);
  }

  lemma ValueBounds(v: string)
    ensures |LTrim(v[..Find(v, "", false)])| <= Find(v, "", false) <= |v|
  {
  }

  lemma WithinTail(a: seq<char>, b: seq<char>, c: seq<char>, lo: nat, hi: nat, p: nat, end: nat)
    requires Within(a, b, end, end) && Within(b, c, p, end) && lo <= p <= end <= hi < |a|
    ensures Within(a, c, lo, hi)
  {
    forall k | 0 <= k < lo || hi < k < |a| ensures c[k] == a[k] {
      if k < lo {
        assert c[k] == c[..p][k] == b[..p][k] && b[k] == b[..end][k] == a[..end][k];
      } else {
        assert c[k] == c[end + 1..][k - end - 1] == b[end + 1..][k - end - 1] == a[end + 1..][k - end - 1];
      }
    }
    assert c[..lo] == a[..lo];
    assert c[hi + 1..] == a[hi + 1..];
  }

  // The delimiter at end cut off, and the name before it trimmed (src/ini.c:178-179).
  method NamePart(line: array<char>, start: nat, ghost w: string, end: nat) returns (name: string)
    requires CString(line[..], start, w) && start <= end < start + |w| < line.Length
    modifies line
    ensures name == RTrim(w[..end - start]) && CString(line[..], end + 1, w[end - start + 1..])
  {
    hide CString, Within, RTrim;
    ghost var v, was := w[end - start + 1..], line[..];
    TailAt(was, start, w, end - start + 1);
    CutString(line, start, w, end);
    ghost var cut := line[..];
    StringAfter(was, cut, end + 1, v, end, end);
    Rstrip(line, start, w[..end - start]);
    StringAfter(cut, line[..], end + 1, v, start, end);
    name := CopyString(line, start, RTrim(w[..end - start]));
  }

  // A name and value line, its first character at start (src/ini.c:174-191).
  method PairLine(line: array<char>, start: nat, ghost w: string) returns (ok: bool, name: string, value: string)
    requires CString(line[..], start, w) && w != "" && w[0] != '['
    modifies line
    ensures if ok then Classify(w) == Pair(name, value) else Classify(w) == Wrong
  {
    hide CString, Within, Find, RTrim, PairValue;
    var end := FindCharsOrComment(line, start, "=:", w);
    TailAt(line[..], start, w, Find(w, "=:", false));
    name, value := "", "";
    ok := line[end] == '=' || line[end] == ':';
    if ok {
      name := NamePart(line, start, w, end);
      value := ValuePart(line, end + 1, w[end - start + 1..]);
    }
  }

  // lskip(rstrip(...)) on the line, behind a byte order mark (src/ini.c:140-148).
  method TrimLine(line: array<char>, first: bool, ghost w: string) returns (start: nat, ghost text: string)
    requires CString(line[..], 0, w) && line.Length >= 3
    modifies line
    ensures var bom := first && HasBom(w); var trimmed := RTrim(if bom then w[3..] else w);
      text == LTrim(trimmed) && CString(line[..], start, text) && (start > 0 <==> bom || |text| < |trimmed|)
  {
    hide CString, Within, LTrim, RTrim;
    var skip := 0;
    BomAt(line[..], w);
    if first && line[0] == '\U{EF}' && line[1] == '\U{BB}' && line[2] == '\U{BF}' {
      skip := 3;
    }
    TailAt(line[..], 0, w, skip);
    ghost var rest := w[skip..];
    assert skip == 0 ==> rest == w;
    Rstrip(line, skip, rest);
    start := Lskip(line, skip, RTrim(rest));
    text := LTrim(RTrim(rest));
    TrimShorter(RTrim(rest));
  }

  lemma TrimShorter(s: string)
    ensures |LTrim(s)| <= |s|
  {
  }

  // What the line says, cut out of the buffer.
  method ReadMeaning(line: array<char>, first: bool, continues: bool, ghost w: string) returns (m: Meaning)
    requires CString(line[..], 0, w) && line.Length >= 3
    modifies line
    ensures m == LineMeaning(w, first, continues)
  {
    hide CString, Classify, LTrim, RTrim, HasBom;
    m := Nothing;
    var start;
    ghost var text;
    start, text := TrimLine(line, first, w);
    TailAt(line[..], start, text, 0);
    if line[start] == ';' || line[start] == '#' || line[start] == NUL {
    } else if continues && start > 0 {
      var value := CopyString(line, start, text);
      m := More(value);
    } else {
      m := Classified(line, start, text);
    }
  }

  // A line that is no comment and no continuation (src/ini.c:163-191).
  method Classified(line: array<char>, start: nat, ghost w: string) returns (m: Meaning)
    requires CString(line[..], start, w) && w != ""
    modifies line
    ensures m == Classify(w)
  {
    hide CString, Classify;
    TailAt(line[..], start, w, 0);
    if line[start] == '[' {
      var ok, name := SectionLine(line, start, w);
      m := if ok then Section(name) else Wrong;
    } else {
      var ok, name, value := PairLine(line, start, w);
      m := if ok then Pair(name, value) else Wrong;
    }
  }

  // The body of the loop (src/ini.c:138-198).
  method ParseLine(line: array<char>, st0: State, h: Handler, ghost w: string) returns (st: State)
    requires CString(line[..], 0, w) && line.Length >= 3
    modifies line
    ensures st == AfterLine(st0, w, h)
  {
    hide LineMeaning;
    st := st0.(lineno := st0.lineno + 1);
    var m := ReadMeaning(line, st.lineno == 1, st.prevName != "", w);
    match m
    case Nothing =>
    case Section(name) => st := st.(section := Clipped(name), prevName := "");
    case Pair(name, value) => st := Called(st, Call(st.section, name, value), h).(prevName := Clipped(name));
    case More(value) => st := Called(st, Call(st.section, st.prevName, value), h);
    case Wrong =>
      if st.error == 0 {
        st := st.(error := st.lineno);
      }
  }

  lemma BomAt(b: seq<char>, w: string)
    requires CString(b, 0, w) && |b| >= 3
    ensures HasBom(w) <==> b[0] == '\U{EF}' && b[1] == '\U{BB}' && b[2] == '\U{BF}'
  {
    if |w| >= 3 {
      assert b[0..|w|][0] == b[0] && b[0..|w|][1] == b[1] && b[0..|w|][2] == b[2];
    }
  }

  /** ini_parse_string (src/ini.c:79-211, 261-268): the number of the first wrong line or refused call,
      or 0; calls are the handler calls made. */
  method ParseString(text: string, h: Handler) returns (error: nat, calls: seq<Call>)
    requires NUL !in text
    ensures var st := Parse(START, text, h); error == st.error && calls == st.calls
  {
    hide AfterLine, Parse, LineEnd, CString;
    var reader := new StringReader(text);
    var line := new char[MAX_LINE](_ => NUL);
    var st := START;
    ghost var start := 0;
    assert text[0..] == text;
    ParseDone(st, text, h);
    var more := reader.Read(line, MAX_LINE);
    while more
      invariant fresh(reader) && fresh(line) && reader.text == text && start <= |text|
      invariant reader.ptr + reader.numLeft == |text|
      invariant Parse(START, text, h) == Parse(st, text[start..], h)
      invariant more ==> start < |text| && reader.ptr == LineEnd(text, start, MAX_LINE - 1) && CString(line[..], 0, text[start..reader.ptr])
      invariant !more ==> start == |text|
      decreases |text| - start, more
    {
      ParseStep(st, text, start, h);
      st := ParseLine(line, st, h, text[start..reader.ptr]);
      start := reader.ptr;
      more := reader.Read(line, MAX_LINE);
    }
    ParseDone(st, text, h);
    return st.error, st.calls;
  }

  lemma ParseDone(st: State, text: string, h: Handler)
    ensures Parse(st, text[|text|..], h) == st
  {
  }

  lemma ParseStep(st: State, text: string, i: nat, h: Handler)
    requires i < |text|
    ensures var e := LineEnd(text, i, MAX_LINE - 1);
      i < e && Parse(st, text[i..], h) == Parse(AfterLine(st, text[i..e], h), text[e..], h)
  {
    hide AfterLine;
    SuffixLine(text, i);
  }

  lemma SuffixLine(text: string, i: nat)
    requires i < |text|
    ensures var e := LineEnd(text, i, MAX_LINE - 1);
      LineEnd(text[i..], 0, MAX_LINE - 1) == e - i && text[i..][..e - i] == text[i..e] && text[i..][e - i..] == text[e..]
  {
    LineEndShift(text, i, 0, MAX_LINE - 1);
  }

  lemma {:induction false} LineEndShift(text: string, i: nat, j: nat, n: nat)
    requires i + j <= |text|
    ensures LineEnd(text[i..], j, n) == LineEnd(text, i + j, n) - i
    decreases n
  {
    if n > 0 && i + j < |text| {
      LineEndShift(text, i, j + 1, n - 1);
    }
  }
}
