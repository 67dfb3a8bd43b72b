/** The leaf parsers of src/tiny-json.c, which unescape and terminate strings inside the text they
    are reading. s is the text as it was; buf holds it and is overwritten behind the read position. */
module JsonLex {
  import opened CBase
  import opened JsonGrammar
  import opened JsonNumber

  const NULL := -1

  datatype JsonType = OBJ | ARRAY | PRIM(kind: Kind)

  // The union in json_t: a value pointer for a leaf, links for a container.
  datatype Union = Value(pos: int) | Links(child: int, last: int)

  /** json_t of include/tiny-json.h; pointers into the pool and into the text are indices. */
  datatype Json = Json(sibling: int, name: int, u: Union, ty: JsonType)

  // From pos on the buffer still holds the text, terminator included.
  ghost predicate Unread(b: seq<char>, s: string, pos: nat) {
    pos <= |s| < |b| && forall k :: pos <= k <= |s| ==> b[k] == At(s, k)
  }

  /** The string text now stands at v, below next; all before v and from next on is as it was. It is
      terminated, unless it ends at next itself and a bracket stands there. */
  ghost predicate Placed(was: seq<char>, now: seq<char>, v: nat, text: string, next: nat) {
    && |now| == |was| && v + |text| <= next < |now|
    && now[..v] == was[..v] && now[next..] == was[next..]
    && now[v..v + |text|] == text
    && (if v + |text| < next then now[v + |text|] == NUL else IsBracket(now[next]))
  }

  // src/tiny-json.c:434-436
  method SkipBlank(buf: array<char>, str: nat, ghost s: string) returns (r: int)
    requires Unread(buf[..], s, str)
    ensures r == GoBlank(s, str)
  {
    r := str;
    while buf[r] != NUL
      invariant str <= r <= |s| && GoBlank(s, r) == GoBlank(s, str)
      decreases |s| - r
    {
      if !IsBlank(buf[r]) {
        return;
      }
      r := r + 1;
    }
    return NULL;
  }

  // src/tiny-json.c:441-447
  method SkipNum(buf: array<char>, str: nat, ghost s: string) returns (r: int)
    requires Unread(buf[..], s, str)
    ensures r == GoNum(s, str)
  {
    r := str;
    while buf[r] != NUL
      invariant str <= r <= |s| && GoNum(s, r) == GoNum(s, str)
      decreases |s| - r
    {
      if !IsDigit(buf[r]) {
        return;
      }
      r := r + 1;
    }
    return NULL;
  }

  // src/tiny-json.c:117-123, answering whether four hexadecimal digits stand at str.
  method FourHex(buf: array<char>, str: nat, ghost s: string) returns (ok: bool)
    requires Unread(buf[..], s, str)
    ensures ok <==> HexFour(s, str)
  {
    var i := 0;
    while i < 4
      invariant 0 <= i <= 4 && str + i <= |s|
      invariant forall k :: str <= k < str + i ==> IsHex(At(s, k))
    {
      if !IsHex(buf[str + i]) {
        assert !IsHex(At(s, str + i));
        return false;
      }
      i := i + 1;
    }
    return true;
  }

  function Onto(front: string, r: Parsed<string>): Parsed<string> {
    if r.Bad? then Bad else Good(front + r.value, r.next)
  }

  lemma OntoNothing(r: Parsed<string>)
    ensures Onto([], r) == r
  {
    if r.Good? {
      assert [] + r.value == r.value;
    }
  }

  lemma OntoSnoc(front: string, c: char, r: Parsed<string>)
    ensures Onto(front, Cons(c, r)) == Onto(front + [c], r)
  {
    if r.Good? {
      assert front + ([c] + r.value) == (front + [c]) + r.value;
    }
  }

  // One character of a string, escape or not, copied to tail (src/tiny-json.c:138-151): its end.
  method OneChar(buf: array<char>, head: nat, tail: nat, ghost s: string) returns (next: int)
    requires Unread(buf[..], s, head) && tail <= head && buf[head] >= ' ' && buf[head] != '\"'
    modifies buf
    ensures next == NULL ==> StrBody(s, head) == Bad
    ensures next != NULL ==>
      && head < next <= |s| && buf[..] == old(buf[..])[tail := buf[tail]]
      && StrBody(s, head) == Cons(buf[tail], StrBody(s, next))
  {
    next := head;
    if buf[next] != '\\' {
      buf[tail] := buf[next];
    } else {
      next := next + 1;
      if buf[next] == 'u' {
        next := next + 1;
        var hex := FourHex(buf, next, s);
        if !hex {
          return NULL;
        }
        assert IsHex(At(s, next + 3));
        buf[tail] := '?';
        next := next + 3;
      } else {
        var esc := Escape(buf[next]);
        if esc == NUL {
          return NULL;
        }
        buf[tail] := esc;
      }
    }
    next := next + 1;
  }

  // src/tiny-json.c:130-154
  method ParseString(buf: array<char>, str: nat, ghost s: string) returns (next: int)
    requires Unread(buf[..], s, str)
    modifies buf
    ensures var r := StrBody(s, str);
      if r.Bad? then next == NULL else next == r.next && Placed(old(buf[..]), buf[..], str, r.value, r.next)
  {
    var head, tail := str, str;
    OntoNothing(StrBody(s, str));
    assert buf[str..str] == [];
    while buf[head] >= ' '
      invariant str <= tail <= head <= |s| < buf.Length
      invariant buf[..str] == old(buf[..])[..str] && buf[head..] == old(buf[..])[head..]
      invariant StrBody(s, str) == Onto(buf[str..tail], StrBody(s, head))
      decreases |s| - head
    {
      ghost var done := buf[str..tail];
      StillUnread(old(buf[..]), buf[..], s, str, head);
      if buf[head] == '\"' {
        buf[tail] := NUL;
        assert buf[str..tail] == done;
        return head + 1;
      }
      var next := OneChar(buf, head, tail, s);
      if next == NULL {
        return NULL;
      }
      OntoSnoc(done, buf[tail], StrBody(s, next));
      assert buf[str..tail + 1] == done + [buf[tail]];
      head := next;
      tail := tail + 1;
    }
    StillUnread(old(buf[..]), buf[..], s, str, head);
    return NULL;
  }

  // What is unread stays unread across a write behind next.
  lemma StillUnread(was: seq<char>, now: seq<char>, s: string, pos: nat, next: nat)
    requires Unread(was, s, pos) && |now| == |was| && pos <= next <= |s| && now[next..] == was[next..]
    ensures Unread(now, s, next)
  {
    forall k | next <= k <= |s| ensures now[k] == At(s, k) {
      assert now[k] == now[next..][k - next] == was[next..][k - next];
    }
  }

  // src/tiny-json.c:161-169; the member's name is read into mem[property].
  method PropertyName(buf: array<char>, str: nat, mem: array<Json>, property: nat, ghost s: string) returns (ptr: int)
    requires Unread(buf[..], s, str) && property < mem.Length && At(s, str) == '\"'
    modifies buf, mem
    ensures var r := NameAt(s, str);
      if r.Bad? then ptr == NULL
      else ptr == r.next && Placed(old(buf[..]), buf[..], str + 1, r.value, r.next)
           && mem[..] == old(mem[..])[property := old(mem[property]).(name := str + 1)]
  {
    hide StrBody, GoBlank, Placed;
    mem[property] := mem[property].(name := str + 1);
    ptr := ParseString(buf, str + 1, s);
    if ptr == NULL {
      return;
    }
    StillUnread(old(buf[..]), buf[..], s, str, ptr);
    ghost var behind := ptr;
    ptr := SkipBlank(buf, ptr, s);
    if ptr == NULL {
      return;
    }
    if buf[ptr] != ':' {
      return NULL;
    }
    ptr := SkipBlank(buf, ptr + 1, s);
    if ptr != NULL {
      PlacedFurther(old(buf[..]), buf[..], str + 1, StrBody(s, str + 1).value, behind, ptr);
    }
  }

  // Reading on behind a terminated string.
  lemma PlacedFurther(was: seq<char>, now: seq<char>, v: nat, text: string, next: nat, later: nat)
    requires Placed(was, now, v, text, next) && v + |text| < next <= later < |now|
    ensures Placed(was, now, v, text, later)
  {
    assert now[later..] == now[next..][later - next..] == was[next..][later - next..] == was[later..];
  }

  // src/tiny-json.c:176-182
  method TextValue(buf: array<char>, str: nat, mem: array<Json>, property: nat, ghost s: string) returns (ptr: int)
    requires Unread(buf[..], s, str) && At(s, str) == '\"'
    requires property < mem.Length && mem[property].u == Value(str)
    modifies buf, mem
    ensures var r := LeafAt(s, str);
      if r.Bad? then ptr == NULL
      else ptr == r.next && Placed(old(buf[..]), buf[..], str + 1, r.value.text, r.next)
           && mem[..] == old(mem[..])[property := old(mem[property]).(u := Value(str + 1), ty := PRIM(r.value.kind))]
  {
    mem[property] := mem[property].(u := Value(mem[property].u.pos + 1));
    ptr := ParseString(buf, str + 1, s);
    if ptr != NULL {
      mem[property] := mem[property].(ty := PRIM(TEXT));
    }
  }

  // src/tiny-json.c:455-458
  method SetToNull(buf: array<char>, ch: nat) returns (r: nat)
    requires ch < buf.Length
    modifies buf
    ensures if IsBracket(old(buf[ch])) then r == ch && buf[..] == old(buf[..])
            else r == ch + 1 && buf[..] == old(buf[..])[ch := NUL]
  {
    r := ch;
    if !IsBracket(buf[ch]) {
      buf[ch] := NUL;
      r := ch + 1;
    }
  }

  // A lexeme left in place and terminated at its end.
  lemma PlacedLexeme(was: seq<char>, now: seq<char>, s: string, str: nat, end: nat)
    requires Unread(was, s, str) && str <= end < |s| && EndsPrimitive(s[end])
    requires now == if IsBracket(s[end]) then was else was[end := NUL]
    ensures Placed(was, now, str, s[str..end], PassEnd(s, end))
  {
    assert now[str..end] == s[str..end];
  }

  lemma HasAtIndex(s: string, i: nat, w: string, k: nat)
    requires k < |w|
    ensures HasAt(s, i, w) ==> s[i + k] == w[k]
  {
    assert HasAt(s, i, w) ==> s[i..i + |w|][k] == s[i + k];
  }

  // src/tiny-json.c:189-194: end of the literal at str, or NULL.
  method CheckStr(buf: array<char>, str: nat, w: string, ghost s: string) returns (end: int)
    requires Unread(buf[..], s, str) && NUL !in w
    ensures end == if HasAt(s, str, w) then str + |w| else NULL
  {
    var i := 0;
    while i < |w|
      invariant 0 <= i <= |w| && HasAt(s, str, w[..i])
    {
      if buf[str + i] != w[i] {
        HasAtIndex(s, str, w, i);
        return NULL;
      }
      assert buf[str + i] == At(s, str + i);
      assert s[str..str + i + 1] == w[..i] + [w[i]] == w[..i + 1];
      i := i + 1;
    }
    assert w[..i] == w;
    return str + |w|;
  }

  // src/tiny-json.c:204-210
  method PrimitiveValue(buf: array<char>, str: nat, mem: array<Json>, property: nat, w: string, kind: Kind, ghost s: string)
      returns (ptr: int)
    requires Unread(buf[..], s, str) && NUL !in w && w != "" && property < mem.Length
    modifies buf, mem
    ensures var r := Literal(s, str, kind, w);
      if r.Bad? then ptr == NULL
      else ptr == r.next && Placed(old(buf[..]), buf[..], str, w, r.next)
           && mem[..] == old(mem[..])[property := old(mem[property]).(ty := PRIM(kind))]
  {
    ptr := CheckStr(buf, str, w, s);
    if ptr == NULL || !EndsPrimitive(buf[ptr]) {
      return NULL;
    }
    ghost var end := ptr;
    ptr := SetToNull(buf, ptr);
    mem[property] := mem[property].(ty := PRIM(kind));
    PlacedLexeme(old(buf[..]), buf[..], s, str, end);
  }

  // src/tiny-json.c:271-277: from the sign to the end of the integer part.
  method IntPart(buf: array<char>, str: nat, ghost s: string) returns (ptr: int)
    requires Unread(buf[..], s, str)
    ensures ptr == IntEnd(s, if At(s, str) == '-' then str + 1 else str)
  {
    ptr := str;
    if buf[ptr] == '-' {
      ptr := ptr + 1;
    }
    if !IsDigit(buf[ptr]) {
      return NULL;
    }
    if buf[ptr] != '0' {
      ptr := SkipNum(buf, ptr, s);
    } else {
      ptr := ptr + 1;
      if IsDigit(buf[ptr]) {
        return NULL;
      }
    }
  }

  // src/tiny-json.c:279-288 with fraqValue and expValue: fraction and exponent, if any.
  method RealPart(buf: array<char>, str: nat, ghost s: string) returns (ptr: int)
    requires Unread(buf[..], s, str)
    ensures ptr == var k := FracEnd(s, str); if k == -1 then -1 else ExpEnd(s, k)
  {
    ptr := str;
    if buf[ptr] == '.' {
      ptr := ptr + 1;
      if !IsDigit(buf[ptr]) {
        return NULL;
      }
      ptr := SkipNum(buf, ptr + 1, s);
      if ptr == NULL {
        return;
      }
    }
    if buf[ptr] == 'e' || buf[ptr] == 'E' {
      ptr := ptr + 1;
      if buf[ptr] == '-' || buf[ptr] == '+' {
        ptr := ptr + 1;
      }
      if !IsDigit(buf[ptr]) {
        return NULL;
      }
      ptr := SkipNum(buf, ptr + 1, s);
    }
  }

  // 0 > strcmp(threshold, value), where the value ends at the terminator at end.
  method Exceeds(threshold: string, buf: array<char>, value: nat, end: nat) returns (less: bool)
    requires value <= end < buf.Length && buf[end] == NUL && end - value == |threshold|
    requires NUL !in threshold
    ensures less <==> LexLess(threshold, buf[value..end])
  {
    var i := 0;
    while i < |threshold| && threshold[i] == buf[value + i]
      invariant 0 <= i <= |threshold|
      invariant LexLess(threshold, buf[value..end]) <==> LexLess(threshold[i..], buf[value + i..end])
    {
      assert buf[value + i..end][1..] == buf[value + i + 1..end];
      i := i + 1;
    }
    return i < |threshold| && threshold[i] < buf[value + i];
  }

  // The lexeme from str to the end j of its integer part is an integer.
  lemma IntLexeme(s: string, str: nat, j: nat)
    requires str <= |s| && j as int == IntEnd(s, if At(s, str) == '-' then str + 1 else str)
    ensures str < j <= |s| && IsInteger(s[str..j]) && (s[str..j][0] == '-' <==> s[str] == '-')
  {
    var d := if At(s, str) == '-' then str + 1 else str;
    assert s[str..j][d - str..] == s[d..j];
  }

  // src/tiny-json.c:290-305: does the integer from value to ptr fit 64 bits? The end of the lexeme is
  // overwritten for the comparison and restored.
  method Fits(buf: array<char>, value: nat, ptr: nat) returns (ok: bool)
    requires value < ptr < buf.Length && IsInteger(buf[value..ptr])
    modifies buf
    ensures ok <==> CodeAccepts(old(buf[value..ptr]))
    ensures ok ==> buf[..] == old(buf[..])
  {
    ghost var lexeme := buf[value..ptr];
    ThresholdDigits();
    var negative := buf[value] == '-';
    var threshold := if negative then MIN_TEXT else MAX_TEXT;
    var len := ptr - value;
    if len > |threshold| {
      return false;
    }
    if len == |threshold| {
      var tmp := buf[ptr];
      buf[ptr] := NUL;
      assert buf[value..ptr] == lexeme;
      var exceeds := Exceeds(threshold, buf, value, ptr);
      if exceeds {
        return false;
      }
      buf[ptr] := tmp;
    }
    return true;
  }

  // src/tiny-json.c:270-308
  method NumValue(buf: array<char>, str: nat, mem: array<Json>, property: nat, ghost s: string) returns (ptr: int)
    requires Unread(buf[..], s, str) && property < mem.Length && mem[property].u == Value(str)
    modifies buf, mem
    ensures var r := Number(s, str);
      if r.Bad? then ptr == NULL
      else ptr == r.next && Placed(old(buf[..]), buf[..], str, r.value.text, r.next)
           && mem[..] == old(mem[..])[property := old(mem[property]).(ty := PRIM(r.value.kind))]
  {
    hide IntEnd, FracEnd, ExpEnd, Placed, IntValue;
    ptr := IntPart(buf, str, s);
    if ptr == NULL {
      return;
    }
    var intEnd := ptr;
    StillUnread(buf[..], buf[..], s, str, ptr);
    IntLexeme(s, str, ptr);
    ptr := RealPart(buf, ptr, s);
    if ptr == NULL || !EndsPrimitive(buf[ptr]) {
      return NULL;
    }
    ghost var end := ptr;
    mem[property] := mem[property].(ty := PRIM(if ptr > intEnd then REAL else INTEGER));
    if mem[property].ty == PRIM(INTEGER) {
      assert buf[str..ptr] == s[str..ptr];
      RangeTest(s[str..ptr]);
      var ok := Fits(buf, mem[property].u.pos, ptr);
      if !ok {
        return NULL;
      }
    }
    ptr := SetToNull(buf, ptr);
    PlacedLexeme(old(buf[..]), buf[..], s, str, end);
  }
}
