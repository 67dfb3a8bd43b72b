/** explode and str_replace of src/sc_tools.c. */
module ScTools {
  import opened CBase
  import opened TextTools

  const SLOTS := 32

  // A piece begun, put in front of the first of the pieces still to come.
  function Glue(begun: string, pieces: seq<string>): seq<string>
    requires pieces != []
  {
    [begun + pieces[0]] + pieces[1..]
  }

  lemma GlueChar(begun: string, c: char, rest: string, sep: char)
    ensures Glue(begun, Split([c] + rest, sep)) ==
      if c == sep then [begun] + Split(rest, sep) else Glue(begun + [c], Split(rest, sep))
  {
    assert ([c] + rest)[1..] == rest;
    var r := Split(rest, sep);
    if c == sep {
      assert begun + "" == begun;
    } else {
      assert Split([c] + rest, sep) == [[c] + r[0]] + r[1..];
      assert begun + ([c] + r[0]) == begun + [c] + r[0];
    }
  }

  /** explode (src/sc_tools.c:94-113): a copy of the line, cut in place at the separators, and a table
      of 32 slots with where the pieces start. More than 31 separators would overrun the table. */
  method Explode(line: string, sep: char) returns (buff: array<char>, res: array<nat>, nelem: nat)
    requires NUL !in line && |Split(line, sep)| <= SLOTS
    ensures res.Length == SLOTS && nelem == |Split(line, sep)|
    ensures forall k :: 0 <= k < nelem ==> CString(buff[..], res[k], Split(line, sep)[k])
  {
    hide Exploding;
    var n := |line|;
    buff := new char[1 + n](i => if 0 <= i < n then line[i] else NUL);
    res := new nat[SLOTS](_ => 0);
    nelem := 0;
    var from, to := 0, 0;
    ghost var done: seq<string> := [];
    ExplodeStarts(line, sep, buff[..], res[..]);
    while buff[to] != NUL
      invariant buff.Length == n + 1 && res.Length == SLOTS && fresh(buff) && fresh(res)
      invariant 0 <= from <= to <= n && nelem == |done|
      invariant Exploding(line, sep, buff[..], res[..], done, from, to)
      decreases n - to
    {
      ExplodeSteps(line, sep, buff[..], res[..], done, from, to);
      if buff[to] == sep {
        buff[to] := NUL;
        res[nelem] := from;
        done := done + [line[from..to]];
        from := to + 1;
        nelem := nelem + 1;
      }
      to := to + 1;
    }
    ExplodeEnds(line, sep, buff[..], res[..], done, from, to);
    forall k | 0 <= k < |Split(line, sep)| ensures NUL !in Split(line, sep)[k] {
      PieceChars(line, sep, k, NUL);
    }
    res[nelem] := from;
    nelem := nelem + 1;
  }

  // Cutting line: the pieces done, the piece begun at from, and the rest from to on.
  ghost predicate Exploding(line: string, sep: char, b: seq<char>, slots: seq<nat>, done: seq<string>, from: nat, to: nat) {
    && from <= to <= |line| && |b| == |line| + 1 && |slots| == SLOTS && |Split(line, sep)| <= SLOTS
    && Split(line, sep) == done + Glue(line[from..to], Split(line[to..], sep))
    && (forall i :: from <= i <= |line| ==> b[i] == if i < |line| then line[i] else NUL)
    && Cut(b, slots, done, from)
  }

  lemma ExplodeStarts(line: string, sep: char, b: seq<char>, slots: seq<nat>)
    requires |b| == |line| + 1 && |slots| == SLOTS && |Split(line, sep)| <= SLOTS
    requires forall i :: 0 <= i <= |line| ==> b[i] == if i < |line| then line[i] else NUL
    ensures Exploding(line, sep, b, slots, [], 0, 0)
  {
    hide Split;
    GlueNothing(Split(line, sep));
    assert line[0..] == line && line[0..0] == "";
  }

  lemma ExplodeSteps(line: string, sep: char, b: seq<char>, slots: seq<nat>, done: seq<string>, from: nat, to: nat)
    requires NUL !in line && to < |b| && b[to] != NUL && Exploding(line, sep, b, slots, done, from, to)
    ensures to < |line| && |done| < SLOTS
    ensures if b[to] == sep
      then Exploding(line, sep, b[to := NUL], slots[|done| := from], done + [line[from..to]], to + 1, to + 1)
      else Exploding(line, sep, b, slots, done, from, to + 1)
  {
    hide Split, Cut;
    assert line[to..] == [line[to]] + line[to + 1..];
    GlueChar(line[from..to], line[to], line[to + 1..], sep);
    assert line[from..to + 1] == line[from..to] + [line[to]];
    if b[to] == sep {
      assert b[from..to] == line[from..to];
      CutAgain(b, slots, done, from, to, line[from..to]);
      assert line[to + 1..to + 1] == "";
      GlueNothing(Split(line[to + 1..], sep));
    } else {
      assert |Split(line, sep)| > |done|;
    }
  }

  lemma ExplodeEnds(line: string, sep: char, b: seq<char>, slots: seq<nat>, done: seq<string>, from: nat, to: nat)
    requires NUL !in line && to < |b| && b[to] == NUL && Exploding(line, sep, b, slots, done, from, to)
    ensures |done| + 1 == |Split(line, sep)| <= SLOTS
    ensures var pieces := Split(line, sep);
      forall k :: 0 <= k < |pieces| ==> Terminated(b, slots[|done| := from][k], pieces[k])
  {
    hide Split;
    assert line[to..] == "";
    SplitWhole("", sep);
    var w := line[from..to];
    assert w + "" == w && Glue(w, [""]) == [w];
    CutAgain(b, slots, done, from, to, w);
    assert b[to := NUL] == b;
  }

  lemma GlueNothing(r: seq<string>)
    requires r != []
    ensures Glue("", r) == r
  {
    assert "" + r[0] == r[0];
  }

  // The pieces done stand terminated, all before from.
  ghost predicate Cut(b: seq<char>, slots: seq<nat>, done: seq<string>, from: nat) {
    |done| <= |slots| && forall k :: 0 <= k < |done| ==> Terminated(b, slots[k], done[k]) && slots[k] + |done[k]| < from
  }

  // One more piece, from from to its terminator at to.
  lemma CutAgain(b: seq<char>, slots: seq<nat>, done: seq<string>, from: nat, to: nat, w: string)
    requires Cut(b, slots, done, from) && |done| < |slots| && from <= to < |b| && b[from..to] == w
    ensures Cut(b[to := NUL], slots[|done| := from], done + [w], to + 1)
  {
    var b', slots', done' := b[to := NUL], slots[|done| := from], done + [w];
    forall k | 0 <= k < |done'| ensures Terminated(b', slots'[k], done'[k]) && slots'[k] + |done'[k]| < to + 1 {
      if k < |done| {
        assert b'[slots[k]..slots[k] + |done[k]|] == b[slots[k]..slots[k] + |done[k]|];
      } else {
        assert b'[from..to] == w;
      }
    }
  }

  // ---- str_replace

  predicate OccursAt(s: string, k: nat, sub: string) {
    k + |sub| <= |s| && s[k..k + |sub|] == sub
  }

  // strstr: the first occurrence, or -1.
  function Find(s: string, sub: string, from: nat): (k: int)
    requires from <= |s|
    ensures k != -1 ==> from <= k && k + |sub| <= |s| && OccursAt(s, k, sub)
    ensures forall i: nat :: from <= i && (k == -1 || i < k) ==> !OccursAt(s, i, sub) || (sub == "" && i > |s|)
    decreases |s| - from
  {
    if OccursAt(s, from, sub) then from else if from == |s| then -1 else Find(s, sub, from + 1)
  }

  // One turn of the loop: the first occurrence replaced.
  function ReplaceFirst(s: string, sub: string, rep: string): string
    requires Find(s, sub, 0) != -1
  {
    var k := Find(s, sub, 0);
    s[..k] + rep + s[k + |sub|..]
  }

  // A string as a number with its characters for digits.
  const CHARS := 0x11_0000

  function Power(n: nat): (p: nat)
    ensures p >= 1
  {
    if n == 0 then 1 else Power(n - 1) * CHARS
  }

  function Num(s: string): nat {
    if s == "" then 0 else Num(s[..|s| - 1]) * CHARS + s[|s| - 1] as int
  }

  lemma {:induction false} NumBound(s: string)
    ensures Num(s) < Power(|s|)
  {
    if s != "" {
      NumBound(s[..|s| - 1]);
    }
  }

  lemma {:induction false} NumConcat(a: string, b: string)
    ensures Num(a + b) == Num(a) * Power(|b|) + Num(b)
    decreases |b|
  {
    if b == "" {
      assert a + b == a;
    } else {
      var front := b[..|b| - 1];
      NumConcat(a, front);
      assert (a + b)[..|a + b| - 1] == a + front;
      Shift(Num(a), Power(|front|), Num(front), CHARS);
    }
  }

  lemma Shift(x: nat, p: nat, y: nat, n: nat)
    ensures (x * p + y) * n == x * (p * n) + y * n
  {
  }

  lemma {:induction false} NumDiffers(a: string, b: string)
    requires |a| == |b| && a != b
    ensures Num(a) != Num(b)
    decreases |a|
  {
    var n := |a| - 1;
    if a[..n] == b[..n] {
      assert a == a[..n] + [a[n]] && b == b[..n] + [b[n]];
    } else {
      NumDiffers(a[..n], b[..n]);
    }
  }

  // For equal lengths every turn moves the string the same way in lexicographic order.
  function Rank(s: string, sub: string, rep: string): nat {
    NumBound(s);
    if Num(rep) < Num(sub) then Num(s) else Power(|s|) - Num(s)
  }

  lemma RankFalls(s: string, sub: string, rep: string)
    requires |rep| == |sub| && rep != sub && Find(s, sub, 0) != -1
    ensures |ReplaceFirst(s, sub, rep)| == |s| && Rank(ReplaceFirst(s, sub, rep), sub, rep) < Rank(s, sub, rep)
  {
    hide Num, Power, Find;
    var k := Find(s, sub, 0);
    var front, back := s[..k], s[k + |sub|..];
    assert s == front + sub + back;
    NumSplit(front, sub, back);
    NumSplit(front, rep, back);
    NumDiffers(sub, rep);
    Ordered(Num(sub), Num(rep), Power(|back|));
  }

  lemma NumSplit(a: string, b: string, c: string)
    ensures Num(a + b + c) == Num(a) * Power(|b|) * Power(|c|) + Num(b) * Power(|c|) + Num(c)
  {
    hide Num, Power;
    NumConcat(a + b, c);
    NumConcat(a, b);
    Shift(Num(a), Power(|b|), Num(b), Power(|c|));
    Shift(Num(a) * Power(|b|), Power(|c|), 0, 1);
  }

  lemma Ordered(x: nat, y: nat, p: nat)
    requires x != y && p >= 1
    ensures x * p < y * p <==> x < y
    ensures y * p < x * p <==> y < x
  {
  }

  // How often c occurs.
  function Times(s: string, c: char): nat {
    if s == "" then 0 else (if s[0] == c then 1 else 0) + Times(s[1..], c)
  }

  lemma {:induction false} TimesConcat(a: string, b: string, c: char)
    ensures Times(a + b, c) == Times(a, c) + Times(b, c)
  {
    if a == "" {
      assert a + b == b;
    } else {
      TimesConcat(a[1..], b, c);
      assert (a + b)[0] == a[0] && (a + b)[1..] == a[1..] + b;
    }
  }

  lemma {:induction false} TimesNone(s: string, c: char)
    ensures Times(s, c) == 0 <==> c !in s
  {
    if s != "" {
      TimesNone(s[1..], c);
      assert s == [s[0]] + s[1..];
    }
  }

  // A single character replaced by a string without it: one occurrence less.
  lemma TimesFall(s: string, c: char, rep: string)
    requires c !in rep && Find(s, [c], 0) != -1
    ensures Times(ReplaceFirst(s, [c], rep), c) == Times(s, c) - 1
  {
    hide Find, Times;
    var k := Find(s, [c], 0);
    var front, back := s[..k], s[k + 1..];
    assert s == front + [c] + back by {
      assert s[k..k + 1] == [c];
    }
    TimesConcat(front + [c], back, c);
    TimesConcat(front, [c], c);
    TimesConcat(front + rep, back, c);
    TimesConcat(front, rep, c);
    TimesNone(rep, c);
    TimesOne(c);
  }

  lemma TimesOne(c: char)
    ensures Times([c], c) == 1
  {
    assert [c][1..] == "";
  }

  /** Replacements for which the loop ends whatever the string: for a single character those without it,
      otherwise the others no longer than the substring. */
  predicate Ending(sub: string, rep: string) {
    if |sub| == 1 then sub[0] !in rep else |rep| <= |sub| && rep != sub
  }

  // What falls with every turn.
  function Major(s: string, sub: string): nat {
    if |sub| == 1 then Times(s, sub[0]) else |s|
  }

  function Minor(s: string, sub: string, rep: string): nat {
    if |rep| == |sub| then Rank(s, sub, rep) else 0
  }

  lemma TurnShrinks(s: string, sub: string, rep: string)
    requires Ending(sub, rep) && Find(s, sub, 0) != -1
    ensures var r := ReplaceFirst(s, sub, rep);
      Major(r, sub) < Major(s, sub) || (Major(r, sub) == Major(s, sub) && Minor(r, sub, rep) < Minor(s, sub, rep))
  {
    hide Rank, Find, Times;
    if |sub| == 1 {
      assert sub == [sub[0]];
      TimesFall(s, sub[0], rep);
    } else if |rep| == |sub| {
      RankFalls(s, sub, rep);
    }
  }

  function Replaced(s: string, sub: string, rep: string): string
    requires Ending(sub, rep)
    decreases Major(s, sub), Minor(s, sub, rep)
  {
    if Find(s, sub, 0) == -1 then s
    else
      TurnShrinks(s, sub, rep);
      Replaced(ReplaceFirst(s, sub, rep), sub, rep)
  }

  // src/sc_tools.c:34-66, where the loop is sure to end.
  method StrReplace(original: string, sub: string, rep: string) returns (newstr: string)
    requires Ending(sub, rep)
    ensures newstr == Replaced(original, sub, rep)
  {
    hide OccursAt, Ending, Major, Minor;
    newstr := original;
    var tok := Find(newstr, sub, 0);
    while tok != -1
      invariant tok == Find(newstr, sub, 0)
      invariant Replaced(newstr, sub, rep) == Replaced(original, sub, rep)
      decreases Major(newstr, sub), Minor(newstr, sub, rep)
    {
      var oldstr := newstr;
      TurnShrinks(oldstr, sub, rep);
      newstr := oldstr[..tok] + rep + oldstr[tok + |sub|..];
      tok := Find(newstr, sub, 0);
    }
  }

  /** The result holds no occurrence of the substring, not even one the replacing has made. */
  lemma {:induction false} NoneLeft(s: string, sub: string, rep: string, k: nat)
    requires Ending(sub, rep)
    ensures !OccursAt(Replaced(s, sub, rep), k, sub)
    decreases Major(s, sub), Minor(s, sub, rep)
  {
    hide Ending, Major, Minor;
    if Find(s, sub, 0) != -1 {
      TurnShrinks(s, sub, rep);
      NoneLeft(ReplaceFirst(s, sub, rep), sub, rep, k);
    }
  }

  /** A replacement that holds the substring would keep the loop going: an occurrence is left. */
  lemma NeverDone(s: string, sub: string, rep: string, i: nat)
    requires sub != "" && OccursAt(rep, i, sub) && Find(s, sub, 0) != -1
    ensures Find(ReplaceFirst(s, sub, rep), sub, 0) != -1
  {
    var k := Find(s, sub, 0);
    var r := ReplaceFirst(s, sub, rep);
    assert r[k + i..k + i + |sub|] == rep[i..i + |sub|];
    assert OccursAt(r, k + i, sub);
  }

  // The string after n turns, or at the end of the loop if that comes sooner.
  function Turns(s: string, sub: string, rep: string, n: nat): string
    decreases n
  {
    if n == 0 || Find(s, sub, 0) == -1 then s else Turns(ReplaceFirst(s, sub, rep), sub, rep, n - 1)
  }

  ghost predicate Ends(s: string, sub: string, rep: string) {
    exists n: nat :: Find(Turns(s, sub, rep, n), sub, 0) == -1
  }

  lemma {:induction false} EndsAt(s: string, sub: string, rep: string) returns (n: nat)
    requires Ending(sub, rep)
    ensures Find(Turns(s, sub, rep, n), sub, 0) == -1 && Turns(s, sub, rep, n) == Replaced(s, sub, rep)
    decreases Major(s, sub), Minor(s, sub, rep)
  {
    hide Ending, Major, Minor;
    n := 0;
    if Find(s, sub, 0) != -1 {
      TurnShrinks(s, sub, rep);
      var m := EndsAt(ReplaceFirst(s, sub, rep), sub, rep);
      n := m + 1;
    }
  }

  lemma {:induction false} GoesOn(s: string, sub: string, rep: string, i: nat, n: nat)
    requires sub != "" && OccursAt(rep, i, sub) && Find(s, sub, 0) != -1
    ensures Find(Turns(s, sub, rep, n), sub, 0) != -1
    decreases n
  {
    if n > 0 {
      NeverDone(s, sub, rep, i);
      GoesOn(ReplaceFirst(s, sub, rep), sub, rep, i, n - 1);
    }
  }

  /** Where the replacement holds the substring the loop ends iff there is nothing to replace. */
  lemma HoldingEndsIff(s: string, sub: string, rep: string, i: nat)
    requires sub != "" && OccursAt(rep, i, sub)
    ensures Ends(s, sub, rep) <==> Find(s, sub, 0) == -1
  {
    if Find(s, sub, 0) == -1 {
      assert Turns(s, sub, rep, 0) == s;
    } else {
      forall n: nat ensures Find(Turns(s, sub, rep, n), sub, 0) != -1 {
        GoesOn(s, sub, rep, i, n);
      }
    }
  }

  /** For a single character, and a replacement of any length, the loop ends iff the replacement does not
      hold the character or the string does not. */
  lemma SingleEndsIff(s: string, c: char, rep: string)
    ensures Ends(s, [c], rep) <==> c !in rep || c !in s
  {
    hide Turns;
    FoundIff(s, c);
    if c !in rep {
      var n := EndsAt(s, [c], rep);
    } else {
      var i :| 0 <= i < |rep| && rep[i] == c;
      assert rep[i..i + 1] == [c];
      HoldingEndsIff(s, [c], rep, i);
    }
  }

  lemma FoundIff(s: string, c: char)
    ensures Find(s, [c], 0) == -1 <==> c !in s
  {
    var k := Find(s, [c], 0);
    if k == -1 {
      forall i | 0 <= i < |s| ensures s[i] != c {
        assert !OccursAt(s, i, [c]);
        assert s[i..i + 1] == [s[i]];
      }
    } else {
      assert s[k..k + 1] == [c];
      assert s[k] == c;
    }
  }

  // Every c written as rep.
  function Each(s: string, c: char, rep: string): string {
    if s == "" then "" else (if s[0] == c then rep else [s[0]]) + Each(s[1..], c, rep)
  }

  lemma {:induction false} EachConcat(a: string, b: string, c: char, rep: string)
    ensures Each(a + b, c, rep) == Each(a, c, rep) + Each(b, c, rep)
  {
    if a == "" {
      assert a + b == b;
    } else {
      EachConcat(a[1..], b, c, rep);
      assert (a + b)[0] == a[0] && (a + b)[1..] == a[1..] + b;
      var head := if a[0] == c then rep else [a[0]];
      assert head + Each(a[1..], c, rep) + Each(b, c, rep) == head + (Each(a[1..], c, rep) + Each(b, c, rep));
    }
  }

  lemma {:induction false} EachOfNone(s: string, c: char, rep: string)
    requires c !in s
    ensures Each(s, c, rep) == s
  {
    if s != "" {
      EachOfNone(s[1..], c, rep);
      assert s == [s[0]] + s[1..];
    }
  }

  lemma EachOfOne(c: char, rep: string)
    ensures Each([c], c, rep) == rep
  {
    assert [c][1..] == "" && rep + "" == rep;
  }

  lemma EachTurn(a: string, c: char, b: string, rep: string)
    requires c !in rep
    ensures Each(a + [c] + b, c, rep) == Each(a + rep + b, c, rep)
  {
    hide Each;
    EachConcat(a + [c], b, c, rep);
    EachConcat(a, [c], c, rep);
    EachOfOne(c, rep);
    EachConcat(a + rep, b, c, rep);
    EachConcat(a, rep, c, rep);
    EachOfNone(rep, c, rep);
  }

  /** Replacing one character by a string without it writes the string for each occurrence. */
  lemma {:induction false} ReplaceEach(s: string, c: char, rep: string)
    requires c !in rep
    ensures Replaced(s, [c], rep) == Each(s, c, rep)
    decreases Times(s, c)
  {
    hide Each, Times;
    var k := Find(s, [c], 0);
    FoundIff(s, c);
    if k == -1 {
      EachOfNone(s, c, rep);
    } else {
      TimesFall(s, c, rep);
      ReplaceEach(ReplaceFirst(s, [c], rep), c, rep);
      EachTurn(s[..k], c, s[k + 1..], rep);
      assert s[k..k + 1] == [c];
      assert s == s[..k] + [c] + s[k + 1..];
    }
  }

  function Without(s: string, c: char): string {
    if s == "" then "" else (if s[0] == c then "" else [s[0]]) + Without(s[1..], c)
  }

  /** Replacing one character by nothing filters it out. */
  lemma ReplaceByNothing(s: string, c: char)
    ensures Replaced(s, [c], "") == Without(s, c)
  {
    ReplaceEach(s, c, "");
    EachNothing(s, c);
  }

  lemma {:induction false} EachNothing(s: string, c: char)
    ensures Each(s, c, "") == Without(s, c)
  {
    if s != "" {
      EachNothing(s[1..], c);
    }
  }

  // ---- substrings of several characters

  // The two agree where rep stands j places in front of sub and both have a character.
  predicate Meet(sub: string, rep: string, j: int) {
    forall i :: 0 <= i < |sub| && 0 <= i + j < |rep| ==> sub[i] == rep[i + j]
  }

  /** However the two are laid over each other, somewhere they differ. */
  predicate Apart(sub: string, rep: string) {
    forall j :: 0 - |sub| < j < |rep| ==> !Meet(sub, rep, j)
  }

  /** The ordinary replacement: once through the string from the left, going on behind what is replaced. */
  function OnePass(s: string, sub: string, rep: string): string
    requires sub != ""
    decreases |s|
  {
    if s == "" then ""
    else if OccursAt(s, 0, sub) then rep + OnePass(s[|sub|..], sub, rep)
    else [s[0]] + OnePass(s[1..], sub, rep)
  }

  // Nothing to replace starts within the first n characters.
  predicate Passed(s: string, sub: string, n: nat) {
    forall k: nat :: k < n ==> !OccursAt(s, k, sub)
  }

  // What replaces an occurrence takes no part in another one.
  lemma NothingMade(a: string, rest: string, sub: string, rep: string)
    requires sub != "" && Apart(sub, rep) && Passed(a + sub + rest, sub, |a|)
    ensures Passed(a + rep + rest, sub, |a| + |rep|)
  {
    var s, t := a + sub + rest, a + rep + rest;
    forall k: nat | k < |a| + |rep| ensures !OccursAt(t, k, sub) {
      if OccursAt(t, k, sub) {
        if k + |sub| <= |a| {
          assert s[k..k + |sub|] == t[k..k + |sub|];
          assert OccursAt(s, k, sub);
        } else {
          var j := k - |a|;
          forall i | 0 <= i < |sub| && 0 <= i + j < |rep| ensures sub[i] == rep[i + j] {
            assert t[k..k + |sub|][i] == t[k + i];
          }
          assert Meet(sub, rep, j);
        }
      }
    }
  }

  lemma FirstIs(s: string, sub: string, n: nat)
    requires sub != "" && n <= |s| && Passed(s, sub, n)
    ensures OccursAt(s, n, sub) ==> Find(s, sub, 0) == n
    ensures n == |s| ==> Find(s, sub, 0) == -1
  {
    var k := Find(s, sub, 0);
  }

  lemma {:induction false} PassesOn(a: string, s: string, sub: string, rep: string) returns (n: nat)
    requires sub != "" && Apart(sub, rep) && Passed(a + s, sub, |a|)
    ensures Turns(a + s, sub, rep, n) == a + OnePass(s, sub, rep)
    ensures Find(a + OnePass(s, sub, rep), sub, 0) == -1
    decreases |s|
  {
    hide Find, Passed, Apart, Turns, ReplaceFirst;
    FirstIs(a + s, sub, |a|);
    if s == "" {
      n := 0;
      NoTurn(a + s, sub, rep);
      assert a + "" == a;
    } else if OccursAt(s, 0, sub) {
      var rest := s[|sub|..];
      ReplacedHere(a, s, sub, rep);
      NothingMade(a, rest, sub, rep);
      var m := PassesOn(a + rep, rest, sub, rep);
      n := m + 1;
      OneTurn(a + s, sub, rep, m);
      Regroup(a, rep, OnePass(rest, sub, rep));
    } else {
      var c := [s[0]];
      assert s == c + s[1..];
      Regroup(a, c, s[1..]);
      StillPassed(a, s, sub);
      n := PassesOn(a + c, s[1..], sub, rep);
      Regroup(a, c, OnePass(s[1..], sub, rep));
    }
  }

  lemma Regroup(a: string, b: string, c: string)
    ensures a + (b + c) == a + b + c
  {
  }

  lemma ReplacedHere(a: string, s: string, sub: string, rep: string)
    requires OccursAt(s, 0, sub) && (OccursAt(a + s, |a|, sub) ==> Find(a + s, sub, 0) == |a|)
    ensures var rest := s[|sub|..];
      s == sub + rest && a + s == a + sub + rest && Find(a + s, sub, 0) == |a| && ReplaceFirst(a + s, sub, rep) == a + rep + rest
  {
    hide Find;
    assert (a + s)[|a|..|a| + |sub|] == sub;
  }

  lemma StillPassed(a: string, s: string, sub: string)
    requires s != "" && Passed(a + s, sub, |a|) && !OccursAt(s, 0, sub)
    ensures Passed(a + s, sub, |a| + 1)
  {
    if |sub| <= |s| {
      assert (a + s)[|a|..|a| + |sub|] == s[..|sub|];
    }
  }

  lemma NoTurn(s: string, sub: string, rep: string)
    ensures Turns(s, sub, rep, 0) == s
  {
  }

  lemma OneTurn(s: string, sub: string, rep: string, m: nat)
    requires Find(s, sub, 0) != -1
    ensures Turns(s, sub, rep, m + 1) == Turns(ReplaceFirst(s, sub, rep), sub, rep, m)
  {
  }

  // The loop stops at one string only.
  lemma {:induction false} EndIsOne(s: string, sub: string, rep: string, m: nat, n: nat)
    requires Find(Turns(s, sub, rep, m), sub, 0) == -1 == Find(Turns(s, sub, rep, n), sub, 0)
    ensures Turns(s, sub, rep, m) == Turns(s, sub, rep, n)
    decreases m
  {
    hide Find, ReplaceFirst;
    if Find(s, sub, 0) != -1 && m > 0 && n > 0 {
      EndIsOne(ReplaceFirst(s, sub, rep), sub, rep, m - 1, n - 1);
    }
  }

  /** A replacement of any length that is apart from the substring: the loop, which starts again from the
      left after every replacement, ends with the ordinary replacement. */
  lemma LoopIsOnePass(s: string, sub: string, rep: string)
    requires sub != "" && Apart(sub, rep)
    ensures Ends(s, sub, rep)
    ensures Find(OnePass(s, sub, rep), sub, 0) == -1
    ensures forall n: nat :: Find(Turns(s, sub, rep, n), sub, 0) == -1 ==> Turns(s, sub, rep, n) == OnePass(s, sub, rep)
    ensures Ending(sub, rep) ==> Replaced(s, sub, rep) == OnePass(s, sub, rep)
  {
    hide Apart, OnePass, Turns, Replaced, Find, Ending;
    assert "" + s == s && "" + OnePass(s, sub, rep) == OnePass(s, sub, rep);
    var m := PassesOn("", s, sub, rep);
    forall n: nat | Find(Turns(s, sub, rep, n), sub, 0) == -1
      ensures Turns(s, sub, rep, n) == OnePass(s, sub, rep)
    {
      EndIsOne(s, sub, rep, n, m);
    }
    if Ending(sub, rep) {
      var n := EndsAt(s, sub, rep);
    }
  }

  lemma {:induction false} OnePassFrom(front: string, rest: string, sub: string, rep: string)
    requires sub != "" && Passed(front + rest, sub, |front|)
    ensures OnePass(front + rest, sub, rep) == front + OnePass(rest, sub, rep)
    decreases |front|
  {
    hide OnePass;
    if front == "" {
      assert front + rest == rest && front + OnePass(rest, sub, rep) == OnePass(rest, sub, rep);
    } else {
      var s := front + rest;
      assert !OccursAt(s, 0, sub) && s[0] == front[0];
      assert s[1..] == front[1..] + rest;
      forall k: nat | k < |front| - 1 ensures !OccursAt(s[1..], k, sub) {
        assert !OccursAt(s, k + 1, sub);
        if k + 1 + |sub| <= |s| {
          assert s[k + 1..k + 1 + |sub|] == s[1..][k..k + |sub|];
        }
      }
      OnePassFrom(front[1..], rest, sub, rep);
      OnePassStep(s, sub, rep);
      assert [s[0]] + (front[1..] + OnePass(rest, sub, rep)) == front + OnePass(rest, sub, rep);
    }
  }

  lemma OnePassStep(s: string, sub: string, rep: string)
    requires s != "" && sub != ""
    ensures OnePass(s, sub, rep) ==
      if OccursAt(s, 0, sub) then rep + OnePass(s[|sub|..], sub, rep) else [s[0]] + OnePass(s[1..], sub, rep)
  {
  }

  /** Up to the first occurrence nothing changes, the occurrence becomes the replacement, and what is behind
      it is replaced on its own; a string without an occurrence stays. */
  lemma ReplacedPieces(front: string, back: string, sub: string, rep: string)
    requires sub != "" && Apart(sub, rep) && Ending(sub, rep) && Find(front + sub + back, sub, 0) == |front|
    ensures Replaced(front + sub + back, sub, rep) == front + rep + Replaced(back, sub, rep)
    ensures Find(back, sub, 0) == -1 ==> Replaced(back, sub, rep) == back
  {
    hide Apart, OnePass, Ending, Find;
    var s := front + sub + back;
    LoopIsOnePass(s, sub, rep);
    LoopIsOnePass(back, sub, rep);
    assert s == front + (sub + back);
    FirstFound(s, sub);
    OnePassFrom(front, sub + back, sub, rep);
    assert OccursAt(sub + back, 0, sub) && (sub + back)[|sub|..] == back;
    OnePassStep(sub + back, sub, rep);
    assert front + rep + OnePass(back, sub, rep) == front + (rep + OnePass(back, sub, rep));
  }

  lemma FirstFound(s: string, sub: string)
    requires sub != ""
    ensures var k := Find(s, sub, 0); k != -1 ==> Passed(s, sub, k)
  {
  }

  lemma NamesApart()
    ensures Apart("registration.info", "system.ini") && Ending("registration.info", "system.ini")
  {
    var sub, rep := "registration.info", "system.ini";
    assert |sub| == 17 && |rep| == 10;
    forall j | 0 - |sub| < j < |rep| ensures !Meet(sub, rep, j) {
      if j >= 0 {
        assert sub[0] == 'r' && rep[j] != 'r';
      } else if j == -4 {
        assert sub[5] == 't' && rep[1] == 'y';
      } else {
        assert rep[0] == 's' && sub[0 - j] != 's';
      }
    }
  }

  /** The one such call: the path of the licence file becomes that of the settings (src/license.c:286). */
  lemma LicencePath(front: string, back: string)
    requires Find(front + "registration.info" + back, "registration.info", 0) == |front|
    requires Find(back, "registration.info", 0) == -1
    ensures Replaced(front + "registration.info" + back, "registration.info", "system.ini") == front + "system.ini" + back
  {
    hide Replaced, Find, Apart, Ending;
    NamesApart();
    ReplacedPieces(front, back, "registration.info", "system.ini");
  }
}
