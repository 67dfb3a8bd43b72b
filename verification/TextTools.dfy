/** C text handling used by the command pipeline: %d, atoi, explode and str_replace (src/sc_tools.c). */
module TextTools {
  import opened CBase

  function DigitOf(n: nat): char
    requires n < 10
  {
    ((n + 48) as char)
  }

  // %d for a non-negative number.
  function Digits(n: nat): (d: string)
    ensures d != "" && forall i :: 0 <= i < |d| ==> IsDigit(d[i])
  {
    if n < 10 then [DigitOf(n)] else Digits(n / 10) + [DigitOf(n % 10)]
  }

  /** printf %d */
  function Decimal(n: int): (d: string)
    ensures d != "" && forall i :: 0 <= i < |d| ==> IsDigit(d[i]) || d[i] == '-'
  {
    if n < 0 then "-" + Digits(-n) else Digits(n)
  }

  // Digits from the front, onto the value of those before them.
  function AtoiDigits(s: string, acc: nat): nat {
    if s == "" || !IsDigit(s[0]) then acc else AtoiDigits(s[1..], 10 * acc + (s[0] as int - 48))
  }

  /** atoi and atol, where the number fits: blanks, a sign, digits; the rest is ignored. */
  function Atoi(s: string): int {
    if s == "" then 0
    else if IsSpace(s[0]) then Atoi(s[1..])
    else if s[0] == '-' then 0 - AtoiDigits(s[1..], 0)
    else if s[0] == '+' then AtoiDigits(s[1..], 0)
    else AtoiDigits(s, 0)
  }

  lemma {:induction false} AtoiDigitsSnoc(d: string, c: char, rest: string, acc: nat)
    requires forall i :: 0 <= i < |d| ==> IsDigit(d[i])
    requires IsDigit(c) && (rest == "" || !IsDigit(rest[0]))
    ensures AtoiDigits(d + [c] + rest, acc) == 10 * AtoiDigits(d, acc) + (c as int - 48)
    decreases |d|
  {
    if d == "" {
      assert d + [c] + rest == [c] + rest;
      assert ([c] + rest)[1..] == rest;
    } else {
      assert (d + [c] + rest)[1..] == d[1..] + [c] + rest;
      AtoiDigitsSnoc(d[1..], c, rest, 10 * acc + (d[0] as int - 48));
    }
  }

  lemma {:induction false} AtoiOfDigits(n: nat, rest: string)
    requires rest == "" || !IsDigit(rest[0])
    ensures AtoiDigits(Digits(n) + rest, 0) == n
    decreases n
  {
    if n < 10 {
      AtoiDigitsSnoc("", DigitOf(n), rest, 0);
      assert "" + [DigitOf(n)] + rest == Digits(n) + rest;
    } else {
      AtoiOfDigits(n / 10, "");
      assert Digits(n / 10) + "" == Digits(n / 10);
      AtoiDigitsSnoc(Digits(n / 10), DigitOf(n % 10), rest, 0);
      assert Digits(n / 10) + [DigitOf(n % 10)] + rest == Digits(n) + rest;
    }
  }

  /** What %d prints, atoi reads back, whatever follows it. */
  lemma AtoiOfDecimal(n: int, rest: string)
    requires rest == "" || !IsDigit(rest[0])
    ensures Atoi(Decimal(n) + rest) == n
  {
    hide Digits, AtoiDigits, Atoi;
    if n < 0 {
      AtoiOfDigits(-n, rest);
      AtoiMinus(Digits(-n) + rest);
      assert Decimal(n) + rest == "-" + (Digits(-n) + rest);
    } else {
      AtoiOfDigits(n, rest);
      assert (Digits(n) + rest)[0] == Digits(n)[0];
      AtoiPlain(Digits(n) + rest);
    }
  }

  lemma AtoiDecimal(n: int)
    ensures Atoi(Decimal(n)) == n
  {
    AtoiOfDecimal(n, "");
    assert Decimal(n) + "" == Decimal(n);
  }

  lemma AtoiMinus(s: string)
    ensures Atoi("-" + s) == 0 - AtoiDigits(s, 0)
  {
    assert ("-" + s)[1..] == s;
  }

  lemma AtoiPlain(s: string)
    requires s != "" && IsDigit(s[0])
    ensures Atoi(s) == AtoiDigits(s, 0)
  {
  }

  // ---- explode

  /** The pieces of line between separators. */
  function Split(line: string, sep: char): (r: seq<string>)
    ensures r != []
  {
    if line == "" then [""]
    else if line[0] == sep then [""] + Split(line[1..], sep)
    else
      var rest := Split(line[1..], sep);
      [[line[0]] + rest[0]] + rest[1..]
  }

  function Join(words: seq<string>, sep: char): string
    requires words != []
  {
    if |words| == 1 then words[0] else words[0] + [sep] + Join(words[1..], sep)
  }

  /** Splitting loses nothing ... */
  lemma {:induction false} JoinSplit(line: string, sep: char)
    ensures Join(Split(line, sep), sep) == line
    decreases |line|
  {
    if line != "" {
      JoinSplit(line[1..], sep);
      var rest := Split(line[1..], sep);
      if line[0] == sep {
        assert ([""] + rest)[1..] == rest;
        assert line == "" + [sep] + line[1..];
      } else {
        JoinPrefix(line[0], rest, sep);
      }
    }
  }

  lemma JoinPrefix(c: char, words: seq<string>, sep: char)
    requires words != []
    ensures Join([[c] + words[0]] + words[1..], sep) == [c] + Join(words, sep)
  {
    var all := [[c] + words[0]] + words[1..];
    assert all[1..] == words[1..];
    if |words| > 1 {
      assert ([c] + words[0]) + [sep] + Join(words[1..], sep) == [c] + (words[0] + [sep] + Join(words[1..], sep));
    }
  }

  /** ... and no piece holds a separator. */
  lemma {:induction false} SplitClean(line: string, sep: char, k: nat)
    requires k < |Split(line, sep)|
    ensures sep !in Split(line, sep)[k]
    decreases |line|
  {
    if line != "" {
      if line[0] != sep {
        SplitClean(line[1..], sep, k);
      } else if k > 0 {
        SplitClean(line[1..], sep, k - 1);
      }
    }
  }

  // A piece holds no character that the line does not hold.
  lemma {:induction false} PieceChars(line: string, sep: char, k: nat, c: char)
    requires c !in line && k < |Split(line, sep)|
    ensures c !in Split(line, sep)[k]
    decreases |line|
  {
    if line != "" && (k > 0 || line[0] != sep) {
      PieceChars(line[1..], sep, if line[0] == sep then k - 1 else k, c);
    }
  }

  // A separator-free head is the first piece.
  lemma {:induction false} SplitHead(head: string, sep: char, tail: string)
    requires sep !in head
    ensures Split(head + [sep] + tail, sep) == [head] + Split(tail, sep)
    decreases |head|
  {
    var line := head + [sep] + tail;
    if head == "" {
      assert line[1..] == tail;
    } else {
      assert line[1..] == head[1..] + [sep] + tail;
      SplitHead(head[1..], sep, tail);
      assert [line[0]] + head[1..] == head;
      assert ([head[1..]] + Split(tail, sep))[1..] == Split(tail, sep);
    }
  }

  lemma {:induction false} SplitWhole(line: string, sep: char)
    requires sep !in line
    ensures Split(line, sep) == [line]
    decreases |line|
  {
    if line != "" {
      SplitWhole(line[1..], sep);
      assert [line[0]] + line[1..] == line;
    }
  }
}
