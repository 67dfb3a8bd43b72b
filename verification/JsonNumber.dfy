/** The 64-bit range test of numValue (src/tiny-json.c:290-305): a length test, then a comparison of
    strings, decides the same as comparing the numbers. */
module JsonNumber {
  import opened CBase
  import opened JsonGrammar

  const MIN_TEXT := "-9223372036854775808"
  const MAX_TEXT := "9223372036854775807"

  function Pow10(n: nat): nat {
    if n == 0 then 1 else 10 * Pow10(n - 1)
  }

  predicate AllDigits(d: string) {
    forall i :: 0 <= i < |d| ==> IsDigit(d[i])
  }

  // strcmp(a, b) < 0
  predicate LexLess(a: string, b: string) {
    b != "" && (a == "" || a[0] < b[0] || (a[0] == b[0] && LexLess(a[1..], b[1..])))
  }

  lemma {:induction false} ValHead(c: char, d: string)
    ensures Val([c] + d) == Digit(c) * Pow10(|d|) + Val(d)
    decreases |d|
  {
    if d == "" {
      assert ([c] + d)[..0] == "";
    } else {
      var front := d[..|d| - 1];
      assert ([c] + d)[..|d|] == [c] + front;
      ValHead(c, front);
    }
  }

  lemma {:induction false} ValBound(d: string)
    ensures Val(d) < Pow10(|d|)
    decreases |d|
  {
    if d != "" {
      ValBound(d[..|d| - 1]);
    }
  }

  // For digit strings of one length, string order is number order.
  lemma {:induction false} LexIsNumeric(a: string, b: string)
    requires |a| == |b| && AllDigits(a) && AllDigits(b)
    ensures LexLess(a, b) <==> Val(a) < Val(b)
    decreases |a|
  {
    if a != "" {
      var x, y := a[1..], b[1..];
      assert a == [a[0]] + x && b == [b[0]] + y;
      ValHead(a[0], x);
      ValHead(b[0], y);
      ValBound(x);
      ValBound(y);
      LexIsNumeric(x, y);
      HeadDecides(Digit(a[0]), Digit(b[0]), Pow10(|x|), Val(x), Val(y));
    }
  }

  lemma HeadDecides(p: nat, q: nat, n: nat, x: nat, y: nat)
    requires x < n && y < n
    ensures p < q ==> p * n + x < q * n + y
    ensures p > q ==> p * n + x > q * n + y
    ensures p == q ==> (p * n + x < q * n + y <==> x < y)
  {
    if p < q {
      assert (p + 1) * n <= q * n;
    } else if p > q {
      assert (q + 1) * n <= p * n;
    }
  }

  lemma {:induction false} PowMonotone(m: nat, n: nat)
    requires m <= n
    ensures 1 <= Pow10(m) <= Pow10(n)
  {
    if m > 0 {
      PowMonotone(m - 1, n - 1);
    } else if n > 0 {
      PowMonotone(0, n - 1);
    }
  }

  // A numeral without leading zero is at least the power of ten of its length less one.
  lemma ValAtLeast(d: string)
    requires AllDigits(d) && |d| >= 1 && d[0] != '0'
    ensures Val(d) >= Pow10(|d| - 1)
  {
    var rest := d[1..];
    assert d == [d[0]] + rest;
    ValHead(d[0], rest);
    OneTimes(Digit(d[0]), Pow10(|rest|));
  }

  lemma OneTimes(p: nat, n: nat)
    requires p >= 1
    ensures p * n >= n
  {
  }

  lemma ValSnoc(d: string, c: char)
    ensures Val(d + [c]) == 10 * Val(d) + Digit(c)
  {
    assert (d + [c])[..|d|] == d;
  }

  lemma FourMore(p: string, a: char, b: char, c: char, d: char)
    ensures Val(p + [a, b, c, d]) == 10000 * Val(p) + 1000 * Digit(a) + 100 * Digit(b) + 10 * Digit(c) + Digit(d)
  {
    ValSnoc(p, a);
    ValSnoc(p + [a], b);
    ValSnoc(p + [a] + [b], c);
    ValSnoc(p + [a] + [b] + [c], d);
    assert p + [a] + [b] + [c] + [d] == p + [a, b, c, d];
  }

  lemma ThresholdPrefix()
    ensures Val("9223372036854775") == 9223372036854775
  {
    FourMore("", '9', '2', '2', '3');
    FourMore("9223", '3', '7', '2', '0');
    FourMore("92233720", '3', '6', '8', '5');
    FourMore("922337203685", '4', '7', '7', '5');
    assert "" + "9223" == "9223" && "9223" + "3720" == "92233720";
    assert "92233720" + "3685" == "922337203685" && "922337203685" + "4775" == "9223372036854775";
  }

  lemma ThresholdValues()
    ensures Val(MAX_TEXT) == MAX64 && Val(MIN_TEXT[1..]) == MAX64 + 1
  {
    ThresholdPrefix();
    var p := "9223372036854775";
    ValSnoc(p, '8');
    ValSnoc(p + "8", '0');
    ValSnoc(p + "80", '7');
    ValSnoc(p + "80", '8');
    assert p + "8" + "0" == p + "80" && p + "80" + "7" == MAX_TEXT && p + "80" + "8" == MIN_TEXT[1..];
  }

  lemma ThresholdPowers()
    ensures Pow10(18) <= MAX64 < MAX64 + 1 < Pow10(19)
  {
    assert Pow10(6) == 1000000;
    assert Pow10(12) == 1000000000000;
    assert Pow10(18) == 1000000000000000000;
  }

  lemma ThresholdDigits()
    ensures |MAX_TEXT| == 19 && AllDigits(MAX_TEXT) && |MIN_TEXT| == 20 && AllDigits(MIN_TEXT[1..])
  {
    assert AllDigits("9223372036") && AllDigits("854775807") && AllDigits("854775808");
    assert MAX_TEXT == "9223372036" + "854775807";
    assert MIN_TEXT[1..] == "9223372036" + "854775808";
  }

  // The lexeme of an integer: sign, then digits without a leading zero.
  predicate IsInteger(lexeme: string) {
    var d := if lexeme != "" && lexeme[0] == '-' then lexeme[1..] else lexeme;
    |d| >= 1 && AllDigits(d) && (d[0] == '0' ==> |d| == 1)
  }

  // The test the code makes.
  predicate CodeAccepts(lexeme: string) {
    var threshold := if lexeme != "" && lexeme[0] == '-' then MIN_TEXT else MAX_TEXT;
    |lexeme| < |threshold| || (|lexeme| == |threshold| && !LexLess(threshold, lexeme))
  }

  lemma MagnitudeTest(d: string, limit: string, max: nat)
    requires |d| >= 1 && AllDigits(d) && (d[0] == '0' ==> |d| == 1)
    requires |limit| == 19 && AllDigits(limit) && Val(limit) == max && Pow10(18) <= max < Pow10(19)
    ensures Val(d) <= max <==> |d| < 19 || (|d| == 19 && !LexLess(limit, d))
  {
    if |d| < 19 {
      ValBound(d);
      PowMonotone(|d|, 18);
    } else if |d| == 19 {
      LexIsNumeric(limit, d);
    } else {
      ValAtLeast(d);
      PowMonotone(19, |d| - 1);
    }
  }

  /** An integer lexeme passes the length test and string comparison iff it fits 64 bits. */
  lemma RangeTest(lexeme: string)
    requires IsInteger(lexeme)
    ensures CodeAccepts(lexeme) <==> -MAX64 - 1 <= IntValue(lexeme) <= MAX64
  {
    ThresholdValues();
    ThresholdPowers();
    ThresholdDigits();
    if lexeme[0] == '-' {
      MagnitudeTest(lexeme[1..], MIN_TEXT[1..], MAX64 + 1);
      assert LexLess(MIN_TEXT, lexeme) <==> LexLess(MIN_TEXT[1..], lexeme[1..]);
    } else {
      MagnitudeTest(lexeme, MAX_TEXT, MAX64);
    }
  }
}
