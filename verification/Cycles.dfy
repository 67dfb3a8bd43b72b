/** Number theory of rotating a block by cycles: Euclid's algorithm as the C code runs it,
    and the orbit of one slot under "move left by a, wrapping round n = a + b". */
module Cycles {

  // Euclid's algorithm in the order of the C loop: the remainder is taken before the test.
  function Gcd(a: nat, b: nat): nat
    requires b >= 1
    decreases b
  {
    if a % b == 0 then b else Gcd(b, a % b)
  }

  lemma {:induction false} GcdDivides(a: nat, b: nat) returns (p: nat, q: nat)
    requires b >= 1
    ensures 1 <= Gcd(a, b) <= b
    ensures a == p * Gcd(a, b) && b == q * Gcd(a, b) && q >= 1
    decreases b
  {
    var d, r := a / b, a % b;
    assert a == d * b + r;
    if r == 0 {
      p, q := d, 1;
    } else {
      var p', q' := GcdDivides(b, r);
      var g := Gcd(b, r);
      p, q := d * p' + q', p';
      assert a == d * (p' * g) + q' * g == (d * p' + q') * g;
      assert q != 0;
    }
  }

  lemma {:induction false} Bezout(a: nat, b: nat) returns (x: int, y: int)
    requires b >= 1
    ensures Gcd(a, b) == x * a + y * b
    decreases b
  {
    var d, r := a / b, a % b;
    assert a == d * b + r;
    if r == 0 {
      x, y := 0, 1;
    } else {
      var x', y' := Bezout(b, r);
      x, y := y', x' - d * y';
      BezoutStep(a, b, d, r, x', y');
    }
  }

  lemma BezoutStep(a: int, b: int, d: int, r: int, x: int, y: int)
    requires a == d * b + r
    ensures x * b + y * r == y * a + (x - d * y) * b
  {
    assert y * a == y * (d * b) + y * r;
    Assoc(y, d, b);
    Distribute(x, d * y, b);
  }

  // Any common divisor of a and b divides Gcd(a, b): with GcdDivides, it is the greatest.
  lemma GcdGreatest(a: nat, b: nat, d: nat, p: nat, q: nat) returns (k: nat)
    requires b >= 1 && a == p * d && b == q * d
    ensures Gcd(a, b) == k * d && d <= Gcd(a, b)
  {
    var x, y := Bezout(a, b);
    var _, _ := GcdDivides(a, b);
    var z := x * p + y * q;
    assert Gcd(a, b) == z * d by {
      Assoc(x, p, d);
      Assoc(y, q, d);
      Distribute(x * p, y * q, d);
    }
    PositiveFactor(z, d);
    k := z;
  }

  lemma Assoc(x: int, y: int, z: int)
    ensures x * (y * z) == (x * y) * z
  {
  }

  lemma Distribute(x: int, y: int, z: int)
    ensures (x + y) * z == x * z + y * z
    ensures (x - y) * z == x * z - y * z
  {
  }

  lemma PositiveFactor(z: int, d: nat)
    requires z * d >= 1
    ensures z >= 1 && d <= z * d
  {
  }

  // The residue of q modulo g, read off from q = k*g + i.
  lemma Residue(q: int, g: int, k: int, i: int)
    requires g >= 1 && 0 <= i < g && q == k * g + i
    ensures q % g == i && q / g == k
  {
    var k', i' := q / g, q % g;
    assert q == k' * g + i';
    Distribute(k, k', g);
    SmallMultiple(k - k', g);
  }

  /** Where the word at offset p of a block of a + b words goes when the first a and the last b
      change places. */
  function Target(a: nat, b: nat, p: nat): nat
    requires p < a + b
  {
    if p >= a then p - a else p + b
  }

  /** Where the word that ends at offset p came from. */
  function Source(a: nat, b: nat, p: nat): nat
    requires p < a + b
  {
    if p >= b then p - b else p + a
  }

  // The k-th slot of the cycle that starts at c.
  function Orbit(a: nat, b: nat, c: nat, k: nat): (p: nat)
    requires c < a + b
    ensures p < a + b
  {
    if k == 0 then c else Target(a, b, Orbit(a, b, c, k - 1))
  }

  // The k-th slot is c - k*a modulo a + b.
  lemma {:induction false} OrbitIsLinear(a: nat, b: nat, c: nat, k: nat) returns (m: nat)
    requires c < a + b
    ensures Orbit(a, b, c, k) == c - k * a + m * (a + b)
  {
    if k == 0 {
      m := 0;
    } else {
      var m' := OrbitIsLinear(a, b, c, k - 1);
      var p := Orbit(a, b, c, k - 1);
      assert (k - 1) * a == k * a - a;
      m := if p >= a then m' else m' + 1;
      assert (m' + 1) * (a + b) == m' * (a + b) + (a + b);
    }
  }

  lemma AtLeastOne(u: int, n: int)
    requires n >= 0
    ensures u >= 1 ==> u * n >= n
    ensures u <= -1 ==> u * n <= -n
  {
  }

  // A multiple of n strictly between -n and n is zero.
  lemma SmallMultiple(u: int, n: int)
    requires n >= 1 && -n < u * n < n
    ensures u == 0
  {
    AtLeastOne(u, n);
  }

  // If a is p times g and n is len times g, then len steps of a are p turns of n.
  lemma Exchange(a: int, p: int, n: int, len: int, g: int)
    requires a == p * g && n == len * g
    ensures len * a == p * n
  {
    Assoc(len, p, g);
    Assoc(p, len, g);
  }

  lemma DivExact(len: nat, g: nat)
    requires g >= 1
    ensures (len * g) / g == len
  {
    var q, r := (len * g) / g, (len * g) % g;
    assert len * g == q * g + r;
    Distribute(len, q, g);
    SmallMultiple(len - q, g);
  }

  /** The cycles of C's permute_args: g = gcd(a, b) of them, each of length len. */
  ghost predicate Shape(a: nat, b: nat, g: nat, len: nat) {
    b >= 1 && g == Gcd(a, b) && g >= 1 && a + b == len * g && len >= 1
  }

  lemma ShapeOf(a: nat, b: nat) returns (len: nat)
    requires b >= 1
    ensures Shape(a, b, Gcd(a, b), len) && len == (a + b) / Gcd(a, b)
  {
    var g := Gcd(a, b);
    var p, q := GcdDivides(a, b);
    len := p + q;
    Distribute(p, q, g);
    DivExact(len, g);
  }

  // d*a a multiple of n = a + b makes d*(x*a + y*b) one too.
  lemma ScaledMultiple(a: int, b: int, d: int, m: int, x: int, y: int)
    requires d * a == m * (a + b)
    ensures d * (x * a + y * b) == (x * m + y * (d - m)) * (a + b)
  {
    var n := a + b;
    calc {
      d * (x * a + y * b);
      { Distribute(x * a, y * b, d); }
      d * (x * a) + d * (y * b);
      { Assoc(d, x, a); Assoc(x, d, a); Assoc(d, y, b); Assoc(y, d, b); }
      x * (d * a) + y * (d * b);
      { assert d * b == d * n - d * a; Distribute(d, m, n); }
      x * (m * n) + y * ((d - m) * n);
      { Assoc(x, m, n); Assoc(y, d - m, n); Distribute(x * m, y * (d - m), n); }
      (x * m + y * (d - m)) * n;
    }
  }

  // Two equal slots of one orbit are a whole number of cycles apart.
  lemma OrbitPeriod(a: nat, b: nat, g: nat, len: nat, c: nat, j: nat, k: nat) returns (u: int)
    requires Shape(a, b, g, len) && c < a + b && j <= k
    requires Orbit(a, b, c, j) == Orbit(a, b, c, k)
    ensures k - j == u * len
  {
    var mj := OrbitIsLinear(a, b, c, j);
    var mk := OrbitIsLinear(a, b, c, k);
    var x, y := Bezout(a, b);
    u := PeriodAlgebra(a, b, g, len, k, j, mk, mj, x, y);
  }

  lemma PeriodAlgebra(a: int, b: int, g: int, len: int, k: int, j: int, mk: int, mj: int, x: int, y: int) returns (u: int)
    requires g >= 1 && a + b == len * g && g == x * a + y * b
    requires -(j * a) + mj * (a + b) == -(k * a) + mk * (a + b)
    ensures k - j == u * len
  {
    var d, m := k - j, mk - mj;
    Distribute(k, j, a);
    Distribute(mk, mj, a + b);
    ScaledMultiple(a, b, d, m, x, y);
    u := x * m + y * (d - m);
    Cancel(d, u, len, g, a + b);
  }

  lemma Cancel(d: int, u: int, len: int, g: int, n: int)
    requires g >= 1 && n == len * g && d * g == u * n
    ensures d == u * len
  {
    Assoc(u, len, g);
    Distribute(d, u * len, g);
    SmallMultiple(d - u * len, g);
  }

  // No slot repeats before the cycle closes.
  lemma OrbitInjective(a: nat, b: nat, g: nat, len: nat, c: nat, j: nat, k: nat)
    requires Shape(a, b, g, len) && c < a + b && j < k < j + len
    ensures Orbit(a, b, c, j) != Orbit(a, b, c, k)
  {
    if Orbit(a, b, c, j) == Orbit(a, b, c, k) {
      var u := OrbitPeriod(a, b, g, len, c, j, k);
      SmallMultiple(u, len);
      assert false;
    }
  }

  // The cycle closes after len steps.
  lemma OrbitCloses(a: nat, b: nat, g: nat, len: nat, c: nat)
    requires Shape(a, b, g, len) && c < a + b
    ensures Orbit(a, b, c, len) == c
  {
    var m := OrbitIsLinear(a, b, c, len);
    var p, _ := GcdDivides(a, b);
    CloseAlgebra(a, a + b, g, len, c, Orbit(a, b, c, len), m, p);
  }

  lemma CloseAlgebra(a: int, n: int, g: int, len: int, c: int, d: int, m: int, p: int)
    requires 0 <= c < n && 0 <= d < n && d == c - len * a + m * n
    requires a == p * g && n == len * g
    ensures d == c
  {
    Exchange(a, p, n, len, g);
    Distribute(m, p, n);
    SmallMultiple(m - p, n);
  }

  // k = -t*(x - y) modulo len is the number of steps that moves a slot by t*g.
  lemma StepsFor(a: nat, b: nat, g: nat, len: nat, t: int) returns (k: nat, w: int)
    requires Shape(a, b, g, len)
    ensures k < len && k * a == w * (a + b) - t * g
  {
    var n := a + b;
    var x, y := Bezout(a, b);
    var z := -(t * (x - y));
    k := z % len;
    var u := z / len;
    assert z == u * len + k;
    var p, _ := GcdDivides(a, b);
    Exchange(a, p, n, len, g);
    w := t * y - u * p;
    calc {
      k * a;
      (z - u * len) * a;
      { Distribute(z, u * len, a); Assoc(u, len, a); }
      z * a - u * (p * n);
      { Assoc(u, p, n); ScaledBezout(a, b, g, x, y, t); }
      (t * y) * n - t * g - (u * p) * n;
      { Distribute(t * y, u * p, n); }
      w * n - t * g;
    }
  }

  lemma ScaledBezout(a: int, b: int, g: int, x: int, y: int, t: int)
    requires g == x * a + y * b
    ensures -(t * (x - y)) * a == (t * y) * (a + b) - t * g
  {
    calc {
      -(t * (x - y)) * a;
      { Assoc(t, x - y, a); }
      -(t * ((x - y) * a));
      { Distribute(x, y, a); }
      t * (y * a - x * a);
      { assert y * (a + b) == y * a + y * b; }
      t * (y * (a + b) - g);
      t * (y * (a + b)) - t * g;
      { Assoc(t, y, a + b); }
      (t * y) * (a + b) - t * g;
    }
  }

  // Every slot that differs from c by a multiple of g is on the cycle of c.
  lemma OrbitSurjective(a: nat, b: nat, g: nat, len: nat, c: nat, p: nat, t: int) returns (k: nat)
    requires Shape(a, b, g, len) && c < a + b && p < a + b && p - c == t * g
    ensures k < len && Orbit(a, b, c, k) == p
  {
    var n, w := a + b, 0;
    k, w := StepsFor(a, b, g, len, t);
    var m := OrbitIsLinear(a, b, c, k);
    Distribute(m, w, n);
    assert Orbit(a, b, c, k) - p == (m - w) * n;
    SmallMultiple(m - w, n);
  }

  // A cycle stays inside one residue class modulo g.
  lemma OrbitResidue(a: nat, b: nat, g: nat, len: nat, c: nat, k: nat)
    requires Shape(a, b, g, len) && c < a + b
    ensures Orbit(a, b, c, k) % g == c % g
  {
    var m := OrbitIsLinear(a, b, c, k);
    var p, _ := GcdDivides(a, b);
    ResidueAlgebra(Orbit(a, b, c, k), c, k, m, a, p, a + b, len, g);
  }

  lemma ResidueAlgebra(o: int, c: int, k: int, m: int, a: int, p: int, n: int, len: int, g: int)
    requires g >= 1 && a == p * g && n == len * g && o == c - k * a + m * n
    ensures o % g == c % g
  {
    Assoc(k, p, g);
    Assoc(m, len, g);
    Distribute(m * len, k * p, g);
    assert c == c / g * g + c % g;
    Distribute(c / g, m * len - k * p, g);
    Residue(o, g, c / g + (m * len - k * p), c % g);
  }

  // The cycle that starts at slot a + i is the whole residue class i.
  lemma ClassIsOrbit(a: nat, b: nat, g: nat, len: nat, i: nat, q: nat) returns (k: nat)
    requires Shape(a, b, g, len) && i < g && q < a + b && q % g == i
    ensures i < b && k < len && Orbit(a, b, a + i, k) == q
  {
    var p, _ := GcdDivides(a, b);
    assert q == q / g * g + i;
    Distribute(q / g, p, g);
    k := OrbitSurjective(a, b, g, len, a + i, q, q / g - p);
  }

  lemma StartResidue(a: nat, b: nat, g: nat, len: nat, i: nat)
    requires Shape(a, b, g, len) && i < g
    ensures i < b && (a + i) % g == i
  {
    var p, _ := GcdDivides(a, b);
    Residue(a + i, g, p, i);
  }
}
