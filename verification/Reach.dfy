/** Which nodes are reachable when the database and the table are sharded on one column: the key
    k goes to source k mod m and table k mod n. */
module Reach {
  import opened Bits

  // ---------- divisors ----------

  predicate Divides(d: nat, x: int)
    requires d > 0
  {
    x % d == 0
  }

  function Gcd(a: nat, b: nat): (g: nat)
    requires a > 0
    ensures g > 0
    decreases b
  {
    if b == 0 then a else Gcd(b, a % b)
  }

  lemma ModStep(x: int, m: int)
    requires m > 0
    ensures (x + m) % m == x % m
  {
    TimesStep(x / m + 1, m);
    Unique(x + m, m, x / m + 1, x % m);
  }

  /** The remainder is the only one. */
  lemma Unique(x: int, m: int, q: int, r: int)
    requires m > 0 && x == q * m + r && 0 <= r < m
    ensures x % m == r
  {
    var p := x / m;
    assert x == p * m + x % m;
    SumOf(q, p, m);
    NoMultiple(q - p, m);
  }

  lemma NoMultiple(a: int, m: int)
    requires m > 0 && -m < a * m < m
    ensures a == 0
  {
  }

  lemma {:induction false} ModMultiple(x: int, m: int, k: int)
    requires m > 0
    ensures (x + k * m) % m == x % m
    decreases if k < 0 then -k else k
  {
    if k > 0 {
      ModMultiple(x, m, k - 1);
      TimesStep(k, m);
      ModStep(x + (k - 1) * m, m);
    } else if k < 0 {
      ModMultiple(x, m, k + 1);
      TimesStep(k + 1, m);
      ModStep(x + k * m, m);
    }
  }

  lemma TimesStep(k: int, m: int)
    ensures k * m == (k - 1) * m + m
  {
  }

  lemma DividesMultiple(d: nat, k: int)
    requires d > 0
    ensures Divides(d, k * d)
  {
    ModMultiple(0, d, k);
  }

  /** The quotient of a multiple. */
  lemma Quotient(d: nat, x: int)
    requires d > 0 && Divides(d, x)
    ensures x == (x / d) * d
  {
  }

  lemma DividesSum(d: nat, x: int, y: int)
    requires d > 0 && Divides(d, x) && Divides(d, y)
    ensures Divides(d, x + y) && Divides(d, x - y)
  {
    Quotient(d, x);
    Quotient(d, y);
    SumOf(x / d, y / d, d);
    DividesMultiple(d, x / d + y / d);
    DividesMultiple(d, x / d - y / d);
  }

  lemma SumOf(a: int, b: int, d: int)
    ensures (a + b) * d == a * d + b * d && (a - b) * d == a * d - b * d
  {
  }

  lemma DividesTimes(d: nat, x: int, k: int)
    requires d > 0 && Divides(d, x)
    ensures Divides(d, k * x)
  {
    Quotient(d, x);
    Regroup(k, x / d, d);
    DividesMultiple(d, k * (x / d));
  }

  lemma Regroup(a: int, b: int, c: int)
    ensures a * (b * c) == (a * b) * c
  {
  }

  lemma {:induction false} GcdDivides(a: nat, b: nat)
    requires a > 0
    ensures Divides(Gcd(a, b), a) && Divides(Gcd(a, b), b)
    decreases b
  {
    if b == 0 {
      DividesMultiple(a, 1);
      DividesMultiple(a, 0);
    } else {
      var g := Gcd(b, a % b);
      GcdDivides(b, a % b);
      DividesTimes(g, b, a / b);
      DividesSum(g, (a / b) * b, a % b);
      assert a == (a / b) * b + a % b;
    }
  }

  /** Bezout's identity. */
  lemma {:induction false} Bezout(a: nat, b: nat) returns (u: int, v: int)
    requires a > 0
    ensures u * a + v * b == Gcd(a, b)
    decreases b
  {
    if b == 0 {
      u, v := 1, 0;
    } else {
      var x, y := Bezout(b, a % b);
      u, v := y, x - y * (a / b);
    }
  }

  // ---------- the reachable pairs ----------

  type Pair = (nat, nat)

  function At(k: nat, m: nat, n: nat): Pair
    requires m > 0 && n > 0
  {
    (k % m, k % n)
  }

  function Lcm(m: nat, n: nat): nat
    requires m > 0 && n > 0
  {
    MulNonnegative(m, n / Gcd(m, n));
    m * (n / Gcd(m, n))
  }

  /** Same residue of both moduli as x: y is x plus a multiple of each. */
  lemma SameResidue(x: int, y: int, m: nat)
    requires m > 0 && x % m == y % m
    ensures Divides(m, x - y)
  {
    assert x - y == (x / m) * m - (y / m) * m;
    SumOf(x / m, y / m, m);
    DividesMultiple(m, x / m - y / m);
  }

  lemma ResidueSame(x: int, y: int, m: nat)
    requires m > 0 && Divides(m, x - y)
    ensures x % m == y % m
  {
    Quotient(m, x - y);
    ModMultiple(y, m, (x - y) / m);
  }

  lemma RemainderDivides(k: int, m: nat, g: nat)
    requires g > 0 && m > 0 && Divides(g, m)
    ensures Divides(g, k - k % m)
  {
    DividesTimes(g, m, k / m);
    assert k - k % m == (k / m) * m;
  }

  /** Every key lands on residues that agree modulo the gcd. */
  lemma Agree(k: nat, m: nat, n: nat)
    requires m > 0 && n > 0
    ensures Divides(Gcd(m, n), At(k, m, n).0 - At(k, m, n).1)
  {
    var g := Gcd(m, n);
    GcdDivides(m, n);
    RemainderDivides(k, m, g);
    RemainderDivides(k, n, g);
    DividesSum(g, k - k % n, k - k % m);
  }

  /** A common multiple of m and n is a multiple of their lcm. */
  lemma LcmDivides(d: int, m: nat, n: nat)
    requires m > 0 && n > 0 && Divides(m, d) && Divides(n, d)
    ensures Lcm(m, n) > 0 && Divides(Lcm(m, n), d)
  {
    var g, L := Gcd(m, n), Lcm(m, n);
    var u, v := Bezout(m, n);
    LcmFacts(m, n);
    var x, y, w, z := d / m, d / n, m / g, n / g;
    Quotient(m, d);
    Quotient(n, d);
    GcdDivides(m, n);
    Quotient(g, m);
    Quotient(g, n);
    Combine(g, u, v, w, z, x, y, d);
    DividesMultiple(L, u * y + v * x);
    LcmIs(m, w, z, g);
  }

  lemma LcmIs(m: nat, w: nat, z: nat, g: nat)
    requires m == w * g
    ensures m * z == (w * z) * g
  {
    assert (w * g) * z == (w * z) * g;
  }

  /** d = x m = y n and g = u m + v n with m = w g, n = z g give d = (u y + v x) (w z g). */
  lemma Combine(g: nat, u: int, v: int, w: int, z: int, x: int, y: int, d: int)
    requires g > 0 && u * (w * g) + v * (z * g) == g && d == x * (w * g) && d == y * (z * g)
    ensures d == (u * y + v * x) * ((w * z) * g)
  {
    calc {
      (u * y + v * x) * ((w * z) * g);
      u * w * (y * (z * g)) + v * z * (x * (w * g));
      u * w * d + v * z * d;
      (u * w + v * z) * d;
      { OneFactor(g, u * w + v * z, u, v, w, z); }
      d;
    }
  }

  lemma OneFactor(g: nat, t: int, u: int, v: int, w: int, z: int)
    requires g > 0 && t == u * w + v * z && u * (w * g) + v * (z * g) == g
    ensures t == 1
  {
    assert u * (w * g) + v * (z * g) == t * g;
    Cancel(t, 1, g);
  }

  lemma Cancel(a: int, b: int, g: nat)
    requires g > 0 && a * g == b * g
    ensures a == b
  {
    SumOf(a, b, g);
  }

  lemma LcmFacts(m: nat, n: nat)
    requires m > 0 && n > 0
    ensures Lcm(m, n) > 0 && Divides(m, Lcm(m, n)) && Divides(n, Lcm(m, n))
    ensures Lcm(m, n) * Gcd(m, n) == m * n
  {
    var g := Gcd(m, n);
    GcdDivides(m, n);
    Quotient(g, m);
    Quotient(g, n);
    var w, z := m / g, n / g;
    assert z > 0;
    Positive(m, z);
    DividesMultiple(m, z);
    DividesMultiple(n, w);
    LcmIs(m, w, z, g);
    assert (w * z) * g == w * (z * g) by { Regroup(w, z, g); }
    Regroup(m, z, g);
    assert m * z == z * m;
  }

  lemma Positive(a: nat, b: nat)
    requires a > 0 && b > 0
    ensures a * b > 0
  {
  }

  /** A pair with residues that agree modulo the gcd is reached, by a key below the lcm. */
  lemma Solve(i: nat, j: nat, m: nat, n: nat) returns (k: nat)
    requires i < m && j < n && Divides(Gcd(m, n), i - j)
    ensures k < Lcm(m, n) && At(k, m, n) == (i, j)
  {
    var g, L := Gcd(m, n), Lcm(m, n);
    LcmFacts(m, n);
    var u, v := Bezout(m, n);
    Quotient(g, i - j);
    var t := (i - j) / g;
    var k0 := i - t * u * m;
    Shift(i, j, t, u, v, m, n, g);
    ModMultiple(i, m, -(t * u));
    ModMultiple(j, n, t * v);
    Negate(t * u, m);
    k := k0 % L;
    RemainderDivides(k0, L, m);
    RemainderDivides(k0, L, n);
    ResidueSame(k0, k, m);
    ResidueSame(k0, k, n);
    Small(i, m);
    Small(j, n);
  }

  lemma Negate(a: int, m: int)
    ensures (-a) * m == -(a * m)
  {
  }

  lemma Small(i: nat, m: nat)
    requires i < m
    ensures i % m == i
  {
  }

  lemma Shift(i: int, j: int, t: int, u: int, v: int, m: int, n: int, g: int)
    requires i - j == t * g && u * m + v * n == g
    ensures i - t * u * m == j + t * v * n
  {
    assert t * (u * m + v * n) == t * u * m + t * v * n;
  }

  /** Some key goes to source i and table j. */
  ghost predicate Reachable(i: nat, j: nat, m: nat, n: nat)
    requires m > 0 && n > 0
  {
    exists k: nat :: At(k, m, n) == (i, j)
  }

  /** The pair (i, j) is reached by some key exactly when i and j agree modulo the gcd. */
  lemma ReachIff(i: nat, j: nat, m: nat, n: nat)
    requires i < m && j < n
    ensures Reachable(i, j, m, n) <==> Divides(Gcd(m, n), i - j)
  {
    if Divides(Gcd(m, n), i - j) {
      var k := Solve(i, j, m, n);
      assert At(k, m, n) == (i, j);
    }
    forall k: nat | At(k, m, n) == (i, j) ensures Divides(Gcd(m, n), i - j) {
      Agree(k, m, n);
    }
  }

  /** The pairs of the keys below k. */
  function Reached(k: nat, m: nat, n: nat): set<Pair>
    requires m > 0 && n > 0
  {
    if k == 0 then {} else Reached(k - 1, m, n) + {At(k - 1, m, n)}
  }

  lemma {:induction false} InReached(k: nat, m: nat, n: nat, p: Pair)
    requires m > 0 && n > 0
    ensures p in Reached(k, m, n) <==> exists x: nat :: x < k && At(x, m, n) == p
  {
    if k > 0 {
      InReached(k - 1, m, n, p);
      assert p == At(k - 1, m, n) ==> exists x: nat :: x < k && At(x, m, n) == p;
    }
  }

  /** Keys below the lcm land on different pairs. */
  lemma Apart(x: nat, y: nat, m: nat, n: nat)
    requires m > 0 && n > 0 && x < y < Lcm(m, n)
    ensures At(x, m, n) != At(y, m, n)
  {
    if At(x, m, n) == At(y, m, n) {
      SameResidue(y, x, m);
      SameResidue(y, x, n);
      LcmDivides(y - x, m, n);
      Small(y - x, Lcm(m, n));
    }
  }

  lemma {:induction false} ReachedSize(k: nat, m: nat, n: nat)
    requires m > 0 && n > 0 && k <= Lcm(m, n)
    ensures |Reached(k, m, n)| == k
  {
    if k > 0 {
      ReachedSize(k - 1, m, n);
      var p := At(k - 1, m, n);
      InReached(k - 1, m, n, p);
      forall x: nat | x < k - 1 ensures At(x, m, n) != p {
        Apart(x, k - 1, m, n);
      }
    }
  }

  /** Over all keys exactly lcm(m, n) pairs are reached: those that agree modulo gcd(m, n). */
  lemma ReachableCount(m: nat, n: nat)
    requires m > 0 && n > 0
    ensures |Reached(Lcm(m, n), m, n)| == Lcm(m, n)
    ensures forall p: Pair ::
              (p in Reached(Lcm(m, n), m, n) <==> p.0 < m && p.1 < n && Divides(Gcd(m, n), p.0 - p.1))
  {
    ReachedSize(Lcm(m, n), m, n);
    forall p: Pair ensures p in Reached(Lcm(m, n), m, n) <==> p.0 < m && p.1 < n && Divides(Gcd(m, n), p.0 - p.1) {
      InReached(Lcm(m, n), m, n, p);
      if p.0 < m && p.1 < n && Divides(Gcd(m, n), p.0 - p.1) {
        var k := Solve(p.0, p.1, m, n);
        assert At(k, m, n) == p;
      }
      forall x: nat | At(x, m, n) == p ensures p.0 < m && p.1 < n && Divides(Gcd(m, n), p.0 - p.1) {
        Agree(x, m, n);
      }
    }
  }

  /** All m n nodes are reachable exactly when the moduli are coprime. */
  lemma AllIffCoprime(m: nat, n: nat)
    requires m > 0 && n > 0
    ensures (forall i: nat, j: nat :: i < m && j < n ==> Reachable(i, j, m, n)) <==> Gcd(m, n) == 1
    ensures Lcm(m, n) == m * n <==> Gcd(m, n) == 1
  {
    var g := Gcd(m, n);
    LcmFacts(m, n);
    if g == 1 {
      forall i: nat, j: nat | i < m && j < n ensures Reachable(i, j, m, n) {
        ReachIff(i, j, m, n);
      }
    } else {
      GcdDivides(m, n);
      Small(1, g);
      ReachIff(1, 0, m, n);
      assert !Reachable(1, 0, m, n);
    }
    if Lcm(m, n) == m * n {
      Positive(m, n);
      Cancel(g, 1, m * n);
    }
  }

}
