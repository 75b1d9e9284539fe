// Primes, as far as the spelling table's size and probe step need them.

module Primes {
  import opened Perms

  predicate Divides(d: nat, n: nat)
    requires d > 0
  {
    n % d == 0
  }

  ghost predicate IsPrime(n: nat) {
    n >= 2 && forall d: nat :: 2 <= d < n ==> !Divides(d, n)
  }

  lemma DivFacts(d: nat, n: nat)
    requires d > 0
    ensures n == d * (n / d) + n % d && 0 <= n % d < d
  {}

  lemma MulDivides(d: nat, k: nat)
    requires d > 0
    ensures Divides(d, d * k)
  {
    MulMod(d, k);
  }

  lemma {:induction false} MulMod(d: nat, k: nat)
    requires d > 0
    ensures (d * k) % d == 0
  {
    if k > 0 {
      MulMod(d, k - 1);
      assert d * k == d * (k - 1) + d;
      AddMod(d * (k - 1), d);
    }
  }

  lemma AddMod(x: nat, d: nat)
    requires d > 0
    ensures (x + d) % d == x % d
  {
    var q := x / d;
    DivFacts(d, x);
    assert x + d == d * q + d + x % d == d * (q + 1) + x % d;
    Unique(d, q + 1, x % d, x + d);
  }

  // Quotient and remainder are unique.
  lemma Unique(d: nat, q: nat, r: nat, n: nat)
    requires d > 0 && r < d && n == d * q + r
    ensures n / d == q && n % d == r
  {
    DivFacts(d, n);
    var q', r' := n / d, n % d;
    assert d * q + r == d * q' + r';
    if q < q' {
      MulGap(d, q, q');
    } else if q > q' {
      MulGap(d, q', q);
    }
  }

  lemma {:induction false} MulGap(d: nat, a: nat, b: nat)
    requires a < b
    ensures d * b >= d * a + d
  {
    assert d * b == d * (b - 1) + d;
    if a + 1 < b {
      MulGap(d, a, b - 1);
    }
  }

  lemma DividesIff(d: nat, n: nat)
    requires d > 0
    ensures Divides(d, n) <==> exists k: nat :: n == d * k
  {
    DivFacts(d, n);
    if n % d == 0 {
      assert n == d * (n / d);
    }
    if exists k: nat :: n == d * k {
      var k: nat :| n == d * k;
      MulMod(d, k);
    }
  }

  lemma DividesSum(d: nat, a: nat, b: nat)
    requires d > 0 && Divides(d, a)
    ensures Divides(d, a + b) <==> Divides(d, b)
  {
    DividesIff(d, a);
    var x: nat :| a == d * x;
    DivFacts(d, b);
    assert a + b == d * (x + b / d) + b % d by {
      assert d * (x + b / d) == d * x + d * (b / d);
    }
    Unique(d, x + b / d, b % d, a + b);
  }

  // ---- Euclid's lemma ----

  lemma {:induction false} PrimeDividesSmall(p: nat, r: nat, b: nat)
    requires IsPrime(p) && 0 < r < p && Divides(p, r * b)
    ensures Divides(p, b)
    decreases r
  {
    if r > 1 {
      var q, s := p / r, p % r;
      DivFacts(r, p);
      assert !Divides(r, p);
      assert p * b == r * q * b + s * b by {
        assert (r * q + s) * b == r * q * b + s * b;
      }
      assert r * q * b == q * (r * b);
      TimesDivides(p, q, r * b);
      MulDivides(p, b);
      DividesSum(p, q * (r * b), s * b);
      PrimeDividesSmall(p, s, b);
    }
  }

  lemma TimesDivides(p: nat, q: nat, n: nat)
    requires p > 0 && Divides(p, n)
    ensures Divides(p, q * n)
  {
    DividesIff(p, n);
    var k: nat :| n == p * k;
    assert q * n == p * (q * k);
    MulDivides(p, q * k);
  }

  // A prime that divides a product divides a factor.
  lemma PrimeDividesProduct(p: nat, a: nat, b: nat)
    requires IsPrime(p) && Divides(p, a * b)
    ensures Divides(p, a) || Divides(p, b)
  {
    var q, r := a / p, a % p;
    DivFacts(p, a);
    if r > 0 {
      assert a * b == p * (q * b) + r * b by {
        assert (p * q + r) * b == p * q * b + r * b;
        assert p * q * b == p * (q * b);
      }
      MulDivides(p, q * b);
      DividesSum(p, p * (q * b), r * b);
      PrimeDividesSmall(p, r, b);
    }
  }

  // ---- Infinitely many primes ----

  function Factorial(n: nat): (f: nat)
    ensures f > 0
  {
    if n == 0 then 1 else n * Factorial(n - 1)
  }

  lemma {:induction false} DividesFactorial(d: nat, n: nat)
    requires 0 < d <= n
    ensures Divides(d, Factorial(n))
  {
    if d == n {
      MulDivides(n, Factorial(n - 1));
    } else {
      DividesFactorial(d, n - 1);
      TimesDivides(d, n, Factorial(n - 1));
    }
  }

  // Every number from 2 on has a prime factor.
  lemma {:induction false} PrimeFactor(n: nat) returns (p: nat)
    requires n >= 2
    ensures IsPrime(p) && p <= n && Divides(p, n)
  {
    if IsPrime(n) {
      p := n;
    } else {
      var d: nat :| 2 <= d < n && Divides(d, n);
      p := PrimeFactor(d);
      DivFacts(d, n);
      TimesDivides(p, n / d, d);
      assert n == (n / d) * d;
    }
  }

  // There is a prime from n on.
  lemma PrimeFrom(n: nat) returns (p: nat)
    ensures IsPrime(p) && p >= n
  {
    p := PrimeFactor(Factorial(n) + 1);
    if p < n {
      DividesFactorial(p, n);
      DividesSum(p, Factorial(n), 1);
      Small(p);
    }
  }

  lemma Small(p: nat)
    requires p >= 2
    ensures !Divides(p, 1)
  {}

  lemma TimesSmall(d: nat)
    ensures d * 0 == 0 && d * 1 == d && 0 * d == 0
  {}

  // A divisor pair has a member that is at most the square root.
  lemma SmallDivisor(n: nat, d: nat) returns (e: nat)
    requires 2 <= d < n && Divides(d, n)
    ensures 2 <= e < n && e * e <= n && Divides(e, n)
  {
    DivFacts(d, n);
    var k := n / d;
    assert n == d * k;
    TimesSmall(d);
    assert k >= 2;
    if d <= k {
      e := d;
      assert d * d <= d * k;
    } else {
      e := k;
      assert k * k <= d * k;
      assert n == k * d;
      MulDivides(k, d);
    }
  }

  // ---- The probe sequence ----

  const STEP := 123

  function Probe(h: nat, j: nat, m: nat): (r: nat)
    requires m > 0
    ensures r < m
  {
    (h + STEP * j) % m
  }

  // One step further.
  lemma ProbeNext(h: nat, j: nat, m: nat)
    requires m > 0
    ensures (Probe(h, j, m) + STEP) % m == Probe(h, j + 1, m)
  {
    var x := h + STEP * j;
    DivFacts(m, x);
    assert h + STEP * (j + 1) == x + STEP;
    MulDivides(m, x / m);
    assert x + STEP == m * (x / m) + (x % m + STEP);
    ModPlus(m, x / m, x % m + STEP);
  }

  lemma ModPlus(m: nat, q: nat, y: nat)
    requires m > 0
    ensures (m * q + y) % m == y % m
  {
    DivFacts(m, y);
    assert m * q + y == m * (q + y / m) + y % m by {
      assert m * (q + y / m) == m * q + m * (y / m);
    }
    Unique(m, q + y / m, y % m, m * q + y);
  }

  lemma DividesStep(m: nat)
    requires IsPrime(m) && Divides(m, STEP)
    ensures m == 3 || m == 41
  {
    DividesIff(m, STEP);
    assert STEP == 3 * 41;
    PrimeDividesProduct(m, 3, 41);
    if Divides(m, 3) {
      DividesIff(m, 3);
      var k: nat :| 3 == m * k;
      SmallProduct(m, k, 3);
    } else {
      DividesIff(m, 41);
      var k: nat :| 41 == m * k;
      SmallProduct(m, k, 41);
      Prime41(m);
    }
  }

  lemma SmallProduct(m: nat, k: nat, n: nat)
    requires n == m * k && n > 0
    ensures 0 < m <= n && 0 < k <= n
  {
    TimesSmall(m);
    TimesSmall(k);
    assert m > 0 && k > 0;
    MulGap(m, 0, k);
    MulGap(k, 0, m);
  }

  lemma Prime41(m: nat)
    requires 2 <= m <= 41 && Divides(m, 41)
    ensures m == 41
  {}

  // Two probes below m hit the same slot only if m is 3 or 41.
  lemma SameProbe(h: nat, i: nat, j: nat, m: nat)
    requires IsPrime(m) && i < j < m && Probe(h, i, m) == Probe(h, j, m)
    ensures m == 3 || m == 41
  {
    var x, y := h + STEP * i, h + STEP * j;
    DivFacts(m, x);
    DivFacts(m, y);
    QuotientGrows(m, x, y);
    var q := y / m - x / m;
    assert STEP * (j - i) == y - x == m * q by {
      assert m * (y / m) - m * (x / m) == m * q;
    }
    MulDivides(m, q);
    PrimeDividesProduct(m, STEP, j - i);
    SmallNotDivided(m, j - i);
    DividesStep(m);
  }

  lemma ProbesDiffer(h: nat, i: nat, j: nat, m: nat)
    requires IsPrime(m) && m != 3 && m != 41 && i < j < m
    ensures Probe(h, i, m) != Probe(h, j, m)
  {
    if Probe(h, i, m) == Probe(h, j, m) {
      SameProbe(h, i, j, m);
    }
  }

  lemma QuotientGrows(m: nat, x: nat, y: nat)
    requires m > 0 && x <= y
    ensures x / m <= y / m
  {
    DivFacts(m, x);
    DivFacts(m, y);
    if x / m > y / m {
      MulGap(m, y / m, x / m);
    }
  }

  lemma SmallNotDivided(m: nat, k: nat)
    requires 0 < k < m
    ensures !Divides(m, k)
  {}

  // Probing visits every slot before it comes back.
  lemma ProbesAll(h: nat, m: nat, slot: nat) returns (j: nat)
    requires IsPrime(m) && m != 3 && m != 41 && slot < m
    ensures j < m && Probe(h, j, m) == slot
  {
    var s: seq<nat> := seq(m, i requires 0 <= i < m => Probe(h, i, m));
    forall a, b | 0 <= a < b < |s|
      ensures s[a] != s[b]
    {
      ProbesDiffer(h, a, b, m);
    }
    Pigeonhole(s, m, slot);
    j :| 0 <= j < m && s[j] == slot;
  }

  // With a table of 3 or 41 slots every probe hits the first slot again.
  lemma ProbesStuck(h: nat, j: nat, m: nat)
    requires m == 3 || m == 41
    ensures Probe(h, j, m) == h % m
  {
    var k := STEP / m;
    assert STEP == m * k;
    assert h + STEP * j == m * (k * j) + h;
    ModPlus(m, k * j, h);
  }

  // One whole round of probes comes back to where it started.
  lemma ProbesReturn(h: nat, m: nat)
    requires m > 0
    ensures Probe(h, m, m) == Probe(h, 0, m) == h % m
  {
    var k: nat := STEP;
    assert h + STEP * m == m * k + h;
    ModPlus(m, k, h);
  }

  ghost predicate Visits(h: nat, m: nat, slot: nat)
    requires m > 0
  {
    exists j: nat :: j < m && Probe(h, j, m) == slot
  }

  // A prime size serves every slot exactly if it is neither 3 nor 41.
  lemma VisitsEverySlot(h: nat, m: nat)
    requires IsPrime(m)
    ensures (forall slot: nat :: slot < m ==> Visits(h, m, slot)) <==> m != 3 && m != 41
  {
    if m == 3 || m == 41 {
      var other := if h % m == 0 then 1 else 0;
      forall j: nat | j < m
        ensures Probe(h, j, m) != other
      {
        ProbesStuck(h, j, m);
      }
      assert !Visits(h, m, other);
    } else {
      forall slot: nat | slot < m
        ensures Visits(h, m, slot)
      {
        var j := ProbesAll(h, m, slot);
      }
    }
  }
}
