// Powers of two and the division facts that stand for shifts and masks.
module Powers {
  function Pow2(n: nat): (p: nat)
    ensures p > 0
  {
    if n == 0 then 1 else 2 * Pow2(n - 1)
  }

  lemma {:induction false} Pow2Add(m: nat, n: nat)
    ensures Pow2(m + n) == Pow2(m) * Pow2(n)
  {
    if m > 0 {
      Pow2Add(m - 1, n);
      calc {
        Pow2(m + n);
        2 * Pow2(m - 1 + n);
        2 * (Pow2(m - 1) * Pow2(n));
        (2 * Pow2(m - 1)) * Pow2(n);
      }
    }
  }

  lemma {:induction false} Pow2Monotone(m: nat, n: nat)
    requires m <= n
    ensures Pow2(m) <= Pow2(n)
  {
    if m < n {
      Pow2Monotone(m, n - 1);
    }
  }

  lemma PowerValues()
    ensures Pow2(1) == 2 && Pow2(11) == 2048 && Pow2(12) == 4096
    ensures Pow2(15) == 0x8000 && Pow2(20) == 0x100000 && Pow2(24) == 0x1000000 && Pow2(32) == 0x100000000
    ensures Pow2(29) == 0x20000000 && Pow2(30) == 0x40000000 && Pow2(31) == 0x80000000
  {
    hide Pow2;
    SmallPowers();
    Pow2Add(4, 4);
    Pow2Add(8, 3);
    Pow2Add(8, 4);
    Pow2Add(11, 4);
    Pow2Add(12, 8);
    Pow2Add(12, 12);
    Pow2Add(24, 8);
    Pow2Add(29, 3);
    Pow2Add(30, 2);
    Pow2Add(31, 1);
  }

  lemma SmallPowers()
    ensures Pow2(1) == 2 && Pow2(2) == 4 && Pow2(3) == 8 && Pow2(4) == 16
  {
  }

  // The numbers that m bytes can hold.
  function Base(m: nat): (b: nat)
    ensures b > 0
  {
    if m == 0 then 1 else 256 * Base(m - 1)
  }

  // A number cut to 32 bits and read as a signed one.
  function Signed(x: int): (r: int)
    ensures -0x80000000 <= r < 0x80000000
  {
    (x + 0x80000000) % 0x100000000 - 0x80000000
  }

  lemma SignedSmall(x: int)
    ensures Signed(x) == x <==> -0x80000000 <= x < 0x80000000
  {
  }

  lemma SignedSum(a: int, b: int)
    ensures Signed(Signed(a) + b) == Signed(a + b)
  {
  }

  lemma SignedDouble(a: int)
    ensures Signed(2 * Signed(a)) == Signed(2 * a)
  {
    hide Signed;
    SignedSum(a, a);
    SignedSum(a, Signed(a));
  }

  function Quotient(x: nat, d: nat): nat
    requires d > 0
  {
    x / d
  }

  function Remainder(x: nat, d: nat): (r: nat)
    requires d > 0
    ensures r < d
  {
    x % d
  }

  // Division with remainder has one result.
  lemma DivModUnique(a: int, q: int, d: int, r: int)
    requires 0 <= r < d && a == q * d + r
    ensures a / d == q && a % d == r
  {
    var q', r' := a / d, a % d;
    assert a == q' * d + r';
    if q > q' {
      MulAtLeast(q - q', d);
    } else if q < q' {
      MulAtLeast(q' - q, d);
    }
  }

  lemma DivModParts(a: int, d: int)
    requires d > 0
    ensures a == a / d * d + a % d && 0 <= a % d < d
  {
  }

  lemma SmallRemainder(x: nat, d: nat)
    requires d > 0
    ensures x < d ==> x % d == x
  {
  }

  lemma MulAtLeast(k: int, d: int)
    requires k >= 1 && d > 0
    ensures k * d >= d
  {
  }

  lemma MulMonotone(a: int, b: int, k: int)
    requires a <= b && k >= 0
    ensures a * k <= b * k
  {
  }

  lemma Triple(a: int, b: int, c: int)
    ensures a * (b * c) == a * b * c
  {
  }

  lemma Distribute(a: int, b: int, k: int)
    ensures (a + b) * k == a * k + b * k
  {
  }

  lemma DigitsBelow(high: int, low: int, m: int, n: int)
    requires 0 <= high < m && 0 <= low < n
    ensures high * n + low < m * n
  {
    MulMonotone(high + 1, m, n);
    Distribute(high, 1, n);
  }

  // A product that is only a name where its factors do not matter.
  function Product(a: nat, b: nat): nat
  {
    a * b
  }

  lemma MulCancel(a: int, b: int, k: int)
    requires a * k <= b * k && k > 0
    ensures a <= b
  {
    if a > b {
      MulMonotone(b + 1, a, k);
    }
  }

  lemma DivModBelow(a: nat, m: nat, n: nat)
    requires m > 0 && n > 0
    ensures m * n > 0 && a % (m * n) / m == a / m % n
  {
    MulAtLeast(n, m);
    var q, r := a / (m * n), a % (m * n);
    var q2, r2 := r / m, r % m;
    assert a == q * (m * n) + r && r == q2 * m + r2;
    if q2 >= n {
      MulMonotone(n, q2, m);
    }
    assert a == (q * n + q2) * m + r2;
    DivModUnique(a, q * n + q2, m, r2);
    DivModUnique(a / m, q, n, q2);
  }

  lemma DivDiv(a: nat, m: nat, n: nat)
    requires m > 0 && n > 0
    ensures m * n > 0 && a / m / n == a / (m * n)
  {
    MulAtLeast(n, m);
    var q, r := a / (m * n), a % (m * n);
    var q2, r2 := r / m, r % m;
    assert a == q * (m * n) + r && r == q2 * m + r2;
    if q2 >= n {
      MulMonotone(n, q2, m);
    }
    assert a == (q * n + q2) * m + r2;
    DivModUnique(a, q * n + q2, m, r2);
    DivModUnique(a / m, q, n, q2);
  }

  lemma ModOfMod(a: nat, m: nat, n: nat)
    requires m > 0 && n > 0
    ensures m * n > 0 && a % (m * n) % m == a % m
  {
    MulAtLeast(n, m);
    var q, r := a / (m * n), a % (m * n);
    var q2, r2 := r / m, r % m;
    assert a == q * (m * n) + r && r == q2 * m + r2;
    assert a == (q * n + q2) * m + r2;
    DivModUnique(a, q * n + q2, m, r2);
  }

  // A field of bits is not changed by cutting off the bits above it.
  lemma FieldOfTruncation(a: nat, c: nat, w: nat, t: nat)
    requires c + w <= t
    ensures a % Pow2(t) / Pow2(c) % Pow2(w) == a / Pow2(c) % Pow2(w)
  {
    hide Pow2;
    Pow2Add(c, t - c);
    Pow2Add(w, t - c - w);
    DivModBelow(a, Pow2(c), Pow2(t - c));
    ModOfMod(a / Pow2(c), Pow2(w), Pow2(t - c - w));
  }

  // Shifting a truncated number loses no more than truncating at the end.
  lemma TruncatedShift(a: nat, m: nat, k: nat, x: nat)
    requires m > 0
    ensures (a % m * k + x) % m == (a * k + x) % m
  {
    var q, r := a / m, a % m;
    assert a == q * m + r;
    var q', r' := (r * k + x) / m, (r * k + x) % m;
    assert r * k + x == q' * m + r';
    assert a * k + x == (q * k + q') * m + r';
    DivModUnique(a * k + x, q * k + q', m, r');
  }
}
