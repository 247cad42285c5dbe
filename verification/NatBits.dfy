// The bits of natural numbers, and their sum without carry.
module NatBits {
  import opened Powers

  // Bit i of x.
  function BitOf(x: nat, i: nat): (b: nat)
    ensures b <= 1
    decreases i
  {
    if i == 0 then x % 2 else BitOf(x / 2, i - 1)
  }

  // Exclusive or.
  function Xor(x: nat, y: nat): nat
    decreases x + y
  {
    if x == 0 && y == 0 then 0 else 2 * Xor(x / 2, y / 2) + (x + y) % 2
  }

  lemma {:induction false} XorBit(x: nat, y: nat, i: nat)
    ensures BitOf(Xor(x, y), i) == (BitOf(x, i) + BitOf(y, i)) % 2
    decreases i
  {
    XorHalf(x, y);
    if i == 0 {
      SumOdd(x, y);
    } else {
      XorBit(x / 2, y / 2, i - 1);
    }
  }

  lemma XorHalf(x: nat, y: nat)
    ensures Xor(x, y) / 2 == Xor(x / 2, y / 2) && Xor(x, y) % 2 == (x + y) % 2
  {
    assert Xor(0, 0) == 0;
    TwiceAnd(Xor(x / 2, y / 2), (x + y) % 2);
  }

  lemma TwiceAnd(q: nat, b: nat)
    requires b <= 1
    ensures (2 * q + b) / 2 == q && (2 * q + b) % 2 == b
  {
  }

  lemma SumOdd(x: nat, y: nat)
    ensures (x + y) % 2 == (x % 2 + y % 2) % 2
  {
  }

  lemma {:induction false} XorZero(x: nat)
    ensures Xor(x, 0) == x
  {
    if x > 0 {
      XorZero(x / 2);
    }
  }

  // Small numbers change the low bits only.
  lemma {:induction false} XorLow(h: nat, x: nat, y: nat, n: nat)
    requires x < Pow2(n) && y < Pow2(n)
    ensures Xor(h * Pow2(n) + x, y) == h * Pow2(n) + Xor(x, y)
    decreases n
  {
    if n == 0 {
      XorZero(h);
    } else {
      hide Xor;
      var p := Pow2(n - 1);
      XorLow(h, x / 2, y / 2, n - 1);
      HalfHigh(h, x, p);
      XorHalf(h * Pow2(n) + x, y);
      XorHalf(x, y);
      SumAlike(h * Pow2(n) + x, x, y);
      FromHalves(Xor(h * Pow2(n) + x, y), h * p, Xor(x, y));
    }
  }

  lemma SumAlike(x: nat, x': nat, y: nat)
    requires x % 2 == x' % 2
    ensures (x + y) % 2 == (x' + y) % 2
  {
  }

  lemma FromHalves(a: nat, q: int, b: nat)
    requires a / 2 == q + b / 2 && a % 2 == b % 2
    ensures a == 2 * q + b
  {
  }

  lemma HalfHigh(h: nat, x: nat, p: nat)
    ensures h * (2 * p) + x >= 0 && h * p + x / 2 >= 0 && h * (2 * p) == 2 * (h * p)
    ensures (h * (2 * p) + x) / 2 == h * p + x / 2 && (h * (2 * p) + x) % 2 == x % 2
  {
    Triple(h, 2, p);
    Triple(2, h, p);
    TwiceMore(h * p, x);
  }

  lemma TwiceMore(q: int, x: int)
    ensures (2 * q + x) / 2 == q + x / 2 && (2 * q + x) % 2 == x % 2
  {
  }

  lemma {:induction false} BitOfZero(i: nat)
    ensures BitOf(0, i) == 0
  {
    if i > 0 {
      BitOfZero(i - 1);
    }
  }

  // The low bits of a number are its remainder.
  predicate SameBits(x: nat, y: nat, n: nat)
  {
    forall i :: 0 <= i < n ==> BitOf(x, i) == BitOf(y, i)
  }

  lemma {:induction false} RemainderBits(x: nat, y: nat, n: nat)
    ensures x % Pow2(n) == y % Pow2(n) <==> SameBits(x, y, n)
    decreases n
  {
    if n > 0 {
      RemainderBits(x / 2, y / 2, n - 1);
      SplitRemainder(x, y, Pow2(n - 1));
      BitsBelow(x, y, n);
    }
  }

  lemma BitsBelow(x: nat, y: nat, n: nat)
    requires n > 0
    ensures SameBits(x, y, n) <==> x % 2 == y % 2 && SameBits(x / 2, y / 2, n - 1)
  {
    if SameBits(x, y, n) {
      assert BitOf(x, 0) == BitOf(y, 0);
      forall i | 0 <= i < n - 1 ensures BitOf(x / 2, i) == BitOf(y / 2, i) {
        assert BitOf(x, i + 1) == BitOf(y, i + 1);
      }
    }
    if x % 2 == y % 2 && SameBits(x / 2, y / 2, n - 1) {
      forall i | 0 <= i < n ensures BitOf(x, i) == BitOf(y, i) {
        if i > 0 {
          assert BitOf(x / 2, i - 1) == BitOf(y / 2, i - 1);
        }
      }
    }
  }

  lemma SplitRemainder(x: nat, y: nat, p: nat)
    requires p > 0
    ensures x % (2 * p) == y % (2 * p) <==> x / 2 % p == y / 2 % p && x % 2 == y % 2
  {
    HalfOfRemainder(x, p);
    HalfOfRemainder(y, p);
  }

  lemma HalfOfRemainder(x: nat, p: nat)
    requires p > 0
    ensures x % (2 * p) == 2 * (x / 2 % p) + x % 2
  {
    var q, r := x / 2 / p, x / 2 % p;
    DivModParts(x / 2, p);
    Triple(2, q, p);
    Triple(q, 2, p);
    DivModUnique(x, q, 2 * p, 2 * r + x % 2);
  }
}
