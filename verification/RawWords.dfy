// The bits of 32-bit machine words under the word operations.
module RawWords {
  type Raw = bv32

  const BITS := 32
  const ALL: Raw := 0xFFFFFFFF

  // One place up, and one place down.
  function Double(w: Raw): Raw
  {
    w << 1
  }

  function Half(w: Raw): Raw
  {
    w >> 1
  }

  // The word with bit i alone.
  function Mask(i: nat): Raw
  {
    if i == 0 then 1 else Double(Mask(i - 1))
  }

  predicate Has(w: Raw, m: Raw)
  {
    w & m != 0
  }

  predicate BitAt(w: Raw, i: nat)
    requires i < BITS
  {
    Has(w, Mask(i))
  }

  function And(v: Raw, w: Raw): Raw
  {
    v & w
  }

  function Or(v: Raw, w: Raw): Raw
  {
    v | w
  }

  function Xor(v: Raw, w: Raw): Raw
  {
    v ^ w
  }

  function Not(w: Raw): Raw
  {
    !w
  }

  // ----- single bits of the word operations -----

  predicate Single(m: Raw)
  {
    m != 0 && m & (m - 1) == 0
  }

  lemma MaskValues()
    ensures Mask(0) == 0x1 && Mask(1) == 0x2 && Mask(2) == 0x4 && Mask(3) == 0x8
    ensures Mask(4) == 0x10 && Mask(5) == 0x20 && Mask(6) == 0x40 && Mask(7) == 0x80
    ensures Mask(8) == 0x100 && Mask(9) == 0x200 && Mask(10) == 0x400 && Mask(11) == 0x800
    ensures Mask(12) == 0x1000 && Mask(13) == 0x2000 && Mask(14) == 0x4000 && Mask(15) == 0x8000
    ensures Mask(16) == 0x10000 && Mask(17) == 0x20000 && Mask(18) == 0x40000 && Mask(19) == 0x80000
    ensures Mask(20) == 0x100000 && Mask(21) == 0x200000 && Mask(22) == 0x400000 && Mask(23) == 0x800000
    ensures Mask(24) == 0x1000000 && Mask(25) == 0x2000000 && Mask(26) == 0x4000000 && Mask(27) == 0x8000000
    ensures Mask(28) == 0x10000000 && Mask(29) == 0x20000000 && Mask(30) == 0x40000000 && Mask(31) == 0x80000000
  {
    assert Mask(0) == 0x1 && Mask(1) == 0x2 && Mask(2) == 0x4 && Mask(3) == 0x8;
    assert Mask(4) == 0x10 && Mask(5) == 0x20 && Mask(6) == 0x40 && Mask(7) == 0x80;
    assert Mask(8) == 0x100 && Mask(9) == 0x200 && Mask(10) == 0x400 && Mask(11) == 0x800;
    assert Mask(12) == 0x1000 && Mask(13) == 0x2000 && Mask(14) == 0x4000 && Mask(15) == 0x8000;
    assert Mask(16) == 0x10000 && Mask(17) == 0x20000 && Mask(18) == 0x40000 && Mask(19) == 0x80000;
    assert Mask(20) == 0x100000 && Mask(21) == 0x200000 && Mask(22) == 0x400000 && Mask(23) == 0x800000;
    assert Mask(24) == 0x1000000 && Mask(25) == 0x2000000 && Mask(26) == 0x4000000 && Mask(27) == 0x8000000;
    assert Mask(28) == 0x10000000 && Mask(29) == 0x20000000 && Mask(30) == 0x40000000 && Mask(31) == 0x80000000;
  }

  lemma MaskSingle(i: nat)
    requires i < BITS
    ensures Single(Mask(i))
    ensures i == 0 ==> Mask(i) == 1
    ensures i == 31 ==> Mask(i) == 0x80000000
  {
    MaskValues();
    hide Mask;
  }

  lemma MaskStep(i: nat)
    ensures Mask(i + 1) == Double(Mask(i))
  {
  }

  lemma HasAnd(v: Raw, w: Raw, m: Raw)
    requires Single(m)
    ensures Has(v & w, m) <==> Has(v, m) && Has(w, m)
  {
  }

  lemma HasOr(v: Raw, w: Raw, m: Raw)
    requires Single(m)
    ensures Has(v | w, m) <==> Has(v, m) || Has(w, m)
  {
    assert (v | w) & m == (v & m) | (w & m);
  }

  lemma HasXor(v: Raw, w: Raw, m: Raw)
    requires Single(m)
    ensures Has(v ^ w, m) <==> Has(v, m) != Has(w, m)
  {
  }

  lemma HasNot(w: Raw, m: Raw)
    requires Single(m)
    ensures Has(!w, m) <==> !Has(w, m)
  {
  }

  lemma BitAnd(v: Raw, w: Raw, i: nat)
    requires i < BITS
    ensures BitAt(And(v, w), i) <==> BitAt(v, i) && BitAt(w, i)
  {
    hide Mask, Has, Single;
    MaskSingle(i);
    HasAnd(v, w, Mask(i));
  }

  lemma BitOr(v: Raw, w: Raw, i: nat)
    requires i < BITS
    ensures BitAt(Or(v, w), i) <==> BitAt(v, i) || BitAt(w, i)
  {
    hide Mask, Has, Single;
    MaskSingle(i);
    HasOr(v, w, Mask(i));
  }

  lemma BitXor(v: Raw, w: Raw, i: nat)
    requires i < BITS
    ensures BitAt(Xor(v, w), i) <==> BitAt(v, i) != BitAt(w, i)
  {
    hide Mask, Has, Single;
    MaskSingle(i);
    HasXor(v, w, Mask(i));
  }

  lemma BitNot(w: Raw, i: nat)
    requires i < BITS
    ensures BitAt(Not(w), i) <==> !BitAt(w, i)
  {
    hide Mask, Has, Single;
    MaskSingle(i);
    HasNot(w, Mask(i));
  }

  lemma ShiftOps(w: Raw, m: Raw, n: Raw)
    requires Single(m) && Single(n) && n == Double(m)
    ensures Has(Double(w), n) <==> Has(w, m)
    ensures Has(Half(w), m) <==> Has(w, n)
  {
  }

  lemma ShiftEnds(w: Raw)
    ensures !Has(Double(w), 1) && !Has(Half(w), 0x80000000)
  {
  }

  lemma BitUp(w: Raw, i: nat)
    requires i < BITS
    ensures BitAt(Double(w), i) <==> i > 0 && BitAt(w, i - 1)
  {
    hide Mask, Has, Single, Double;
    MaskSingle(i);
    if i > 0 {
      MaskSingle(i - 1);
      MaskStep(i - 1);
      ShiftOps(w, Mask(i - 1), Mask(i));
    } else {
      ShiftEnds(w);
    }
  }

  lemma BitDown(w: Raw, i: nat)
    requires i < BITS
    ensures BitAt(Half(w), i) <==> i + 1 < BITS && BitAt(w, i + 1)
  {
    hide Mask, Has, Single, Double, Half;
    MaskSingle(i);
    if i + 1 < BITS {
      MaskSingle(i + 1);
      MaskStep(i);
      ShiftOps(w, Mask(i), Mask(i + 1));
    } else {
      ShiftEnds(w);
    }
  }

  ghost predicate NoBits(w: Raw)
  {
    forall i :: 0 <= i < BITS ==> !BitAt(w, i)
  }

  lemma ZeroWord(w: Raw)
    ensures w == 0 <==> NoBits(w)
  {
    MaskValues();
    hide Mask;
    if NoBits(w) {
      assert !BitAt(w, 0);
      assert !BitAt(w, 1);
      assert !BitAt(w, 2);
      assert !BitAt(w, 3);
      assert !BitAt(w, 4);
      assert !BitAt(w, 5);
      assert !BitAt(w, 6);
      assert !BitAt(w, 7);
      assert !BitAt(w, 8);
      assert !BitAt(w, 9);
      assert !BitAt(w, 10);
      assert !BitAt(w, 11);
      assert !BitAt(w, 12);
      assert !BitAt(w, 13);
      assert !BitAt(w, 14);
      assert !BitAt(w, 15);
      assert !BitAt(w, 16);
      assert !BitAt(w, 17);
      assert !BitAt(w, 18);
      assert !BitAt(w, 19);
      assert !BitAt(w, 20);
      assert !BitAt(w, 21);
      assert !BitAt(w, 22);
      assert !BitAt(w, 23);
      assert !BitAt(w, 24);
      assert !BitAt(w, 25);
      assert !BitAt(w, 26);
      assert !BitAt(w, 27);
      assert !BitAt(w, 28);
      assert !BitAt(w, 29);
      assert !BitAt(w, 30);
      assert !BitAt(w, 31);
    }
  }

  lemma BitsOfZero(i: nat)
    requires i < BITS
    ensures !BitAt(0, i) && BitAt(ALL, i)
  {
    MaskSingle(i);
    BitNot(0, i);
  }

  // Words with the same bits are equal.
  lemma WordsEqual(v: Raw, w: Raw)
    requires forall i :: 0 <= i < BITS ==> (BitAt(v, i) <==> BitAt(w, i))
    ensures v == w
  {
    var x := Xor(v, w);
    assert x == 0 ==> v == w;
    hide Xor, BitAt;
    forall i | 0 <= i < BITS ensures !BitAt(x, i) {
      BitXor(v, w, i);
    }
    ZeroWord(x);
  }

  // ----- shifts -----

  function Up(w: Raw, n: nat): Raw
  {
    if n == 0 then w else Double(Up(w, n - 1))
  }

  function Down(w: Raw, n: nat): Raw
  {
    if n == 0 then w else Half(Down(w, n - 1))
  }

  lemma {:induction false} UpBit(w: Raw, n: nat, i: nat)
    requires i < BITS
    ensures BitAt(Up(w, n), i) <==> i >= n && BitAt(w, i - n)
  {
    hide BitAt, Double;
    if n > 0 {
      BitUp(Up(w, n - 1), i);
      if i > 0 {
        UpBit(w, n - 1, i - 1);
      }
    }
  }

  lemma {:induction false} DownBit(w: Raw, n: nat, i: nat)
    requires i < BITS
    ensures BitAt(Down(w, n), i) <==> i + n < BITS && BitAt(w, i + n)
  {
    hide BitAt, Half;
    if n > 0 {
      BitDown(Down(w, n - 1), i);
      if i + 1 < BITS {
        DownBit(w, n - 1, i + 1);
      }
    }
  }

  // Four places at once.
  lemma UpFour(w: Raw, n: nat)
    requires n >= 4
    ensures Up(w, 0) == w && Up(w, n) == Up(w, n - 4) << 4
  {
    hide Double, Up;
    UpOne(w, n);
    UpOne(w, n - 1);
    UpOne(w, n - 2);
    UpOne(w, n - 3);
    FourDoubles(Up(w, n - 4));
  }

  lemma UpOne(w: Raw, n: nat)
    requires n > 0
    ensures Up(w, n) == Double(Up(w, n - 1)) && Up(w, 0) == w
  {
    hide Double;
  }

  lemma FourDoubles(v: Raw)
    ensures Double(Double(Double(Double(v)))) == v << 4
  {
  }

  lemma DownFour(w: Raw, n: nat)
    requires n >= 4
    ensures Down(w, 0) == w && Down(w, n) == Down(w, n - 4) >> 4
  {
    hide Half, Down;
    DownOne(w, n);
    DownOne(w, n - 1);
    DownOne(w, n - 2);
    DownOne(w, n - 3);
    FourHalves(Down(w, n - 4));
  }

  lemma DownOne(w: Raw, n: nat)
    requires n > 0
    ensures Down(w, n) == Half(Down(w, n - 1)) && Down(w, 0) == w
  {
    hide Half;
  }

  lemma FourHalves(v: Raw)
    ensures Half(Half(Half(Half(v)))) == v >> 4
  {
  }

  // ----- masks of low and of high bits -----

  // m has the bits below k, or the bits from k on.
  ghost predicate IsLow(m: Raw, k: nat)
  {
    forall i :: 0 <= i < BITS ==> (BitAt(m, i) <==> i < k)
  }

  ghost predicate IsHigh(m: Raw, k: nat)
  {
    forall i :: 0 <= i < BITS ==> (BitAt(m, i) <==> i >= k)
  }

  lemma LowMasks()
    ensures IsLow(0xFFFF, 16) && IsLow(0xFF, 8) && IsLow(0xF, 4) && IsLow(0x3, 2) && IsLow(0x1, 1)
  {
    MaskValues();
    hide Mask;
  }

  lemma HighMasks()
    ensures IsHigh(0xFFFF0000, 16) && IsHigh(0xFF000000, 24) && IsHigh(0xF0000000, 28) && IsHigh(0xC0000000, 30)
            && IsHigh(0x80000000, 31)
  {
    MaskValues();
    hide Mask;
  }
}
