// Machine words. Single bits are all that the searches use of them.
module Words {
  import R = RawWords

  const BITS := 32

  datatype Word = Word(raw: bv32)

  const ZERO := Word(0)
  const ALL := Word(0xFFFFFFFF)

  const WORD := 0x100000000

  function WordOf(n: nat): Word
    requires n < WORD
  {
    Word(n as bv32)
  }

  function NumberOf(w: Word): (n: nat)
    ensures n < WORD
  {
    w.raw as nat
  }

  predicate BitAt(w: Word, i: nat)
    requires i < BITS
  {
    R.BitAt(w.raw, i)
  }

  function And(v: Word, w: Word): Word
  {
    Word(R.And(v.raw, w.raw))
  }

  function Or(v: Word, w: Word): Word
  {
    Word(R.Or(v.raw, w.raw))
  }

  function Xor(v: Word, w: Word): Word
  {
    Word(R.Xor(v.raw, w.raw))
  }

  function Not(w: Word): Word
  {
    Word(R.Not(w.raw))
  }

  // Shifts by n places.
  function Up(w: Word, n: nat): Word
  {
    Word(R.Up(w.raw, n))
  }

  function Down(w: Word, n: nat): Word
  {
    Word(R.Down(w.raw, n))
  }

  lemma BitAnd(v: Word, w: Word, i: nat)
    requires i < BITS
    ensures BitAt(And(v, w), i) <==> BitAt(v, i) && BitAt(w, i)
  {
    hide R.BitAt, R.And;
    R.BitAnd(v.raw, w.raw, i);
  }

  lemma BitOr(v: Word, w: Word, i: nat)
    requires i < BITS
    ensures BitAt(Or(v, w), i) <==> BitAt(v, i) || BitAt(w, i)
  {
    hide R.BitAt, R.Or;
    R.BitOr(v.raw, w.raw, i);
  }

  lemma BitXor(v: Word, w: Word, i: nat)
    requires i < BITS
    ensures BitAt(Xor(v, w), i) <==> BitAt(v, i) != BitAt(w, i)
  {
    hide R.BitAt, R.Xor;
    R.BitXor(v.raw, w.raw, i);
  }

  lemma BitNot(w: Word, i: nat)
    requires i < BITS
    ensures BitAt(Not(w), i) <==> !BitAt(w, i)
  {
    hide R.BitAt, R.Not;
    R.BitNot(w.raw, i);
  }

  lemma UpBit(w: Word, n: nat, i: nat)
    requires i < BITS
    ensures BitAt(Up(w, n), i) <==> i >= n && BitAt(w, i - n)
  {
    hide R.BitAt, R.Up;
    R.UpBit(w.raw, n, i);
  }

  lemma DownBit(w: Word, n: nat, i: nat)
    requires i < BITS
    ensures BitAt(Down(w, n), i) <==> i + n < BITS && BitAt(w, i + n)
  {
    hide R.BitAt, R.Down;
    R.DownBit(w.raw, n, i);
  }

  lemma BitsOfConstants(i: nat)
    requires i < BITS
    ensures !BitAt(ZERO, i) && BitAt(ALL, i)
  {
    hide R.BitAt;
    R.BitsOfZero(i);
  }

  lemma WordsEqual(v: Word, w: Word)
    requires forall i :: 0 <= i < BITS ==> (BitAt(v, i) <==> BitAt(w, i))
    ensures v == w
  {
    forall i | 0 <= i < BITS ensures R.BitAt(v.raw, i) <==> R.BitAt(w.raw, i) {
      assert BitAt(v, i) <==> BitAt(w, i);
    }
    hide R.BitAt;
    R.WordsEqual(v.raw, w.raw);
  }

  lemma ZeroWord(w: Word)
    ensures w == ZERO <==> forall i :: 0 <= i < BITS ==> !BitAt(w, i)
  {
    hide BitAt;
    forall i | 0 <= i < BITS ensures !BitAt(ZERO, i) {
      BitsOfConstants(i);
    }
    if forall i :: 0 <= i < BITS ==> !BitAt(w, i) {
      WordsEqual(w, ZERO);
    }
  }

  lemma FullWord(w: Word)
    ensures w == ALL <==> forall i :: 0 <= i < BITS ==> BitAt(w, i)
  {
    hide BitAt;
    forall i | 0 <= i < BITS ensures BitAt(ALL, i) {
      BitsOfConstants(i);
    }
    if forall i :: 0 <= i < BITS ==> BitAt(w, i) {
      WordsEqual(w, ALL);
    }
  }

  // ----- masks of low and of high bits -----

  // m has the bits below k, or the bits from k on.
  ghost predicate IsLow(m: Word, k: int)
  {
    forall i :: 0 <= i < BITS ==> (BitAt(m, i) <==> i < k)
  }

  ghost predicate IsHigh(m: Word, k: int)
  {
    forall i :: 0 <= i < BITS ==> (BitAt(m, i) <==> i >= k)
  }

  lemma LowMasks()
    ensures IsLow(Word(0xFFFF), 16) && IsLow(Word(0xFF), 8) && IsLow(Word(0xF), 4) && IsLow(Word(0x3), 2)
            && IsLow(Word(0x1), 1)
  {
    R.LowMasks();
    hide R.BitAt;
  }

  lemma HighMasks()
    ensures IsHigh(Word(0xFFFF0000), 16) && IsHigh(Word(0xFF000000), 24) && IsHigh(Word(0xF0000000), 28)
    ensures IsHigh(Word(0xC0000000), 30) && IsHigh(Word(0x80000000), 31)
  {
    R.HighMasks();
    hide R.BitAt;
  }

  lemma UpIsHigh(n: nat)
    ensures IsHigh(Up(ALL, n), n)
  {
    hide BitAt, Up;
    forall i | 0 <= i < BITS ensures BitAt(Up(ALL, n), i) <==> i >= n {
      UpBit(ALL, n, i);
      if i >= n {
        BitsOfConstants(i - n);
      }
    }
  }

  lemma DownIsLow(n: nat)
    ensures IsLow(Down(ALL, n), BITS - n)
  {
    hide BitAt, Down;
    forall i | 0 <= i < BITS ensures BitAt(Down(ALL, n), i) <==> i < BITS - n {
      DownBit(ALL, n, i);
      if i + n < BITS {
        BitsOfConstants(i + n);
      }
    }
  }

  lemma NoLowBits(w: Word, m: Word, k: int)
    requires IsLow(m, k)
    ensures And(w, m) == ZERO <==> forall i :: 0 <= i < k && i < BITS ==> !BitAt(w, i)
  {
    hide BitAt, And;
    var x := And(w, m);
    forall i | 0 <= i < BITS ensures BitAt(x, i) <==> BitAt(w, i) && i < k {
      BitAnd(w, m, i);
    }
    ZeroWord(x);
  }

  lemma NoHighBits(w: Word, m: Word, k: int)
    requires IsHigh(m, k)
    ensures And(w, m) == ZERO <==> forall i :: 0 <= i < BITS && i >= k ==> !BitAt(w, i)
  {
    hide BitAt, And;
    var x := And(w, m);
    forall i | 0 <= i < BITS ensures BitAt(x, i) <==> BitAt(w, i) && i >= k {
      BitAnd(w, m, i);
    }
    ZeroWord(x);
  }
}
