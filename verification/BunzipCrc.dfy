// The checksum of the bzip2 decoder: the remainder of a division of polynomials, a byte at a
// time by table.
module BunzipCrc {
  import opened Bytes
  import opened Words
  import R = RawWords

  // ----- the checksum, as specified: one bit at a time -----

  const POLYNOMIAL: bv32 := 0x04c11db7
  const TOP: bv32 := 0x80000000

  // The next bit is carried out at the top.
  function RawShift(c: bv32): bv32
  {
    if R.Has(c, TOP) then R.Xor(R.Double(c), POLYNOMIAL) else R.Double(c)
  }

  function Shift(c: Word): Word
  {
    Word(RawShift(c.raw))
  }

  function Shifts(c: Word, n: nat): Word
    decreases n
  {
    if n == 0 then c else Shifts(Shift(c), n - 1)
  }

  // One byte, against the top of the register.
  function CrcByte(register: Word, x: byte): Word
  {
    Shifts(Xor(register, Up(WordOf(x), 24)), 8)
  }

  function CrcFrom(register: Word, s: seq<byte>): Word
    decreases |s|
  {
    if s == [] then register else CrcFrom(CrcByte(register, s[0]), s[1..])
  }

  function Crc(s: seq<byte>): Word
  {
    Not(CrcFrom(ALL, s))
  }

  // The checksum of a file, from those of its blocks.
  function Combined(total: Word, crc: Word): Word
  {
    Xor(Or(Up(total, 1), Down(total, 31)), crc)
  }

  // ----- a step is linear, and loses nothing -----

  lemma XorAssociates(a: bv32, b: bv32, c: bv32)
    ensures R.Xor(R.Xor(a, b), c) == R.Xor(a, R.Xor(b, c))
  {
  }

  lemma XorCommutes(a: bv32, b: bv32)
    ensures R.Xor(a, b) == R.Xor(b, a)
  {
  }

  lemma XorTwice(a: bv32, c: bv32)
    ensures R.Xor(R.Xor(a, c), c) == a
  {
  }

  lemma XorShifted(v: bv32, w: bv32)
    ensures R.Double(R.Xor(v, w)) == R.Xor(R.Double(v), R.Double(w))
  {
  }

  lemma XorTop(v: bv32, w: bv32)
    ensures R.Has(R.Xor(v, w), TOP) <==> R.Has(v, TOP) != R.Has(w, TOP)
  {
    R.HasXor(v, w, TOP);
  }

  lemma RawLinear(v: bv32, w: bv32)
    ensures RawShift(R.Xor(v, w)) == R.Xor(RawShift(v), RawShift(w))
  {
    hide R.Has, R.Xor, R.Double;
    XorShifted(v, w);
    XorTop(v, w);
    var a, b, p := R.Double(v), R.Double(w), POLYNOMIAL;
    XorAssociates(a, b, p);
    XorAssociates(a, p, b);
    XorCommutes(p, b);
    XorAssociates(R.Xor(a, p), b, p);
    XorTwice(R.Xor(a, b), p);
  }

  lemma DoubleInjective(v: bv32, w: bv32)
    requires R.Double(v) == R.Double(w) && (R.Has(v, TOP) <==> R.Has(w, TOP))
    ensures v == w
  {
  }

  // The polynomial is odd, so a shifted word tells whether it was added.
  lemma ShiftOdd(v: bv32)
    ensures !R.Has(R.Double(v), 1) && R.Has(R.Xor(R.Double(v), POLYNOMIAL), 1)
  {
  }

  lemma RawInjective(v: bv32, w: bv32)
    requires RawShift(v) == RawShift(w)
    ensures v == w
  {
    hide R.Has, R.Xor, R.Double;
    ShiftOdd(v);
    ShiftOdd(w);
    XorTwice(R.Double(v), POLYNOMIAL);
    XorTwice(R.Double(w), POLYNOMIAL);
    DoubleInjective(v, w);
  }

  lemma ShiftLinear(v: Word, w: Word)
    ensures Shift(Xor(v, w)) == Xor(Shift(v), Shift(w))
  {
    hide RawShift, R.Xor;
    RawLinear(v.raw, w.raw);
  }

  lemma ShiftInjective(v: Word, w: Word)
    requires Shift(v) == Shift(w)
    ensures v == w
  {
    hide RawShift;
    RawInjective(v.raw, w.raw);
  }

  lemma {:induction false} ShiftsLinear(v: Word, w: Word, n: nat)
    ensures Shifts(Xor(v, w), n) == Xor(Shifts(v, n), Shifts(w, n))
    decreases n
  {
    hide Shift, Xor;
    if n > 0 {
      ShiftLinear(v, w);
      ShiftsLinear(Shift(v), Shift(w), n - 1);
    }
  }

  lemma {:induction false} ShiftsInjective(v: Word, w: Word, n: nat)
    requires Shifts(v, n) == Shifts(w, n)
    ensures v == w
    decreases n
  {
    hide Shift;
    if n > 0 {
      ShiftsInjective(Shift(v), Shift(w), n - 1);
      ShiftInjective(v, w);
    }
  }

  // ----- the table -----

  // Entry i is what eight steps make of i in the top byte.
  function Entry(i: byte): Word
  {
    Shifts(Up(WordOf(i), 24), 8)
  }

  // The number of the entry for byte x.
  function IndexFor(register: Word, x: byte): (y: Word)
    ensures NumberOf(y) < 256
  {
    IndexBelow(register, x);
    Xor(Down(register, 24), WordOf(x))
  }

  lemma IndexBelow(register: Word, x: byte)
    ensures NumberOf(Xor(Down(register, 24), WordOf(x))) < 256
  {
    hide BitAt, Down, Xor, And, NumberOf;
    var y, low := Xor(Down(register, 24), WordOf(x)), Word(0xFF);
    LowMasks();
    forall i | 0 <= i < BITS ensures BitAt(And(y, low), i) <==> BitAt(y, i) {
      BitAnd(y, low, i);
      BitXor(Down(register, 24), WordOf(x), i);
      DownBit(register, 24, i);
      if i >= 8 {
        ByteBits(x, i);
      }
    }
    WordsEqual(And(y, low), y);
    BelowByte(y);
  }

  lemma BelowByte(w: Word)
    requires And(w, Word(0xFF)) == w
    ensures NumberOf(w) < 256
  {
    var raw := w.raw;
    assert raw & 0xFF == raw;
    assert raw < 256;
  }

  lemma WordOfNumber(w: Word)
    ensures WordOf(NumberOf(w)) == w
  {
    RawOfNumber(w.raw, NumberOf(w));
  }

  lemma RawOfNumber(w: bv32, n: nat)
    requires n == w as nat && n < WORD
    ensures n as bv32 == w
  {
  }

  // A step by the table.
  function TableStep(register: Word, x: byte): Word
  {
    Xor(Up(register, 8), Entry(NumberOf(IndexFor(register, x))))
  }

  lemma DownBitOf(w: Word, i: nat)
    requires i < BITS
    ensures BitAt(Up(Down(w, 24), 24), i) <==> i >= 24 && BitAt(w, i)
  {
    hide BitAt, Up, Down;
    UpBit(Down(w, 24), 24, i);
    if i >= 24 {
      DownBit(w, 24, i - 24);
    }
  }

  // The low bits of a register.
  function LowBits(register: Word): Word
  {
    Xor(register, Up(Down(register, 24), 24))
  }

  lemma LowBitsAt(register: Word, i: nat)
    requires i < BITS
    ensures BitAt(LowBits(register), i) <==> i < 24 && BitAt(register, i)
  {
    hide BitAt, Up, Down, Xor;
    DownBitOf(register, i);
    BitXor(register, Up(Down(register, 24), 24), i);
  }

  // A register taken in two: the index in the top byte, and the low bits.
  lemma TwoParts(register: Word, x: byte)
    ensures Xor(register, Up(WordOf(x), 24)) == Xor(Up(IndexFor(register, x), 24), LowBits(register))
  {
    hide BitAt, Up, Down, Xor, LowBits, WordOf, NumberOf;
    var b, y, low := WordOf(x), IndexFor(register, x), LowBits(register);
    forall i | 0 <= i < BITS
      ensures BitAt(Xor(register, Up(b, 24)), i) <==> BitAt(Xor(Up(y, 24), low), i)
    {
      BitXor(register, Up(b, 24), i);
      BitXor(Up(y, 24), low, i);
      UpBit(b, 24, i);
      UpBit(y, 24, i);
      LowBitsAt(register, i);
      if i >= 24 {
        BitXor(Down(register, 24), b, i - 24);
        DownBit(register, 24, i - 24);
      }
    }
    WordsEqual(Xor(register, Up(b, 24)), Xor(Up(y, 24), low));
  }

  lemma UpTwice(w: Word, n: nat)
    ensures Up(Up(w, 1), n) == Up(w, n + 1)
  {
    hide BitAt, Up;
    forall i | 0 <= i < BITS
      ensures BitAt(Up(Up(w, 1), n), i) <==> BitAt(Up(w, n + 1), i)
    {
      UpBit(Up(w, 1), n, i);
      UpBit(w, n + 1, i);
      if i >= n {
        UpBit(w, 1, i - n);
      }
    }
    WordsEqual(Up(Up(w, 1), n), Up(w, n + 1));
  }

  lemma ShiftBelow(c: Word)
    requires !BitAt(c, 31)
    ensures Shift(c) == Up(c, 1)
  {
    R.MaskSingle(31);
    hide R.Has, R.Double, R.Mask;
    assert R.Up(c.raw, 0) == c.raw;
  }

  ghost predicate ClearFrom(c: Word, k: int)
  {
    forall i :: 0 <= i < BITS && i >= k ==> !BitAt(c, i)
  }

  // Bits that are not carried out are only shifted.
  lemma {:induction false} OnlyShifted(c: Word, n: nat)
    requires n <= BITS && ClearFrom(c, BITS - n)
    ensures Shifts(c, n) == Up(c, n)
    decreases n
  {
    hide BitAt, Up, Shift;
    if n == 0 {
      UpNothing(c);
    } else {
      ShiftBelow(c);
      forall i | 0 <= i < BITS && i >= BITS - (n - 1) ensures !BitAt(Up(c, 1), i) {
        UpBit(c, 1, i);
      }
      OnlyShifted(Up(c, 1), n - 1);
      UpTwice(c, n - 1);
    }
  }

  lemma UpNothing(w: Word)
    ensures Up(w, 0) == w
  {
  }

  lemma LowShifted(register: Word)
    ensures Shifts(LowBits(register), 8) == Up(register, 8)
  {
    hide BitAt, Up, LowBits, Shifts;
    var low := LowBits(register);
    forall i | 0 <= i < BITS && i >= 24 ensures !BitAt(low, i) {
      LowBitsAt(register, i);
    }
    OnlyShifted(low, 8);
    forall i | 0 <= i < BITS ensures BitAt(Up(low, 8), i) <==> BitAt(Up(register, 8), i) {
      UpBit(low, 8, i);
      UpBit(register, 8, i);
      if i >= 8 {
        LowBitsAt(register, i - 8);
      }
    }
    WordsEqual(Up(low, 8), Up(register, 8));
  }

  lemma WordXorCommutes(v: Word, w: Word)
    ensures Xor(v, w) == Xor(w, v)
  {
    hide R.Xor;
    XorCommutes(v.raw, w.raw);
  }

  // The table takes eight steps at once.
  lemma TableStepIs(register: Word, x: byte)
    ensures TableStep(register, x) == CrcByte(register, x)
  {
    hide Up, Xor, Shifts, LowBits, WordOf, NumberOf, IndexFor;
    var y := IndexFor(register, x);
    TwoParts(register, x);
    ShiftsLinear(Up(y, 24), LowBits(register), 8);
    LowShifted(register);
    WordOfNumber(y);
    WordXorCommutes(Up(register, 8), Shifts(Up(y, 24), 8));
  }

  predicate IsTable(table: seq<Word>)
  {
    |table| == 256 && forall i: byte :: table[i] == Entry(i)
  }

  // The step as the decoder takes it.
  function LookUpStep(table: seq<Word>, register: Word, x: byte): (r: Word)
    requires IsTable(table)
    ensures r == TableStep(register, x)
  {
    hide Entry, IndexFor, NumberOf;
    Xor(Up(register, 8), table[NumberOf(IndexFor(register, x))])
  }

  // The table, built as the decoder builds it.
  method MakeTable() returns (table: seq<Word>)
    ensures IsTable(table)
  {
    hide Up, Shift, WordOf;
    table := [];
    while |table| < 256
      invariant |table| <= 256
      invariant forall i: byte :: i < |table| ==> table[i] == Entry(i)
      decreases 256 - |table|
    {
      var i: byte := |table|;
      var c := Up(WordOf(i), 24);
      var j := 8;
      while j > 0
        invariant 0 <= j <= 8 && Shifts(c, j) == Entry(i)
      {
        c := Shift(c);
        j := j - 1;
      }
      table := table + [c];
    }
  }

  // ----- what the checksum notices -----

  lemma {:induction false} CrcAppend(register: Word, s: seq<byte>, t: seq<byte>)
    ensures CrcFrom(register, s + t) == CrcFrom(CrcFrom(register, s), t)
    decreases |s|
  {
    hide CrcByte;
    if s == [] {
      assert s + t == t;
    } else {
      assert (s + t)[0] == s[0] && (s + t)[1..] == s[1..] + t;
      CrcAppend(CrcByte(register, s[0]), s[1..], t);
    }
  }

  lemma XorCancels(a: bv32, b: bv32, c: bv32)
    requires R.Xor(a, c) == R.Xor(b, c)
    ensures a == b
  {
    hide R.Xor;
    XorTwice(a, c);
    XorTwice(b, c);
  }

  // Registers that end alike after the same bytes were alike before,
  lemma {:induction false} CrcInjective(v: Word, w: Word, s: seq<byte>)
    requires CrcFrom(v, s) == CrcFrom(w, s)
    ensures v == w
    decreases |s|
  {
    hide R.Xor, Up, Shifts, WordOf;
    if s != [] {
      CrcInjective(CrcByte(v, s[0]), CrcByte(w, s[0]), s[1..]);
      var top := Up(WordOf(s[0]), 24);
      ShiftsInjective(Xor(v, top), Xor(w, top), 8);
      XorCancels(v.raw, w.raw, top.raw);
    }
  }

  lemma TopInjective(x: byte, y: byte)
    requires Up(WordOf(x), 24) == Up(WordOf(y), 24)
    ensures x == y
  {
    hide Up, BitAt;
    forall i | 0 <= i < BITS ensures BitAt(WordOf(x), i) <==> BitAt(WordOf(y), i) {
      if i < 8 {
        UpBit(WordOf(x), 24, i + 24);
        UpBit(WordOf(y), 24, i + 24);
      } else {
        ByteBits(x, i);
        ByteBits(y, i);
      }
    }
    WordsEqual(WordOf(x), WordOf(y));
    ByteInjective(x, y);
  }

  lemma ByteBits(x: byte, i: nat)
    requires 8 <= i < BITS
    ensures !BitAt(WordOf(x), i)
  {
    R.MaskValues();
    hide R.Mask;
    assert x as bv32 < 256;
    assert R.Mask(i) & 0xFF == 0;
  }

  // Bytes keep their number as words.
  lemma ByteInjective(x: byte, y: byte)
    requires WordOf(x) == WordOf(y)
    ensures x == y
  {
    EightBits(x);
    EightBits(y);
    EightBitsEqual(x as bv8, y as bv8);
  }

  lemma EightBits(x: byte)
    ensures (x as bv8) as int == x && (x as bv8) as bv32 == x as bv32
  {
  }

  lemma EightBitsEqual(a: bv8, b: bv8)
    requires a as bv32 == b as bv32
    ensures a == b
  {
  }

  // so a text with one byte changed has another checksum.
  lemma ChangeNoticed(s: seq<byte>, x: byte, y: byte, t: seq<byte>)
    requires Crc(s + [x] + t) == Crc(s + [y] + t)
    ensures x == y
  {
    hide CrcFrom, Not;
    var register := CrcFrom(ALL, s);
    NotInjective(CrcFrom(ALL, s + [x] + t), CrcFrom(ALL, s + [y] + t));
    CrcOne(s, x, t);
    CrcOne(s, y, t);
    CrcInjective(CrcByte(register, x), CrcByte(register, y), t);
    hide Up, Shifts, WordOf, R.Xor;
    var a, b := Up(WordOf(x), 24), Up(WordOf(y), 24);
    ShiftsInjective(Xor(register, a), Xor(register, b), 8);
    XorCommutes(register.raw, a.raw);
    XorCommutes(register.raw, b.raw);
    XorCancels(a.raw, b.raw, register.raw);
    TopInjective(x, y);
  }

  lemma CrcOne(s: seq<byte>, x: byte, t: seq<byte>)
    ensures CrcFrom(ALL, s + [x] + t) == CrcFrom(CrcByte(CrcFrom(ALL, s), x), t)
  {
    hide CrcByte;
    CrcAppend(ALL, s + [x], t);
    CrcAppend(ALL, s, [x]);
    assert [x][1..] == [];
  }

  lemma NotInjective(v: Word, w: Word)
    requires Not(v) == Not(w)
    ensures v == w
  {
  }

  // ----- the checksum of a file -----

  // The place that a turn by one brings to place i.
  function Before(i: nat): (j: nat)
    requires i < BITS
    ensures j < BITS
  {
    (i + 31) % BITS
  }

  // The total is turned by one place, and the block's checksum is added.
  lemma CombinedBit(total: Word, crc: Word, i: nat)
    requires i < BITS
    ensures BitAt(Combined(total, crc), i) <==> BitAt(total, Before(i)) != BitAt(crc, i)
  {
    hide BitAt, Up, Down, Or, Xor;
    BitXor(Or(Up(total, 1), Down(total, 31)), crc, i);
    BitOr(Up(total, 1), Down(total, 31), i);
    UpBit(total, 1, i);
    DownBit(total, 31, i);
  }

  // Neither the total nor the checksum added to it gets lost,
  lemma TotalNoticed(total: Word, total': Word, crc: Word)
    requires Combined(total, crc) == Combined(total', crc)
    ensures total == total'
  {
    hide BitAt, Combined;
    forall i | 0 <= i < BITS ensures BitAt(total, i) <==> BitAt(total', i) {
      var k := (i + 1) % BITS;
      assert Before(k) == i;
      CombinedBit(total, crc, k);
      CombinedBit(total', crc, k);
    }
    WordsEqual(total, total');
  }

  lemma PartNoticed(total: Word, crc: Word, crc': Word)
    requires Combined(total, crc) == Combined(total, crc')
    ensures crc == crc'
  {
    hide BitAt, Combined, Before;
    forall i | 0 <= i < BITS ensures BitAt(crc, i) <==> BitAt(crc', i) {
      CombinedBit(total, crc, i);
      CombinedBit(total, crc', i);
    }
    WordsEqual(crc, crc');
  }

  // and the order of two checksums matters unless they are equal or complements.
  lemma OrderNoticed(total: Word, a: Word, b: Word)
    ensures Combined(Combined(total, a), b) == Combined(Combined(total, b), a) <==> a == b || a == Not(b)
  {
    hide BitAt, Combined, Not, Before, Differ;
    var v, w := Combined(Combined(total, a), b), Combined(Combined(total, b), a);
    forall i | 0 <= i < BITS
      ensures (BitAt(v, i) <==> BitAt(w, i)) <==> Differ(a, b, Before(i)) == Differ(a, b, i)
    {
      OrderBit(total, a, b, i);
    }
    EqualOrComplement(a, b);
    if v == w {
      forall i | 0 < i < BITS ensures Differ(a, b, i) == Differ(a, b, i - 1) {
        BeforeIs(i);
        assert BitAt(v, i) <==> BitAt(w, i);
      }
      AllAlike(a, b, BITS - 1);
    }
    if a == b || a == Not(b) {
      forall i | 0 <= i < BITS ensures BitAt(v, i) <==> BitAt(w, i) {
        assert Differ(a, b, i) == Differ(a, b, Before(i));
      }
      WordsEqual(v, w);
    }
  }

  lemma BeforeIs(i: nat)
    requires 0 < i < BITS
    ensures Before(i) == i - 1
  {
  }

  lemma OrderBit(total: Word, a: Word, b: Word, i: nat)
    requires i < BITS
    ensures (BitAt(Combined(Combined(total, a), b), i) <==> BitAt(Combined(Combined(total, b), a), i))
       <==> Differ(a, b, Before(i)) == Differ(a, b, i)
  {
    hide BitAt, Combined, Before;
    CombinedBit(Combined(total, a), b, i);
    CombinedBit(Combined(total, b), a, i);
    CombinedBit(total, a, Before(i));
    CombinedBit(total, b, Before(i));
  }

  predicate Differ(a: Word, b: Word, i: nat)
    requires i < BITS
  {
    BitAt(a, i) != BitAt(b, i)
  }

  lemma {:induction false} AllAlike(a: Word, b: Word, k: nat)
    requires k < BITS && forall i :: 0 < i < BITS ==> Differ(a, b, i) == Differ(a, b, i - 1)
    ensures forall i :: 0 <= i <= k ==> Differ(a, b, i) == Differ(a, b, 0)
  {
    hide Differ;
    if k > 0 {
      AllAlike(a, b, k - 1);
      assert Differ(a, b, k) == Differ(a, b, k - 1);
    }
  }

  lemma EqualOrComplement(a: Word, b: Word)
    ensures a == b <==> forall i :: 0 <= i < BITS ==> !Differ(a, b, i)
    ensures a == Not(b) <==> forall i :: 0 <= i < BITS ==> Differ(a, b, i)
  {
    hide BitAt, Not;
    forall i | 0 <= i < BITS ensures Differ(a, b, i) <==> (BitAt(a, i) <==> BitAt(Not(b), i)) {
      BitNot(b, i);
    }
    if forall i :: 0 <= i < BITS ==> !Differ(a, b, i) {
      forall i | 0 <= i < BITS ensures BitAt(a, i) <==> BitAt(b, i) {
        assert !Differ(a, b, i);
      }
      WordsEqual(a, b);
    }
    if forall i :: 0 <= i < BITS ==> Differ(a, b, i) {
      forall i | 0 <= i < BITS ensures BitAt(a, i) <==> BitAt(Not(b), i) {
        assert Differ(a, b, i);
      }
      WordsEqual(a, Not(b));
    }
  }

  // The check value of this checksum: that of the digits from 1 to 9 as text.
  lemma CheckValue()
    ensures Crc([0x31, 0x32, 0x33, 0x34, 0x35, 0x36, 0x37, 0x38, 0x39]) == Word(0xFC891918)
  {
    hide CrcByte;
    FirstDigits();
    StepOf(0xBD9AB747, 0x36, 0x36000000, 0x9FA399C8, 0xD8F06C8F);
    StepOf(0xD8F06C8F, 0x37, 0x37000000, 0xC38868FA, 0x0D8A14C4);
    StepOf(0x0D8A14C4, 0x38, 0x38000000, 0x55E26A99, 0x49E3C2FB);
    StepOf(0x49E3C2FB, 0x39, 0x39000000, 0x107B7FB5, 0x0376E6E7);
  }

  lemma FirstDigits()
    ensures CrcByte(Word(0xFFFFFFFF), 0x31) == Word(0x9EFBCF93)
    ensures CrcByte(Word(0x9EFBCF93), 0x32) == Word(0x3FEC5E6A)
    ensures CrcByte(Word(0x3FEC5E6A), 0x33) == Word(0xD952F164)
    ensures CrcByte(Word(0xD952F164), 0x34) == Word(0xA695C4AA)
    ensures CrcByte(Word(0xA695C4AA), 0x35) == Word(0xBD9AB747)
  {
    hide CrcByte;
    StepOf(0xFFFFFFFF, 0x31, 0x31000000, 0xDAF36494, 0x9EFBCF93);
    StepOf(0x9EFBCF93, 0x32, 0x32000000, 0xE0362FE6, 0x3FEC5E6A);
    StepOf(0x3FEC5E6A, 0x33, 0x33000000, 0xCEC5E6A0, 0xD952F164);
    StepOf(0xD952F164, 0x34, 0x34000000, 0xE9A1B64A, 0xA695C4AA);
    StepOf(0xA695C4AA, 0x35, 0x35000000, 0x1B95BAAF, 0xBD9AB747);
  }

  // Eight shifts at once.
  lemma StepOf(register: bv32, x: byte, top: bv32, half: bv32, next: bv32)
    requires (x as bv32) << 24 == top && FourShifts(register ^ top) == half && FourShifts(half) == next
    ensures CrcByte(Word(register), x) == Word(next)
  {
    hide RawShift, Up;
    var c := Xor(Word(register), Up(WordOf(x), 24));
    TopByte(x);
    ShiftsFour(c, 8);
    ShiftsFour(Word(half), 4);
  }

  lemma TopByte(x: byte)
    ensures Up(WordOf(x), 24) == Word((x as bv32) << 24)
  {
    var w := x as bv32;
    R.UpFour(w, 4);
    R.UpFour(w, 8);
    R.UpFour(w, 12);
    R.UpFour(w, 16);
    R.UpFour(w, 20);
    R.UpFour(w, 24);
    hide R.Up;
    assert R.Up(w, 24) == w << 4 << 4 << 4 << 4 << 4 << 4;
    FourSixTimes(w);
  }

  lemma FourSixTimes(w: bv32)
    ensures w << 4 << 4 << 4 << 4 << 4 << 4 == w << 24
  {
  }

  function FourShifts(c: bv32): bv32
  {
    RawShift(RawShift(RawShift(RawShift(c))))
  }

  lemma ShiftsFour(c: Word, n: nat)
    requires n >= 4
    ensures Shifts(c, n) == Shifts(Word(FourShifts(c.raw)), n - 4)
  {
    hide RawShift;
    assert Shifts(c, n) == Shifts(Shift(Shift(c)), n - 2);
    assert Shifts(Shift(Shift(c)), n - 2) == Shifts(Shift(Shift(Shift(Shift(c)))), n - 4);
  }

  function PlusOne(w: Word): (r: Word)
    ensures r != w
  {
    Word(w.raw + 1)
  }
}
