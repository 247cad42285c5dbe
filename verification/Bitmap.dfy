// Bit maps: setting and clearing a range of bits by words, and the search for a free area.
module Bitmap {
  import opened Words
  import opened FindBit
  import opened Powers
  import opened NatBits

  // After some words of the range are done, the bits from start up to pos have the value,
  // and the others are as before.
  ghost predicate Ranged(was: seq<Word>, now: seq<Word>, start: nat, pos: nat, value: bool)
  {
    |now| == |was| && forall i: nat :: i < BITS * |was| ==>
      Bit(now, i) == if start <= i < pos then value else Bit(was, i)
  }

  function Applied(w: Word, mask: Word, value: bool): Word
  {
    if value then Or(w, mask) else And(w, Not(mask))
  }

  lemma AppliedBit(w: Word, mask: Word, value: bool, i: nat)
    requires i < BITS
    ensures BitAt(Applied(w, mask, value), i) == if BitAt(mask, i) then value else BitAt(w, i)
  {
    hide BitAt, Or, And, Not;
    BitOr(w, mask, i);
    BitAnd(w, Not(mask), i);
    BitNot(mask, i);
  }

  // The mask has the bits of the word from low on and below high.
  ghost predicate Between(mask: Word, low: nat, high: nat)
  {
    forall i :: 0 <= i < BITS ==> (BitAt(mask, i) <==> low <= i < high)
  }

  lemma RangeStep(was: seq<Word>, now: seq<Word>, start: nat, pos: nat, value: bool, mask: Word, high: nat)
    requires Ranged(was, now, start, pos, value) && start <= pos < BITS * |was|
    requires pos % BITS <= high <= BITS && Between(mask, pos % BITS, high)
    ensures pos / BITS < |now|
    ensures Ranged(was, now[pos / BITS := Applied(now[pos / BITS], mask, value)], start, BITS * (pos / BITS) + high,
                   value)
  {
    hide BitAt, Applied;
    var p, pos' := pos / BITS, BITS * (pos / BITS) + high;
    var next := now[p := Applied(now[p], mask, value)];
    forall i: nat | i < BITS * |was| ensures Bit(next, i) == if start <= i < pos' then value else Bit(was, i) {
      assert Bit(now, i) == if start <= i < pos then value else Bit(was, i);
      if i / BITS == p {
        AppliedBit(now[p], mask, value, i % BITS);
      }
    }
  }

  lemma FirstMask(n: nat)
    requires n < BITS
    ensures Between(Up(ALL, n), n, BITS)
  {
    hide BitAt, Up;
    UpIsHigh(n);
  }

  lemma LastMask(mask: Word, low: nat, n: nat)
    requires Between(mask, low, BITS) && 0 < n < BITS
    ensures Between(And(mask, Down(ALL, BITS - n)), low, n)
  {
    hide BitAt, And, Down;
    DownIsLow(BITS - n);
    var down := Down(ALL, BITS - n);
    forall i | 0 <= i < BITS ensures BitAt(And(mask, down), i) <==> low <= i < n {
      BitAnd(mask, down, i);
    }
  }

  // Sets, or clears, exactly the bits from start on, len in number.
  method SetRange(words: array<Word>, start: nat, len: nat, value: bool)
    requires start + len <= BITS * words.Length
    modifies words
    ensures Ranged(old(words[..]), words[..], start, start + len, value)
  {
    hide BitAt, Applied, Between, Up, Down, And, Ranged;
    ghost var was := words[..];
    var p: nat := start / BITS;
    var size: nat := start + len;
    var n: int := len;
    var bits: int := BITS - start % BITS;
    var mask := Up(ALL, start % BITS);
    FirstMask(start % BITS);
    RangeStart(was, start, value);
    ghost var pos: nat := start;
    while n - bits >= 0
      invariant n >= 0 && pos + n == size && start <= pos && p == pos / BITS && bits == BITS - pos % BITS
      invariant Between(mask, pos % BITS, BITS) && Ranged(was, words[..], start, pos, value)
    {
      ghost var now := words[..];
      RangeStep(was, now, start, pos, value, mask, BITS);
      words[p] := Applied(words[p], mask, value);
      assert words[..] == now[p := Applied(now[p], mask, value)];
      n := n - bits;
      pos := pos + bits;
      bits := BITS;
      mask := ALL;
      p := p + 1;
      AllBetween();
    }
    if n != 0 {
      LastMask(mask, pos % BITS, size % BITS);
      mask := And(mask, Down(ALL, (BITS - size % BITS) % BITS));
      ghost var now := words[..];
      RangeStep(was, now, start, pos, value, mask, size % BITS);
      words[p] := Applied(words[p], mask, value);
      assert words[..] == now[p := Applied(now[p], mask, value)];
    }
  }

  lemma RangeStart(was: seq<Word>, start: nat, value: bool)
    ensures Ranged(was, was, start, start, value)
  {
  }

  lemma AllBetween()
    ensures Between(ALL, 0, BITS)
  {
    hide BitAt;
    forall i | 0 <= i < BITS ensures BitAt(ALL, i) {
      BitsOfConstants(i);
    }
  }

  method BitmapSet(words: array<Word>, start: nat, len: nat)
    requires start + len <= BITS * words.Length
    modifies words
    ensures Ranged(old(words[..]), words[..], start, start + len, true)
  {
    SetRange(words, start, len, true);
  }

  method BitmapClear(words: array<Word>, start: nat, len: nat)
    requires start + len <= BITS * words.Length
    modifies words
    ensures Ranged(old(words[..]), words[..], start, start + len, false)
  {
    SetRange(words, start, len, false);
  }

  // Clearing what has been set in an area that was clear restores the map.
  lemma ClearUndoesSet(s: seq<Word>, t: seq<Word>, u: seq<Word>, start: nat, end: nat)
    requires Ranged(s, t, start, end, true) && Ranged(t, u, start, end, false) && end <= BITS * |s|
    requires forall i: nat :: start <= i < end ==> !Bit(s, i)
    ensures u == s
  {
    hide BitAt;
    forall k | 0 <= k < |s| ensures u[k] == s[k] {
      forall j | 0 <= j < BITS ensures BitAt(u[k], j) <==> BitAt(s[k], j) {
        Place(k, j);
        assert Bit(u, BITS * k + j) == Bit(s, BITS * k + j);
      }
      WordsEqual(u[k], s[k]);
    }
  }

  // ----- the search for an area -----

  // x & ~m, digit by digit.
  function AndNot(x: nat, m: nat): (r: nat)
    ensures r <= x
  {
    if x == 0 then 0 else 2 * AndNot(x / 2, m / 2) + if m % 2 == 0 then x % 2 else 0
  }

  // The place has none of the mask's bits when it is shifted by the offset.
  predicate IsAligned(index: nat, mask: nat, offset: nat)
  {
    AndNot(index + offset, mask) == index + offset
  }

  // The mask is one less than a power of two.
  ghost predicate IsMask(mask: nat)
  {
    exists k: nat :: mask == Pow2(k) - 1
  }

  lemma {:induction false} AndNotTwice(x: nat, m: nat)
    ensures AndNot(AndNot(x, m), m) == AndNot(x, m) >= x - m
  {
    if x > 0 {
      AndNotTwice(x / 2, m / 2);
      var r := AndNot(x, m);
      assert r / 2 == AndNot(x / 2, m / 2) && r % 2 == if m % 2 == 0 then x % 2 else 0;
    }
  }

  lemma {:induction false} AndNotNothing(x: nat)
    ensures AndNot(x, 0) == x
  {
    if x > 0 {
      AndNotNothing(x / 2);
    }
  }

  // Masking with a power of two less one rounds down.
  lemma {:induction false} AndNotRounds(x: nat, k: nat)
    ensures AndNot(x, Pow2(k) - 1) == x - x % Pow2(k)
  {
    hide AndNot, Pow2;
    if k == 0 {
      OnePlace();
      AndNotNothing(x);
    } else {
      AndNotRounds(x / 2, k - 1);
      HalfOfRemainder(x, Pow2(k - 1));
      HalfMask(x, k);
    }
  }

  lemma OnePlace()
    ensures Pow2(0) == 1
  {
  }

  lemma HalfMask(x: nat, k: nat)
    requires k > 0
    ensures Pow2(k) == 2 * Pow2(k - 1)
    ensures AndNot(x, Pow2(k) - 1) == 2 * AndNot(x / 2, Pow2(k - 1) - 1)
  {
    var p := Pow2(k - 1);
    assert (2 * p - 1) / 2 == p - 1 && (2 * p - 1) % 2 == 1;
  }

  // An area of nr clear bits inside size, from index on, which is aligned when shifted.
  ghost predicate Area(s: seq<Word>, size: nat, nr: nat, mask: nat, offset: nat, index: nat)
    requires size <= BITS * |s|
  {
    index + nr <= size && IsAligned(index, mask, offset) && forall i: nat :: index <= i < index + nr ==> !Bit(s, i)
  }

  // An aligned place that is not below index.
  function Aligned(index: nat, mask: nat, offset: nat): int
  {
    AndNot(index + offset + mask, mask) - offset
  }

  function RoundUp(x: nat, align: nat): int
    requires align > 0
  {
    var y := x + (align - 1);
    y - y % align
  }

  lemma RoundUpLeast(x: nat, align: nat, g: nat)
    requires align > 0
    ensures RoundUp(x, align) >= x && RoundUp(x, align) % align == 0
    ensures g >= x && g % align == 0 ==> g >= RoundUp(x, align)
  {
    var y := x + (align - 1);
    var q, r := y / align, y % align;
    assert y == q * align + r;
    DivModUnique(y - r, q, align, 0);
    if g >= x && g % align == 0 {
      var m := g / align;
      assert g == m * align;
      NextMultiple(m, q, align);
      if m >= q {
        MulMonotone(q, m, align);
      }
    }
  }

  lemma NextMultiple(m: int, q: int, align: nat)
    ensures m < q ==> m * align + align <= q * align
  {
    if m < q {
      MulMonotone(m + 1, q, align);
    }
  }

  lemma AlignedAbove(index: nat, mask: nat, offset: nat)
    ensures Aligned(index, mask, offset) >= index && IsAligned(Aligned(index, mask, offset), mask, offset)
  {
    AndNotTwice(index + offset + mask, mask);
  }

  lemma AndNotOf(x: nat, bit: nat, m: nat)
    requires bit <= 1
    ensures AndNot(2 * x + bit, m) == 2 * AndNot(x, m / 2) + if m % 2 == 0 then bit else 0
  {
    assert (2 * x + bit) / 2 == x && (2 * x + bit) % 2 == bit;
    assert 2 * x + bit == 0 ==> AndNot(0, m / 2) == 0;
  }

  lemma {:induction false} AndNotSelf(m: nat)
    ensures AndNot(m, m) == 0
  {
    if m > 0 {
      AndNotSelf(m / 2);
    }
  }

  lemma MaskOfHalf(m: nat)
    ensures IsMask(0) && (IsMask(m) ==> IsMask(2 * m + 1))
  {
    OnePlace();
    assert 0 == Pow2(0) - 1;
    if IsMask(m) {
      var k: nat :| m == Pow2(k) - 1;
      assert 2 * m + 1 == Pow2(k + 1) - 1;
    }
  }

  // With any other mask some index is rounded past an aligned one.
  lemma {:induction false} AlignedMisses(mask: nat) returns (index: nat, g: nat)
    requires !IsMask(mask)
    ensures index <= g < Aligned(index, mask, 0) && IsAligned(g, mask, 0)
  {
    hide AndNot, IsMask;
    var half := mask / 2;
    MaskOfHalf(half);
    if mask % 2 == 1 {
      index, g := AlignedMisses(half);
      AndNotOf(index + half, 1, mask);
      AndNotOf(g, 0, mask);
      index, g := 2 * index, 2 * g;
    } else {
      AndNotSelf(half);
      AlignedAbove(half, half, 0);
      index, g := 2 * half + 1, 2 * Aligned(half, half, 0);
      AndNotOf(half + half, 1, mask);
      AndNotOf(Aligned(half, half, 0), 0, mask);
    }
  }

  // It is the least for every index and offset exactly when the mask is one less than a power
  // of two.
  lemma AlignedLeastExact(mask: nat)
    ensures IsMask(mask) <==>
              forall index: nat, offset: nat, g: nat :: g >= index && IsAligned(g, mask, offset) ==>
                g >= Aligned(index, mask, offset)
  {
    hide IsAligned, Aligned, IsMask;
    if IsMask(mask) {
      forall index: nat, offset: nat, g: nat | g >= index && IsAligned(g, mask, offset)
        ensures g >= Aligned(index, mask, offset)
      {
        AlignedLeast(index, mask, offset);
      }
    } else {
      var index, g := AlignedMisses(mask);
    }
  }

  // With a mask that is one less than a power of two it is the least.
  lemma AlignedLeast(index: nat, mask: nat, offset: nat)
    requires IsMask(mask)
    ensures forall g: nat :: g >= index && IsAligned(g, mask, offset) ==> g >= Aligned(index, mask, offset)
  {
    var k: nat :| mask == Pow2(k) - 1;
    hide RoundUp, AndNot, Pow2;
    AndNotRounds(index + offset + mask, k);
    RoundUpIs(index + offset, Pow2(k));
    forall g: nat | g >= index && IsAligned(g, mask, offset) ensures g >= Aligned(index, mask, offset) {
      AndNotRounds(g + offset, k);
      RoundUpLeast(index + offset, Pow2(k), g + offset);
    }
  }

  lemma RoundUpIs(x: nat, align: nat)
    requires align > 0
    ensures RoundUp(x, align) == x + (align - 1) - (x + (align - 1)) % align
  {
  }

  // An area from start on, or a result beyond size. With a mask that is one less than a power
  // of two it is the least area, and a result beyond size tells that there is none.
  method FindNextZeroArea(words: array<Word>, size: nat, start: nat, nr: nat, alignMask: nat, alignOffset: nat)
    returns (r: nat)
    requires size <= BITS * words.Length
    ensures nr > 0 && r + nr <= size ==> r >= start && Area(words[..], size, nr, alignMask, alignOffset, r)
    ensures nr > 0 && IsMask(alignMask) ==>
              forall g: nat :: g >= start && Area(words[..], size, nr, alignMask, alignOffset, g) ==> r <= g
    ensures nr > 0 && r + nr > size ==> r > size
  {
    hide Bit, Aligned, IsAligned, IsMask;
    ghost var s := words[..];
    var from := start;
    while true
      invariant from >= start
      invariant nr > 0 && IsMask(alignMask) ==>
                  forall g: nat :: g >= start && Area(s, size, nr, alignMask, alignOffset, g) ==> g >= from
      decreases size - from
    {
      var zero := FindNextZeroBit(words, size, from);
      AlignedAbove(zero, alignMask, alignOffset);
      var index := Aligned(zero, alignMask, alignOffset);
      if nr > 0 && IsMask(alignMask) {
        AlignedLeast(zero, alignMask, alignOffset);
        forall g: nat | g >= start && Area(s, size, nr, alignMask, alignOffset, g) ensures g >= index {
          assert !Bit(s, g);
          assert Wanted(s, [], false, true, g);
        }
      }
      var end := index + nr;
      if end > size {
        return end;
      }
      var i := FindNextBit(words, end, index);
      if i < end {
        assert Wanted(s, [], false, false, i);
        from := i + 1;
      } else {
        forall j: nat | index <= j < end ensures !Bit(s, j) {
          assert !Wanted(s, [], false, false, j);
        }
        return index;
      }
    }
  }
}
