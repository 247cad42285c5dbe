// Searching a bit map by words: each search is proved to find what looking at the bits
// one by one would find.
module FindBit {
  import opened Words

  // ----- the lowest and the highest bit of a word -----

  predicate MovedBit(w0: Word, w: Word, num: nat, i: nat)
    requires i < BITS
  {
    BitAt(w, i) <==> i + num < BITS && BitAt(w0, i + num)
  }

  // w holds the bits of w0 from num on, and w0 has none below.
  ghost predicate Moved(w0: Word, w: Word, num: nat)
  {
    && (forall i :: 0 <= i < BITS ==> MovedBit(w0, w, num, i))
    && (forall i :: 0 <= i < num && i < BITS ==> !BitAt(w0, i))
  }

  ghost predicate SomeBelow(w: Word, k: nat)
  {
    exists i :: 0 <= i < k && i < BITS && BitAt(w, i)
  }

  lemma MoveDown(w0: Word, w: Word, num: nat, k: nat, m: Word)
    requires Moved(w0, w, num) && IsLow(m, k) && 0 < k <= BITS / 2 && SomeBelow(w, 2 * k)
    ensures And(w, m) != ZERO ==> SomeBelow(w, k)
    ensures And(w, m) == ZERO ==> Moved(w0, Down(w, k), num + k) && SomeBelow(Down(w, k), k)
  {
    hide BitAt, Down, And;
    NoLowBits(w, m, k);
    var d, next := Down(w, k), num + k;
    forall i | 0 <= i < BITS ensures MovedBit(w0, d, next, i) && MovedBit(w, d, k, i) {
      DownBit(w, k, i);
      if i + k < BITS {
        assert MovedBit(w0, w, num, i + k);
      }
    }
    if And(w, m) == ZERO {
      forall i | 0 <= i < num + k && i < BITS ensures !BitAt(w0, i) {
        if i >= num {
          assert MovedBit(w0, w, num, i - num);
        }
      }
      assert Moved(w0, d, next);
      var j :| 0 <= j < 2 * k && j < BITS && BitAt(w, j);
      assert MovedBit(w, d, k, j - k);
      assert BitAt(d, j - k);
    }
  }

  ghost predicate Lowest(w: Word, n: nat)
  {
    n < BITS && BitAt(w, n) && forall i :: 0 <= i < n ==> !BitAt(w, i)
  }

  ghost predicate Highest(w: Word, n: nat)
  {
    n < BITS && BitAt(w, n) && forall i :: n < i < BITS ==> !BitAt(w, i)
  }

  method Ffs(word: Word) returns (num: nat)
    ensures word != ZERO ==> Lowest(word, num)
  {
    hide Moved, SomeBelow, BitAt, IsLow, And, Down, Lowest;
    var w := word;
    num := 0;
    LowMasks();
    MoveStart(word);
    ghost var some := word != ZERO;
    if some { MoveDown(word, w, num, 16, Word(0xFFFF)); }
    if And(w, Word(0xFFFF)) == ZERO {
      num, w := num + 16, Down(w, 16);
    }
    if some { MoveDown(word, w, num, 8, Word(0xFF)); }
    if And(w, Word(0xFF)) == ZERO {
      num, w := num + 8, Down(w, 8);
    }
    if some { MoveDown(word, w, num, 4, Word(0xF)); }
    if And(w, Word(0xF)) == ZERO {
      num, w := num + 4, Down(w, 4);
    }
    if some { MoveDown(word, w, num, 2, Word(0x3)); }
    if And(w, Word(0x3)) == ZERO {
      num, w := num + 2, Down(w, 2);
    }
    if some {
      MoveDown(word, w, num, 1, Word(0x1));
      MoveDone(word, w, num);
    }
    if And(w, Word(0x1)) == ZERO {
      if some {
        MoveDone(word, Down(w, 1), num + 1);
      }
      num := num + 1;
    }
  }

  lemma MoveStart(w: Word)
    ensures Moved(w, w, 0) && (w != ZERO ==> SomeBelow(w, BITS))
  {
    hide BitAt;
    ZeroWord(w);
  }

  lemma MoveDone(w0: Word, w: Word, num: nat)
    requires Moved(w0, w, num)
    ensures SomeBelow(w, 1) ==> Lowest(w0, num)
  {
    hide BitAt;
    if SomeBelow(w, 1) {
      assert BitAt(w, 0) && MovedBit(w0, w, num, 0);
    }
  }

  predicate RaisedBit(w0: Word, w: Word, places: nat, i: nat)
    requires i < BITS
  {
    BitAt(w, i) <==> i >= places && BitAt(w0, i - places)
  }

  ghost predicate AllRaised(w0: Word, w: Word, places: nat)
  {
    forall i :: 0 <= i < BITS ==> RaisedBit(w0, w, places, i)
  }

  // w holds the bits of w0 up to num, moved to the top, and w0 has none above.
  ghost predicate Raised(w0: Word, w: Word, num: int)
  {
    && num < BITS
    && AllRaised(w0, w, BITS - 1 - num)
    && (forall i :: 0 <= i < BITS && i > num ==> !BitAt(w0, i))
  }

  ghost predicate SomeFrom(w: Word, k: int)
  {
    exists i :: 0 <= i < BITS && i >= k && BitAt(w, i)
  }

  lemma MoveUp(w0: Word, w: Word, num: int, k: nat, m: Word)
    requires Raised(w0, w, num) && IsHigh(m, BITS - k) && 0 < k <= BITS / 2 && SomeFrom(w, BITS - 2 * k)
    ensures And(w, m) != ZERO ==> SomeFrom(w, BITS - k)
    ensures And(w, m) == ZERO ==> Raised(w0, Up(w, k), num - k) && SomeFrom(Up(w, k), BITS - k)
  {
    hide BitAt, Up, And;
    NoHighBits(w, m, BITS - k);
    var d, places := Up(w, k), BITS - 1 - num;
    var next := places + k;
    forall i | 0 <= i < BITS ensures RaisedBit(w0, d, next, i) && RaisedBit(w, d, k, i) {
      UpBit(w, k, i);
      if i >= k {
        assert RaisedBit(w0, w, places, i - k);
      }
    }
    if And(w, m) == ZERO {
      forall i | 0 <= i < BITS && i > num - k ensures !BitAt(w0, i) {
        if i <= num {
          assert RaisedBit(w0, w, places, i + places);
        }
      }
      assert AllRaised(w0, d, next);
      assert Raised(w0, d, num - k);
      var j :| 0 <= j < BITS && j >= BITS - 2 * k && BitAt(w, j);
      assert RaisedBit(w, d, k, j + k);
      assert BitAt(d, j + k);
    }
  }

  method Fls(word: Word) returns (num: int)
    ensures word != ZERO ==> num >= 0 && Highest(word, num)
  {
    hide Raised, SomeFrom, BitAt, IsHigh, And, Up, Highest;
    var w := word;
    num := BITS - 1;
    HighMasks();
    RaiseStart(word);
    ghost var some := word != ZERO;
    if some { MoveUp(word, w, num, 16, Word(0xFFFF0000)); }
    if And(w, Word(0xFFFF0000)) == ZERO {
      num, w := num - 16, Up(w, 16);
    }
    if some { MoveUp(word, w, num, 8, Word(0xFF000000)); }
    if And(w, Word(0xFF000000)) == ZERO {
      num, w := num - 8, Up(w, 8);
    }
    if some { MoveUp(word, w, num, 4, Word(0xF0000000)); }
    if And(w, Word(0xF0000000)) == ZERO {
      num, w := num - 4, Up(w, 4);
    }
    if some { MoveUp(word, w, num, 2, Word(0xC0000000)); }
    if And(w, Word(0xC0000000)) == ZERO {
      num, w := num - 2, Up(w, 2);
    }
    if some {
      MoveUp(word, w, num, 1, Word(0x80000000));
      RaiseDone(word, w, num);
    }
    if And(w, Word(0x80000000)) == ZERO {
      if some {
        RaiseDone(word, Up(w, 1), num - 1);
      }
      num := num - 1;
    }
  }

  lemma RaiseStart(w: Word)
    ensures Raised(w, w, BITS - 1) && (w != ZERO ==> SomeFrom(w, 0))
  {
    hide BitAt;
    ZeroWord(w);
  }

  lemma RaiseDone(w0: Word, w: Word, num: int)
    requires Raised(w0, w, num)
    ensures SomeFrom(w, BITS - 1) ==> num >= 0 && Highest(w0, num)
  {
    hide BitAt;
    if SomeFrom(w, BITS - 1) {
      assert BitAt(w, BITS - 1) && RaisedBit(w0, w, BITS - 1 - num, BITS - 1);
    }
  }

  // ----- bit maps -----

  function Bit(s: seq<Word>, i: nat): bool
    requires i < BITS * |s|
  {
    BitAt(s[i / BITS], i % BITS)
  }

  // What the search looks at: the bits of one map, or of two, perhaps inverted.
  predicate Wanted(s: seq<Word>, t: seq<Word>, both: bool, invert: bool, i: nat)
    requires i < BITS * |s| && (both ==> i < BITS * |t|)
  {
    (Bit(s, i) && (both ==> Bit(t, i))) != invert
  }

  // The first wanted place from start on, or nbits.
  ghost predicate FirstWanted(s: seq<Word>, t: seq<Word>, both: bool, invert: bool, nbits: nat, start: nat, r: nat)
    requires nbits <= BITS * |s| && (both ==> nbits <= BITS * |t|)
  {
    if start >= nbits then r == nbits
    else
      && start <= r <= nbits && (r < nbits ==> Wanted(s, t, both, invert, r))
      && forall i :: start <= i < r ==> !Wanted(s, t, both, invert, i)
  }

  // One word of what is wanted.
  function WantedWord(v: Word, w: Word, both: bool, invert: Word): Word
  {
    Xor(if both then And(v, w) else v, invert)
  }

  lemma WantedBit(v: Word, w: Word, both: bool, invert: bool, i: nat)
    requires i < BITS
    ensures BitAt(WantedWord(v, w, both, if invert then ALL else ZERO), i) <==>
              (BitAt(v, i) && (both ==> BitAt(w, i))) != invert
  {
    hide BitAt, And, Xor;
    BitAnd(v, w, i);
    BitXor(if both then And(v, w) else v, if invert then ALL else ZERO, i);
    BitsOfConstants(i);
  }

  // ----- the searches -----

  // No wanted place in a word from a bit on, or the first one.
  lemma WordSearched(s: seq<Word>, t: seq<Word>, both: bool, invert: bool, k: nat, tmp: Word, from: nat)
    requires k < |s| && (both ==> k < |t|) && from < BITS
    requires tmp == And(WantedWord(s[k], if both then t[k] else ZERO, both, if invert then ALL else ZERO),
                        Up(ALL, from))
    ensures tmp == ZERO ==> forall i: nat :: BITS * k + from <= i < BITS * (k + 1) ==> !Wanted(s, t, both, invert, i)
    ensures forall n: nat :: Lowest(tmp, n) ==> from <= n && Wanted(s, t, both, invert, BITS * k + n)
    ensures forall n: nat :: Lowest(tmp, n) ==> forall i: nat :: BITS * k + from <= i < BITS * k + n ==>
              !Wanted(s, t, both, invert, i)
  {
    hide BitAt, And, Up, WantedWord;
    var high, word := Up(ALL, from), WantedWord(s[k], if both then t[k] else ZERO, both, if invert then ALL else ZERO);
    UpIsHigh(from);
    ZeroWord(tmp);
    forall j | 0 <= j < BITS ensures BitAt(tmp, j) <==> j >= from && Wanted(s, t, both, invert, BITS * k + j) {
      BitAnd(word, high, j);
      WantedBit(s[k], if both then t[k] else ZERO, both, invert, j);
      Place(k, j);
    }
    forall i: nat | BITS * k + from <= i < BITS * (k + 1)
      ensures Wanted(s, t, both, invert, i) <==> BitAt(tmp, i - BITS * k)
    {
      assert BITS * k + (i - BITS * k) == i;
    }
  }

  lemma Place(k: nat, j: nat)
    requires j < BITS
    ensures (BITS * k + j) / BITS == k && (BITS * k + j) % BITS == j
  {
  }

  method FindNext(addr1: array<Word>, addr2: array?<Word>, nbits: nat, start: nat, invert: bool) returns (r: nat)
    requires nbits <= BITS * addr1.Length && (addr2 != null ==> nbits <= BITS * addr2.Length)
    ensures FirstWanted(addr1[..], if addr2 != null then addr2[..] else [], addr2 != null, invert, nbits, start, r)
  {
    hide BitAt, And, Up, Down, Xor, WantedWord, Wanted, Lowest, Or, Not;
    if start >= nbits {
      return nbits;
    }
    ghost var s, t, both := addr1[..], if addr2 != null then addr2[..] else [], addr2 != null;
    var inverted := if invert then ALL else ZERO;
    var at: nat := start / BITS;
    var from: nat := start % BITS;
    var tmp := WantedWord(addr1[at], if addr2 != null then addr2[at] else ZERO, addr2 != null, inverted);
    ghost var word := tmp;
    tmp := And(tmp, Up(ALL, from));
    WordSearched(s, t, both, invert, at, tmp, from);
    var pos: nat := start - from;
    while tmp == ZERO
      invariant pos == BITS * at < nbits && pos <= pos + from && start <= pos + from && from < BITS
      invariant tmp == And(WantedWord(s[at], if both then t[at] else ZERO, both, inverted), Up(ALL, from))
      invariant forall i: nat :: start <= i < pos + from ==> !Wanted(s, t, both, invert, i)
      decreases nbits - pos
    {
      WordSearched(s, t, both, invert, at, tmp, from);
      pos := pos + BITS;
      at, from := at + 1, 0;
      if pos >= nbits {
        return nbits;
      }
      tmp := WantedWord(addr1[at], if addr2 != null then addr2[at] else ZERO, addr2 != null, inverted);
      WholeWord(tmp);
    }
    WordSearched(s, t, both, invert, at, tmp, from);
    var bit := Ffs(tmp);
    LowestFits(tmp, bit);
    r := if pos + bit < nbits then pos + bit else nbits;
  }

  lemma WholeWord(w: Word)
    ensures And(w, Up(ALL, 0)) == w
  {
    hide BitAt, And, Up;
    var x := And(w, Up(ALL, 0));
    UpIsHigh(0);
    forall i | 0 <= i < BITS ensures BitAt(x, i) <==> BitAt(w, i) {
      BitAnd(w, Up(ALL, 0), i);
    }
    WordsEqual(x, w);
  }

  lemma LowestFits(w: Word, n: nat)
    requires Lowest(w, n)
    ensures n < BITS
  {
  }

  method FindNextBit(addr: array<Word>, size: nat, offset: nat) returns (r: nat)
    requires size <= BITS * addr.Length
    ensures FirstWanted(addr[..], [], false, false, size, offset, r)
  {
    r := FindNext(addr, null, size, offset, false);
  }

  method FindNextZeroBit(addr: array<Word>, size: nat, offset: nat) returns (r: nat)
    requires size <= BITS * addr.Length
    ensures FirstWanted(addr[..], [], false, true, size, offset, r)
  {
    r := FindNext(addr, null, size, offset, true);
  }

  method FindNextAndBit(addr1: array<Word>, addr2: array<Word>, size: nat, offset: nat) returns (r: nat)
    requires size <= BITS * addr1.Length && size <= BITS * addr2.Length
    ensures FirstWanted(addr1[..], addr2[..], true, false, size, offset, r)
  {
    r := FindNext(addr1, addr2, size, offset, false);
  }

  // One word of a map, or its complement, has a wanted bit or has none.
  lemma WholeWordSearched(s: seq<Word>, invert: bool, k: nat)
    requires k < |s|
    ensures var tmp := if invert then Not(s[k]) else s[k];
            && (tmp == ZERO ==> forall i: nat :: BITS * k <= i < BITS * (k + 1) ==> !Wanted(s, [], false, invert, i))
            && (forall n: nat :: Lowest(tmp, n) ==> Wanted(s, [], false, invert, BITS * k + n))
            && (forall n: nat :: Lowest(tmp, n) ==> forall i: nat :: BITS * k <= i < BITS * k + n ==>
                  !Wanted(s, [], false, invert, i))
  {
    hide BitAt, Not;
    var tmp := if invert then Not(s[k]) else s[k];
    ZeroWord(tmp);
    forall j | 0 <= j < BITS ensures BitAt(tmp, j) <==> Wanted(s, [], false, invert, BITS * k + j) {
      BitNot(s[k], j);
      Place(k, j);
    }
    forall i: nat | BITS * k <= i < BITS * (k + 1)
      ensures Wanted(s, [], false, invert, i) <==> BitAt(tmp, i - BITS * k)
    {
      assert BITS * k + (i - BITS * k) == i;
    }
  }

  lemma FullMeans(w: Word)
    ensures w == ALL <==> Not(w) == ZERO
  {
    hide BitAt, Not;
    FullWord(w);
    ZeroWord(Not(w));
    forall i | 0 <= i < BITS ensures BitAt(Not(w), i) <==> !BitAt(w, i) {
      BitNot(w, i);
    }
  }

  method FindFirstBit(addr: array<Word>, size: nat) returns (r: nat)
    requires size <= BITS * addr.Length
    ensures FirstWanted(addr[..], [], false, false, size, 0, r)
  {
    hide BitAt, Wanted, Lowest, Not;
    var idx: nat := 0;
    ghost var s := addr[..];
    while idx * BITS < size
      invariant forall i: nat :: 0 <= i < BITS * idx && i < size ==> !Wanted(s, [], false, false, i)
      decreases size - idx * BITS
    {
      WholeWordSearched(s, false, idx);
      if addr[idx] != ZERO {
        var bit := Ffs(addr[idx]);
        r := if idx * BITS + bit < size then idx * BITS + bit else size;
        return;
      }
      idx := idx + 1;
    }
    r := size;
  }

  method FindFirstZeroBit(addr: array<Word>, size: nat) returns (r: nat)
    requires size <= BITS * addr.Length
    ensures FirstWanted(addr[..], [], false, true, size, 0, r)
  {
    hide BitAt, Wanted, Lowest, Not;
    var idx: nat := 0;
    ghost var s := addr[..];
    while idx * BITS < size
      invariant forall i: nat :: 0 <= i < BITS * idx && i < size ==> !Wanted(s, [], false, true, i)
      decreases size - idx * BITS
    {
      WholeWordSearched(s, true, idx);
      FullMeans(addr[idx]);
      if addr[idx] != ALL {
        var bit := Ffs(Not(addr[idx]));
        r := if idx * BITS + bit < size then idx * BITS + bit else size;
        return;
      }
      idx := idx + 1;
    }
    r := size;
  }

  // The last set bit below size, or size.
  ghost predicate LastSet(s: seq<Word>, size: nat, r: nat)
    requires size <= BITS * |s|
  {
    r <= size && (r < size ==> Bit(s, r)) && forall i :: 0 <= i < size && (r < size ==> i > r) ==> !Bit(s, i)
  }

  // The bits of word k up to below its place m, with those above cut off.
  lemma CutWordSearched(s: seq<Word>, k: nat, mask: Word, m: int)
    requires k < |s| && IsLow(mask, m) && 0 < m <= BITS
    ensures var val := And(mask, s[k]);
            && (val == ZERO ==> forall i: nat :: BITS * k <= i < BITS * k + m ==> !Bit(s, i))
            && (forall n: nat :: Highest(val, n) ==> n < m && Bit(s, BITS * k + n))
            && (forall n: nat :: Highest(val, n) ==> forall i: nat :: BITS * k + n < i < BITS * k + m ==> !Bit(s, i))
  {
    hide BitAt, And;
    var val := And(mask, s[k]);
    ZeroWord(val);
    forall j | 0 <= j < BITS ensures BitAt(val, j) <==> j < m && Bit(s, BITS * k + j) {
      BitAnd(mask, s[k], j);
      Place(k, j);
    }
    forall i: nat | BITS * k <= i < BITS * k + m ensures Bit(s, i) <==> BitAt(val, i - BITS * k) {
      assert BITS * k + (i - BITS * k) == i;
    }
  }

  method FindLastBit(addr: array<Word>, size: nat) returns (r: nat)
    requires size <= BITS * addr.Length
    ensures LastSet(addr[..], size, r)
  {
    hide BitAt, Bit, Highest, And, Down, IsLow;
    r := size;
    if size > 0 {
      ghost var s := addr[..];
      var val := Down(ALL, (BITS - size % BITS) % BITS);
      DownIsLow((BITS - size % BITS) % BITS);
      var idx: nat := (size - 1) / BITS;
      ghost var m: int := size - BITS * idx;
      AllIsLow();
      var going := true;
      while going
        invariant idx < addr.Length && 0 < m <= BITS && BITS * idx + m <= size && (going ==> IsLow(val, m))
        invariant forall i :: 0 <= i < size && i >= (if going then BITS * idx + m else 0) ==> !Bit(s, i)
        decreases idx, going
      {
        CutWordSearched(s, idx, val, m);
        val := And(val, addr[idx]);
        if val != ZERO {
          var bit := Fls(val);
          HighestFits(val, bit);
          return idx * BITS + bit;
        }
        val := ALL;
        if idx == 0 {
          going := false;
        } else {
          idx, m := idx - 1, BITS;
        }
      }
    }
  }

  lemma AllIsLow()
    ensures IsLow(ALL, BITS)
  {
    hide BitAt;
    forall i | 0 <= i < BITS ensures BitAt(ALL, i) {
      BitsOfConstants(i);
    }
  }

  lemma HighestFits(w: Word, n: nat)
    requires Highest(w, n)
    ensures n < BITS
  {
  }
}
