// The canonical Huffman tables of the bzip2 decoder: the code that a list of code lengths
// stands for, the limit/base/permute tables the decoder derives from the lengths, and the
// proof that decoding by tables inverts encoding by codes.
module Huffman {
  import opened Bytes
  import opened CountingSort
  import opened Powers
  import opened BitReader

  const MAX_HUFCODE_BITS := 20
  const MAX_SYMBOLS := 258
  const INT_MAX := 0x7fffffff

  // ----- the canonical code, as specified -----

  // The lengths of at most 258 codes, each of 1 to 20 bits.
  predicate CodeLengths(lengths: seq<byte>)
  {
    1 <= |lengths| <= MAX_SYMBOLS && forall t :: 0 <= t < |lengths| ==> 1 <= lengths[t] <= MAX_HUFCODE_BITS
  }

  // The number of codes of each length.
  function Counts(lengths: seq<byte>): (c: seq<nat>)
    ensures |c| == 22
    ensures forall l :: 0 <= l < 22 ==> c[l] == |Positions(lengths, l)|
  {
    seq(22, l requires 0 <= l < 22 => |Positions(lengths, l)|)
  }

  // What the decoder counts: its counters are single bytes.
  function Wrapped(lengths: seq<byte>): (c: seq<nat>)
    ensures |c| == 22
    ensures forall l :: 0 <= l < 22 ==> c[l] == |Positions(lengths, l)| % 256
  {
    seq(22, l requires 0 <= l < 22 => |Positions(lengths, l)| % 256)
  }

  // The first code of length l: codes of one length are consecutive, and the next length
  // starts where they end, with a bit more.
  function First(c: seq<nat>, l: nat): nat
    requires l < |c|
  {
    if l == 0 then 0 else 2 * (First(c, l - 1) + c[l - 1])
  }

  // The first number of l bits that no code of at most l bits begins.
  function End(c: seq<nat>, l: nat): nat
    requires l < |c|
  {
    First(c, l) + c[l]
  }

  // The code of symbol t: symbols of one length are numbered in order.
  function Code(lengths: seq<byte>, t: nat): nat
    requires t < |lengths| && lengths[t] <= MAX_HUFCODE_BITS
  {
    First(Counts(lengths), lengths[t]) + |Positions(lengths[..t], lengths[t])|
  }

  // The Kraft sum, in units of one code of maxLen bits.
  function KraftSum(lengths: seq<byte>, maxLen: nat): nat
  {
    if lengths == [] then 0
    else
      var n := |lengths| - 1;
      KraftSum(lengths[..n], maxLen) + if lengths[n] <= maxLen then Pow2(maxLen - lengths[n]) else 0
  }

  // ----- decoding by tables, as specified -----

  // The number of codes shorter than l.
  function Below(c: seq<nat>, l: nat): nat
    requires l <= |c|
  {
    if l == 0 then 0 else Below(c, l - 1) + c[l - 1]
  }

  // The largest number of maxLen bits that starts with a code of at most l bits.
  function Limit(c: seq<nat>, l: nat, maxLen: nat): int
    requires l <= maxLen < |c|
  {
    End(c, l) * Pow2(maxLen - l) - 1
  }

  // The least length from i on whose limit j does not exceed.
  function CodeLength(c: seq<nat>, i: nat, maxLen: nat, j: nat): (l: nat)
    requires maxLen < |c|
    ensures i <= l && (i <= maxLen + 1 ==> l <= maxLen + 1)
    decreases maxLen + 1 - i
  {
    if i > maxLen || j <= Limit(c, i, maxLen) then i else CodeLength(c, i + 1, maxLen, j)
  }

  datatype Decoded = Symbol(symbol: nat, length: nat) | Invalid

  // What the tables make of the number j that maxLen bits spell.
  function Decode(c: seq<nat>, order: seq<nat>, minLen: nat, maxLen: nat, j: nat): Decoded
    requires maxLen < |c|
  {
    var l := CodeLength(c, minLen, maxLen, j);
    if l > maxLen then Invalid
    else
      var k := j / Pow2(maxLen - l) - (First(c, l) - Below(c, l));
      if 0 <= k < |order| then Symbol(order[k], l) else Invalid
  }

  // The symbols by length, and by number within one length.
  function Order(lengths: seq<byte>): seq<nat>
  {
    PositionsBelow(lengths, 21)
  }

  // ----- the code and its lengths -----

  lemma {:induction false} EndMonotone(c: seq<nat>, i: nat, l: nat)
    requires i < l < |c|
    ensures End(c, i) * Pow2(l - i) <= First(c, l)
    decreases l
  {
    if i + 1 == l {
      assert Pow2(1) == 2;
    } else {
      EndMonotone(c, i, l - 1);
      TwiceMore(End(c, i), Pow2(l - 1 - i), First(c, l - 1));
    }
  }

  lemma TwiceMore(a: nat, p: nat, b: nat)
    requires a * p <= b
    ensures a * (2 * p) <= 2 * b
  {
  }

  // A code of l bits, seen as the start of maxLen bits, is at or above every shorter end.
  lemma EndScaled(c: seq<nat>, i: nat, l: nat, maxLen: nat)
    requires i < l <= maxLen < |c|
    ensures End(c, i) * Pow2(maxLen - i) <= First(c, l) * Pow2(maxLen - l)
  {
    hide Pow2, First, End;
    EndMonotone(c, i, l);
    Pow2Add(l - i, maxLen - l);
    MulMonotone(End(c, i) * Pow2(l - i), First(c, l), Pow2(maxLen - l));
    Associate(End(c, i), Pow2(l - i), Pow2(maxLen - l));
  }

  lemma Associate(a: int, b: int, c: int)
    ensures a * (b * c) == a * b * c
  {
  }

  // From any length up to l, decoding stops at l exactly when j lies between the codes of
  // l bits, scaled.
  lemma {:induction false} CodeLengthIs(c: seq<nat>, i: nat, l: nat, maxLen: nat, j: nat)
    requires i <= l <= maxLen < |c|
    requires First(c, l) * Pow2(maxLen - l) <= j < End(c, l) * Pow2(maxLen - l)
    ensures CodeLength(c, i, maxLen, j) == l
    decreases l - i
  {
    if i < l {
      EndScaled(c, i, l, maxLen);
      CodeLengthIs(c, i + 1, l, maxLen, j);
    }
  }

  lemma {:induction false} BelowIsPositions(lengths: seq<byte>, l: nat)
    requires l <= 22
    ensures Below(Counts(lengths), l) == |PositionsBelow(lengths, l)|
  {
    if l > 0 {
      BelowIsPositions(lengths, l - 1);
    }
  }

  lemma CodeInRange(lengths: seq<byte>, t: nat)
    requires t < |lengths| && lengths[t] <= MAX_HUFCODE_BITS
    ensures First(Counts(lengths), lengths[t]) <= Code(lengths, t) < End(Counts(lengths), lengths[t])
  {
    PositionsAt(lengths, t);
  }

  // Shorter codes come first, and do not begin longer ones; codes of one length follow one
  // another in the order of their symbols.
  lemma CodesOrdered(lengths: seq<byte>, s: nat, t: nat)
    requires s < |lengths| && t < |lengths| && lengths[s] <= MAX_HUFCODE_BITS && lengths[t] <= MAX_HUFCODE_BITS
    ensures lengths[s] < lengths[t] ==> (Code(lengths, s) + 1) * Pow2(lengths[t] - lengths[s]) <= Code(lengths, t)
    ensures lengths[s] == lengths[t] && s < t ==>
              Code(lengths, t) == Code(lengths, s) + 1 + |Positions(lengths[s + 1..t], lengths[s])|
  {
    hide First, End, Pow2;
    var c := Counts(lengths);
    CodeInRange(lengths, s);
    CodeInRange(lengths, t);
    if lengths[s] < lengths[t] {
      EndMonotone(c, lengths[s], lengths[t]);
      MulMonotone(Code(lengths, s) + 1, End(c, lengths[s]), Pow2(lengths[t] - lengths[s]));
    } else if lengths[s] == lengths[t] && s < t {
      assert lengths[..t] == lengths[..s] + [lengths[s]] + lengths[s + 1..t];
      PositionsCount(lengths[..s] + [lengths[s]], lengths[s + 1..t], lengths[s]);
      PositionsCount(lengths[..s], [lengths[s]], lengths[s]);
      OnePosition(lengths[s]);
    }
  }

  lemma {:induction false} PositionsCount(a: seq<byte>, b: seq<byte>, l: byte)
    ensures |Positions(a + b, l)| == |Positions(a, l)| + |Positions(b, l)|
    decreases |b|
  {
    if b == [] {
      assert a + b == a;
    } else {
      var n := |b| - 1;
      assert (a + b)[..|a| + n] == a + b[..n];
      PositionsCount(a, b[..n], l);
    }
  }

  lemma OnePosition(l: byte)
    ensures |Positions([l], l)| == 1
  {
    assert [l][..0] == [];
  }

  lemma ScaledRange(first: nat, v: nat, end: nat, p: nat, noise: nat)
    requires first <= v < end && noise < p
    ensures first * p <= v * p + noise < end * p
    ensures (v * p + noise) / p == v
  {
    MulMonotone(first, v, p);
    MulMonotone(v + 1, end, p);
    DivModUnique(v * p + noise, v, p, noise);
  }

  // The table entry of symbol t.
  lemma CodeIndex(lengths: seq<byte>, t: nat)
    requires t < |lengths| && lengths[t] <= MAX_HUFCODE_BITS
    ensures var c, l := Counts(lengths), lengths[t];
            var k := Code(lengths, t) - (First(c, l) - Below(c, l));
            0 <= k < |Order(lengths)| && Order(lengths)[k] == t
  {
    SlotHolds(lengths, t, 21);
    BelowIsPositions(lengths, lengths[t]);
  }

  // Decoding by tables inverts encoding: the code of t, followed by any bits, yields t
  // and the length of its code.
  lemma DecodeOfCode(lengths: seq<byte>, t: nat, minLen: nat, maxLen: nat, noise: nat)
    requires t < |lengths|
    requires minLen <= lengths[t] <= maxLen <= MAX_HUFCODE_BITS
    requires noise < Pow2(maxLen - lengths[t])
    ensures Decode(Counts(lengths), Order(lengths), minLen, maxLen,
                   Code(lengths, t) * Pow2(maxLen - lengths[t]) + noise)
         == Symbol(t, lengths[t])
  {
    hide First, End, Code, Below, Order, Pow2, CodeLength;
    var c, l: nat := Counts(lengths), lengths[t];
    CodeInRange(lengths, t);
    ScaledRange(First(c, l), Code(lengths, t), End(c, l), Pow2(maxLen - l), noise);
    CodeLengthIs(c, minLen, l, maxLen, Code(lengths, t) * Pow2(maxLen - l) + noise);
    CodeIndex(lengths, t);
  }

  // Where decoding stops: below the limit there, at or above the limits before.
  lemma {:induction false} CodeLengthStops(c: seq<nat>, i: nat, maxLen: nat, j: nat)
    requires i <= maxLen < |c|
    ensures var l := CodeLength(c, i, maxLen, j);
            && (l <= maxLen ==> j < End(c, l) * Pow2(maxLen - l))
            && (i < l ==> End(c, l - 1) * Pow2(maxLen - (l - 1)) <= j)
            && (l > maxLen ==> End(c, maxLen) <= j)
    decreases maxLen - i
  {
    if i < maxLen {
      CodeLengthStops(c, i + 1, maxLen, j);
    }
    assert Pow2(0) == 1;
  }

  lemma {:induction false} NothingBelow(c: seq<nat>, l: nat)
    requires l < |c| && forall i :: 0 <= i < l ==> c[i] == 0
    ensures First(c, l) == 0 && Below(c, l) == 0
  {
    if l > 0 {
      NothingBelow(c, l - 1);
    }
  }

  // Where decoding stops at l, j starts with a number from First up to End.
  lemma StopsInRange(c: seq<nat>, minLen: nat, maxLen: nat, j: nat)
    requires minLen <= maxLen < |c| && forall i :: 0 <= i < minLen ==> c[i] == 0
    ensures var l := CodeLength(c, minLen, maxLen, j);
            l <= maxLen ==> First(c, l) <= j / Pow2(maxLen - l) < End(c, l)
  {
    var l := CodeLength(c, minLen, maxLen, j);
    CodeLengthStops(c, minLen, maxLen, j);
    NothingBelow(c, minLen);
    if l <= maxLen {
      if minLen < l {
        EndScaled(c, l - 1, l, maxLen);
        FirstIsTwiceEnd(c, l, maxLen);
      }
      QuotientInRange(j, Pow2(maxLen - l), First(c, l), End(c, l));
    }
  }

  lemma FirstIsTwiceEnd(c: seq<nat>, l: nat, maxLen: nat)
    requires 0 < l <= maxLen < |c|
    ensures First(c, l) * Pow2(maxLen - l) == End(c, l - 1) * Pow2(maxLen - (l - 1))
  {
    assert Pow2(maxLen - (l - 1)) == 2 * Pow2(maxLen - l);
    Associate(End(c, l - 1), 2, Pow2(maxLen - l));
  }

  lemma QuotientInRange(j: nat, p: nat, lo: nat, hi: nat)
    requires p > 0 && lo * p <= j < hi * p
    ensures lo <= j / p < hi
  {
    var q, r := j / p, j % p;
    assert j == q * p + r;
    if q < lo {
      MulMonotone(q + 1, lo, p);
    }
    if q >= hi {
      MulMonotone(hi, q, p);
    }
  }

  // The code with number v among those of l bits.
  lemma SymbolOfCode(lengths: seq<byte>, l: nat, v: nat) returns (t: nat)
    requires l <= MAX_HUFCODE_BITS && First(Counts(lengths), l) <= v < End(Counts(lengths), l)
    ensures t < |lengths| && lengths[t] == l && Code(lengths, t) == v
  {
    PositionsRank(lengths, l, v - First(Counts(lengths), l));
    t := Positions(lengths, l)[v - First(Counts(lengths), l)];
  }

  predicate Spans(lengths: seq<byte>, minLen: nat, maxLen: nat)
  {
    minLen <= maxLen <= MAX_HUFCODE_BITS && forall t :: 0 <= t < |lengths| ==> minLen <= lengths[t] <= maxLen
  }

  // The range of the lengths.
  function MinLen(lengths: seq<byte>): (m: nat)
    requires lengths != []
  {
    if |lengths| == 1 then lengths[0]
    else
      var m := MinLen(lengths[1..]);
      if lengths[0] < m then lengths[0] else m
  }

  function MaxLen(lengths: seq<byte>): (m: nat)
    requires lengths != []
  {
    if |lengths| == 1 then lengths[0]
    else
      var m := MaxLen(lengths[1..]);
      if lengths[0] > m then lengths[0] else m
  }

  lemma {:induction false} RangeIs(lengths: seq<byte>, minLen: nat, maxLen: nat)
    requires lengths != [] && Spans(lengths, minLen, maxLen)
    ensures minLen <= MinLen(lengths) <= MaxLen(lengths) <= maxLen
    ensures forall t :: 0 <= t < |lengths| ==> MinLen(lengths) <= lengths[t] <= MaxLen(lengths)
  {
    if |lengths| > 1 {
      RangeIs(lengths[1..], minLen, maxLen);
    }
  }

  lemma NoneShorter(lengths: seq<byte>, minLen: nat, maxLen: nat)
    requires Spans(lengths, minLen, maxLen)
    ensures forall i :: 0 <= i < minLen ==> Counts(lengths)[i] == Wrapped(lengths)[i] == 0
  {
    forall i | 0 <= i < minLen
      ensures |Positions(lengths, i)| == 0
    {
      NoPositions(lengths, i);
    }
  }

  // Below the end of the longest codes, every number starts with the code of a symbol,
  // and that symbol is what it decodes to.
  lemma DecodeComplete(lengths: seq<byte>, minLen: nat, maxLen: nat, j: nat) returns (t: nat)
    requires Spans(lengths, minLen, maxLen) && j < End(Counts(lengths), maxLen)
    ensures t < |lengths| && j / Pow2(maxLen - lengths[t]) == Code(lengths, t)
    ensures Decode(Counts(lengths), Order(lengths), minLen, maxLen, j) == Symbol(t, lengths[t])
  {
    hide First, End, Code, Decode, Pow2, Order, CodeLength, Counts;
    var c := Counts(lengths);
    var l := CodeLength(c, minLen, maxLen, j);
    CodeLengthStops(c, minLen, maxLen, j);
    NoneShorter(lengths, minLen, maxLen);
    StopsInRange(c, minLen, maxLen, j);
    var p := Pow2(maxLen - l);
    t := SymbolOfCode(lengths, l, j / p);
    DivModParts(j, p);
    DecodeOfCode(lengths, t, minLen, maxLen, j % p);
  }

  // From there on a number starts with no code, and is refused.
  lemma {:induction false} DecodeRefuses(c: seq<nat>, i: nat, maxLen: nat, j: nat)
    requires maxLen < |c| && End(c, maxLen) <= j
    ensures CodeLength(c, i, maxLen, j) > maxLen
    decreases maxLen + 1 - i
  {
    assert Pow2(0) == 1;
    if i <= maxLen {
      if i < maxLen {
        EndScaled(c, i, maxLen, maxLen);
      }
      DecodeRefuses(c, i + 1, maxLen, j);
    }
  }

  // ----- the Kraft inequality -----

  lemma {:induction false} EndExtend(lengths: seq<byte>, x: byte, l: nat)
    requires l < 22
    ensures End(Counts(lengths + [x]), l) == End(Counts(lengths), l) + if x <= l then Pow2(l - x) else 0
  {
    assert (lengths + [x])[..|lengths|] == lengths;
    if l > 0 {
      EndExtend(lengths, x, l - 1);
    }
    assert Pow2(0) == 1;
  }

  lemma {:induction false} EndOfNothing(l: nat)
    requires l < 22
    ensures End(Counts([]), l) == 0
  {
    if l > 0 {
      EndOfNothing(l - 1);
    }
  }

  // The end of the codes is the Kraft sum.
  lemma {:induction false} EndIsKraftSum(lengths: seq<byte>, maxLen: nat)
    requires maxLen < 22
    ensures End(Counts(lengths), maxLen) == KraftSum(lengths, maxLen)
  {
    if lengths == [] {
      EndOfNothing(maxLen);
    } else {
      var n := |lengths| - 1;
      EndIsKraftSum(lengths[..n], maxLen);
      EndExtend(lengths[..n], lengths[n], maxLen);
      assert lengths == lengths[..n] + [lengths[n]];
    }
  }

  // With the Kraft inequality every code fits the bits of its length.
  lemma CodeFits(lengths: seq<byte>, t: nat, maxLen: nat)
    requires t < |lengths| && lengths[t] <= maxLen <= MAX_HUFCODE_BITS
    requires KraftSum(lengths, maxLen) <= Pow2(maxLen)
    ensures Code(lengths, t) < Pow2(lengths[t])
  {
    hide First, End, Code, Pow2, KraftSum;
    var c, l: nat := Counts(lengths), lengths[t];
    EndIsKraftSum(lengths, maxLen);
    CodeInRange(lengths, t);
    EndBelowPower(c, l, maxLen);
  }

  lemma EndBelowPower(c: seq<nat>, l: nat, maxLen: nat)
    requires l <= maxLen < |c| && End(c, maxLen) <= Pow2(maxLen)
    ensures End(c, l) <= Pow2(l)
  {
    if l < maxLen {
      EndMonotone(c, l, maxLen);
      Pow2Add(l, maxLen - l);
      MulCancel(End(c, l), Pow2(l), Pow2(maxLen - l));
    }
  }

  // ----- the counters are bytes -----

  predicate NoCounterWraps(lengths: seq<byte>)
  {
    forall l :: 0 <= l < 22 ==> |Positions(lengths, l)| < 256
  }

  // The number spelled by v followed by rest more bits.
  function Spell(v: nat, rest: nat, noise: nat): nat
  {
    v * Pow2(rest) + noise
  }

  lemma NoneWrapped(lengths: seq<byte>)
    requires NoCounterWraps(lengths)
    ensures Wrapped(lengths) == Counts(lengths)
  {
  }

  // The code of t followed by noise reads as t.
  predicate ServedBefore(lengths: seq<byte>, minLen: nat, maxLen: nat, t: nat, noise: nat)
    requires Spans(lengths, minLen, maxLen) && t < |lengths|
  {
    Decode(Wrapped(lengths), Order(lengths), minLen, maxLen, Spell(Code(lengths, t), maxLen - lengths[t], noise))
    == Symbol(t, lengths[t])
  }

  // The tables serve symbol t when they take its code, whatever follows, to t.
  predicate Served(lengths: seq<byte>, minLen: nat, maxLen: nat, t: nat)
    requires Spans(lengths, minLen, maxLen) && t < |lengths|
  {
    forall noise: nat :: noise < Pow2(maxLen - lengths[t]) ==> ServedBefore(lengths, minLen, maxLen, t, noise)
  }

  // The sum of two different counts is at most the number of symbols.
  lemma {:induction false} TwoCounts(lengths: seq<byte>, l: byte, m: byte)
    requires l != m
    ensures |Positions(lengths, l)| + |Positions(lengths, m)| <= |lengths|
  {
    if lengths != [] {
      TwoCounts(lengths[..|lengths| - 1], l, m);
    }
  }

  lemma {:induction false} SameFirst(c: seq<nat>, d: seq<nat>, l: nat)
    requires l < |c| == |d| && forall i :: 0 <= i < l ==> c[i] == d[i]
    ensures First(c, l) == First(d, l)
  {
    if l > 0 {
      SameFirst(c, d, l - 1);
    }
  }

  // When 256 or more symbols share a length, the last of their codes is at or past the
  // end that the wrapped counter gives.
  lemma WrappedEnd(lengths: seq<byte>, l: nat) returns (t: nat)
    requires CodeLengths(lengths) && l <= MAX_HUFCODE_BITS && |Positions(lengths, l)| >= 256
    ensures t < |lengths| && lengths[t] == l && Code(lengths, t) >= End(Wrapped(lengths), l)
  {
    var n := |Positions(lengths, l)| - 1;
    PositionsRank(lengths, l, n);
    t := Positions(lengths, l)[n];
    forall i | 0 <= i < l
      ensures Counts(lengths)[i] == Wrapped(lengths)[i]
    {
      TwoCounts(lengths, i, l);
    }
    SameFirst(Counts(lengths), Wrapped(lengths), l);
  }

  // So that symbol is not served.
  lemma WrapMisses(lengths: seq<byte>, minLen: nat, maxLen: nat, l: nat) returns (t: nat)
    requires CodeLengths(lengths) && Spans(lengths, minLen, maxLen)
    requires l < 22 && |Positions(lengths, l)| >= 256
    ensures t < |lengths| && !Served(lengths, minLen, maxLen, t)
  {
    if l !in lengths {
      NoPositions(lengths, l);
    }
    t := WrappedEnd(lengths, l);
    hide Order, Wrapped, Code, End;
    MulMonotone(End(Wrapped(lengths), l), Code(lengths, t), Pow2(maxLen - l));
    PassesBy(Wrapped(lengths), minLen, l, maxLen, Spell(Code(lengths, t), maxLen - l, 0));
    assert !ServedBefore(lengths, minLen, maxLen, t, 0);
  }

  // Decoding never stops at a length whose limit j exceeds.
  lemma {:induction false} PassesBy(c: seq<nat>, i: nat, l: nat, maxLen: nat, j: nat)
    requires l <= maxLen < |c| && End(c, l) * Pow2(maxLen - l) <= j
    ensures CodeLength(c, i, maxLen, j) != l
    decreases maxLen + 1 - i
  {
    if i <= maxLen {
      PassesBy(c, i + 1, l, maxLen, j);
    }
  }

  // The decoder's tables serve every symbol exactly when no counter wraps.
  lemma TablesExact(lengths: seq<byte>, minLen: nat, maxLen: nat)
    requires CodeLengths(lengths) && Spans(lengths, minLen, maxLen)
    ensures (forall t :: 0 <= t < |lengths| ==> Served(lengths, minLen, maxLen, t)) <==> NoCounterWraps(lengths)
  {
    if NoCounterWraps(lengths) {
      NoneWrapped(lengths);
      hide Decode, Wrapped, Counts, Order, Code, Pow2, NoCounterWraps, CodeLengths;
      forall t, noise: nat | 0 <= t < |lengths| && noise < Pow2(maxLen - lengths[t])
        ensures ServedBefore(lengths, minLen, maxLen, t, noise)
      {
        DecodeOfCode(lengths, t, minLen, maxLen, noise);
      }
    } else {
      hide Served, Positions, CodeLengths, Spans;
      var l :| 0 <= l < 22 && |Positions(lengths, l)| >= 256;
      var t := WrapMisses(lengths, minLen, maxLen, l);
    }
  }

  lemma {:induction false} CountsOfEqual(lengths: seq<byte>, x: byte, c: byte, maxLen: nat)
    requires x <= maxLen && forall i :: 0 <= i < |lengths| ==> lengths[i] == x
    ensures |Positions(lengths, c)| == if c == x then |lengths| else 0
    ensures KraftSum(lengths, maxLen) == |lengths| * Pow2(maxLen - x)
  {
    if lengths != [] {
      CountsOfEqual(lengths[..|lengths| - 1], x, c, maxLen);
    }
  }

  // A table of 258 symbols of 9 bits each, a legal one by the Kraft inequality, is read
  // wrongly: the third code is refused.
  lemma WrappedExample(lengths: seq<byte>)
    requires |lengths| == 258 && forall i :: 0 <= i < 258 ==> lengths[i] == 9
    ensures CodeLengths(lengths) && Spans(lengths, 9, 9) && KraftSum(lengths, 9) <= Pow2(9)
    ensures Code(lengths, 2) == 2 && Decode(Wrapped(lengths), Order(lengths), 9, 9, 2) == Invalid
  {
    CountsOfEqual(lengths, 9, 9, 9);
    assert Pow2(0) == 1 && Pow2(9) == 512;
    forall l: byte | l < 9
      ensures Counts(lengths)[l] == 0 == Wrapped(lengths)[l]
    {
      CountsOfEqual(lengths, 9, l, 9);
    }
    NothingBelow(Counts(lengths), 9);
    NothingBelow(Wrapped(lengths), 9);
    CountsOfEqual(lengths[..2], 9, 9, 9);
    assert CodeLength(Wrapped(lengths), 9, 9, 2) == 10;
  }

  // ----- the decoder's tables and loops -----

  lemma OrderIsComplete(lengths: seq<byte>)
    requires CodeLengths(lengths)
    ensures |Order(lengths)| == |lengths|
  {
    AllPlaced(lengths, 21);
  }

  lemma OrderInRange(lengths: seq<byte>)
    ensures forall k :: 0 <= k < |Order(lengths)| ==> Order(lengths)[k] < |lengths|
  {
    PositionsBelowOrdered(lengths, 21);
  }

  // Symbols placed before symbol t of length i fit in the table.
  lemma PlacesLeft(lengths: seq<byte>, i: nat, t: nat)
    requires CodeLengths(lengths) && i <= MAX_HUFCODE_BITS && t <= |lengths|
    ensures |PositionsBelow(lengths, i)| + |Positions(lengths[..t], i)| <= |lengths|
    ensures t < |lengths| && lengths[t] == i ==> |PositionsBelow(lengths, i)| + |Positions(lengths[..t], i)| < |lengths|
  {
    OrderIsComplete(lengths);
    PositionsPrefix(lengths, i, t);
    PositionsBelowPrefix(lengths, i + 1, 21);
    if t < |lengths| && lengths[t] == i {
      PositionsAt(lengths, t);
    }
  }

  lemma {:induction false} BelowMin(lengths: seq<byte>, l: nat, minLen: nat, maxLen: nat)
    requires Spans(lengths, minLen, maxLen) && l <= minLen
    ensures PositionsBelow(lengths, l) == []
  {
    if l > 0 {
      BelowMin(lengths, l - 1, minLen, maxLen);
      NoPositions(lengths, l - 1);
    }
  }

  lemma {:induction false} AboveMax(lengths: seq<byte>, l: nat, minLen: nat, maxLen: nat)
    requires Spans(lengths, minLen, maxLen) && maxLen < l <= 21
    ensures PositionsBelow(lengths, l) == Order(lengths)
    decreases 21 - l
  {
    if l < 21 {
      AboveMax(lengths, l + 1, minLen, maxLen);
      NoPositions(lengths, l);
    }
  }

  lemma LengthsRange(lengths: seq<byte>)
    requires CodeLengths(lengths)
    ensures 1 <= MinLen(lengths) && Spans(lengths, MinLen(lengths), MaxLen(lengths))
  {
    RangeIs(lengths, 1, MAX_HUFCODE_BITS);
  }

  // Reading one symbol from bit position p of the input.
  function ReadSymbol(lengths: seq<byte>, input: seq<byte>, p: nat): (d: Decoded)
    requires CodeLengths(lengths) && p + MaxLen(lengths) <= 8 * |input|
    ensures d.Symbol? ==> 1 <= d.length <= MaxLen(lengths)
  {
    LengthsRange(lengths);
    Decode(Wrapped(lengths), Order(lengths), MinLen(lengths), MaxLen(lengths), Field(input, p, MaxLen(lengths)))
  }

  // The code of symbol t stands at p.
  predicate CodeAt(lengths: seq<byte>, input: seq<byte>, p: nat, t: nat)
    requires CodeLengths(lengths) && t < |lengths| && p + MaxLen(lengths) <= 8 * |input|
  {
    LengthsRange(lengths);
    Field(input, p, lengths[t]) == Code(lengths, t)
  }

  // A symbol that is written at p is read back, whatever follows it.
  lemma ReadsCode(lengths: seq<byte>, input: seq<byte>, p: nat, t: nat)
    requires CodeLengths(lengths) && NoCounterWraps(lengths) && t < |lengths|
    requires p + MaxLen(lengths) <= 8 * |input| && CodeAt(lengths, input, p, t)
    ensures ReadSymbol(lengths, input, p) == Symbol(t, lengths[t])
  {
    hide Decode, Field, Code, Order, Pow2, MinLen, MaxLen, Counts, Wrapped, CodeLengths, NoCounterWraps;
    LengthsRange(lengths);
    NoneWrapped(lengths);
    var l: nat, rest := lengths[t], MaxLen(lengths) - lengths[t];
    FieldSplit(input, p, l, rest);
    DecodeOfCode(lengths, t, MinLen(lengths), MaxLen(lengths), Field(input, p + l, rest));
  }

  lemma CodeLengthStep(c: seq<nat>, i: nat, maxLen: nat, j: nat)
    requires maxLen < |c|
    ensures CodeLength(c, i, maxLen, j)
         == if i > maxLen || j <= Limit(c, i, maxLen) then i else CodeLength(c, i + 1, maxLen, j)
  {
  }

  // A number of at most 20 bits is below the sentinel.
  lemma BelowSentinel(j: nat, w: nat)
    requires w <= MAX_HUFCODE_BITS && j < Pow2(w)
    ensures j < INT_MAX
  {
    hide Pow2;
    Pow2Monotone(w, 20);
    PowerValues();
  }

  lemma {:induction false} BelowMonotone(c: seq<nat>, d: seq<nat>, l: nat, m: nat)
    requires l <= m <= |c| == |d| && forall i :: 0 <= i < |c| ==> c[i] <= d[i]
    ensures Below(c, l) <= Below(d, m)
    decreases m
  {
    if l < m {
      BelowMonotone(c, d, l, m - 1);
    } else if l > 0 {
      BelowMonotone(c, d, l - 1, m - 1);
    }
  }

  // The symbols counted up to a length are among those placed.
  lemma BelowOrder(lengths: seq<byte>, l: nat)
    requires l <= MAX_HUFCODE_BITS
    ensures Below(Wrapped(lengths), l) + Wrapped(lengths)[l] <= |Order(lengths)|
  {
    hide Wrapped, Counts, Below, PositionsBelow;
    var c, d := Wrapped(lengths), Counts(lengths);
    WrappedBelow(lengths);
    BelowMonotone(c, d, l + 1, 21);
    BelowStep(c, l);
    BelowIsPositions(lengths, 21);
  }

  lemma BelowStep(c: seq<nat>, l: nat)
    requires l < |c|
    ensures Below(c, l + 1) == Below(c, l) + c[l]
  {
  }

  lemma WrappedBelow(lengths: seq<byte>)
    ensures forall i :: 0 <= i < 22 ==> Wrapped(lengths)[i] <= Counts(lengths)[i]
  {
    forall i | 0 <= i < 22 ensures Wrapped(lengths)[i] <= Counts(lengths)[i] {
      RemainderBelow(|Positions(lengths, i)|);
    }
  }

  lemma RemainderBelow(n: nat)
    ensures n % 256 <= n
  {
  }

  // A decoded index is always within the table, so the bounds check never fails.
  lemma IndexInOrder(lengths: seq<byte>, minLen: nat, maxLen: nat, j: nat)
    requires CodeLengths(lengths) && Spans(lengths, minLen, maxLen)
    ensures var c := Wrapped(lengths);
            var l := CodeLength(c, minLen, maxLen, j);
            l <= maxLen ==> 0 <= j / Pow2(maxLen - l) - (First(c, l) - Below(c, l)) < |Order(lengths)|
  {
    hide CodeLength, First, Below, Pow2, Wrapped, Counts;
    var c := Wrapped(lengths);
    var l := CodeLength(c, minLen, maxLen, j);
    NoneShorter(lengths, minLen, maxLen);
    StopsInRange(c, minLen, maxLen, j);
    if l <= maxLen {
      BelowOrder(lengths, l);
    }
  }

  lemma FillStep(c: seq<nat>, i: nat, maxLen: nat)
    requires i < maxLen < |c|
    ensures (First(c, i) + c[i]) * Pow2(maxLen - i) - 1 == Limit(c, i, maxLen)
    ensures First(c, i + 1) == 2 * (First(c, i) + c[i]) && Below(c, i + 1) == Below(c, i) + c[i]
  {
  }

  lemma LastLimit(c: seq<nat>, maxLen: nat)
    requires maxLen < |c|
    ensures First(c, maxLen) + c[maxLen] - 1 == Limit(c, maxLen, maxLen)
  {
    assert Pow2(0) == 1;
  }

  class HufGroup {
    const limit: array<int>
    const base: array<int>
    const permute: array<nat>
    var minLen: nat
    var maxLen: nat

    ghost predicate Valid()
    {
      limit.Length == MAX_HUFCODE_BITS + 1 && base.Length == MAX_HUFCODE_BITS
      && permute.Length == MAX_SYMBOLS && limit != base
    }

    constructor ()
      ensures Valid() && fresh(limit) && fresh(base) && fresh(permute)
    {
      limit := new int[MAX_HUFCODE_BITS + 1];
      base := new int[MAX_HUFCODE_BITS];
      permute := new nat[MAX_SYMBOLS];
    }

    // The tables of the counters c and the symbol order, entry by entry.
    ghost predicate TablesFor(c: seq<nat>, order: seq<nat>)
      requires |c| == 22
      reads this, limit, base, permute
    {
      && Valid() && 1 <= minLen <= maxLen <= MAX_HUFCODE_BITS
      && (forall l :: minLen <= l <= maxLen ==> limit[l - 1] == Limit(c, l, maxLen))
      && limit[maxLen] == INT_MAX
      && (forall l :: minLen <= l <= maxLen ==> base[l - 1] == First(c, l) - Below(c, l))
      && |order| <= MAX_SYMBOLS && permute[..|order|] == order
    }

    ghost predicate TablesOf(lengths: seq<byte>)
      reads this, limit, base, permute
    {
      && CodeLengths(lengths) && Spans(lengths, minLen, maxLen)
      && minLen == MinLen(lengths) && maxLen == MaxLen(lengths)
      && TablesFor(Wrapped(lengths), Order(lengths))
    }

    // The smallest and the largest length.
    method FindRange(lengths: seq<byte>)
      requires Valid() && CodeLengths(lengths)
      modifies this
      ensures Valid() && 1 <= minLen && Spans(lengths, minLen, maxLen)
      ensures minLen == MinLen(lengths) && maxLen == MaxLen(lengths)
    {
      minLen, maxLen := lengths[0], lengths[0];
      var i := 1;
      while i < |lengths|
        invariant 1 <= i <= |lengths|
        invariant minLen in lengths && maxLen in lengths && minLen <= maxLen
        invariant forall t :: 0 <= t < i ==> minLen <= lengths[t] <= maxLen
      {
        if lengths[i] > maxLen {
          maxLen := lengths[i];
        } else if lengths[i] < minLen {
          minLen := lengths[i];
        }
        i := i + 1;
      }
      RangeIs(lengths, minLen, maxLen);
    }

    // Appends the symbols of length i to the table.
    method CollectSymbols(lengths: seq<byte>, i: nat, start: nat) returns (pp: nat)
      requires Valid() && CodeLengths(lengths) && i <= MAX_HUFCODE_BITS
      requires start == |PositionsBelow(lengths, i)| <= |lengths| && permute[..start] == PositionsBelow(lengths, i)
      modifies permute
      ensures pp == |PositionsBelow(lengths, i + 1)| <= |lengths| && permute[..pp] == PositionsBelow(lengths, i + 1)
    {
      pp := start;
      var t := 0;
      while t < |lengths|
        invariant 0 <= t <= |lengths|
        invariant pp == start + |Positions(lengths[..t], i)| <= |lengths|
        invariant permute[..pp] == PositionsBelow(lengths, i) + Positions(lengths[..t], i)
      {
        PlacesLeft(lengths, i, t);
        assert lengths[..t + 1][..t] == lengths[..t];
        if lengths[t] == i {
          permute[pp] := t;
          pp := pp + 1;
        }
        t := t + 1;
      }
      assert lengths[..t] == lengths;
    }

    // The symbols by length; the counters and limits in use are cleared on the way.
    method SortSymbols(lengths: seq<byte>, temp: array<nat>)
      requires Valid() && CodeLengths(lengths) && 1 <= minLen && Spans(lengths, minLen, maxLen)
      requires temp.Length == MAX_HUFCODE_BITS + 1 && temp != permute
      modifies limit, permute, temp
      ensures permute[..|lengths|] == Order(lengths)
      ensures forall l :: minLen <= l <= maxLen ==> temp[l] == 0
    {
      OrderIsComplete(lengths);
      BelowMin(lengths, minLen, minLen, maxLen);
      var pp := 0;
      var i := minLen;
      while i <= maxLen
        invariant minLen <= i <= maxLen + 1
        invariant pp == |PositionsBelow(lengths, i)| <= |lengths|
        invariant permute[..pp] == PositionsBelow(lengths, i)
        invariant forall l :: minLen <= l < i ==> temp[l] == 0
      {
        temp[i] := 0;
        limit[i - 1] := 0;
        pp := CollectSymbols(lengths, i, pp);
        i := i + 1;
      }
      AboveMax(lengths, maxLen + 1, minLen, maxLen);
    }

    // How many codes there are of each length, in single bytes.
    method CountLengths(lengths: seq<byte>, temp: array<nat>)
      requires Valid() && CodeLengths(lengths) && Spans(lengths, minLen, maxLen)
      requires temp.Length == MAX_HUFCODE_BITS + 1
      requires forall l :: minLen <= l <= maxLen ==> temp[l] == 0
      modifies temp
      ensures forall l :: minLen <= l <= maxLen ==> temp[l] == Wrapped(lengths)[l]
    {
      var i := 0;
      while i < |lengths|
        invariant 0 <= i <= |lengths|
        invariant forall l :: minLen <= l <= maxLen ==> temp[l] == |Positions(lengths[..i], l)| % 256
      {
        forall l: byte
          ensures |Positions(lengths[..i + 1], l)| == |Positions(lengths[..i], l)| + if l == lengths[i] then 1 else 0
        {
          PositionsStep(lengths, i, l);
        }
        temp[lengths[i]] := (temp[lengths[i]] + 1) % 256;
        i := i + 1;
      }
      assert lengths[..i] == lengths;
    }

    // limit and base from the counters. Shifting left doubles.
    method FillTables(c: seq<nat>, temp: array<nat>)
      requires Valid() && 1 <= minLen <= maxLen <= MAX_HUFCODE_BITS
      requires temp.Length == MAX_HUFCODE_BITS + 1 && |c| == 22
      requires forall l :: minLen <= l <= maxLen ==> temp[l] == c[l]
      requires forall l :: 0 <= l < minLen ==> c[l] == 0
      modifies limit, base
      ensures forall l :: minLen <= l <= maxLen ==> limit[l - 1] == Limit(c, l, maxLen)
      ensures limit[maxLen] == INT_MAX
      ensures forall l :: minLen <= l <= maxLen ==> base[l - 1] == First(c, l) - Below(c, l)
    {
      hide First, Below, Limit, Pow2;
      NothingBelow(c, minLen);
      var pp, t := 0, 0;
      var i := minLen;
      while i < maxLen
        invariant minLen <= i <= maxLen
        invariant pp == First(c, i) && t == Below(c, i)
        invariant forall l :: minLen <= l < i ==> limit[l - 1] == Limit(c, l, maxLen)
        invariant forall l :: minLen < l <= i ==> base[l - 1] == First(c, l) - Below(c, l)
      {
        FillStep(c, i, maxLen);
        pp := pp + temp[i];
        limit[i - 1] := pp * Pow2(maxLen - i) - 1;
        pp := 2 * pp;
        t := t + temp[i];
        base[i] := pp - t;
        i := i + 1;
      }
      LastLimit(c, maxLen);
      limit[maxLen] := INT_MAX;
      limit[maxLen - 1] := pp + temp[maxLen] - 1;
      base[minLen - 1] := 0;
    }

    // All the tables, from the lengths.
    method BuildTables(lengths: seq<byte>)
      requires Valid() && CodeLengths(lengths)
      modifies this, limit, base, permute
      ensures TablesOf(lengths)
    {
      var temp := new nat[MAX_HUFCODE_BITS + 1];
      FindRange(lengths);
      SortSymbols(lengths, temp);
      CountLengths(lengths, temp);
      OrderIsComplete(lengths);
      NoneShorter(lengths, minLen, maxLen);
      FillTables(Wrapped(lengths), temp);
    }

    // What the tables make of j: the least length whose limit j does not exceed, and the symbol
    // at the place that the base of that length gives.
    method LookUp(j: nat, ghost lengths: seq<byte>) returns (r: Decoded)
      requires TablesOf(lengths) && j < INT_MAX
      ensures r == Decode(Wrapped(lengths), Order(lengths), MinLen(lengths), MaxLen(lengths), j)
      ensures r.Symbol? ==> r.symbol < |lengths| && 1 <= r.length <= maxLen
    {
      hide Limit, First, Below, Order, Wrapped, Pow2, CodeLength;
      ghost var c := Wrapped(lengths);
      var i := minLen;
      while j > limit[i - 1]
        invariant minLen <= i <= maxLen + 1
        invariant CodeLength(c, i, maxLen, j) == CodeLength(c, minLen, maxLen, j)
        decreases maxLen + 1 - i
      {
        CodeLengthStep(c, i, maxLen, j);
        i := i + 1;
      }
      CodeLengthStep(c, i, maxLen, j);
      if i > maxLen {
        return Invalid;
      }
      IndexInOrder(lengths, minLen, maxLen, j);
      OrderIsComplete(lengths);
      OrderInRange(lengths);
      var k := j / Pow2(maxLen - i) - base[i - 1];
      if k < 0 || k >= MAX_SYMBOLS {
        return Invalid;
      }
      return Symbol(permute[k], i);
    }

    // Reads one symbol: maxLen bits at once, of which those past the code are given back. Once
    // the input has ended some symbol is read, if any.
    method DecodeSymbol(bd: Reader, ghost lengths: seq<byte>) returns (r: Decoded)
      requires TablesOf(lengths) && bd.Sound()
      modifies bd
      ensures bd.Sound() && (r.Symbol? ==> r.symbol < |lengths|)
      ensures old(bd.Has(maxLen)) ==>
                && !bd.ioError && r == ReadSymbol(lengths, bd.inbuf, old(bd.Position()))
                && (r.Symbol? ==> bd.Position() == old(bd.Position()) + r.length)
      ensures !old(bd.Has(maxLen)) ==> bd.ioError
    {
      hide Field, Holds, Order, Wrapped, Pow2, Decode, TablesFor;
      var j := bd.GetBits(maxLen);
      BelowSentinel(j, maxLen);
      r := LookUp(j, lengths);
      if r.Symbol? {
        bd.Unget(maxLen - r.length);
      }
    }
  }
}
