// What an LZMA stream says: the bits that code each packet, and the packets' meaning as
// operations on the output so far.
module LzmaCode {
  import opened Bytes
  import opened Powers
  import opened RangeCoder
  import W = LzmaWindow

  const IS_MATCH := 0
  const IS_REP := 192
  const IS_REP_G0 := 204
  const IS_REP_G1 := 216
  const IS_REP_G2 := 228
  const IS_REP_0_LONG := 240
  const POS_SLOT := 432
  const SPEC_POS := 688
  const ALIGN := 802
  const LEN_CODER := 818
  const REP_LEN_CODER := 1332
  const LITERAL := 1846

  const LEN_LOW := 2
  const LEN_MID := 130
  const LEN_HIGH := 258

  // Literal context bits, literal position bits, position bits.
  datatype Props = Props(lc: nat, lp: nat, pb: nat)

  predicate InRange(props: Props)
  {
    props.lc <= 8 && props.lp <= 4 && props.pb <= 4
  }

  function NumProbs(props: Props): (n: nat)
    ensures n >= LITERAL
  {
    LITERAL + LiteralProbs(props.lc + props.lp)
  }

  // 768, shifted left.
  function LiteralProbs(bits: nat): nat
  {
    if bits == 0 then 768 else 2 * LiteralProbs(bits - 1)
  }

  lemma {:induction false} LiteralProbsIs(bits: nat)
    ensures LiteralProbs(bits) == 768 * Pow2(bits)
  {
    if bits > 0 {
      LiteralProbsIs(bits - 1);
    }
  }

  // The probabilities all start at one half.
  function StartProbs(props: Props): (r: seq<nat>)
    ensures |r| == NumProbs(props) && InBounds(r)
  {
    seq(NumProbs(props), _ => 1024)
  }

  function PosState(props: Props, pos: nat): (r: nat)
    ensures props.pb <= 4 ==> r < 16
  {
    if props.pb <= 4 then Pow2Monotone(props.pb, 4); Masked(pos, props.pb) else 0
  }

  // The literal coder in use depends on the position and on the high bits of the last byte.
  function LiteralBase(props: Props, pos: nat, previous: byte): nat
  {
    LITERAL + 768 * Joined(Masked(pos, props.lp), Shifted(previous, Less(8, props.lc)), props.lc)
  }

  function Masked(x: nat, bits: nat): (r: nat)
    ensures r < Pow2(bits)
  {
    Remainder(x, Pow2(bits))
  }

  function Shifted(x: nat, bits: nat): nat
  {
    Quotient(x, Pow2(bits))
  }

  function Joined(high: nat, low: nat, bits: nat): nat
  {
    high * Pow2(bits) + low
  }

  lemma JoinedBelow(high: nat, low: nat, m: nat, n: nat)
    requires high < Pow2(m) && low < Pow2(n)
    ensures Joined(high, low, n) < Pow2(n + m)
  {
    hide Pow2;
    DigitsBelow(high, low, Pow2(m), Pow2(n));
    Pow2Add(m, n);
  }

  lemma LiteralBaseFits(props: Props, pos: nat, previous: byte)
    requires InRange(props)
    ensures LiteralBase(props, pos, previous) + 768 <= NumProbs(props)
  {
    hide *;
    LiteralBaseIs(props, pos, previous);
    ByteBits(props.lc, previous);
    JoinedBelow(Masked(pos, props.lp), Shifted(previous, 8 - props.lc), props.lp, props.lc);
  }

  lemma LiteralBaseIs(props: Props, pos: nat, previous: byte)
    requires InRange(props)
    ensures props.lc <= 8 && props.lp <= 4
    ensures LiteralBase(props, pos, previous)
         == LITERAL + 768 * Joined(Masked(pos, props.lp), Shifted(previous, 8 - props.lc), props.lc)
    ensures NumProbs(props) == LITERAL + 768 * Pow2(props.lc + props.lp)
  {
    hide Joined, Masked, Shifted, Pow2, LiteralProbs;
    LiteralProbsIs(props.lc + props.lp);
  }

  lemma ByteBits(lc: nat, x: byte)
    requires lc <= 8
    ensures Shifted(x, 8 - lc) < Pow2(lc)
  {
    Pow2Add(lc, 8 - lc);
    assert Pow2(8) == 256;
    HighBits(x, Pow2(lc), Pow2(8 - lc));
  }

  lemma JoinedTwice(high: nat, bits: nat)
    ensures Joined(high, 0, bits + 1) == 2 * Joined(high, 0, bits)
  {
    Triple(high, 2, Pow2(bits));
    Triple(2, high, Pow2(bits));
  }

  lemma HighBits(x: nat, a: nat, b: nat)
    requires b > 0 && x < a * b
    ensures Quotient(x, b) < a
  {
    if x / b >= a {
      MulMonotone(a, x / b, b);
    }
  }

  // ----- numbers as bits -----

  function High(v: nat, n: nat): (b: nat)
    ensures b <= 1
  {
    if v < Pow2(n) then 0 else 1
  }

  function Low(v: nat, n: nat): nat
  {
    if v < Pow2(n) then v else v - Pow2(n)
  }

  // The n low bits of v, most significant first, down a tree from node m.
  function TreeOps(base: nat, m: nat, n: nat, v: nat, rest: seq<Op>): seq<Op>
    decreases n
  {
    if n == 0 then rest
    else [Bit(base + m, High(v, n - 1))] + TreeOps(base, 2 * m + High(v, n - 1), n - 1, Low(v, n - 1), rest)
  }

  // The n low bits of v, least significant first, down a tree from node m.
  function ReverseOps(base: nat, m: nat, n: nat, v: nat, rest: seq<Op>): seq<Op>
    decreases n
  {
    if n == 0 then rest
    else [Bit(base + m, v % 2)] + ReverseOps(base, 2 * m + v % 2, n - 1, v / 2, rest)
  }

  // The n low bits of v, most significant first, without probabilities.
  function DirectOps(n: nat, v: nat, rest: seq<Op>): seq<Op>
    decreases n
  {
    if n == 0 then rest
    else [Direct(High(v, n - 1))] + DirectOps(n - 1, Low(v, n - 1), rest)
  }

  // The n low bits of v, with the bits of guess as context up to the first difference.
  function MatchedOps(base: nat, m: nat, n: nat, guess: nat, v: nat, rest: seq<Op>): seq<Op>
    decreases n
  {
    if n == 0 then rest
    else
      var e, b := High(guess, n - 1), High(v, n - 1);
      [Bit(base + 256 + 256 * e + m, b)]
      + if b == e then MatchedOps(base, 2 * m + b, n - 1, Low(guess, n - 1), Low(v, n - 1), rest)
        else TreeOps(base, 2 * m + b, n - 1, Low(v, n - 1), rest)
  }

  function LengthOps(base: nat, posState: nat, extra: nat, rest: seq<Op>): seq<Op>
  {
    if extra < 8 then [Bit(base, 0)] + TreeOps(base + LEN_LOW + 8 * posState, 1, 3, extra, rest)
    else if extra < 16
    then [Bit(base, 1)] + ([Bit(base + 1, 0)] + TreeOps(base + LEN_MID + 8 * posState, 1, 3, extra - 8, rest))
    else [Bit(base, 1)] + ([Bit(base + 1, 1)] + TreeOps(base + LEN_HIGH, 1, 8, extra - 16, rest))
  }

  // ----- distances: a slot for the two top bits and the magnitude, then the bits below -----

  function Slot(d: nat): nat
  {
    if d < 4 then d else Slot(d / 2) + 2
  }

  function SlotBits(slot: nat): nat
  {
    if slot < 4 then 0 else slot / 2 - 1
  }

  function SlotBase(slot: nat): nat
  {
    if slot < 4 then slot else Joined(2 + slot % 2, 0, SlotBits(slot))
  }

  // Slots cut the numbers into consecutive intervals.
  lemma {:induction false} SlotHolds(d: nat)
    ensures SlotBase(Slot(d)) <= d < SlotBase(Slot(d)) + Pow2(SlotBits(Slot(d)))
    ensures d >= 4 ==> Slot(d) >= 4
  {
    if d >= 4 {
      SlotHolds(d / 2);
      SlotDoubles(Slot(d / 2));
    }
  }

  lemma SlotDoubles(slot: nat)
    requires slot >= 2
    ensures SlotBase(slot + 2) == 2 * SlotBase(slot) && Pow2(SlotBits(slot + 2)) == 2 * Pow2(SlotBits(slot))
  {
    if slot >= 4 {
      hide Joined;
      TwoMore(slot);
      JoinedTwice(2 + slot % 2, SlotBits(slot));
    } else {
      assert Pow2(1) == 2 && Joined(slot, 0, 1) == 2 * slot;
    }
  }

  lemma TwoMore(n: nat)
    ensures (n + 2) / 2 == n / 2 + 1 && (n + 2) % 2 == n % 2
  {
  }

  lemma {:induction false} SlotBelow(d: nat, k: nat)
    requires 1 <= k && d < Pow2(k)
    ensures Slot(d) < 2 * k
  {
    if d >= 4 {
      SlotBelow(d / 2, k - 1);
    } else if k == 1 {
      assert Pow2(1) == 2;
    }
  }

  // The bits below the slot: few ones have their own tree, many are sent plainly except
  // for the last four.
  function FooterOps(slot: nat, low: nat, rest: seq<Op>): seq<Op>
  {
    if slot < 4 then rest
    else if slot < 14 then ReverseOps(Less(SPEC_POS + SlotBase(slot), slot + 1), 1, SlotBits(slot), low, rest)
    else DirectOps(Less(SlotBits(slot), 4), low / 16, ReverseOps(ALIGN, 1, 4, low % 16, rest))
  }

  function Less(a: nat, b: nat): nat
  {
    if a >= b then a - b else 0
  }

  function DistanceOps(extra: nat, d: nat, rest: seq<Op>): seq<Op>
  {
    TreeOps(POS_SLOT + 64 * (if extra < 4 then extra else 3), 1, 6, Slot(d),
            FooterOps(Slot(d), Less(d, SlotBase(Slot(d))), rest))
  }

  // ----- packets -----

  // A new distance of 2^32 marks the end.
  datatype Packet =
    | Literal(b: byte)
    | Match(dist: nat, len: nat)
    | ShortRep
    | Rep(index: nat, len: nat)

  // The coder's state: which packets came last, the four last distances, and the output.
  datatype Coder = Coder(state: nat, reps: seq<nat>, hist: seq<byte>)

  const START := Coder(0, [1, 1, 1, 1], [])

  // Each distance is 1 or has been used: it lies in the dictionary and in the output.
  predicate Reach(reps: seq<nat>, pos: nat, dict: nat)
  {
    forall i :: 0 <= i < |reps| ==> 1 <= reps[i] <= dict && (reps[i] == 1 || reps[i] <= pos)
  }

  predicate Coherent(c: Coder, dict: nat)
  {
    && c.state < 12 && |c.reps| == 4 && 1 <= dict
    && (c.hist == [] ==> c.state == 0)
    && Reach(c.reps, |c.hist|, dict)
  }

  predicate IsEnd(pk: Packet)
  {
    pk.Match? && pk.dist == WORD
  }

  // The packets an encoder may send after the output c.hist, for a total of size bytes.
  predicate Legal(c: Coder, pk: Packet, dict: nat, size: nat)
  {
    && |c.hist| < size
    && match pk
       case Literal(_) => true
       case Match(dist, len) =>
         && 2 <= len <= 273
         && (dist == WORD || (1 <= dist <= dict && dist <= |c.hist| && |c.hist| + len <= size))
       case ShortRep => c.hist != []
       case Rep(index, len) => c.hist != [] && index < 4 && 2 <= len <= 273 && |c.hist| + len <= size
  }

  function AfterLiteral(state: nat): nat
  {
    if state < 4 then 0 else if state < 10 then state - 3 else state - 6
  }

  function After(state: nat, early: nat, late: nat): nat
  {
    if state < 7 then early else late
  }

  // The distance used last moves to the front.
  function ToFront(reps: seq<nat>, i: nat): (r: seq<nat>)
    requires i < |reps|
    ensures |r| == |reps|
  {
    [reps[i]] + reps[..i] + reps[i + 1..]
  }

  // The meaning of a packet.
  function Next(c: Coder, pk: Packet, dict: nat, size: nat): (c': Coder)
    requires Coherent(c, dict) && Legal(c, pk, dict, size)
    ensures !IsEnd(pk) ==> Coherent(c', dict) && |c.hist| < |c'.hist| <= size
    ensures c.hist <= c'.hist
  {
    match pk
    case Literal(b) => Coder(AfterLiteral(c.state), c.reps, c.hist + [b])
    case Match(dist, len) =>
      if dist == WORD then Coder(After(c.state, 7, 10), [0] + c.reps[..3], c.hist)
      else Coder(After(c.state, 7, 10), [dist] + c.reps[..3], W.LzCopy(c.hist, dist, len))
    case ShortRep => Coder(After(c.state, 9, 11), c.reps, W.LzCopy(c.hist, c.reps[0], 1))
    case Rep(index, len) => Coder(After(c.state, 8, 11), ToFront(c.reps, index), W.LzCopy(c.hist, c.reps[index], len))
  }

  // A whole stream: legal packets up to the announced size, or up to an end mark.
  ghost predicate Stream(c: Coder, pks: seq<Packet>, dict: nat, size: nat)
    decreases |pks|
  {
    if pks == [] then |c.hist| == size
    else
      && Coherent(c, dict) && Legal(c, pks[0], dict, size)
      && (if IsEnd(pks[0]) then |pks| == 1 else Stream(Next(c, pks[0], dict, size), pks[1..], dict, size))
  }

  function Run(c: Coder, pks: seq<Packet>, dict: nat, size: nat): Coder
    requires Stream(c, pks, dict, size)
    decreases |pks|
  {
    if pks == [] then c
    else if IsEnd(pks[0]) then Next(c, pks[0], dict, size)
    else Run(Next(c, pks[0], dict, size), pks[1..], dict, size)
  }

  // ----- the bits of a packet -----

  // Which of the last distances, or just one byte at the very last.
  function ChoiceOps(state: nat, posState: nat, short: bool, index: nat, rest: seq<Op>): seq<Op>
  {
    if short then [Bit(IS_REP_G0 + state, 0)] + ([Bit(IS_REP_0_LONG + 16 * state + posState, 0)] + rest)
    else if index == 0 then [Bit(IS_REP_G0 + state, 0)] + ([Bit(IS_REP_0_LONG + 16 * state + posState, 1)] + rest)
    else if index == 1 then [Bit(IS_REP_G0 + state, 1)] + ([Bit(IS_REP_G1 + state, 0)] + rest)
    else
      [Bit(IS_REP_G0 + state, 1)]
      + ([Bit(IS_REP_G1 + state, 1)] + ([Bit(IS_REP_G2 + state, if index == 2 then 0 else 1)] + rest))
  }

  function LiteralOps(props: Props, c: Coder, b: byte, rest: seq<Op>): seq<Op>
  {
    var base := LiteralBase(props, |c.hist|, W.Last(c.hist));
    if c.state >= 7 && c.reps != [] && 1 <= c.reps[0] <= |c.hist| then
      MatchedOps(base, 1, 8, c.hist[|c.hist| - c.reps[0]], b, rest)
    else TreeOps(base, 1, 8, b, rest)
  }

  // What follows the flag that tells old distances from new ones.
  function FlagOps(props: Props, c: Coder, pk: Packet, rest: seq<Op>): seq<Op>
  {
    var posState := PosState(props, |c.hist|);
    match pk
    case Literal(_) => rest
    case Match(dist, len) => LengthOps(LEN_CODER, posState, Less(len, 2),
                                       DistanceOps(Less(len, 2), Less(dist, 1), rest))
    case ShortRep => ChoiceOps(c.state, posState, true, 0, rest)
    case Rep(index, len) => ChoiceOps(c.state, posState, false, index,
                                      LengthOps(REP_LEN_CODER, posState, Less(len, 2), rest))
  }

  function RepFlag(pk: Packet): nat
  {
    if pk.Match? then 0 else 1
  }

  function PacketOps(props: Props, c: Coder, pk: Packet, rest: seq<Op>): seq<Op>
  {
    var ctx := IS_MATCH + 16 * c.state + PosState(props, |c.hist|);
    if pk.Literal? then [Bit(ctx, 0)] + LiteralOps(props, c, pk.b, rest)
    else [Bit(ctx, 1)] + ([Bit(IS_REP + c.state, RepFlag(pk))] + FlagOps(props, c, pk, rest))
  }

  // The bits of a whole stream.
  function Script(props: Props, c: Coder, pks: seq<Packet>, dict: nat, size: nat): seq<Op>
    requires Stream(c, pks, dict, size)
    decreases |pks|, 1
  {
    if pks == [] then [] else PacketOps(props, c, pks[0], ScriptAfter(props, c, pks, dict, size))
  }

  // The bits after the first packet.
  function ScriptAfter(props: Props, c: Coder, pks: seq<Packet>, dict: nat, size: nat): seq<Op>
    requires pks != [] && Stream(c, pks, dict, size)
    decreases |pks|, 0
  {
    if IsEnd(pks[0]) then [] else Script(props, Next(c, pks[0], dict, size), pks[1..], dict, size)
  }
}
