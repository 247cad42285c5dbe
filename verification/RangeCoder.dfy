// The adaptive binary range decoder of the LZMA decoder. An encoder is specified by the
// interval it narrows; decoding any number inside the interval is proved to give back the
// bits that narrowed it.
module RangeCoder {
  import opened Bytes
  import opened Powers

  const TOP := 0x1000000        // normalisation keeps the range at or above 2^24
  const TOTAL := 2048           // probabilities have 11 bits
  const WORD := 0x100000000

  // ----- probabilities -----

  predicate InBounds(probs: seq<nat>)
  {
    forall i :: 0 <= i < |probs| ==> 31 <= probs[i] <= 2017
  }

  // What a decoded bit does to its probability.
  function Adapt(p: nat, bit: nat): (q: nat)
    requires p <= TOTAL
    ensures 31 <= p <= 2017 ==> 31 <= q <= 2017
  {
    if bit == 0 then p + (TOTAL - p) / 32 else p - p / 32
  }

  // The part of a range that a probability of p in 2048 takes.
  function Share(p: nat, r: nat): nat
  {
    p * (r / TOTAL)
  }

  // A bit moves its probability towards itself by a 32nd of the way, rounded down,
  lemma AdaptExact(p: nat, bit: nat)
    requires p <= TOTAL
    ensures bit == 0 ==> var q := Adapt(p, bit); 32 * (q - p) <= TOTAL - p < 32 * (q - p) + 32
    ensures bit != 0 ==> var q := Adapt(p, bit); 32 * (p - q) <= p < 32 * (p - q) + 32
    ensures Adapt(p, bit) <= TOTAL
  {
  }

  // so that its own part of a range never gets smaller,
  lemma OwnShareGrows(p: nat, r: nat)
    requires p <= TOTAL
    ensures Share(Adapt(p, 0), r) >= Share(p, r)
    ensures r - Share(Adapt(p, 1), r) >= r - Share(p, r)
  {
    hide Adapt;
    AdaptExact(p, 0);
    AdaptExact(p, 1);
    MulMonotone(p, Adapt(p, 0), r / TOTAL);
    MulMonotone(Adapt(p, 1), p, r / TOTAL);
  }

  // and one bit over and over brings it to its bound, where it stays.
  function AdaptedBy(p: nat, bit: nat, n: nat): (q: nat)
    requires p <= TOTAL
    ensures q <= TOTAL
    decreases n
  {
    if n == 0 then p
    else
      AdaptExact(p, bit);
      AdaptedBy(Adapt(p, bit), bit, n - 1)
  }

  lemma {:induction false} ZerosSettle(p: nat, n: nat)
    requires p <= 2017
    ensures p <= AdaptedBy(p, 0, n) <= 2017
    ensures n >= 2017 - p ==> AdaptedBy(p, 0, n) == 2017
    decreases n
  {
    if n > 0 {
      ZerosSettle(Adapt(p, 0), n - 1);
    }
  }

  lemma {:induction false} OnesSettle(p: nat, n: nat)
    requires 31 <= p <= TOTAL
    ensures 31 <= AdaptedBy(p, 1, n) <= p
    ensures n >= p - 31 ==> AdaptedBy(p, 1, n) == 31
    decreases n
  {
    if n > 0 {
      OnesSettle(Adapt(p, 1), n - 1);
    }
  }

  // ----- the encoder, as specified -----

  // A bit coded with the probability at ctx, or one coded without.
  datatype Op = Bit(ctx: nat, bit: nat) | Direct(bit: nat)

  predicate Fits(op: Op, n: nat)
  {
    op.bit <= 1 && (op.Bit? ==> op.ctx < n)
  }

  predicate AllFit(ops: seq<Op>, n: nat)
  {
    forall i :: 0 <= i < |ops| ==> Fits(ops[i], n)
  }

  // The number spelled by bytes, most significant first.
  function Value(s: seq<byte>): (v: nat)
    ensures v < Base(|s|)
  {
    if s == [] then 0
    else
      DigitFits(s[0], Base(|s| - 1), Value(s[1..]));
      s[0] * Base(|s| - 1) + Value(s[1..])
  }

  lemma DigitFits(x: byte, weight: nat, low: nat)
    requires low < weight
    ensures 0 <= x * weight && x * weight + low < 256 * weight
  {
    var above: int := x + 1;
    MulMonotone(above, 256, weight);
  }

  // Whether the range is widened by a byte before the next bit, and to what.
  function Widened(range: nat): nat
  {
    if range < TOP then 256 * range else range
  }

  function Shifts(range: nat): nat
  {
    if range < TOP then 1 else 0
  }

  // The part of the widened range that bit 0 takes.
  function Bound(r: nat, probs: seq<nat>, op: Op): (b: nat)
    requires InBounds(probs) && Fits(op, |probs|)
    ensures b <= r
  {
    if op.Direct? then r / 2
    else
      BoundBelow(probs[op.ctx], r);
      Share(probs[op.ctx], r)
  }

  // What is left of the range: a direct bit splits it in two halves, and drops an odd unit.
  function Narrowed(r: nat, probs: seq<nat>, op: Op): nat
    requires InBounds(probs) && Fits(op, |probs|)
  {
    if op.bit == 0 || op.Direct? then Bound(r, probs, op) else r - Bound(r, probs, op)
  }

  function Adapted(probs: seq<nat>, op: Op): (r: seq<nat>)
    requires InBounds(probs) && Fits(op, |probs|)
    ensures InBounds(r) && |r| == |probs|
  {
    if op.Direct? then probs else probs[op.ctx := Adapt(probs[op.ctx], op.bit)]
  }

  lemma BoundBelow(p: nat, r: nat)
    requires p <= TOTAL
    ensures Share(p, r) <= r
  {
    MulMonotone(p, TOTAL, r / TOTAL);
  }

  // The interval a list of bits narrows a range to, as an offset from the range's start
  // and a width, both in units of 1/256^shifts of the range's unit.
  datatype Span = Span(lo: nat, width: nat, shifts: nat)

  function Interval(range: nat, probs: seq<nat>, ops: seq<Op>): Span
    requires InBounds(probs) && AllFit(ops, |probs|)
    decreases |ops|
  {
    if ops == [] then Span(0, range, 0)
    else
      var op, r := ops[0], Widened(range);
      var rest := Interval(Narrowed(r, probs, op), Adapted(probs, op), ops[1..]);
      Span((if op.bit == 0 then 0 else Product(Bound(r, probs, op), Base(rest.shifts))) + rest.lo, rest.width,
           Shifts(range) + rest.shifts)
  }

  // code, followed by the next input bytes, lies in the interval of ops.
  predicate Aims(code: nat, range: nat, probs: seq<nat>, input: seq<byte>, ptr: nat, ops: seq<Op>)
    requires InBounds(probs) && AllFit(ops, |probs|)
  {
    var s := Interval(range, probs, ops);
    ptr + s.shifts <= |input| &&
    s.lo <= code * Base(s.shifts) + Value(input[ptr..ptr + s.shifts]) < s.lo + s.width
  }

  // ----- the interval stays inside the range -----

  lemma {:induction false} BaseAdd(m: nat, n: nat)
    ensures Base(m + n) == Base(m) * Base(n)
  {
    if m > 0 {
      BaseAdd(m - 1, n);
      Triple(256, Base(m - 1), Base(n));
    }
  }

  lemma {:induction false} IntervalInside(range: nat, probs: seq<nat>, ops: seq<Op>)
    requires InBounds(probs) && AllFit(ops, |probs|)
    ensures var s := Interval(range, probs, ops); s.lo + s.width <= range * Base(s.shifts)
    decreases |ops|
  {
    if ops != [] {
      var op, r := ops[0], Widened(range);
      var bound := Bound(r, probs, op);
      var left := Narrowed(r, probs, op);
      IntervalInside(left, Adapted(probs, op), ops[1..]);
      var rest := Interval(left, Adapted(probs, op), ops[1..]);
      hide Bound, Narrowed, Adapted, Interval;
      PartInside(r, probs, op);
      ScaledInside(rest, left, if op.bit == 0 then 0 else bound, r);
      BaseAdd(Shifts(range), rest.shifts);
      assert r * Base(rest.shifts) == range * Base(Shifts(range) + rest.shifts) by {
        WidenedScaled(range, rest.shifts);
      }
    }
  }

  lemma WidenedScaled(range: nat, m: nat)
    ensures Widened(range) * Base(m) == range * Base(Shifts(range) + m)
  {
    if range < TOP {
      Triple(range, 256, Base(m));
    }
  }

  lemma PartInside(r: nat, probs: seq<nat>, op: Op)
    requires InBounds(probs) && Fits(op, |probs|)
    ensures (if op.bit == 0 then 0 else Bound(r, probs, op)) + Narrowed(r, probs, op) <= r
  {
  }

  lemma ScaledInside(rest: Span, left: nat, offset: nat, r: nat)
    requires rest.lo + rest.width <= left * Base(rest.shifts) && offset + left <= r
    ensures offset * Base(rest.shifts) + rest.lo + rest.width <= r * Base(rest.shifts)
  {
    Distribute(offset, left, Base(rest.shifts));
    MulMonotone(offset + left, r, Base(rest.shifts));
  }

  // ----- every list of bits has an encoding -----

  function Spelled(v: nat, n: nat): (s: seq<byte>)
    ensures |s| == n
  {
    if n == 0 then [] else Spelled(v / 256, n - 1) + [v % 256]
  }

  lemma {:induction false} SpelledValue(v: nat, n: nat)
    requires v < Base(n)
    ensures Value(Spelled(v, n)) == v
  {
    if n > 0 {
      SpelledValue(v / 256, n - 1);
      ValueAppend(Spelled(v / 256, n - 1), v % 256);
    }
  }

  lemma {:induction false} ValueSplit(s: seq<byte>, t: seq<byte>)
    ensures Value(s + t) == Value(s) * Base(|t|) + Value(t)
  {
    if s == [] {
      assert s + t == t;
    } else {
      ValueSplit(s[1..], t);
      assert (s + t)[1..] == s[1..] + t;
      BaseAdd(|s| - 1, |t|);
      Triple(s[0], Base(|s| - 1), Base(|t|));
      Distribute(s[0] * Base(|s| - 1), Value(s[1..]), Base(|t|));
    }
  }

  lemma {:induction false} WidthPositive(range: nat, probs: seq<nat>, ops: seq<Op>)
    requires InBounds(probs) && AllFit(ops, |probs|) && 0x10000 <= range < WORD
    ensures Interval(range, probs, ops).width > 0
    decreases |ops|
  {
    if ops != [] {
      NarrowedBounds(Widened(range), probs, ops[0]);
      WidthPositive(Narrowed(Widened(range), probs, ops[0]), Adapted(probs, ops[0]), ops[1..]);
    }
  }

  // The bytes of the interval's lower end, after the byte that is shifted out.
  function Encoded(probs: seq<nat>, ops: seq<Op>): seq<byte>
    requires InBounds(probs) && AllFit(ops, |probs|)
  {
    var s := Interval(WORD - 1, probs, ops);
    [0] + Spelled(s.lo, 4 + s.shifts)
  }

  lemma EncodedAims(probs: seq<nat>, ops: seq<Op>)
    requires InBounds(probs) && AllFit(ops, |probs|)
    ensures var input := Encoded(probs, ops);
            |input| >= 5 && Aims(Value(input[1..5]), WORD - 1, probs, input, 5, ops)
  {
    hide Interval, Value, Base, Spelled, InBounds, AllFit;
    var s, input := Interval(WORD - 1, probs, ops), Encoded(probs, ops);
    IntervalInside(WORD - 1, probs, ops);
    WidthPositive(WORD - 1, probs, ops);
    EncodedFits(s);
    SpelledValue(s.lo, 4 + s.shifts);
    var head, tail := input[1..5], input[5..5 + s.shifts];
    assert head + tail == Spelled(s.lo, 4 + s.shifts);
    ValueSplit(head, tail);
  }

  lemma EncodedFits(s: Span)
    requires s.width > 0 && s.lo + s.width <= (WORD - 1) * Base(s.shifts)
    ensures s.lo < Base(4 + s.shifts)
  {
    BaseAdd(4, s.shifts);
    FourBytes();
    hide Base;
    MulMonotone(WORD - 1, WORD, Base(s.shifts));
  }

  lemma FourBytes()
    ensures Base(4) == WORD
  {
  }

  // ----- decoding one bit -----

  // Aiming inside the range means being below its end.
  lemma AimsBelow(code: nat, range: nat, probs: seq<nat>, input: seq<byte>, ptr: nat, ops: seq<Op>)
    requires InBounds(probs) && AllFit(ops, |probs|)
    requires Aims(code, range, probs, input, ptr, ops)
    ensures code < range
  {
    IntervalInside(range, probs, ops);
    hide Interval, Value, Base;
    var s := Interval(range, probs, ops);
    if code >= range {
      MulMonotone(range, code, Base(s.shifts));
    }
  }

  // Widening reads one byte and keeps the aim.
  lemma WidenedAim(code: nat, range: nat, input: seq<byte>, ptr: nat, m: nat)
    requires ptr + Shifts(range) + m <= |input|
    ensures var code1 := if range < TOP then 256 * code + input[ptr] else code;
            code1 * Base(m) + Value(input[ptr + Shifts(range)..ptr + Shifts(range) + m])
            == code * Base(Shifts(range) + m) + Value(input[ptr..ptr + Shifts(range) + m])
  {
    if range < TOP {
      var s := input[ptr..ptr + 1 + m];
      assert s[0] == input[ptr] && s[1..] == input[ptr + 1..ptr + 1 + m];
      assert Value(s) == input[ptr] * Base(m) + Value(s[1..]);
      Distribute(256 * code, input[ptr], Base(m));
      assert 256 * code * Base(m) == code * (256 * Base(m));
    }
  }

  lemma IntervalStep(range: nat, probs: seq<nat>, op: Op, rest: seq<Op>)
    requires InBounds(probs) && Fits(op, |probs|) && AllFit(rest, |probs|) && AllFit([op] + rest, |probs|)
    ensures var r := Widened(range);
            var tail := Interval(Narrowed(r, probs, op), Adapted(probs, op), rest);
            Interval(range, probs, [op] + rest)
            == Span((if op.bit == 0 then 0 else Bound(r, probs, op) * Base(tail.shifts)) + tail.lo, tail.width,
                    Shifts(range) + tail.shifts)
  {
    hide Bound, Narrowed, Adapted, Base, InBounds;
    assert ([op] + rest)[1..] == rest;
  }

  // One step of decoding: the aim tells the bit, and what is left aims at the rest.
  lemma DecodeStep(code: nat, range: nat, probs: seq<nat>, input: seq<byte>, ptr: nat, op: Op, rest: seq<Op>)
    requires InBounds(probs) && Fits(op, |probs|) && AllFit(rest, |probs|) && AllFit([op] + rest, |probs|)
    requires Aims(code, range, probs, input, ptr, [op] + rest)
    ensures range < TOP ==> ptr < |input|
    ensures var code1 := if range < TOP then 256 * code + input[ptr] else code;
            var bound := Bound(Widened(range), probs, op);
            && (code1 < bound <==> op.bit == 0)
            && Aims(if op.bit == 0 then code1 else code1 - bound, Narrowed(Widened(range), probs, op),
                    Adapted(probs, op), input, ptr + Shifts(range), rest)
  {
    hide Interval, Bound, Narrowed, Adapted, Value, Base, InBounds, AllFit, Fits;
    var r := Widened(range);
    var bound, left, probs' := Bound(r, probs, op), Narrowed(r, probs, op), Adapted(probs, op);
    var tail := Interval(left, probs', rest);
    IntervalInside(left, probs', rest);
    IntervalStep(range, probs, op, rest);
    LeftOfZero(r, probs, op);
    WidenedAim(code, range, input, ptr, tail.shifts);
    var code1 := if range < TOP then 256 * code + input[ptr] else code;
    Split(code1, bound, op.bit == 0, left, Base(tail.shifts),
          Value(input[ptr + Shifts(range)..ptr + Shifts(range) + tail.shifts]), tail.lo, tail.width);
  }

  lemma LeftOfZero(r: nat, probs: seq<nat>, op: Op)
    requires InBounds(probs) && Fits(op, |probs|)
    ensures op.bit == 0 ==> Narrowed(r, probs, op) == Bound(r, probs, op)
  {
  }

  // Which side of the bound a number is on, told from its scaled position.
  lemma Split(code: nat, bound: nat, low: bool, left: nat, scale: nat, more: nat, lo: nat, width: nat)
    requires scale > 0 && more < scale && lo + width <= left * scale && (low ==> left == bound)
    requires var start := (if low then 0 else bound * scale) + lo;
             start <= code * scale + more < start + width
    ensures code < bound <==> low
    ensures lo <= (if low then code else code - bound) * scale + more < lo + width
  {
    if low {
      if code >= bound {
        MulMonotone(bound, code, scale);
      }
    } else {
      if code < bound {
        MulMonotone(code + 1, bound, scale);
        Distribute(code, 1, scale);
      }
      Distribute(code - bound, bound, scale);
    }
  }

  // ----- the range stays wide enough for one byte of normalisation -----

  lemma NarrowedBounds(r: nat, probs: seq<nat>, op: Op)
    requires InBounds(probs) && Fits(op, |probs|) && TOP <= r < WORD
    ensures 0 < Bound(r, probs, op) < r
    ensures 0x10000 <= Narrowed(r, probs, op) < WORD
  {
    if op.Bit? {
      var p, unit := probs[op.ctx], r / TOTAL;
      assert unit >= 8192;
      MulMonotone(31, p, unit);
      MulMonotone(p, 2017, unit);
      Distribute(TOTAL, -2017, unit);
    }
  }

  // The parts of one step, for a bit that is coded with a probability.
  lemma BitParts(r: nat, probs: seq<nat>, ctx: nat, bit: nat)
    requires InBounds(probs) && ctx < |probs| && bit <= 1 && TOP <= r < WORD
    ensures probs[ctx] <= TOTAL && 0 < Share(probs[ctx], r) == Bound(r, probs, Bit(ctx, bit)) < r
    ensures Narrowed(r, probs, Bit(ctx, bit)) == if bit == 0 then Share(probs[ctx], r) else r - Share(probs[ctx], r)
    ensures 0x10000 <= Narrowed(r, probs, Bit(ctx, bit)) < WORD
    ensures Adapted(probs, Bit(ctx, bit)) == probs[ctx := Adapt(probs[ctx], bit)]
  {
    NarrowedBounds(r, probs, Bit(ctx, bit));
  }

  lemma DirectParts(r: nat, probs: seq<nat>, bit: nat)
    requires InBounds(probs) && bit <= 1 && TOP <= r < WORD
    ensures r / 2 == Bound(r, probs, Direct(bit)) == Narrowed(r, probs, Direct(bit))
    ensures 0x10000 <= r / 2 < WORD
    ensures Adapted(probs, Direct(bit)) == probs
  {
  }

  lemma FitsSplit(op: Op, rest: seq<Op>, n: nat)
    requires AllFit([op] + rest, n)
    ensures Fits(op, n) && AllFit(rest, n)
  {
    var ops := [op] + rest;
    assert ops[0] == op;
    forall i | 0 <= i < |rest| ensures Fits(rest[i], n) {
      assert rest[i] == ops[i + 1];
    }
  }

  // One step of decoding, in the terms of the two methods that decode bits.
  lemma BitStep(code: nat, range: nat, probs: seq<nat>, input: seq<byte>, ptr: nat, ctx: nat, b: nat, rest: seq<Op>)
    requires InBounds(probs) && AllFit([Bit(ctx, b)] + rest, |probs|) && 0x10000 <= range < WORD
    requires Aims(code, range, probs, input, ptr, [Bit(ctx, b)] + rest)
    ensures ctx < |probs| && probs[ctx] <= TOTAL && AllFit(rest, |probs|) && (range < TOP ==> ptr < |input|)
    ensures var r, probs' := Widened(range), probs[ctx := Adapt(probs[ctx], b)];
            var code1 := if range < TOP then (256 * code + input[ptr]) % WORD else code;
            var bound := Share(probs[ctx], r);
            && 0 <= b <= 1 && (code1 < bound <==> b == 0) && bound <= r && InBounds(probs')
            && Aims(if b == 0 then code1 else code1 - bound, if b == 0 then bound else r - bound, probs', input,
                    ptr + Shifts(range), rest)
  {
    hide Aims, Interval, Bound, Narrowed, Adapted, InBounds, AllFit, Adapt, Share;
    FitsSplit(Bit(ctx, b), rest, |probs|);
    AimsBelow(code, range, probs, input, ptr, [Bit(ctx, b)] + rest);
    DecodeStep(code, range, probs, input, ptr, Bit(ctx, b), rest);
    BitParts(Widened(range), probs, ctx, b);
    AdaptedFits(probs, ctx);
  }

  lemma AdaptedFits(probs: seq<nat>, ctx: nat)
    requires InBounds(probs) && ctx < |probs|
    ensures probs[ctx] <= TOTAL
    ensures InBounds(probs[ctx := Adapt(probs[ctx], 0)]) && InBounds(probs[ctx := Adapt(probs[ctx], 1)])
  {
  }

  lemma DirectStep(code: nat, range: nat, probs: seq<nat>, input: seq<byte>, ptr: nat, b: nat, rest: seq<Op>)
    requires InBounds(probs) && AllFit([Direct(b)] + rest, |probs|) && 0x10000 <= range < WORD
    requires Aims(code, range, probs, input, ptr, [Direct(b)] + rest)
    ensures AllFit(rest, |probs|) && (range < TOP ==> ptr < |input|)
    ensures var r := Widened(range);
            var code1 := if range < TOP then (256 * code + input[ptr]) % WORD else code;
            && 0 <= b <= 1 && (code1 < r / 2 <==> b == 0)
            && Aims(if b == 0 then code1 else code1 - r / 2, r / 2, probs, input, ptr + Shifts(range), rest)
  {
    hide Aims, Interval, Bound, Narrowed, Adapted, InBounds, AllFit;
    FitsSplit(Direct(b), rest, |probs|);
    AimsBelow(code, range, probs, input, ptr, [Direct(b)] + rest);
    DecodeStep(code, range, probs, input, ptr, Direct(b), rest);
    DirectParts(Widened(range), probs, b);
  }

  // Bits coded with a probability always leave the code below the range; a direct bit
  // does exactly when it does not drop the odd unit at the top of the range.
  lemma CodeStaysBelow(code: nat, r: nat, probs: seq<nat>, op: Op)
    requires InBounds(probs) && Fits(op, |probs|) && code < r
    requires op.bit == if code < Bound(r, probs, op) then 0 else 1
    ensures (if op.bit == 0 then code else code - Bound(r, probs, op)) < Narrowed(r, probs, op)
       <==> !(op.Direct? && r % 2 == 1 && code == r - 1)
  {
  }

  // The exception is met: from an odd range the largest code is left equal to the range.
  lemma DirectBitExample()
    ensures var op := Direct(1);
            var r, code := TOP + 1, TOP;
            code < r && code - Bound(r, [], op) == Narrowed(r, [], op)
  {
  }

  // ----- the decoder -----

  class Rc {
    const input: seq<byte>
    var ptr: nat
    var code: nat
    var range: nat
    var bound: nat
    var eof: bool

    ghost predicate Valid()
      reads this
    {
      |input| > 0 && 0x10000 <= range < WORD && code < WORD && (!eof ==> ptr <= |input|)
    }

    // What has been read so far is the start of a stream that codes ops.
    ghost predicate OnScript(p: array<nat>, ops: seq<Op>)
      reads this, p
    {
      InBounds(p[..]) && AllFit(ops, p.Length) && !eof && Aims(code, range, p[..], input, ptr, ops)
    }

    lemma NotEnded(p: array<nat>, ops: seq<Op>)
      requires OnScript(p, ops)
      ensures !eof
    {
    }

    // The code register takes the first five bytes; the first of them is shifted out.
    constructor (input: seq<byte>, start: nat)
      requires start + 5 <= |input|
      ensures Valid() && this.input == input && ptr == start + 5 && !eof
      ensures range == WORD - 1 && code == Value(input[start + 1..start + 5])
    {
      this.input := input;
      ptr, code, range, bound, eof := start, 0, WORD - 1, 0, false;
      new;
      FiveBytes(input, start);
      var i := 0;
      while i < 5
        invariant 0 <= i <= 5 && ptr == start + i && !eof && range == WORD - 1 && this.input == input
        invariant code == Value(input[start..start + i]) % WORD
      {
        AppendByte(input, start, i);
        code := (code * 256 + input[ptr]) % WORD;
        ptr := ptr + 1;
        i := i + 1;
      }
    }

    // Past the end of the input the buffer is read again from its start, and the end is
    // remembered.
    method Normalize()
      requires Valid()
      modifies this
      ensures Valid() && range == Widened(old(range)) >= TOP
      ensures old(range) >= TOP ==> code == old(code) && range == old(range)
      ensures old(!eof && (range < TOP ==> ptr < |input|)) ==>
                !eof && ptr == old(ptr) + Shifts(old(range))
                && code == (if old(range) < TOP then (256 * old(code) + input[old(ptr)]) % WORD else old(code))
    {
      if range < TOP {
        if eof || ptr >= |input| {
          eof := true;
          ptr := 0;
        }
        range := range * 256;
        code := (code * 256 + input[ptr]) % WORD;
        ptr := ptr + 1;
      }
    }

    // Decodes one bit and adapts its probability.
    method GetBit(p: array<nat>, ctx: nat, ghost b: nat, ghost rest: seq<Op>) returns (bit: nat)
      requires Valid() && InBounds(p[..]) && ctx < p.Length
      modifies this, p
      ensures Valid() && bit <= 1
      ensures InBounds(p[..]) && p[..] == old(p[..])[ctx := Adapt(old(p[ctx]), bit)]
      ensures old(range) >= TOP ==>
                var share := Share(old(p[ctx]), old(range));
                && (bit == 0 <==> old(code) < share)
                && (bit == 1 ==> range == old(range) - share && code == old(code) - share)
      ensures old(OnScript(p, [Bit(ctx, b)] + rest)) ==> bit == b && OnScript(p, rest)
    {
      hide Aims, Interval, Bound, Narrowed, Adapted, InBounds, AllFit, Adapt, Share, Widened;
      ghost var probs := p[..];
      if OnScript(p, [Bit(ctx, b)] + rest) {
        BitStep(code, range, probs, input, ptr, ctx, b, rest);
      }
      Normalize();
      BitParts(range, probs, ctx, 0);
      BitParts(range, probs, ctx, 1);
      AdaptedFits(probs, ctx);
      bound := Share(p[ctx], range);
      if code < bound {
        range := bound;
        p[ctx] := Adapt(p[ctx], 0);
        bit := 0;
      } else {
        range := range - bound;
        code := code - bound;
        p[ctx] := Adapt(p[ctx], 1);
        bit := 1;
      }
      assert p[..] == probs[ctx := Adapt(probs[ctx], bit)];
    }

    // Decodes one bit that is coded without a probability.
    method DirectBit(p: array<nat>, ghost b: nat, ghost rest: seq<Op>) returns (bit: nat)
      requires Valid() && InBounds(p[..])
      modifies this
      ensures Valid() && bit <= 1
      ensures old(range) >= TOP ==> (bit == 0 <==> old(code) < old(range) / 2)
      ensures old(OnScript(p, [Direct(b)] + rest)) ==> bit == b && OnScript(p, rest)
    {
      hide Aims, Interval, Bound, Narrowed, Adapted, InBounds, AllFit, Widened;
      if OnScript(p, [Direct(b)] + rest) {
        DirectStep(code, range, p[..], input, ptr, b, rest);
      }
      Normalize();
      DirectParts(range, p[..], 0);
      DirectParts(range, p[..], 1);
      range := range / 2;
      if code >= range {
        code := code - range;
        bit := 1;
      } else {
        bit := 0;
      }
    }
  }

  lemma AppendByte(input: seq<byte>, start: nat, i: nat)
    requires start + i < |input|
    ensures (Value(input[start..start + i]) % WORD * 256 + input[start + i]) % WORD
              == Value(input[start..start + i + 1]) % WORD
  {
    var s := input[start..start + i];
    assert input[start..start + i + 1] == s + [input[start + i]];
    ValueAppend(s, input[start + i]);
    TruncatedShift(Value(s), WORD, 256, input[start + i]);
  }

  lemma {:induction false} ValueAppend(s: seq<byte>, x: byte)
    ensures Value(s + [x]) == Value(s) * 256 + x
  {
    if s == [] {
      assert [x][1..] == [] && Base(0) == 1;
    } else {
      ValueAppend(s[1..], x);
      assert (s + [x])[1..] == s[1..] + [x];
      Triple(s[0], Base(|s| - 1), 256);
    }
  }

  lemma FiveBytes(input: seq<byte>, start: nat)
    requires start + 5 <= |input|
    ensures Value(input[start..start + 5]) % WORD == Value(input[start + 1..start + 5])
  {
    var s := input[start..start + 5];
    assert s[1..] == input[start + 1..start + 5];
    assert Base(4) == WORD;
    DivModUnique(Value(s), s[0], WORD, Value(s[1..]));
  }
}
