// An LZMA stream as a reference compressor writes it for the text "a", with an end mark, and
// the proof that it codes just that.
module LzmaExample {
  import opened Bytes
  import opened Powers
  import opened RangeCoder
  import opened LzmaCode
  import opened LzmaBits
  import opened LzmaRoundTrip

  // The bytes behind the header, which announces an unknown size.
  function Input(): (input: seq<byte>)
    ensures |input| == 11
  {
    [0x00, 0x30, 0xc1, 0xfb, 0xff, 0xff, 0xff, 0xe0, 0x00, 0x00, 0x00]
  }

  const PROPS := Props(3, 0, 2)
  const DICT := 0x800000
  const SIZE := 0xFFFF_FFFF_FFFF_FFFF

  function Packets(): seq<Packet>
  {
    [Literal(0x61), Match(0x1_0000_0000, 2)]
  }

  // ----- bits that have their probabilities to themselves -----

  // No probability is used twice, or has been used before.
  predicate Unused(ops: seq<Op>, used: set<nat>)
    decreases |ops|
  {
    ops == []
    || if ops[0].Direct? then Unused(ops[1..], used)
       else ops[0].ctx !in used && Unused(ops[1..], used + {ops[0].ctx})
  }

  predicate Fresh(probs: seq<nat>, used: set<nat>)
  {
    forall i :: 0 <= i < |probs| && i !in used ==> probs[i] == 1024
  }

  // The part of bit 0 then is one half of the range, rounded down in its way.
  function HalfOf(r: nat, op: Op): nat
  {
    if op.Direct? then r / 2 else 1024 * (r / TOTAL)
  }

  function HalfLeft(r: nat, op: Op): nat
  {
    if op.bit == 0 || op.Direct? || HalfOf(r, op) > r then HalfOf(r, op) else r - HalfOf(r, op)
  }

  function HalfSpan(range: nat, ops: seq<Op>): Span
    decreases |ops|
  {
    if ops == [] then Span(0, range, 0)
    else
      var r := Widened(range);
      var rest := HalfSpan(HalfLeft(r, ops[0]), ops[1..]);
      Span((if ops[0].bit == 0 then 0 else HalfOf(r, ops[0]) * Base(rest.shifts)) + rest.lo, rest.width,
           Shifts(range) + rest.shifts)
  }

  lemma HalfBelow(r: nat)
    ensures 1024 * (r / TOTAL) <= r
  {
  }

  lemma {:induction false} HalfIs(range: nat, probs: seq<nat>, ops: seq<Op>, used: set<nat>)
    requires InBounds(probs) && AllFit(ops, |probs|) && Fresh(probs, used) && Unused(ops, used)
    ensures Interval(range, probs, ops) == HalfSpan(range, ops)
    decreases |ops|
  {
    if ops != [] {
      var op, r := ops[0], Widened(range);
      HalfBelow(r);
      var used' := if op.Direct? then used else used + {op.ctx};
      HalfIs(Narrowed(r, probs, op), Adapted(probs, op), ops[1..], used');
    }
  }

  lemma HalfStep(range: nat, op: Op, rest: seq<Op>, next: nat, tail: Span)
    requires next == HalfLeft(Widened(range), op) && HalfSpan(next, rest) == tail
    ensures HalfSpan(range, [op] + rest)
         == Span((if op.bit == 0 then 0 else HalfOf(Widened(range), op) * Base(tail.shifts)) + tail.lo, tail.width,
                 Shifts(range) + tail.shifts)
  {
    hide HalfOf, HalfLeft, Base;
    assert ([op] + rest)[1..] == rest;
  }

  lemma UnusedStep(op: Op, rest: seq<Op>, used: set<nat>)
    requires if op.Direct? then Unused(rest, used) else op.ctx !in used && Unused(rest, used + {op.ctx})
    ensures Unused([op] + rest, used)
  {
    assert ([op] + rest)[1..] == rest;
  }

  lemma Bases()
    ensures Base(0) == 1 && Base(1) == 0x100 && Base(2) == 0x10000 && Base(3) == 0x1000000
    ensures Base(4) == 0x1_0000_0000 && Base(5) == 0x100_0000_0000 && Base(6) == 0x1_0000_0000_0000
  {
  }

  // ----- the bits of the stream -----

  function LiteralPart(rest: seq<Op>): seq<Op>
  {
    [Bit(0, 0)] + ([Bit(1847, 0)] + ([Bit(1848, 1)] + ([Bit(1851, 1)] + ([Bit(1857, 0)] + ([Bit(1868, 0)]
    + ([Bit(1890, 0)] + ([Bit(1934, 0)] + ([Bit(2022, 1)] + rest))))))))
  }

  function LengthPart(rest: seq<Op>): seq<Op>
  {
    [Bit(1, 1)] + ([Bit(192, 0)] + ([Bit(818, 0)] + ([Bit(829, 0)] + ([Bit(830, 0)] + ([Bit(832, 0)]
    + rest)))))
  }

  function SlotPart(rest: seq<Op>): seq<Op>
  {
    [Bit(433, 1)] + ([Bit(435, 1)] + ([Bit(439, 1)] + ([Bit(447, 1)] + ([Bit(463, 1)] + ([Bit(495, 1)]
    + rest)))))
  }

  function BarePart1(rest: seq<Op>): seq<Op>
  {
    [Direct(1)] + ([Direct(1)] + ([Direct(1)] + ([Direct(1)] + ([Direct(1)] + ([Direct(1)] + ([Direct(1)]
    + ([Direct(1)] + ([Direct(1)] + ([Direct(1)] + ([Direct(1)] + ([Direct(1)] + ([Direct(1)] + rest))))))))))))
  }

  function BarePart2(rest: seq<Op>): seq<Op>
  {
    [Direct(1)] + ([Direct(1)] + ([Direct(1)] + ([Direct(1)] + ([Direct(1)] + ([Direct(1)] + ([Direct(1)]
    + ([Direct(1)] + ([Direct(1)] + ([Direct(1)] + ([Direct(1)] + ([Direct(1)] + ([Direct(1)] + rest))))))))))))
  }

  function AlignPart(rest: seq<Op>): seq<Op>
  {
    [Bit(803, 1)] + ([Bit(805, 1)] + ([Bit(809, 1)] + ([Bit(817, 1)] + rest)))
  }

  lemma LiteralPartSpan(rest: seq<Op>)
    requires HalfSpan(0x800000, rest) == Span(0x41ffffffffe0000000, 0x20000000, 6)
    ensures HalfSpan(0xffffffff, LiteralPart(rest)) == Span(0x30c1fbffffffe0000000, 0x20000000, 6)
  {
    hide HalfSpan;
    Bases();
    HalfStep(0x1000000, Bit(2022, 1), rest, 0x800000, Span(0x41ffffffffe0000000, 0x20000000, 6));
    var r8 := [Bit(2022, 1)] + rest;
    HalfStep(0x2000000, Bit(1934, 0), r8, 0x1000000, Span(0xc1ffffffffe0000000, 0x20000000, 6));
    var r7 := [Bit(1934, 0)] + r8;
    HalfStep(0x4000000, Bit(1890, 0), r7, 0x2000000, Span(0xc1ffffffffe0000000, 0x20000000, 6));
    var r6 := [Bit(1890, 0)] + r7;
    HalfStep(0x8000000, Bit(1868, 0), r6, 0x4000000, Span(0xc1ffffffffe0000000, 0x20000000, 6));
    var r5 := [Bit(1868, 0)] + r6;
    HalfStep(0x10000000, Bit(1857, 0), r5, 0x8000000, Span(0xc1ffffffffe0000000, 0x20000000, 6));
    var r4 := [Bit(1857, 0)] + r5;
    HalfStep(0x20000000, Bit(1851, 1), r4, 0x10000000, Span(0xc1ffffffffe0000000, 0x20000000, 6));
    var r3 := [Bit(1851, 1)] + r4;
    HalfStep(0x3ffffc00, Bit(1848, 1), r3, 0x20000000, Span(0x10c1ffffffffe0000000, 0x20000000, 6));
    var r2 := [Bit(1848, 1)] + r3;
    HalfStep(0x7ffffc00, Bit(1847, 0), r2, 0x3ffffc00, Span(0x30c1fbffffffe0000000, 0x20000000, 6));
    var r1 := [Bit(1847, 0)] + r2;
    HalfStep(0xffffffff, Bit(0, 0), r1, 0x7ffffc00, Span(0x30c1fbffffffe0000000, 0x20000000, 6));
  }

  lemma LengthPartSpan(rest: seq<Op>)
    requires HalfSpan(0x2000000, rest) == Span(0x1ffffffffe0000000, 0x20000000, 5)
    ensures HalfSpan(0x800000, LengthPart(rest)) == Span(0x41ffffffffe0000000, 0x20000000, 6)
  {
    hide HalfSpan;
    Bases();
    HalfStep(0x4000000, Bit(832, 0), rest, 0x2000000, Span(0x1ffffffffe0000000, 0x20000000, 5));
    var r5 := [Bit(832, 0)] + rest;
    HalfStep(0x8000000, Bit(830, 0), r5, 0x4000000, Span(0x1ffffffffe0000000, 0x20000000, 5));
    var r4 := [Bit(830, 0)] + r5;
    HalfStep(0x10000000, Bit(829, 0), r4, 0x8000000, Span(0x1ffffffffe0000000, 0x20000000, 5));
    var r3 := [Bit(829, 0)] + r4;
    HalfStep(0x20000000, Bit(818, 0), r3, 0x10000000, Span(0x1ffffffffe0000000, 0x20000000, 5));
    var r2 := [Bit(818, 0)] + r3;
    HalfStep(0x40000000, Bit(192, 0), r2, 0x20000000, Span(0x1ffffffffe0000000, 0x20000000, 5));
    var r1 := [Bit(192, 0)] + r2;
    HalfStep(0x800000, Bit(1, 1), r1, 0x40000000, Span(0x1ffffffffe0000000, 0x20000000, 5));
  }

  lemma SlotPartSpan(rest: seq<Op>)
    requires HalfSpan(0x8000000, rest) == Span(0x7ffffffe0000000, 0x20000000, 4)
    ensures HalfSpan(0x2000000, SlotPart(rest)) == Span(0x1ffffffffe0000000, 0x20000000, 5)
  {
    hide HalfSpan;
    Bases();
    HalfStep(0x10000000, Bit(495, 1), rest, 0x8000000, Span(0x7ffffffe0000000, 0x20000000, 4));
    var r5 := [Bit(495, 1)] + rest;
    HalfStep(0x20000000, Bit(463, 1), r5, 0x10000000, Span(0xfffffffe0000000, 0x20000000, 4));
    var r4 := [Bit(463, 1)] + r5;
    HalfStep(0x40000000, Bit(447, 1), r4, 0x20000000, Span(0x1fffffffe0000000, 0x20000000, 4));
    var r3 := [Bit(447, 1)] + r4;
    HalfStep(0x800000, Bit(439, 1), r3, 0x40000000, Span(0x3fffffffe0000000, 0x20000000, 4));
    var r2 := [Bit(439, 1)] + r3;
    HalfStep(0x1000000, Bit(435, 1), r2, 0x800000, Span(0x7fffffffe0000000, 0x20000000, 5));
    var r1 := [Bit(435, 1)] + r2;
    HalfStep(0x2000000, Bit(433, 1), r1, 0x1000000, Span(0xffffffffe0000000, 0x20000000, 5));
  }

  lemma BarePart1Span(rest: seq<Op>)
    requires HalfSpan(0x40000000, rest) == Span(0x3fffe0000000, 0x20000000, 2)
    ensures HalfSpan(0x8000000, BarePart1(rest)) == Span(0x7ffffffe0000000, 0x20000000, 4)
  {
    hide HalfSpan;
    Bases();
    HalfStep(0x800000, Direct(1), rest, 0x40000000, Span(0x3fffe0000000, 0x20000000, 2));
    var r12 := [Direct(1)] + rest;
    HalfStep(0x1000000, Direct(1), r12, 0x800000, Span(0x7fffe0000000, 0x20000000, 3));
    var r11 := [Direct(1)] + r12;
    HalfStep(0x2000000, Direct(1), r11, 0x1000000, Span(0xffffe0000000, 0x20000000, 3));
    var r10 := [Direct(1)] + r11;
    HalfStep(0x4000000, Direct(1), r10, 0x2000000, Span(0x1ffffe0000000, 0x20000000, 3));
    var r9 := [Direct(1)] + r10;
    HalfStep(0x8000000, Direct(1), r9, 0x4000000, Span(0x3ffffe0000000, 0x20000000, 3));
    var r8 := [Direct(1)] + r9;
    HalfStep(0x10000000, Direct(1), r8, 0x8000000, Span(0x7ffffe0000000, 0x20000000, 3));
    var r7 := [Direct(1)] + r8;
    HalfStep(0x20000000, Direct(1), r7, 0x10000000, Span(0xfffffe0000000, 0x20000000, 3));
    var r6 := [Direct(1)] + r7;
    HalfStep(0x40000000, Direct(1), r6, 0x20000000, Span(0x1fffffe0000000, 0x20000000, 3));
    var r5 := [Direct(1)] + r6;
    HalfStep(0x800000, Direct(1), r5, 0x40000000, Span(0x3fffffe0000000, 0x20000000, 3));
    var r4 := [Direct(1)] + r5;
    HalfStep(0x1000000, Direct(1), r4, 0x800000, Span(0x7fffffe0000000, 0x20000000, 4));
    var r3 := [Direct(1)] + r4;
    HalfStep(0x2000000, Direct(1), r3, 0x1000000, Span(0xffffffe0000000, 0x20000000, 4));
    var r2 := [Direct(1)] + r3;
    HalfStep(0x4000000, Direct(1), r2, 0x2000000, Span(0x1ffffffe0000000, 0x20000000, 4));
    var r1 := [Direct(1)] + r2;
    HalfStep(0x8000000, Direct(1), r1, 0x4000000, Span(0x3ffffffe0000000, 0x20000000, 4));
  }

  lemma BarePart2Span(rest: seq<Op>)
    requires HalfSpan(0x2000000, rest) == Span(0x1e0000000, 0x20000000, 1)
    ensures HalfSpan(0x40000000, BarePart2(rest)) == Span(0x3fffe0000000, 0x20000000, 2)
  {
    hide HalfSpan;
    Bases();
    HalfStep(0x4000000, Direct(1), rest, 0x2000000, Span(0x1e0000000, 0x20000000, 1));
    var r12 := [Direct(1)] + rest;
    HalfStep(0x8000000, Direct(1), r12, 0x4000000, Span(0x3e0000000, 0x20000000, 1));
    var r11 := [Direct(1)] + r12;
    HalfStep(0x10000000, Direct(1), r11, 0x8000000, Span(0x7e0000000, 0x20000000, 1));
    var r10 := [Direct(1)] + r11;
    HalfStep(0x20000000, Direct(1), r10, 0x10000000, Span(0xfe0000000, 0x20000000, 1));
    var r9 := [Direct(1)] + r10;
    HalfStep(0x40000000, Direct(1), r9, 0x20000000, Span(0x1fe0000000, 0x20000000, 1));
    var r8 := [Direct(1)] + r9;
    HalfStep(0x800000, Direct(1), r8, 0x40000000, Span(0x3fe0000000, 0x20000000, 1));
    var r7 := [Direct(1)] + r8;
    HalfStep(0x1000000, Direct(1), r7, 0x800000, Span(0x7fe0000000, 0x20000000, 2));
    var r6 := [Direct(1)] + r7;
    HalfStep(0x2000000, Direct(1), r6, 0x1000000, Span(0xffe0000000, 0x20000000, 2));
    var r5 := [Direct(1)] + r6;
    HalfStep(0x4000000, Direct(1), r5, 0x2000000, Span(0x1ffe0000000, 0x20000000, 2));
    var r4 := [Direct(1)] + r5;
    HalfStep(0x8000000, Direct(1), r4, 0x4000000, Span(0x3ffe0000000, 0x20000000, 2));
    var r3 := [Direct(1)] + r4;
    HalfStep(0x10000000, Direct(1), r3, 0x8000000, Span(0x7ffe0000000, 0x20000000, 2));
    var r2 := [Direct(1)] + r3;
    HalfStep(0x20000000, Direct(1), r2, 0x10000000, Span(0xfffe0000000, 0x20000000, 2));
    var r1 := [Direct(1)] + r2;
    HalfStep(0x40000000, Direct(1), r1, 0x20000000, Span(0x1fffe0000000, 0x20000000, 2));
  }

  lemma AlignPartSpan(rest: seq<Op>)
    requires HalfSpan(0x20000000, rest) == Span(0x0, 0x20000000, 0)
    ensures HalfSpan(0x2000000, AlignPart(rest)) == Span(0x1e0000000, 0x20000000, 1)
  {
    hide HalfSpan;
    Bases();
    HalfStep(0x40000000, Bit(817, 1), rest, 0x20000000, Span(0x0, 0x20000000, 0));
    var r3 := [Bit(817, 1)] + rest;
    HalfStep(0x800000, Bit(809, 1), r3, 0x40000000, Span(0x20000000, 0x20000000, 0));
    var r2 := [Bit(809, 1)] + r3;
    HalfStep(0x1000000, Bit(805, 1), r2, 0x800000, Span(0x60000000, 0x20000000, 1));
    var r1 := [Bit(805, 1)] + r2;
    HalfStep(0x2000000, Bit(803, 1), r1, 0x1000000, Span(0xe0000000, 0x20000000, 1));
  }

  predicate LiteralPartNext(used: set<nat>, next: set<nat>)
  {
    next == used + {0} + {1847} + {1848} + {1851} + {1857} + {1868} + {1890} + {1934} + {2022}
  }

  lemma LiteralPartAdds(used: set<nat>) returns (next: set<nat>)
    ensures LiteralPartNext(used, next) && forall x :: x in next ==> x in used || x == 0 || 1847 <= x < 2023
  {
    next := used + {0} + {1847} + {1848} + {1851} + {1857} + {1868} + {1890} + {1934} + {2022};
  }

  lemma LiteralPartUnused(rest: seq<Op>, used: set<nat>, next: set<nat>)
    requires 0 !in used && (forall x :: x in used ==> x < 1847 || x >= 2023)
    requires LiteralPartNext(used, next) && Unused(rest, next)
    ensures Unused(LiteralPart(rest), used)
  {
    hide Unused;
    var u1 := used + {0};
    var u2 := u1 + {1847};
    var u3 := u2 + {1848};
    var u4 := u3 + {1851};
    var u5 := u4 + {1857};
    var u6 := u5 + {1868};
    var u7 := u6 + {1890};
    var u8 := u7 + {1934};
    UnusedStep(Bit(2022, 1), rest, u8);
    var r8 := [Bit(2022, 1)] + rest;
    UnusedStep(Bit(1934, 0), r8, u7);
    var r7 := [Bit(1934, 0)] + r8;
    UnusedStep(Bit(1890, 0), r7, u6);
    var r6 := [Bit(1890, 0)] + r7;
    UnusedStep(Bit(1868, 0), r6, u5);
    var r5 := [Bit(1868, 0)] + r6;
    UnusedStep(Bit(1857, 0), r5, u4);
    var r4 := [Bit(1857, 0)] + r5;
    UnusedStep(Bit(1851, 1), r4, u3);
    var r3 := [Bit(1851, 1)] + r4;
    UnusedStep(Bit(1848, 1), r3, u2);
    var r2 := [Bit(1848, 1)] + r3;
    UnusedStep(Bit(1847, 0), r2, u1);
    var r1 := [Bit(1847, 0)] + r2;
    UnusedStep(Bit(0, 0), r1, used);
  }

  predicate LengthPartNext(used: set<nat>, next: set<nat>)
  {
    next == used + {1} + {192} + {818} + {829} + {830} + {832}
  }

  lemma LengthPartAdds(used: set<nat>) returns (next: set<nat>)
    ensures LengthPartNext(used, next) && forall x :: x in next ==>
              x in used || x == 1 || x == 192 || x == 818 || 829 <= x < 833
  {
    next := used + {1} + {192} + {818} + {829} + {830} + {832};
  }

  lemma LengthPartUnused(rest: seq<Op>, used: set<nat>, next: set<nat>)
    requires 1 !in used && 192 !in used && 818 !in used && (forall x :: x in used ==> x < 829 || x >= 833)
    requires LengthPartNext(used, next) && Unused(rest, next)
    ensures Unused(LengthPart(rest), used)
  {
    hide Unused;
    var u1 := used + {1};
    var u2 := u1 + {192};
    var u3 := u2 + {818};
    var u4 := u3 + {829};
    var u5 := u4 + {830};
    UnusedStep(Bit(832, 0), rest, u5);
    var r5 := [Bit(832, 0)] + rest;
    UnusedStep(Bit(830, 0), r5, u4);
    var r4 := [Bit(830, 0)] + r5;
    UnusedStep(Bit(829, 0), r4, u3);
    var r3 := [Bit(829, 0)] + r4;
    UnusedStep(Bit(818, 0), r3, u2);
    var r2 := [Bit(818, 0)] + r3;
    UnusedStep(Bit(192, 0), r2, u1);
    var r1 := [Bit(192, 0)] + r2;
    UnusedStep(Bit(1, 1), r1, used);
  }

  predicate SlotPartNext(used: set<nat>, next: set<nat>)
  {
    next == used + {433} + {435} + {439} + {447} + {463} + {495}
  }

  lemma SlotPartAdds(used: set<nat>) returns (next: set<nat>)
    ensures SlotPartNext(used, next) && forall x :: x in next ==> x in used || 433 <= x < 496
  {
    next := used + {433} + {435} + {439} + {447} + {463} + {495};
  }

  lemma SlotPartUnused(rest: seq<Op>, used: set<nat>, next: set<nat>)
    requires (forall x :: x in used ==> x < 433 || x >= 496)
    requires SlotPartNext(used, next) && Unused(rest, next)
    ensures Unused(SlotPart(rest), used)
  {
    hide Unused;
    var u1 := used + {433};
    var u2 := u1 + {435};
    var u3 := u2 + {439};
    var u4 := u3 + {447};
    var u5 := u4 + {463};
    UnusedStep(Bit(495, 1), rest, u5);
    var r5 := [Bit(495, 1)] + rest;
    UnusedStep(Bit(463, 1), r5, u4);
    var r4 := [Bit(463, 1)] + r5;
    UnusedStep(Bit(447, 1), r4, u3);
    var r3 := [Bit(447, 1)] + r4;
    UnusedStep(Bit(439, 1), r3, u2);
    var r2 := [Bit(439, 1)] + r3;
    UnusedStep(Bit(435, 1), r2, u1);
    var r1 := [Bit(435, 1)] + r2;
    UnusedStep(Bit(433, 1), r1, used);
  }

  lemma BarePart1Unused(rest: seq<Op>, used: set<nat>)
    requires Unused(rest, used)
    ensures Unused(BarePart1(rest), used)
  {
    hide Unused;
    UnusedStep(Direct(1), rest, used);
    var r12 := [Direct(1)] + rest;
    UnusedStep(Direct(1), r12, used);
    var r11 := [Direct(1)] + r12;
    UnusedStep(Direct(1), r11, used);
    var r10 := [Direct(1)] + r11;
    UnusedStep(Direct(1), r10, used);
    var r9 := [Direct(1)] + r10;
    UnusedStep(Direct(1), r9, used);
    var r8 := [Direct(1)] + r9;
    UnusedStep(Direct(1), r8, used);
    var r7 := [Direct(1)] + r8;
    UnusedStep(Direct(1), r7, used);
    var r6 := [Direct(1)] + r7;
    UnusedStep(Direct(1), r6, used);
    var r5 := [Direct(1)] + r6;
    UnusedStep(Direct(1), r5, used);
    var r4 := [Direct(1)] + r5;
    UnusedStep(Direct(1), r4, used);
    var r3 := [Direct(1)] + r4;
    UnusedStep(Direct(1), r3, used);
    var r2 := [Direct(1)] + r3;
    UnusedStep(Direct(1), r2, used);
    var r1 := [Direct(1)] + r2;
    UnusedStep(Direct(1), r1, used);
  }

  lemma BarePart2Unused(rest: seq<Op>, used: set<nat>)
    requires Unused(rest, used)
    ensures Unused(BarePart2(rest), used)
  {
    hide Unused;
    UnusedStep(Direct(1), rest, used);
    var r12 := [Direct(1)] + rest;
    UnusedStep(Direct(1), r12, used);
    var r11 := [Direct(1)] + r12;
    UnusedStep(Direct(1), r11, used);
    var r10 := [Direct(1)] + r11;
    UnusedStep(Direct(1), r10, used);
    var r9 := [Direct(1)] + r10;
    UnusedStep(Direct(1), r9, used);
    var r8 := [Direct(1)] + r9;
    UnusedStep(Direct(1), r8, used);
    var r7 := [Direct(1)] + r8;
    UnusedStep(Direct(1), r7, used);
    var r6 := [Direct(1)] + r7;
    UnusedStep(Direct(1), r6, used);
    var r5 := [Direct(1)] + r6;
    UnusedStep(Direct(1), r5, used);
    var r4 := [Direct(1)] + r5;
    UnusedStep(Direct(1), r4, used);
    var r3 := [Direct(1)] + r4;
    UnusedStep(Direct(1), r3, used);
    var r2 := [Direct(1)] + r3;
    UnusedStep(Direct(1), r2, used);
    var r1 := [Direct(1)] + r2;
    UnusedStep(Direct(1), r1, used);
  }

  predicate AlignPartNext(used: set<nat>, next: set<nat>)
  {
    next == used + {803} + {805} + {809} + {817}
  }

  lemma AlignPartAdds(used: set<nat>) returns (next: set<nat>)
    ensures AlignPartNext(used, next) && forall x :: x in next ==> x in used || 803 <= x < 818
  {
    next := used + {803} + {805} + {809} + {817};
  }

  lemma AlignPartUnused(rest: seq<Op>, used: set<nat>, next: set<nat>)
    requires (forall x :: x in used ==> x < 803 || x >= 818)
    requires AlignPartNext(used, next) && Unused(rest, next)
    ensures Unused(AlignPart(rest), used)
  {
    hide Unused;
    var u1 := used + {803};
    var u2 := u1 + {805};
    var u3 := u2 + {809};
    UnusedStep(Bit(817, 1), rest, u3);
    var r3 := [Bit(817, 1)] + rest;
    UnusedStep(Bit(809, 1), r3, u2);
    var r2 := [Bit(809, 1)] + r3;
    UnusedStep(Bit(805, 1), r2, u1);
    var r1 := [Bit(805, 1)] + r2;
    UnusedStep(Bit(803, 1), r1, used);
  }

  // ----- the packets code these bits -----

  lemma TreeOne(base: nat, m: nat, n: nat, v: nat, p: nat, rest: seq<Op>)
    requires n > 0 && p == Pow2(n - 1)
    ensures v < p ==> TreeOps(base, m, n, v, rest) == [Bit(base + m, 0)] + TreeOps(base, 2 * m, n - 1, v, rest)
    ensures v >= p ==>
              TreeOps(base, m, n, v, rest) == [Bit(base + m, 1)] + TreeOps(base, 2 * m + 1, n - 1, v - p, rest)
  {
    hide Pow2;
  }

  lemma NoMore(base: nat, m: nat, v: nat, rest: seq<Op>)
    ensures TreeOps(base, m, 0, v, rest) == rest && ReverseOps(base, m, 0, v, rest) == rest
  {
  }

  lemma DirectOne(n: nat, p: nat, rest: seq<Op>)
    requires n > 0 && p == Pow2(n - 1)
    ensures DirectOps(n, 2 * p - 1, rest) == [Direct(1)] + DirectOps(n - 1, p - 1, rest)
    ensures DirectOps(0, 0, rest) == rest
  {
    hide Pow2;
  }

  lemma ReverseOne(base: nat, m: nat, n: nat, v: nat, rest: seq<Op>)
    requires n > 0
    ensures ReverseOps(base, m, n, v, rest)
              == [Bit(base + m, v % 2)] + ReverseOps(base, 2 * m + v % 2, n - 1, v / 2, rest)
  {
  }

  lemma TwoPowers()
    ensures Pow2(0) == 0x1 && Pow2(1) == 0x2 && Pow2(2) == 0x4
    ensures Pow2(3) == 0x8 && Pow2(4) == 0x10 && Pow2(5) == 0x20
    ensures Pow2(6) == 0x40 && Pow2(7) == 0x80 && Pow2(8) == 0x100
    ensures Pow2(9) == 0x200 && Pow2(10) == 0x400 && Pow2(11) == 0x800
    ensures Pow2(12) == 0x1000 && Pow2(13) == 0x2000 && Pow2(14) == 0x4000
    ensures Pow2(15) == 0x8000 && Pow2(16) == 0x10000 && Pow2(17) == 0x20000
    ensures Pow2(18) == 0x40000 && Pow2(19) == 0x80000 && Pow2(20) == 0x100000
    ensures Pow2(21) == 0x200000 && Pow2(22) == 0x400000 && Pow2(23) == 0x800000
    ensures Pow2(24) == 0x1000000 && Pow2(25) == 0x2000000 && Pow2(26) == 0x4000000
  {
    hide Pow2;
    assert Pow2(0) == 1 by {
      SmallPowers();
      Pow2Add(0, 1);
    }
    PowerStep(0);
    PowerStep(1);
    PowerStep(2);
    PowerStep(3);
    PowerStep(4);
    PowerStep(5);
    PowerStep(6);
    PowerStep(7);
    PowerStep(8);
    PowerStep(9);
    PowerStep(10);
    PowerStep(11);
    PowerStep(12);
    PowerStep(13);
    PowerStep(14);
    PowerStep(15);
    PowerStep(16);
    PowerStep(17);
    PowerStep(18);
    PowerStep(19);
    PowerStep(20);
    PowerStep(21);
    PowerStep(22);
    PowerStep(23);
    PowerStep(24);
    PowerStep(25);
  }

  lemma PowerStep(n: nat)
    ensures Pow2(n + 1) == 2 * Pow2(n)
  {
  }

  lemma LiteralTree(rest: seq<Op>)
    ensures [Bit(0, 0)] + TreeOps(1846, 1, 8, 0x61, rest) == LiteralPart(rest)
  {
    hide TreeOps, Pow2;
    TwoPowers();
    TreeOne(1846, 1, 8, 97, 0x80, rest);
    TreeOne(1846, 2, 7, 97, 0x40, rest);
    TreeOne(1846, 5, 6, 33, 0x20, rest);
    TreeOne(1846, 11, 5, 1, 0x10, rest);
    TreeOne(1846, 22, 4, 1, 0x8, rest);
    TreeOne(1846, 44, 3, 1, 0x4, rest);
    TreeOne(1846, 88, 2, 1, 0x2, rest);
    TreeOne(1846, 176, 1, 1, 0x1, rest);
    NoMore(1846, 353, 0, rest);
  }

  lemma LengthTree(rest: seq<Op>)
    ensures [Bit(1, 1)] + ([Bit(192, 0)] + ([Bit(818, 0)] + TreeOps(828, 1, 3, 0, rest))) == LengthPart(rest)
  {
    hide TreeOps, Pow2;
    TwoPowers();
    TreeOne(828, 1, 3, 0, 0x4, rest);
    TreeOne(828, 2, 2, 0, 0x2, rest);
    TreeOne(828, 4, 1, 0, 0x1, rest);
    NoMore(828, 8, 0, rest);
  }

  lemma SlotTree(rest: seq<Op>)
    ensures TreeOps(432, 1, 6, 63, rest) == SlotPart(rest)
  {
    hide TreeOps, Pow2;
    TwoPowers();
    TreeOne(432, 1, 6, 63, 0x20, rest);
    TreeOne(432, 3, 5, 31, 0x10, rest);
    TreeOne(432, 7, 4, 15, 0x8, rest);
    TreeOne(432, 15, 3, 7, 0x4, rest);
    TreeOne(432, 31, 2, 3, 0x2, rest);
    TreeOne(432, 63, 1, 1, 0x1, rest);
    NoMore(432, 127, 0, rest);
  }

  lemma BareOps(rest: seq<Op>)
    ensures DirectOps(26, 0x3ffffff, rest) == BarePart1(BarePart2(rest))
  {
    hide DirectOps, Pow2;
    TwoPowers();
    DirectOne(26, 0x2000000, rest);
    DirectOne(25, 0x1000000, rest);
    DirectOne(24, 0x800000, rest);
    DirectOne(23, 0x400000, rest);
    DirectOne(22, 0x200000, rest);
    DirectOne(21, 0x100000, rest);
    DirectOne(20, 0x80000, rest);
    DirectOne(19, 0x40000, rest);
    DirectOne(18, 0x20000, rest);
    DirectOne(17, 0x10000, rest);
    DirectOne(16, 0x8000, rest);
    DirectOne(15, 0x4000, rest);
    DirectOne(14, 0x2000, rest);
    DirectOne(13, 0x1000, rest);
    DirectOne(12, 0x800, rest);
    DirectOne(11, 0x400, rest);
    DirectOne(10, 0x200, rest);
    DirectOne(9, 0x100, rest);
    DirectOne(8, 0x80, rest);
    DirectOne(7, 0x40, rest);
    DirectOne(6, 0x20, rest);
    DirectOne(5, 0x10, rest);
    DirectOne(4, 0x8, rest);
    DirectOne(3, 0x4, rest);
    DirectOne(2, 0x2, rest);
    DirectOne(1, 0x1, rest);
  }

  lemma AlignTree(rest: seq<Op>)
    ensures ReverseOps(802, 1, 4, 15, rest) == AlignPart(rest)
  {
    hide ReverseOps;
    ReverseOne(802, 1, 4, 15, rest);
    ReverseOne(802, 3, 3, 7, rest);
    ReverseOne(802, 7, 2, 3, rest);
    ReverseOne(802, 15, 1, 1, rest);
    NoMore(802, 31, 0, rest);
  }

  // The slot of the largest distance.
  lemma EndSlot()
    ensures Slot(0xFFFF_FFFF) == 63 && SlotBits(63) == 30 && SlotBase(63) == 0xC000_0000
  {
    hide Pow2, Slot;
    PowerValues();
    SlotExact(0xFFFF_FFFF, 31);
  }

  lemma EndDistance(rest: seq<Op>)
    ensures DistanceOps(0, 0xFFFF_FFFF, rest) == SlotPart(BarePart1(BarePart2(AlignPart(rest))))
  {
    hide TreeOps, DirectOps, ReverseOps, Slot, SlotBase, SlotBits, SlotPart, BarePart1, BarePart2, AlignPart;
    EndSlot();
    AlignTree(rest);
    BareOps(AlignPart(rest));
    SlotTree(BarePart1(BarePart2(AlignPart(rest))));
  }

  const BEHIND := Coder(0, [1, 1, 1, 1], [0x61])

  lemma PacketsLegal()
    ensures Stream(START, Packets(), DICT, SIZE) && Run(START, Packets(), DICT, SIZE).hist == [0x61]
    ensures Coherent(BEHIND, DICT) && Legal(BEHIND, Packets()[1], DICT, SIZE) && Packets()[1..] == [Packets()[1]]
    ensures Coherent(START, DICT) && Next(START, Packets()[0], DICT, SIZE) == BEHIND
  {
    var last := [Packets()[1]];
    assert Packets()[1..] == last;
    assert Next(START, Packets()[0], DICT, SIZE) == BEHIND;
    assert IsEnd(last[0]) && Stream(BEHIND, last, DICT, SIZE);
    assert Run(BEHIND, last, DICT, SIZE) == Next(BEHIND, last[0], DICT, SIZE);
  }

  // At position 0 and at position 1.
  lemma Contexts()
    ensures PosState(PROPS, 0) == 0 && PosState(PROPS, 1) == 1 && LiteralBase(PROPS, 0, 0) == 1846
  {
    SmallPowers();
    hide Pow2;
    assert Pow2(0) == 1 by {
      Pow2Add(0, 1);
    }
    assert Pow2(5) == 32 by {
      Pow2Add(4, 1);
    }
  }

  lemma ScriptIs()
    requires Stream(START, Packets(), DICT, SIZE)
    ensures Script(PROPS, START, Packets(), DICT, SIZE)
         == LiteralPart(LengthPart(SlotPart(BarePart1(BarePart2(AlignPart([]))))))
  {
    hide TreeOps, DistanceOps, PosState, LiteralBase, LiteralPart, LengthPart, SlotPart, BarePart1, BarePart2,
      AlignPart, Next, Legal, Coherent;
    PacketsLegal();
    Contexts();
    EndDistance([]);
    var end := SlotPart(BarePart1(BarePart2(AlignPart([]))));
    LengthTree(end);
    LiteralTree(LengthPart(end));
    assert PacketOps(PROPS, BEHIND, Packets()[1], []) == LengthPart(end);
    assert PacketOps(PROPS, START, Packets()[0], LengthPart(end)) == LiteralPart(LengthPart(end));
    assert Script(PROPS, BEHIND, Packets()[1..], DICT, SIZE) == LengthPart(end);
  }

  // ----- the input aims at them -----

  lemma InputIs()
    ensures Value(Input()[1..5]) == 0x30c1fbff && Value(Input()[5..11]) == 0xffffe0000000
  {
    var s, t := Input()[1..5], Input()[5..11];
    assert s == [0x30, 0xc1, 0xfb, 0xff] && t == [0xff, 0xff, 0xe0, 0x00, 0x00, 0x00];
    Bases();
    ValueIs(s);
    ValueIs(t);
  }

  lemma ValueIs(s: seq<byte>)
    ensures |s| == 4 ==> Value(s) == 0x1000000 * s[0] as int + 0x10000 * s[1] as int + 256 * s[2] as int + s[3] as int
    ensures |s| == 6 ==>
              Value(s) == 0x100_0000_0000 * s[0] as int + 0x1_0000_0000 * s[1] as int + 0x1000000 * s[2] as int
                          + 0x10000 * s[3] as int + 256 * s[4] as int + s[5] as int
  {
    Bases();
    hide Base;
    if |s| == 4 || |s| == 6 {
      ValueHead(s);
      ValueHead(s[1..]);
      ValueHead(s[2..]);
      ValueHead(s[3..]);
      assert s[1..][1..] == s[2..] && s[2..][1..] == s[3..] && s[3..][1..] == s[4..];
      if |s| == 6 {
        ValueHead(s[4..]);
        ValueHead(s[5..]);
        assert s[4..][1..] == s[5..] && s[5..][1..] == [];
      }
    }
  }

  lemma ValueHead(s: seq<byte>)
    requires s != []
    ensures Value(s) == s[0] * Base(|s| - 1) + Value(s[1..]) && Value([]) == 0
  {
  }

  lemma WholeSpan()
    ensures HalfSpan(0xFFFF_FFFF, LiteralPart(LengthPart(SlotPart(BarePart1(BarePart2(AlignPart([])))))))
         == Span(0x30c1fbffffffe0000000, 0x20000000, 6)
  {
    assert HalfSpan(0x20000000, []) == Span(0x0, 0x20000000, 0);
    hide HalfSpan, LiteralPart, LengthPart, SlotPart, BarePart1, BarePart2, AlignPart;
    AlignPartSpan([]);
    BarePart2Span(AlignPart([]));
    BarePart1Span(BarePart2(AlignPart([])));
    SlotPartSpan(BarePart1(BarePart2(AlignPart([]))));
    LengthPartSpan(SlotPart(BarePart1(BarePart2(AlignPart([])))));
    LiteralPartSpan(LengthPart(SlotPart(BarePart1(BarePart2(AlignPart([]))))));
  }

  lemma NothingShared()
    ensures Unused(LiteralPart(LengthPart(SlotPart(BarePart1(BarePart2(AlignPart([])))))), {})
  {
    hide Unused, LiteralPart, LengthPart, SlotPart, BarePart1, BarePart2, AlignPart, LiteralPartNext, LengthPartNext,
      SlotPartNext, AlignPartNext;
    var u0: set<nat> := {};
    var v0 := LiteralPartAdds(u0);
    var v1 := LengthPartAdds(v0);
    var v2 := SlotPartAdds(v1);
    var v5 := AlignPartAdds(v2);
    UnusedNothing(v5);
    AlignPartUnused([], v2, v5);
    BarePart2Unused(AlignPart([]), v2);
    BarePart1Unused(BarePart2(AlignPart([])), v2);
    SlotPartUnused(BarePart1(BarePart2(AlignPart([]))), v1, v2);
    LengthPartUnused(SlotPart(BarePart1(BarePart2(AlignPart([])))), v0, v1);
    LiteralPartUnused(LengthPart(SlotPart(BarePart1(BarePart2(AlignPart([]))))), u0, v0);
  }

  lemma UnusedNothing(used: set<nat>)
    ensures Unused([], used)
  {
  }

  // The input codes the two packets.
  lemma InputCodes()
    ensures CodesStream(Input(), 0, PROPS, Packets(), DICT, SIZE) && Run(START, Packets(), DICT, SIZE).hist == [0x61]
  {
    hide Input, Script, Stream, Value, HalfSpan, Interval, Unused, LiteralPart, LengthPart, SlotPart, BarePart1,
      BarePart2, AlignPart, Run, NumProbs, InBounds, AllFit, StartProbs;
    PacketsLegal();
    ScriptIs();
    FitsScript(PROPS, START, Packets(), DICT, SIZE);
    StartFresh();
    NothingShared();
    HalfIs(0xFFFF_FFFF, StartProbs(PROPS), Script(PROPS, START, Packets(), DICT, SIZE), {});
    WholeSpan();
    InputIs();
    Bases();
  }

  lemma StartFresh()
    ensures Fresh(StartProbs(PROPS), {})
  {
  }
}
