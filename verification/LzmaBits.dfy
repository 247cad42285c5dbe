// The bits of an LZMA packet, each with the question it answers and what is known before
// it, and the proof that the scripts code exactly these.
module LzmaBits {
  import opened Bytes
  import opened Powers
  import opened RangeCoder
  import opened LzmaCode
  import opened LzmaContexts
  import W = LzmaWindow

  // The n bits of a number, the most or the least significant first.
  function HighFirst(v: nat, n: nat): (s: seq<nat>)
    ensures |s| == n && AreBits(s)
  {
    if n == 0 then [] else HighFirst(v / 2, n - 1) + [v % 2]
  }

  function LowFirst(v: nat, n: nat): (s: seq<nat>)
    ensures |s| == n && AreBits(s)
  {
    if n == 0 then [] else [v % 2] + LowFirst(v / 2, n - 1)
  }

  // ----- the bits of a packet -----

  // Each bit is sent in the light of those before it.
  function Sent(tree: Tree, path: seq<nat>, bits: seq<nat>): seq<Coded>
    decreases |bits|
  {
    if bits == [] then [] else [At(Inside(tree, path), bits[0])] + Sent(tree, path + [bits[0]], bits[1..])
  }

  function SentBare(bits: seq<nat>): seq<Coded>
  {
    if bits == [] then [] else [Bare(bits[0])] + SentBare(bits[1..])
  }

  // A literal behind a copy is sent in the light of the byte that would have come next, for
  // as long as its bits are the same.
  function SentGuessed(low: nat, top: nat, path: seq<nat>, guess: seq<nat>, bits: seq<nat>): seq<Coded>
    requires |guess| == |bits|
    decreases |bits|
  {
    if bits == [] then []
    else
      [At(Inside(Guessed(low, top, guess[0]), path), bits[0])]
      + if bits[0] == guess[0] then SentGuessed(low, top, path + [bits[0]], guess[1..], bits[1..])
        else Sent(Plain(low, top), path + [bits[0]], bits[1..])
  }

  function Asked(flag: Flag, bit: nat): seq<Coded>
  {
    [At(Ask(flag), bit)]
  }

  // Lengths from 2 to 9, from 10 to 17, and from 18 to 273.
  function LengthBits(again: bool, low: nat, len: nat): seq<Coded>
    requires 2 <= len
  {
    if len < 10 then Asked(LenNotLow(again), 0) + Sent(LenLow(again, low), [], HighFirst(len - 2, 3))
    else if len < 18 then
      Asked(LenNotLow(again), 1)
      + (Asked(LenNotMid(again), 0) + Sent(LenMid(again, low), [], HighFirst(len - 10, 3)))
    else
      Asked(LenNotLow(again), 1)
      + (Asked(LenNotMid(again), 1) + Sent(LenHigh(again), [], HighFirst(len - 18, 8)))
  }

  // What is left of a distance in its slot: few bits by a tree of their own, of many the
  // last four by another.
  function FooterBits(slot: nat, left: nat): seq<Coded>
  {
    if slot < 4 then []
    else if slot < 14 then Sent(Footer(slot), [], LowFirst(left, SlotBits(slot)))
    else SentBare(HighFirst(left / 16, Less(SlotBits(slot), 4))) + Sent(Align, [], LowFirst(left % 16, 4))
  }

  // The slot, in the light of the length, and the rest of the distance less one.
  function DistanceBits(len: nat, dist: nat): seq<Coded>
    requires 2 <= len && 1 <= dist
  {
    var slot := Slot(dist - 1);
    SlotHolds(dist - 1);
    Sent(DistanceSlot(if len < 6 then len - 2 else 3), [], HighFirst(slot, 6))
    + FooterBits(slot, dist - 1 - SlotBase(slot))
  }

  function LiteralBits(props: Props, c: Coder, b: byte): seq<Coded>
    requires InRange(props) && (c.state >= 7 ==> c.reps != [] && 1 <= c.reps[0] <= |c.hist|)
  {
    hide Pow2, Quotient, Remainder;
    var low, top := Remainder(|c.hist|, Pow2(props.lp)), Quotient(W.Last(c.hist), Pow2(8 - props.lc));
    if c.state < 7 then Sent(Plain(low, top), [], HighFirst(b, 8))
    else SentGuessed(low, top, [], HighFirst(c.hist[|c.hist| - c.reps[0]], 8), HighFirst(b, 8))
  }

  // Which of the last distances.
  function IndexBits(state: nat, low: nat, index: nat): seq<Coded>
    requires index < 4
  {
    if index == 0 then Asked(NotLast(state), 0) + Asked(IsLong(state, low), 1)
    else if index == 1 then Asked(NotLast(state), 1) + Asked(NotSecond(state), 0)
    else Asked(NotLast(state), 1) + (Asked(NotSecond(state), 1) + Asked(NotThird(state), index - 2))
  }

  function PacketBits(props: Props, c: Coder, pk: Packet, dict: nat, size: nat): seq<Coded>
    requires InRange(props) && Coherent(c, dict) && Legal(c, pk, dict, size)
  {
    var low := Remainder(|c.hist|, Pow2(props.pb));
    if pk.Literal? then Asked(IsMatch(c.state, low), 0) + LiteralBits(props, c, pk.b)
    else
      Asked(IsMatch(c.state, low), 1)
      + match pk
        case Match(dist, len) =>
          Asked(IsAgain(c.state), 0) + (LengthBits(false, low, len) + DistanceBits(len, dist))
        case ShortRep => Asked(IsAgain(c.state), 1) + (Asked(NotLast(c.state), 0) + Asked(IsLong(c.state, low), 0))
        case Rep(index, len) =>
          Asked(IsAgain(c.state), 1) + (IndexBits(c.state, low, index) + LengthBits(true, low, len))
        case Literal(_) => []
  }

  // ----- the probabilities -----

  function OpOf(props: Props, coded: Coded): Op
  {
    match coded
    case At(place, bit) => Bit(NumberOf(props, place), bit)
    case Bare(bit) => Direct(bit)
  }

  function Rendered(props: Props, cs: seq<Coded>, rest: seq<Op>): seq<Op>
  {
    if cs == [] then rest else [OpOf(props, cs[0])] + Rendered(props, cs[1..], rest)
  }

  lemma {:induction false} RenderedAdd(props: Props, a: seq<Coded>, b: seq<Coded>, rest: seq<Op>)
    ensures Rendered(props, a + b, rest) == Rendered(props, a, Rendered(props, b, rest))
  {
    hide OpOf;
    if a == [] {
      assert a + b == b;
    } else {
      assert (a + b)[1..] == a[1..] + b;
      RenderedAdd(props, a[1..], b, rest);
    }
  }

  lemma RenderedAsk(props: Props, flag: Flag, bit: nat, more: seq<Coded>, rest: seq<Op>)
    ensures Rendered(props, Asked(flag, bit) + more, rest)
         == [Bit(FlagNumber(flag), bit)] + Rendered(props, more, rest)
    ensures Rendered(props, Asked(flag, bit), rest) == [Bit(FlagNumber(flag), bit)] + rest
  {
    hide FlagNumber;
    assert (Asked(flag, bit) + more)[1..] == more;
    assert Asked(flag, bit)[1..] == [];
  }

  // ----- numbers -----

  lemma {:induction false} HighFirstHead(v: nat, n: nat)
    requires n > 0 && v < Pow2(n)
    ensures HighFirst(v, n) == [High(v, n - 1)] + HighFirst(Low(v, n - 1), n - 1) && Low(v, n - 1) < Pow2(n - 1)
  {
    hide Pow2, HighFirst;
    HighFirstStep(v, n);
    if n > 1 {
      var l := Low(v, n - 1);
      HalfDigits(v, n);
      HighFirstHead(v / 2, n - 1);
      HighFirstStep(l, n - 1);
      Regroup([High(v, n - 1)], HighFirst(l / 2, n - 2), [l % 2]);
    } else {
      OneDigit(v);
    }
  }

  lemma HighFirstStep(v: nat, n: nat)
    requires n > 0
    ensures HighFirst(v, n) == HighFirst(v / 2, n - 1) + [v % 2]
  {
  }

  lemma OneDigit(v: nat)
    requires v < Pow2(1)
    ensures High(v, 0) == v && v < 2 && Low(v, 0) == 0 && Pow2(0) > 0 && HighFirst(v / 2, 0) == [] == HighFirst(0, 0)
  {
  }

  // Halving takes the last digit off and leaves the first.
  lemma HalfDigits(v: nat, n: nat)
    requires n > 1 && v < Pow2(n)
    ensures v / 2 < Pow2(n - 1) && Low(v, n - 1) < Pow2(n - 1)
    ensures High(v, n - 1) == High(v / 2, n - 2)
    ensures Low(v, n - 1) / 2 == Low(v / 2, n - 2) && Low(v, n - 1) % 2 == v % 2
  {
    assert Pow2(n) == 2 * Pow2(n - 1) && Pow2(n - 1) == 2 * Pow2(n - 2);
    hide Pow2;
    HalfOf(v, Pow2(n - 2));
  }

  lemma HalfOf(v: nat, p: nat)
    ensures v / 2 < p <==> v < 2 * p
    ensures v / 2 < 2 * p <==> v < 4 * p
    ensures v >= 2 * p ==> (v - 2 * p) / 2 == v / 2 - p && (v - 2 * p) % 2 == v % 2
  {
  }

  lemma NodeStep(path: seq<nat>, b: nat)
    ensures NodeOf(path + [b]) == 2 * NodeOf(path) + b
  {
    assert (path + [b])[..|path|] == path;
  }

  lemma {:induction false} TreeIs(props: Props, tree: Tree, path: seq<nat>, v: nat, n: nat, rest: seq<Op>)
    requires v < Pow2(n)
    ensures TreeOps(TreeBase(props, tree), NodeOf(path), n, v, rest)
         == Rendered(props, Sent(tree, path, HighFirst(v, n)), rest)
    decreases n
  {
    hide Pow2, High, Low, TreeBase, NodeOf, HighFirst;
    if n > 0 {
      var b := High(v, n - 1);
      HighFirstHead(v, n);
      NodeStep(path, b);
      TreeIs(props, tree, path + [b], Low(v, n - 1), n - 1, rest);
      SentHead(props, tree, path, b, HighFirst(Low(v, n - 1), n - 1), rest);
    } else {
      NoBits(v);
    }
  }

  lemma NoBits(v: nat)
    ensures HighFirst(v, 0) == [] == LowFirst(v, 0)
  {
  }

  lemma SentHead(props: Props, tree: Tree, path: seq<nat>, b: nat, bits: seq<nat>, rest: seq<Op>)
    ensures Rendered(props, Sent(tree, path, [b] + bits), rest)
         == [Bit(TreeBase(props, tree) + NodeOf(path), b)] + Rendered(props, Sent(tree, path + [b], bits), rest)
  {
    hide TreeBase, NodeOf;
    assert ([b] + bits)[1..] == bits;
    var more := Sent(tree, path + [b], bits);
    assert ([At(Inside(tree, path), b)] + more)[1..] == more;
  }

  lemma {:induction false} ReverseIs(props: Props, tree: Tree, path: seq<nat>, v: nat, n: nat, rest: seq<Op>)
    ensures ReverseOps(TreeBase(props, tree), NodeOf(path), n, v, rest)
         == Rendered(props, Sent(tree, path, LowFirst(v, n)), rest)
    decreases n
  {
    hide TreeBase, NodeOf;
    if n > 0 {
      var b := v % 2;
      NodeStep(path, b);
      ReverseIs(props, tree, path + [b], v / 2, n - 1, rest);
      SentHead(props, tree, path, b, LowFirst(v / 2, n - 1), rest);
    }
  }

  lemma {:induction false} DirectIs(props: Props, v: nat, n: nat, rest: seq<Op>)
    requires v < Pow2(n)
    ensures DirectOps(n, v, rest) == Rendered(props, SentBare(HighFirst(v, n)), rest)
    decreases n
  {
    hide Pow2, High, Low, HighFirst;
    if n > 0 {
      HighFirstHead(v, n);
      DirectIs(props, Low(v, n - 1), n - 1, rest);
      BareHead(props, High(v, n - 1), HighFirst(Low(v, n - 1), n - 1), rest);
    } else {
      NoBits(v);
    }
  }

  lemma BareHead(props: Props, b: nat, bits: seq<nat>, rest: seq<Op>)
    ensures Rendered(props, SentBare([b] + bits), rest) == [Direct(b)] + Rendered(props, SentBare(bits), rest)
  {
    assert ([b] + bits)[1..] == bits;
    var more := SentBare(bits);
    assert ([Bare(b)] + more)[1..] == more;
  }

  // The nodes of the two trees with a guess lie behind those without.
  lemma {:induction false} GuessedIs(props: Props, low: nat, top: nat, path: seq<nat>, n: nat, guess: nat, v: nat,
                                     rest: seq<Op>)
    requires v < Pow2(n) && guess < Pow2(n)
    ensures MatchedOps(TreeBase(props, Plain(low, top)), NodeOf(path), n, guess, v, rest)
         == Rendered(props, SentGuessed(low, top, path, HighFirst(guess, n), HighFirst(v, n)), rest)
    decreases n
  {
    hide Pow2, High, Low, NodeOf, HighFirst, Joined;
    if n > 0 {
      var e, b := High(guess, n - 1), High(v, n - 1);
      HighFirstHead(v, n);
      HighFirstHead(guess, n);
      NodeStep(path, b);
      var g, bits := HighFirst(Low(guess, n - 1), n - 1), HighFirst(Low(v, n - 1), n - 1);
      if b == e {
        GuessedIs(props, low, top, path + [b], n - 1, Low(guess, n - 1), Low(v, n - 1), rest);
      } else {
        TreeIs(props, Plain(low, top), path + [b], Low(v, n - 1), n - 1, rest);
      }
      GuessedHead(props, low, top, path, e, g, b, bits, rest);
    } else {
      NoBits(v);
      NoBits(guess);
    }
  }

  lemma GuessedHead(props: Props, low: nat, top: nat, path: seq<nat>, e: nat, g: seq<nat>, b: nat, bits: seq<nat>,
                    rest: seq<Op>)
    requires |g| == |bits|
    ensures Rendered(props, SentGuessed(low, top, path, [e] + g, [b] + bits), rest)
         == [Bit(TreeBase(props, Plain(low, top)) + 256 + 256 * e + NodeOf(path), b)]
            + Rendered(props, if b == e then SentGuessed(low, top, path + [b], g, bits)
                              else Sent(Plain(low, top), path + [b], bits), rest)
  {
    hide NodeOf, Joined;
    assert ([b] + bits)[1..] == bits && ([e] + g)[1..] == g;
    var more := if b == e then SentGuessed(low, top, path + [b], g, bits) else Sent(Plain(low, top), path + [b], bits);
    assert ([At(Inside(Guessed(low, top, e), path), b)] + more)[1..] == more;
  }

  // ----- the scripts code the bits -----

  lemma LengthIs(props: Props, again: bool, low: nat, len: nat, rest: seq<Op>)
    requires 2 <= len <= 273
    ensures LengthOps(LenBase(again), low, Less(len, 2), rest) == Rendered(props, LengthBits(again, low, len), rest)
  {
    hide Rendered, HighFirst, Pow2, Sent, TreeOps, Asked;
    Widths();
    if len < 10 {
      TreeIs(props, LenLow(again, low), [], len - 2, 3, rest);
      RenderedAsk(props, LenNotLow(again), 0, Sent(LenLow(again, low), [], HighFirst(len - 2, 3)), rest);
    } else if len < 18 {
      var more := Sent(LenMid(again, low), [], HighFirst(len - 10, 3));
      TreeIs(props, LenMid(again, low), [], len - 10, 3, rest);
      RenderedAsk(props, LenNotMid(again), 0, more, rest);
      RenderedAsk(props, LenNotLow(again), 1, Asked(LenNotMid(again), 0) + more, rest);
    } else {
      var more := Sent(LenHigh(again), [], HighFirst(len - 18, 8));
      TreeIs(props, LenHigh(again), [], len - 18, 8, rest);
      RenderedAsk(props, LenNotMid(again), 1, more, rest);
      RenderedAsk(props, LenNotLow(again), 1, Asked(LenNotMid(again), 1) + more, rest);
    }
  }

  lemma FooterIs(props: Props, slot: nat, left: nat, rest: seq<Op>)
    requires left < Pow2(SlotBits(slot)) && (slot >= 14 ==> left / 16 < Pow2(Less(SlotBits(slot), 4)))
    ensures FooterOps(slot, left, rest) == Rendered(props, FooterBits(slot, left), rest)
  {
    if slot < 4 {
    } else if slot < 14 {
      ReverseIs(props, Footer(slot), [], left, SlotBits(slot), rest);
    } else {
      hide Rendered, HighFirst, LowFirst, Pow2, Sent, SentBare, ReverseOps, DirectOps;
      var bare, align := SentBare(HighFirst(left / 16, Less(SlotBits(slot), 4))),
            Sent(Align, [], LowFirst(left % 16, 4));
      ReverseIs(props, Align, [], left % 16, 4, rest);
      DirectIs(props, left / 16, Less(SlotBits(slot), 4), Rendered(props, align, rest));
      RenderedAdd(props, bare, align, rest);
    }
  }

  lemma SlotRange(d: nat)
    requires d < WORD
    ensures Slot(d) < 64 && SlotBase(Slot(d)) <= d && d - SlotBase(Slot(d)) < Pow2(SlotBits(Slot(d)))
    ensures Slot(d) >= 14 ==> (d - SlotBase(Slot(d))) / 16 < Pow2(Less(SlotBits(Slot(d)), 4))
  {
    hide Pow2, Slot, SlotBase;
    PowerValues();
    SlotBelow(d, 32);
    SlotHolds(d);
    var slot := Slot(d);
    if slot >= 14 {
      Pow2Add(4, SlotBits(slot) - 4);
      SmallPowers();
      HighBits(d - SlotBase(slot), Pow2(SlotBits(slot) - 4), 16);
    }
  }

  lemma DistanceIs(props: Props, len: nat, dist: nat, rest: seq<Op>)
    requires 2 <= len && 1 <= dist <= WORD
    ensures DistanceOps(Less(len, 2), Less(dist, 1), rest) == Rendered(props, DistanceBits(len, dist), rest)
  {
    hide Rendered, HighFirst, Pow2, Sent, SlotBits, Slot, SlotBase, FooterBits, TreeOps, FooterOps;
    SlotRange(dist - 1);
    SlotHolds(dist - 1);
    SlotThenFooter(props, if len < 6 then len - 2 else 3, Slot(dist - 1), dist - 1 - SlotBase(Slot(dist - 1)), rest);
  }

  lemma SlotThenFooter(props: Props, extra: nat, slot: nat, left: nat, rest: seq<Op>)
    requires slot < 64 && left < Pow2(SlotBits(slot))
    requires slot >= 14 ==> left / 16 < Pow2(Less(SlotBits(slot), 4))
    ensures TreeOps(POS_SLOT + 64 * extra, 1, 6, slot, FooterOps(slot, left, rest))
         == Rendered(props, Sent(DistanceSlot(extra), [], HighFirst(slot, 6)) + FooterBits(slot, left), rest)
  {
    hide Rendered, HighFirst, Pow2, Sent, TreeOps, FooterOps, FooterBits, SlotBits, Less;
    Widths();
    FooterIs(props, slot, left, rest);
    TreeIs(props, DistanceSlot(extra), [], slot, 6, Rendered(props, FooterBits(slot, left), rest));
    RenderedAdd(props, Sent(DistanceSlot(extra), [], HighFirst(slot, 6)), FooterBits(slot, left), rest);
  }

  lemma LiteralIs(props: Props, c: Coder, b: byte, rest: seq<Op>)
    requires InRange(props) && (c.state >= 7 ==> c.reps != [] && 1 <= c.reps[0] <= |c.hist|)
    ensures LiteralOps(props, c, b, rest) == Rendered(props, LiteralBits(props, c, b), rest)
  {
    hide Rendered, HighFirst, Pow2, Sent, SentGuessed, TreeOps, MatchedOps, Joined, Quotient, Remainder;
    Widths();
    var low, top := Remainder(|c.hist|, Pow2(props.lp)), Quotient(W.Last(c.hist), Pow2(8 - props.lc));
    assert LiteralBase(props, |c.hist|, W.Last(c.hist)) == TreeBase(props, Plain(low, top));
    if c.state < 7 {
      TreeIs(props, Plain(low, top), [], b, 8, rest);
    } else {
      GuessedIs(props, low, top, [], 8, c.hist[|c.hist| - c.reps[0]], b, rest);
    }
  }

  lemma IndexIs(props: Props, state: nat, low: nat, index: nat, rest: seq<Op>)
    requires index < 4
    ensures ChoiceOps(state, low, false, index, rest) == Rendered(props, IndexBits(state, low, index), rest)
  {
    hide Rendered, Asked;
    if index == 0 {
      RenderedAsk(props, NotLast(state), 0, Asked(IsLong(state, low), 1), rest);
      RenderedAsk(props, IsLong(state, low), 1, [], rest);
    } else if index == 1 {
      RenderedAsk(props, NotLast(state), 1, Asked(NotSecond(state), 0), rest);
      RenderedAsk(props, NotSecond(state), 0, [], rest);
    } else {
      RenderedAsk(props, NotLast(state), 1, Asked(NotSecond(state), 1) + Asked(NotThird(state), index - 2), rest);
      RenderedAsk(props, NotSecond(state), 1, Asked(NotThird(state), index - 2), rest);
      RenderedAsk(props, NotThird(state), index - 2, [], rest);
    }
  }

  lemma PositionIs(props: Props, pos: nat)
    requires InRange(props)
    ensures PosState(props, pos) == Remainder(pos, Pow2(props.pb))
  {
  }

  lemma GuessKnown(c: Coder, dict: nat)
    requires Coherent(c, dict)
    ensures c.reps != [] && (c.state >= 7 ==> 1 <= c.reps[0] <= |c.hist|)
  {
  }

  // The bits of a packet are those it says, each with the probability of its place.
  lemma PacketIs(props: Props, c: Coder, pk: Packet, dict: nat, size: nat, rest: seq<Op>)
    requires InRange(props) && Coherent(c, dict) && Legal(c, pk, dict, size) && dict < WORD
    ensures PacketOps(props, c, pk, rest) == Rendered(props, PacketBits(props, c, pk, dict, size), rest)
  {
    hide Rendered, Asked, LiteralOps, LengthOps, DistanceOps, ChoiceOps, LiteralBits, LengthBits, DistanceBits,
      IndexBits, Pow2;
    var low := Remainder(|c.hist|, Pow2(props.pb));
    PositionIs(props, |c.hist|);
    GuessKnown(c, dict);
    match pk {
      case Literal(b) =>
        LiteralIs(props, c, b, rest);
        RenderedAsk(props, IsMatch(c.state, low), 0, LiteralBits(props, c, b), rest);
      case Match(dist, len) =>
        var more := LengthBits(false, low, len) + DistanceBits(len, dist);
        DistanceIs(props, len, dist, rest);
        LengthIs(props, false, low, len, Rendered(props, DistanceBits(len, dist), rest));
        RenderedAdd(props, LengthBits(false, low, len), DistanceBits(len, dist), rest);
        RenderedAsk(props, IsAgain(c.state), 0, more, rest);
        RenderedAsk(props, IsMatch(c.state, low), 1, Asked(IsAgain(c.state), 0) + more, rest);
      case ShortRep =>
        ShortIs(props, c.state, low, rest);
        var more := Asked(NotLast(c.state), 0) + Asked(IsLong(c.state, low), 0);
        RenderedAsk(props, IsAgain(c.state), 1, more, rest);
        RenderedAsk(props, IsMatch(c.state, low), 1, Asked(IsAgain(c.state), 1) + more, rest);
      case Rep(index, len) =>
        var more := IndexBits(c.state, low, index) + LengthBits(true, low, len);
        LengthIs(props, true, low, len, rest);
        IndexIs(props, c.state, low, index, Rendered(props, LengthBits(true, low, len), rest));
        RenderedAdd(props, IndexBits(c.state, low, index), LengthBits(true, low, len), rest);
        RenderedAsk(props, IsAgain(c.state), 1, more, rest);
        RenderedAsk(props, IsMatch(c.state, low), 1, Asked(IsAgain(c.state), 1) + more, rest);
    }
  }

  lemma ShortIs(props: Props, state: nat, low: nat, rest: seq<Op>)
    ensures ChoiceOps(state, low, true, 0, rest)
         == Rendered(props, Asked(NotLast(state), 0) + Asked(IsLong(state, low), 0), rest)
  {
    hide Rendered, Asked;
    RenderedAsk(props, NotLast(state), 0, Asked(IsLong(state, low), 0), rest);
    RenderedAsk(props, IsLong(state, low), 0, [], rest);
  }

  // ----- every bit has its place in the table -----

  predicate Placed(props: Props, coded: Coded)
  {
    coded.bit <= 1 && (coded.At? ==> PlaceFits(props, coded.place))
  }

  predicate AllPlaced(props: Props, cs: seq<Coded>)
  {
    forall i :: 0 <= i < |cs| ==> Placed(props, cs[i])
  }

  lemma PlacedAdd(props: Props, a: seq<Coded>, b: seq<Coded>)
    requires AllPlaced(props, a) && AllPlaced(props, b)
    ensures AllPlaced(props, a + b)
  {
    hide Placed;
  }

  lemma PlacedAsk(props: Props, flag: Flag, bit: nat)
    requires FlagFits(props, flag) && bit <= 1
    ensures AllPlaced(props, Asked(flag, bit))
  {
    hide FlagFits;
  }

  lemma {:induction false} SentPlaced(props: Props, tree: Tree, path: seq<nat>, bits: seq<nat>)
    requires TreeFits(props, tree) && AreBits(path) && AreBits(bits) && |path| + |bits| <= Levels(tree)
    ensures AllPlaced(props, Sent(tree, path, bits))
    decreases |bits|
  {
    hide TreeFits, Levels, NodeOf;
    if bits != [] {
      SentPlaced(props, tree, path + [bits[0]], bits[1..]);
      var first := At(Inside(tree, path), bits[0]);
      assert Placed(props, first);
      PlacedAdd(props, [first], Sent(tree, path + [bits[0]], bits[1..]));
    }
  }

  lemma {:induction false} BarePlaced(props: Props, bits: seq<nat>)
    requires AreBits(bits)
    ensures AllPlaced(props, SentBare(bits))
  {
    if bits != [] {
      BarePlaced(props, bits[1..]);
      PlacedAdd(props, [Bare(bits[0])], SentBare(bits[1..]));
    }
  }

  lemma {:induction false} GuessedPlaced(props: Props, low: nat, top: nat, path: seq<nat>, guess: seq<nat>,
                                         bits: seq<nat>)
    requires low < Pow2(props.lp) && top < Pow2(props.lc) && |guess| == |bits| && |path| + |bits| <= 8
    requires AreBits(path) && AreBits(guess) && AreBits(bits)
    ensures AllPlaced(props, SentGuessed(low, top, path, guess, bits))
    decreases |bits|
  {
    hide Pow2;
    if bits != [] {
      var first := At(Inside(Guessed(low, top, guess[0]), path), bits[0]);
      assert Placed(props, first);
      hide Placed, AllPlaced;
      FirstPlaced(props, first);
      if bits[0] == guess[0] {
        GuessedPlaced(props, low, top, path + [bits[0]], guess[1..], bits[1..]);
        PlacedAdd(props, [first], SentGuessed(low, top, path + [bits[0]], guess[1..], bits[1..]));
      } else {
        SentPlaced(props, Plain(low, top), path + [bits[0]], bits[1..]);
        PlacedAdd(props, [first], Sent(Plain(low, top), path + [bits[0]], bits[1..]));
      }
    }
  }

  lemma FirstPlaced(props: Props, first: Coded)
    requires Placed(props, first)
    ensures AllPlaced(props, [first])
  {
    hide Placed;
  }

  lemma LengthPlaced(props: Props, again: bool, low: nat, len: nat)
    requires low < Pow2(props.pb) && 2 <= len <= 273
    ensures AllPlaced(props, LengthBits(again, low, len))
  {
    hide AllPlaced, Pow2, Sent, HighFirst, Asked;
    PlacedAsk(props, LenNotLow(again), if len < 10 then 0 else 1);
    if len < 10 {
      SentPlaced(props, LenLow(again, low), [], HighFirst(len - 2, 3));
      PlacedAdd(props, Asked(LenNotLow(again), 0), Sent(LenLow(again, low), [], HighFirst(len - 2, 3)));
    } else if len < 18 {
      var more := Sent(LenMid(again, low), [], HighFirst(len - 10, 3));
      SentPlaced(props, LenMid(again, low), [], HighFirst(len - 10, 3));
      PlacedAsk(props, LenNotMid(again), 0);
      PlacedAdd(props, Asked(LenNotMid(again), 0), more);
      PlacedAdd(props, Asked(LenNotLow(again), 1), Asked(LenNotMid(again), 0) + more);
    } else {
      var more := Sent(LenHigh(again), [], HighFirst(len - 18, 8));
      SentPlaced(props, LenHigh(again), [], HighFirst(len - 18, 8));
      PlacedAsk(props, LenNotMid(again), 1);
      PlacedAdd(props, Asked(LenNotMid(again), 1), more);
      PlacedAdd(props, Asked(LenNotLow(again), 1), Asked(LenNotMid(again), 1) + more);
    }
  }

  lemma DistancePlaced(props: Props, len: nat, dist: nat)
    requires 2 <= len && 1 <= dist
    ensures AllPlaced(props, DistanceBits(len, dist))
  {
    hide AllPlaced, Pow2, Sent, SentBare, HighFirst, LowFirst, Slot, SlotBase;
    SlotHolds(dist - 1);
    var slot, extra := Slot(dist - 1), if len < 6 then len - 2 else 3;
    var left := dist - 1 - SlotBase(slot);
    FooterPlaced(props, slot, left);
    SentPlaced(props, DistanceSlot(extra), [], HighFirst(slot, 6));
    PlacedAdd(props, Sent(DistanceSlot(extra), [], HighFirst(slot, 6)), FooterBits(slot, left));
  }

  lemma FooterPlaced(props: Props, slot: nat, left: nat)
    ensures AllPlaced(props, FooterBits(slot, left))
  {
    hide Pow2, Sent, SentBare, HighFirst, LowFirst;
    if slot < 4 {
    } else if slot < 14 {
      SentPlaced(props, Footer(slot), [], LowFirst(left, SlotBits(slot)));
    } else {
      var bits := HighFirst(left / 16, Less(SlotBits(slot), 4));
      BarePlaced(props, bits);
      SentPlaced(props, Align, [], LowFirst(left % 16, 4));
      PlacedAdd(props, SentBare(bits), Sent(Align, [], LowFirst(left % 16, 4)));
    }
  }

  lemma LiteralPlaced(props: Props, c: Coder, b: byte)
    requires InRange(props) && (c.state >= 7 ==> c.reps != [] && 1 <= c.reps[0] <= |c.hist|)
    ensures AllPlaced(props, LiteralBits(props, c, b))
  {
    hide AllPlaced, Pow2, Sent, SentGuessed, HighFirst, Quotient, Remainder;
    var low, top := Remainder(|c.hist|, Pow2(props.lp)), Quotient(W.Last(c.hist), Pow2(8 - props.lc));
    ByteBits(props.lc, W.Last(c.hist));
    if c.state < 7 {
      SentPlaced(props, Plain(low, top), [], HighFirst(b, 8));
    } else {
      GuessedPlaced(props, low, top, [], HighFirst(c.hist[|c.hist| - c.reps[0]], 8), HighFirst(b, 8));
    }
  }

  lemma IndexPlaced(props: Props, state: nat, low: nat, index: nat)
    requires index < 4 && state < 12 && low < Pow2(props.pb)
    ensures AllPlaced(props, IndexBits(state, low, index))
  {
    hide AllPlaced, Pow2, Asked;
    PlacedAsk(props, NotLast(state), if index == 0 then 0 else 1);
    if index == 0 {
      PlacedAsk(props, IsLong(state, low), 1);
      PlacedAdd(props, Asked(NotLast(state), 0), Asked(IsLong(state, low), 1));
    } else if index == 1 {
      PlacedAsk(props, NotSecond(state), 0);
      PlacedAdd(props, Asked(NotLast(state), 1), Asked(NotSecond(state), 0));
    } else {
      PlacedAsk(props, NotSecond(state), 1);
      PlacedAsk(props, NotThird(state), index - 2);
      PlacedAdd(props, Asked(NotSecond(state), 1), Asked(NotThird(state), index - 2));
      PlacedAdd(props, Asked(NotLast(state), 1), Asked(NotSecond(state), 1) + Asked(NotThird(state), index - 2));
    }
  }

  lemma PacketPlaced(props: Props, c: Coder, pk: Packet, dict: nat, size: nat)
    requires InRange(props) && Coherent(c, dict) && Legal(c, pk, dict, size)
    ensures AllPlaced(props, PacketBits(props, c, pk, dict, size))
  {
    hide AllPlaced, Pow2, Asked, LiteralBits, LengthBits, DistanceBits, IndexBits, Remainder;
    var low, state := Remainder(|c.hist|, Pow2(props.pb)), c.state;
    GuessKnown(c, dict);
    PlacedAsk(props, IsMatch(state, low), if pk.Literal? then 0 else 1);
    PlacedAsk(props, IsAgain(state), if pk.Match? then 0 else 1);
    match pk {
      case Literal(b) =>
        LiteralPlaced(props, c, b);
        PlacedAdd(props, Asked(IsMatch(state, low), 0), LiteralBits(props, c, b));
      case Match(dist, len) =>
        var more := LengthBits(false, low, len) + DistanceBits(len, dist);
        LengthPlaced(props, false, low, len);
        DistancePlaced(props, len, dist);
        PlacedAdd(props, LengthBits(false, low, len), DistanceBits(len, dist));
        PlacedAdd(props, Asked(IsAgain(state), 0), more);
        PlacedAdd(props, Asked(IsMatch(state, low), 1), Asked(IsAgain(state), 0) + more);
      case ShortRep =>
        var more := Asked(NotLast(state), 0) + Asked(IsLong(state, low), 0);
        PlacedAsk(props, NotLast(state), 0);
        PlacedAsk(props, IsLong(state, low), 0);
        PlacedAdd(props, Asked(NotLast(state), 0), Asked(IsLong(state, low), 0));
        PlacedAdd(props, Asked(IsAgain(state), 1), more);
        PlacedAdd(props, Asked(IsMatch(state, low), 1), Asked(IsAgain(state), 1) + more);
      case Rep(index, len) =>
        var more := IndexBits(state, low, index) + LengthBits(true, low, len);
        IndexPlaced(props, state, low, index);
        LengthPlaced(props, true, low, len);
        PlacedAdd(props, IndexBits(state, low, index), LengthBits(true, low, len));
        PlacedAdd(props, Asked(IsAgain(state), 1), more);
        PlacedAdd(props, Asked(IsMatch(state, low), 1), Asked(IsAgain(state), 1) + more);
    }
  }

  // ----- whole streams -----

  function StreamBits(props: Props, c: Coder, pks: seq<Packet>, dict: nat, size: nat): seq<Coded>
    requires InRange(props) && Stream(c, pks, dict, size)
    decreases |pks|
  {
    if pks == [] then []
    else
      PacketBits(props, c, pks[0], dict, size)
      + if IsEnd(pks[0]) then [] else StreamBits(props, Next(c, pks[0], dict, size), pks[1..], dict, size)
  }

  // A stream is coded by the bits it says, each with the probability of its place, and no
  // two places share one.
  lemma {:induction false} StreamIs(props: Props, c: Coder, pks: seq<Packet>, dict: nat, size: nat)
    requires InRange(props) && Stream(c, pks, dict, size) && dict < WORD
    ensures Script(props, c, pks, dict, size) == Rendered(props, StreamBits(props, c, pks, dict, size), [])
    ensures AllPlaced(props, StreamBits(props, c, pks, dict, size))
    decreases |pks|
  {
    hide Rendered, PacketOps, PacketBits, AllPlaced, Next;
    if pks != [] {
      var first := PacketBits(props, c, pks[0], dict, size);
      var more := if IsEnd(pks[0]) then [] else StreamBits(props, Next(c, pks[0], dict, size), pks[1..], dict, size);
      if IsEnd(pks[0]) {
        RenderedNothing(props);
      } else {
        StreamIs(props, Next(c, pks[0], dict, size), pks[1..], dict, size);
      }
      PacketIs(props, c, pks[0], dict, size, Rendered(props, more, []));
      PacketPlaced(props, c, pks[0], dict, size);
      RenderedAdd(props, first, more, []);
      PlacedAdd(props, first, more);
    } else {
      RenderedNothing(props);
    }
  }

  lemma RenderedNothing(props: Props)
    ensures Rendered(props, [], []) == [] && AllPlaced(props, [])
  {
  }

  // ----- what the contexts depend on -----

  // Positions share their bits' probabilities exactly when they agree modulo 2^pb,
  lemma PosStateTells(props: Props, p: nat, q: nat)
    requires InRange(props)
    ensures PosState(props, p) == PosState(props, q) <==> p % Pow2(props.pb) == q % Pow2(props.pb)
    ensures p < Pow2(props.pb) ==> PosState(props, p) == p
  {
    SmallRemainder(p, Pow2(props.pb));
  }

  // and literals when their positions agree modulo 2^lp and the bytes before them in their
  // top lc bits. Other literals' probabilities are apart.
  lemma LiteralBaseTells(props: Props, p: nat, x: byte, q: nat, y: byte)
    requires InRange(props)
    ensures LiteralBase(props, p, x) == LiteralBase(props, q, y)
       <==> p % Pow2(props.lp) == q % Pow2(props.lp) && x / Pow2(8 - props.lc) == y / Pow2(8 - props.lc)
    ensures LiteralBase(props, p, x) < LiteralBase(props, q, y) ==>
              LiteralBase(props, p, x) + 768 <= LiteralBase(props, q, y)
  {
    hide Joined, Pow2, NumProbs;
    LiteralBaseIs(props, p, x);
    LiteralBaseIs(props, q, y);
    ByteBits(props.lc, x);
    ByteBits(props.lc, y);
    JoinedTells(Masked(p, props.lp), Shifted(x, 8 - props.lc), Masked(q, props.lp), Shifted(y, 8 - props.lc), props.lc);
  }

  // The slot of a distance is twice the place of its top bit, and the bit below.
  lemma {:induction false} SlotExact(d: nat, k: nat)
    requires 1 <= k && Pow2(k) <= d < 2 * Pow2(k)
    ensures Slot(d) == 2 * k + d / Pow2(k - 1) - 2
    ensures 2 <= d / Pow2(k - 1) < 4
    decreases k
  {
    if k == 1 {
      assert Pow2(0) == 1 && Pow2(1) == 2;
    } else {
      var p := Pow2(k - 2);
      assert Pow2(k - 1) == 2 * p && Pow2(k) == 4 * p;
      HalfInside(d, p);
      SlotExact(d / 2, k - 1);
      DivDiv(d, 2, p);
      assert p >= 1 && d >= 4;
    }
  }

  lemma HalfInside(d: nat, p: nat)
    requires 4 * p <= d < 8 * p
    ensures 2 * p <= d / 2 < 4 * p
  {
  }
}
