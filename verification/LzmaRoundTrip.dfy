// The LZMA decoder as a whole: what it makes of a stream, and that every byte string has
// a stream it is made of.
module LzmaRoundTrip {
  import opened Bytes
  import opened Powers
  import opened RangeCoder
  import opened LzmaCode
  import opened LzmaSymbols
  import opened LzmaDecoder
  import W = LzmaWindow

  // ----- the bits of a legal stream use no probability outside the table -----

  lemma FitsCons(op: Op, rest: seq<Op>, size: nat)
    requires Fits(op, size) && AllFit(rest, size)
    ensures AllFit([op] + rest, size)
  {
  }

  lemma {:induction false} FitsTree(base: nat, m: nat, j: nat, n: nat, v: nat, rest: seq<Op>, size: nat)
    requires AllFit(rest, size) && AtDepth(m, j) && base + Pow2(j + n) <= size
    ensures AllFit(TreeOps(base, m, n, v, rest), size)
    decreases n
  {
    hide AllFit, AtDepth, Pow2;
    if n > 0 {
      var b := High(v, n - 1);
      DepthFits(m, j, j + n);
      DepthStep(m, j, b);
      FitsTree(base, 2 * m + b, j + 1, n - 1, Low(v, n - 1), rest, size);
      FitsCons(Bit(base + m, b), TreeOps(base, 2 * m + b, n - 1, Low(v, n - 1), rest), size);
    }
  }

  lemma {:induction false} FitsReverse(base: nat, m: nat, j: nat, n: nat, v: nat, rest: seq<Op>, size: nat)
    requires AllFit(rest, size) && AtDepth(m, j) && base + Pow2(j + n) <= size
    ensures AllFit(ReverseOps(base, m, n, v, rest), size)
    decreases n
  {
    hide AllFit, AtDepth, Pow2;
    if n > 0 {
      DepthFits(m, j, j + n);
      DepthStep(m, j, v % 2);
      FitsReverse(base, 2 * m + v % 2, j + 1, n - 1, v / 2, rest, size);
      FitsCons(Bit(base + m, v % 2), ReverseOps(base, 2 * m + v % 2, n - 1, v / 2, rest), size);
    }
  }

  lemma {:induction false} FitsDirect(n: nat, v: nat, rest: seq<Op>, size: nat)
    requires AllFit(rest, size)
    ensures AllFit(DirectOps(n, v, rest), size)
    decreases n
  {
    hide AllFit;
    if n > 0 {
      FitsDirect(n - 1, Low(v, n - 1), rest, size);
      FitsCons(Direct(High(v, n - 1)), DirectOps(n - 1, Low(v, n - 1), rest), size);
    }
  }

  lemma {:induction false} FitsMatched(base: nat, m: nat, j: nat, guess: nat, v: nat, rest: seq<Op>, size: nat)
    requires AllFit(rest, size) && j <= 8 && AtDepth(m, j) && base + 768 <= size
    ensures AllFit(MatchedOps(base, m, 8 - j, guess, v, rest), size)
    decreases 8 - j
  {
    hide AllFit, AtDepth, Pow2, TreeOps;
    if j < 8 {
      var n := 7 - j;
      var e, b := High(guess, n), High(v, n);
      DepthOf256(m, j);
      DepthStep(m, j, b);
      if b == e {
        FitsMatched(base, 2 * m + b, j + 1, Low(guess, n), Low(v, n), rest, size);
        FitsCons(Bit(base + 256 + 256 * e + m, b), MatchedOps(base, 2 * m + b, n, Low(guess, n), Low(v, n), rest),
                 size);
      } else {
        ByteFits(0);
        FitsTree(base, 2 * m + b, j + 1, n, Low(v, n), rest, size);
        FitsCons(Bit(base + 256 + 256 * e + m, b), TreeOps(base, 2 * m + b, n, Low(v, n), rest), size);
      }
    }
  }

  lemma FitsLength(base: nat, posState: nat, extra: nat, rest: seq<Op>, size: nat)
    requires AllFit(rest, size) && posState < 16 && base + 514 <= size
    ensures AllFit(LengthOps(base, posState, extra, rest), size)
  {
    hide AllFit, TreeOps;
    DepthStart();
    assert Pow2(3) == 8 && Pow2(8) == 256;
    if extra < 8 {
      FitsTree(base + LEN_LOW + 8 * posState, 1, 0, 3, extra, rest, size);
      FitsCons(Bit(base, 0), TreeOps(base + LEN_LOW + 8 * posState, 1, 3, extra, rest), size);
    } else if extra < 16 {
      var tree := TreeOps(base + LEN_MID + 8 * posState, 1, 3, extra - 8, rest);
      FitsTree(base + LEN_MID + 8 * posState, 1, 0, 3, extra - 8, rest, size);
      FitsCons(Bit(base + 1, 0), tree, size);
      FitsCons(Bit(base, 1), [Bit(base + 1, 0)] + tree, size);
    } else {
      var tree := TreeOps(base + LEN_HIGH, 1, 8, extra - 16, rest);
      FitsTree(base + LEN_HIGH, 1, 0, 8, extra - 16, rest, size);
      FitsCons(Bit(base + 1, 1), tree, size);
      FitsCons(Bit(base, 1), [Bit(base + 1, 1)] + tree, size);
    }
  }

  lemma FitsDistance(extra: nat, d: nat, rest: seq<Op>, size: nat)
    requires AllFit(rest, size) && d < WORD && LITERAL <= size
    ensures AllFit(DistanceOps(extra, d, rest), size)
  {
    hide AllFit, TreeOps, ReverseOps, DirectOps, Slot, SlotBase, SlotBits;
    var slot, low := Slot(d), Less(d, SlotBase(Slot(d)));
    DepthStart();
    SixtyFour();
    SlotFits(d);
    if 4 <= slot < 14 {
      SpecialFits(slot);
      FitsReverse(Less(SPEC_POS + SlotBase(slot), slot + 1), 1, 0, SlotBits(slot), low, rest, size);
    } else if slot >= 14 {
      SixteenFits();
      FitsReverse(ALIGN, 1, 0, 4, low % 16, rest, size);
      FitsDirect(Less(SlotBits(slot), 4), low / 16, ReverseOps(ALIGN, 1, 4, low % 16, rest), size);
    }
    FitsTree(POS_SLOT + 64 * (if extra < 4 then extra else 3), 1, 0, 6, slot, FooterOps(slot, low, rest), size);
  }

  lemma FitsChoice(state: nat, posState: nat, short: bool, index: nat, rest: seq<Op>, size: nat)
    requires AllFit(rest, size) && state < 12 && posState < 16 && LITERAL <= size
    ensures AllFit(ChoiceOps(state, posState, short, index, rest), size)
  {
    hide AllFit;
    var long, far := if short then 0 else 1, if index == 2 then 0 else 1;
    if short || index == 0 {
      FitsCons(Bit(IS_REP_0_LONG + 16 * state + posState, long), rest, size);
      FitsCons(Bit(IS_REP_G0 + state, 0), [Bit(IS_REP_0_LONG + 16 * state + posState, long)] + rest, size);
    } else if index == 1 {
      FitsCons(Bit(IS_REP_G1 + state, 0), rest, size);
      FitsCons(Bit(IS_REP_G0 + state, 1), [Bit(IS_REP_G1 + state, 0)] + rest, size);
    } else {
      FitsCons(Bit(IS_REP_G2 + state, far), rest, size);
      FitsCons(Bit(IS_REP_G1 + state, 1), [Bit(IS_REP_G2 + state, far)] + rest, size);
      FitsCons(Bit(IS_REP_G0 + state, 1), [Bit(IS_REP_G1 + state, 1)] + ([Bit(IS_REP_G2 + state, far)] + rest), size);
    }
  }

  lemma FitsLiteral(props: Props, c: Coder, b: byte, rest: seq<Op>)
    requires InRange(props) && AllFit(rest, NumProbs(props))
    ensures AllFit(LiteralOps(props, c, b, rest), NumProbs(props))
  {
    hide AllFit, TreeOps, MatchedOps, LiteralBase, NumProbs;
    var base := LiteralBase(props, |c.hist|, W.Last(c.hist));
    LiteralBaseFits(props, |c.hist|, W.Last(c.hist));
    DepthStart();
    ByteFits(b);
    FitsTree(base, 1, 0, 8, b, rest, NumProbs(props));
    if c.state >= 7 && c.reps != [] && 1 <= c.reps[0] <= |c.hist| {
      FitsMatched(base, 1, 0, c.hist[|c.hist| - c.reps[0]], b, rest, NumProbs(props));
    }
  }

  lemma FitsPacket(props: Props, c: Coder, pk: Packet, dict: nat, size: nat, rest: seq<Op>)
    requires InRange(props) && Coherent(c, dict) && Legal(c, pk, dict, size) && dict < WORD
             && AllFit(rest, NumProbs(props))
    ensures AllFit(PacketOps(props, c, pk, rest), NumProbs(props))
  {
    hide AllFit, LengthOps, DistanceOps, ChoiceOps, LiteralOps, NumProbs, PosState, ExtraOf, DistanceOf, IndexOf,
      FlagOps, Legal;
    var ps, n := PosState(props, |c.hist|), NumProbs(props);
    NumProbsLarge(props);
    PosStateBelow(props, |c.hist|);
    FlagParts(props, c, pk, rest);
    LegalParts(c, pk, dict, size);
    if pk.Literal? {
      FitsLiteral(props, c, pk.b, rest);
      FitsCons(Bit(IS_MATCH + 16 * c.state + ps, 0), LiteralOps(props, c, pk.b, rest), n);
    } else {
      var extra, tail := ExtraOf(pk), FlagOps(props, c, pk, rest);
      if pk.Match? {
        FitsDistance(extra, DistanceOf(pk), rest, n);
        FitsLength(LEN_CODER, ps, extra, AfterLength(pk, rest), n);
      } else if pk.ShortRep? {
        FitsChoice(c.state, ps, true, IndexOf(pk), rest, n);
      } else {
        FitsLength(REP_LEN_CODER, ps, extra, rest, n);
        FitsChoice(c.state, ps, false, IndexOf(pk), LengthOps(REP_LEN_CODER, ps, extra, rest), n);
      }
      FitsCons(Bit(IS_REP + c.state, RepFlag(pk)), tail, n);
      FitsCons(Bit(IS_MATCH + 16 * c.state + ps, 1), [Bit(IS_REP + c.state, RepFlag(pk))] + tail, n);
    }
  }

  lemma PosStateBelow(props: Props, pos: nat)
    requires InRange(props)
    ensures PosState(props, pos) < 16
  {
    hide PosState;
  }

  lemma {:induction false} FitsScript(props: Props, c: Coder, pks: seq<Packet>, dict: nat, size: nat)
    requires InRange(props) && dict < WORD && Stream(c, pks, dict, size)
    ensures AllFit(Script(props, c, pks, dict, size), NumProbs(props))
    decreases |pks|
  {
    hide NumProbs, PacketOps;
    if pks != [] {
      if !IsEnd(pks[0]) {
        FitsScript(props, Next(c, pks[0], dict, size), pks[1..], dict, size);
      }
      FitsPacket(props, c, pks[0], dict, size, ScriptAfter(props, c, pks, dict, size));
    }
  }

  // ----- a stream made of literals only -----

  function Literals(s: seq<byte>): seq<Packet>
  {
    if s == [] then [] else [Literal(s[0])] + Literals(s[1..])
  }

  lemma {:induction false} LiteralsSpell(h: seq<byte>, s: seq<byte>, dict: nat)
    requires dict >= 1
    ensures var c := Coder(0, [1, 1, 1, 1], h);
            && Stream(c, Literals(s), dict, |h| + |s|)
            && Run(c, Literals(s), dict, |h| + |s|).hist == h + s
    decreases |s|
  {
    hide Stream, Run, Coherent;
    var c := Coder(0, [1, 1, 1, 1], h);
    if s != [] {
      LiteralsSpell(h + [s[0]], s[1..], dict);
      assert Literals(s)[1..] == Literals(s[1..]);
      assert h + [s[0]] + s[1..] == h + s;
      StreamLiteral(c, Coder(0, [1, 1, 1, 1], h + [s[0]]), s[0], Literals(s), dict, |h| + |s|);
    } else {
      assert h + s == h;
      StreamEmpty(c, dict);
    }
  }

  lemma StreamEmpty(c: Coder, dict: nat)
    ensures Stream(c, [], dict, |c.hist|) && Run(c, [], dict, |c.hist|) == c
  {
  }

  lemma StreamLiteral(c: Coder, c': Coder, b: byte, pks: seq<Packet>, dict: nat, size: nat)
    requires pks != [] && pks[0] == Literal(b) && c.state == 0 && c.reps == [1, 1, 1, 1] && dict >= 1 && |c.hist| < size
    requires c' == Coder(AfterLiteral(c.state), c.reps, c.hist + [b]) && Stream(c', pks[1..], dict, size)
    ensures Stream(c, pks, dict, size) && Run(c, pks, dict, size) == Run(c', pks[1..], dict, size)
  {
    assert Next(c, pks[0], dict, size) == c';
  }

  // ----- the whole decoder -----

  // The input, from start on, codes a legal stream.
  ghost predicate CodesStream(input: seq<byte>, start: nat, props: Props, pks: seq<Packet>, dict: nat, size: nat)
  {
    && InRange(props) && 1 <= dict < WORD && start + 5 <= |input|
    && Stream(START, pks, dict, size)
    && AllFit(Script(props, START, pks, dict, size), NumProbs(props))
    && Aims(Value(input[start + 1..start + 5]), WORD - 1, StartProbs(props), input, start + 5,
            Script(props, START, pks, dict, size))
  }

  // The properties byte packs three numbers; subtraction takes them apart.
  method ReadProps(pos: byte) returns (ok: bool, props: Props)
    ensures ok <==> pos < 9 * 5 * 5
    ensures ok ==> InRange(props) && pos == (props.pb * 5 + props.lp) * 9 + props.lc
    ensures forall q: Props :: InRange(q) && pos == (q.pb * 5 + q.lp) * 9 + q.lc ==> ok && q == props
  {
    props := Props(0, 0, 0);
    if pos >= 9 * 5 * 5 {
      return false, props;
    }
    var mi: nat, lc: nat := 0, pos;
    while lc >= 9
      invariant mi * 9 + lc == pos
    {
      mi, lc := mi + 1, lc - 9;
    }
    var pb: nat, lp: nat := 0, mi;
    while lp >= 5
      invariant pb * 5 + lp == mi
    {
      pb, lp := pb + 1, lp - 5;
    }
    ok, props := true, Props(lc, lp, pb);
    forall q: Props | InRange(q) && pos == (q.pb * 5 + q.lp) * 9 + q.lc ensures q == props {
      OnePacking(q.pb * 5 + q.lp, q.lc, mi, lc, 9);
      OnePacking(q.pb, q.lp, pb, lp, 5);
    }
  }

  lemma OnePacking(a: nat, b: nat, c: nat, d: nat, n: nat)
    requires n * a + b == n * c + d && b < n && d < n
    ensures a == c && b == d
  {
    DivModUnique(n * a + b, a, n, b);
    DivModUnique(n * a + b, c, n, d);
  }

  // The decoder, from the properties byte on. In flush mode out is all that the callback is
  // given; otherwise it is the part of the buffer that is written. The first packet must not
  // repeat a distance, since there is nothing to copy yet; and without a callback the buffer
  // must hold what is announced, or else what the input codes up to its end mark.
  method Unlzma(input: seq<byte>, start: nat, props: Props, dict: nat, size: nat, flush: bool, buffer: array<byte>,
                ghost pks: seq<Packet>)
    returns (ok: bool, out: seq<byte>)
    requires InRange(props) && start + 5 <= |input| && 1 <= dict < WORD
    requires flush ==> dict <= W.HALF && (dict <= buffer.Length || size <= buffer.Length)
    requires !flush ==> size <= W.HALF || buffer.Length <= W.HALF
    requires !flush && size > buffer.Length ==>
               CodesStream(input, start, props, pks, dict, size) && |Run(START, pks, dict, size).hist| <= buffer.Length
    requires size == 0 || Value(input[start + 1..start + 5]) < 0xBFFFFC00
    modifies buffer
    ensures CodesStream(input, start, props, pks, dict, size) ==> ok && out == Run(START, pks, dict, size).hist
    ensures |out| <= size + 272 && (!flush || size < dict ==> |out| <= size)
  {
    hide Aims, AllFit, Script, Stream, Run, NumProbs, InBounds;
    var d := new Decoder(input, start, props, dict, size, flush, buffer);
    if size > 0 {
      FirstBounds(d.p[..], props);
    }
    if CodesStream(input, start, props, pks, dict, size) {
      d.StartOnStream(pks);
    }
    ok, out := d.Decode(pks);
  }

  // An input that codes a stream starts as the decoder requires.
  lemma StreamStartsLow(input: seq<byte>, start: nat, props: Props, pks: seq<Packet>, dict: nat, size: nat)
    requires CodesStream(input, start, props, pks, dict, size) && size > 0
    ensures Value(input[start + 1..start + 5]) < 0xBFFFFC00
  {
    hide Script, Stream, Aims, AllFit, InBounds, NumProbs, LiteralOps, FlagOps, ScriptAfter, StartProbs;
    StreamHead(props, START, pks, dict, size);
    var probs, code := StartProbs(props), Value(input[start + 1..start + 5]);
    var rest := ScriptAfter(props, START, pks, dict, size);
    FirstBounds(probs, props);
    FirstOps(props, pks[0], rest, dict, size);
    if pks[0].Literal? {
      FirstBit(code, WORD - 1, input, start + 5, probs, 0, 0, LiteralOps(props, START, pks[0].b, rest));
    } else {
      var more := FlagOps(props, START, pks[0], rest);
      FirstBit(code, WORD - 1, input, start + 5, probs, 0, 1, [Bit(IS_REP, 0)] + more);
      FirstBit(code - 0x7FFFFC00, 0x800003FF, input, start + 5, probs[0 := Adapt(probs[0], 1)], IS_REP, 0, more);
    }
  }

  // The shares of the first two flags.
  lemma FirstBounds(probs: seq<nat>, props: Props)
    requires probs == StartProbs(props)
    ensures |probs| > IS_REP && Share(probs[0], WORD - 1) == 0x7FFFFC00
            && Share(probs[IS_REP], 0x800003FF) == 0x40000000
  {
    NumProbsLarge(props);
    hide NumProbs;
  }

  lemma FirstOps(props: Props, pk: Packet, rest: seq<Op>, dict: nat, size: nat)
    requires Legal(START, pk, dict, size) && InRange(props)
    ensures pk.Literal? ==> PacketOps(props, START, pk, rest) == [Bit(0, 0)] + LiteralOps(props, START, pk.b, rest)
    ensures !pk.Literal? ==>
              IsEnd(pk) && PacketOps(props, START, pk, rest)
                == [Bit(0, 1)] + ([Bit(IS_REP, 0)] + FlagOps(props, START, pk, rest))
  {
    FirstContext(props, START, 1);
    hide LiteralOps, FlagOps;
  }

  // A flag at the start of the input, before anything needs to be shifted in.
  lemma FirstBit(code: nat, range: nat, input: seq<byte>, ptr: nat, probs: seq<nat>, ctx: nat, bit: nat, rest: seq<Op>)
    requires InBounds(probs) && AllFit([Bit(ctx, bit)] + rest, |probs|) && TOP <= range < WORD
    requires Aims(code, range, probs, input, ptr, [Bit(ctx, bit)] + rest)
    ensures ctx < |probs| && bit <= 1 && (code < Share(probs[ctx], range) <==> bit == 0)
    ensures var probs' := probs[ctx := Adapt(probs[ctx], bit)];
            InBounds(probs') && AllFit(rest, |probs'|)
            && (bit == 1 ==>
                  Aims(code - Share(probs[ctx], range), range - Share(probs[ctx], range), probs', input, ptr, rest))
  {
    hide Aims, AllFit, Share, InBounds, Adapt;
    BitStep(code, range, probs, input, ptr, ctx, bit, rest);
  }

  // Every legal stream has an input, so every byte string can be sent.
  lemma StreamHasInput(props: Props, pks: seq<Packet>, dict: nat, size: nat)
    requires InRange(props) && 1 <= dict < WORD && Stream(START, pks, dict, size)
    ensures AllFit(Script(props, START, pks, dict, size), NumProbs(props))
    ensures CodesStream(Encoded(StartProbs(props), Script(props, START, pks, dict, size)), 0, props, pks, dict, size)
  {
    FitsScript(props, START, pks, dict, size);
    hide Script, Stream, Aims, AllFit, Interval, InBounds;
    EncodedAims(StartProbs(props), Script(props, START, pks, dict, size));
  }

  lemma EveryStringHasInput(props: Props, s: seq<byte>, dict: nat) returns (input: seq<byte>, pks: seq<Packet>)
    requires InRange(props) && 1 <= dict < WORD
    ensures CodesStream(input, 0, props, pks, dict, |s|) && Run(START, pks, dict, |s|).hist == s
  {
    pks := Literals(s);
    LiteralsSpell([], s, dict);
    assert [] + s == s;
    StreamHasInput(props, pks, dict, |s|);
    input := Encoded(StartProbs(props), Script(props, START, pks, dict, |s|));
  }
}
