// The packet decoder of LZMA and its main loop. On a stream that codes legal packets it
// yields their meaning; on any other stream it stays within its tables and its window.
module LzmaDecoder {
  import opened Bytes
  import opened RangeCoder
  import opened LzmaCode
  import opened LzmaSymbols
  import W = LzmaWindow

  // What is known of the state of the packets, whatever the input says.
  ghost predicate Sound(c: Coder, dict: nat)
  {
    Coherent(c, dict) && (c.hist != [] ==> forall i :: 0 <= i < 4 ==> c.reps[i] <= |c.hist|)
  }

  lemma SoundGuess(c: Coder, dict: nat)
    requires Sound(c, dict) && c.state >= 7
    ensures c.hist != [] && 1 <= c.reps[0] <= |c.hist| && c.reps[0] <= dict
  {
  }

  lemma SoundLiteral(c: Coder, x: byte, dict: nat)
    requires Sound(c, dict)
    ensures c.state < 12 && Sound(Coder(AfterLiteral(c.state), c.reps, c.hist + [x]), dict)
  {
  }

  lemma LowByte(mi: nat)
    requires 256 <= mi < 512
    ensures mi % 256 == mi - 256
  {
  }

  lemma LiteralStates(state: nat)
    requires state < 12
    ensures AfterLiteral(state) == (if state < 4 then 0 else if state < 10 then state - 3 else state - 6) < 7
  {
  }

  // ----- what a packet says to copy -----

  function ExtraOf(pk: Packet): nat
  {
    if pk.Match? || pk.Rep? then Less(pk.len, 2) else 0
  }

  function DistanceOf(pk: Packet): nat
  {
    if pk.Match? then Less(pk.dist, 1) else 0
  }

  function AfterLength(pk: Packet, rest: seq<Op>): seq<Op>
  {
    if pk.Match? then DistanceOps(ExtraOf(pk), DistanceOf(pk), rest) else rest
  }

  function IndexOf(pk: Packet): nat
  {
    if pk.Rep? then pk.index else 0
  }

  // The next state, the last distances, and how many bytes to copy from the first of them.
  datatype Copy = Copy(state: nat, reps: seq<nat>, n: nat)

  function Meaning(c: Coder, pk: Packet): Copy
    requires |c.reps| == 4
  {
    match pk
    case Literal(_) => Copy(c.state, c.reps, 0)
    case Match(dist, len) => Copy(After(c.state, 7, 10), [dist % WORD] + c.reps[..3], if dist == WORD then 0 else len)
    case ShortRep => Copy(After(c.state, 9, 11), c.reps, 1)
    case Rep(index, len) => Copy(After(c.state, 8, 11), ToFront(c.reps, index % 4), len)
  }

  // The copy is inside the dictionary and the output.
  ghost predicate Readable(c: Coder, copy: Copy, dict: nat)
  {
    && copy.state < 12 && |copy.reps| == 4 && copy.n <= 273 && (copy.reps[0] == 0 <==> copy.n == 0)
    && (copy.n > 0 ==> forall i :: 0 <= i < 4 ==> 1 <= copy.reps[i] <= |c.hist| && copy.reps[i] <= dict)
  }

  lemma MeaningOfRepeat(c: Coder, pk: Packet, dict: nat, size: nat)
    requires Coherent(c, dict) && Legal(c, pk, dict, size) && (pk.ShortRep? || pk.Rep?)
    ensures var copy := Meaning(c, pk);
            && 1 <= copy.reps[0] <= |c.hist| && |c.hist| + copy.n <= size && copy.n > 0
            && Next(c, pk, dict, size) == Coder(copy.state, copy.reps, W.LzCopy(c.hist, copy.reps[0], copy.n))
  {
    hide W.LzCopy, After;
  }

  lemma MeaningIsNext(c: Coder, pk: Packet, dict: nat, size: nat)
    requires Coherent(c, dict) && dict < WORD && Legal(c, pk, dict, size) && !pk.Literal?
    ensures var copy := Meaning(c, pk);
            && 0 <= copy.reps[0] <= |c.hist| && |c.hist| + copy.n <= size
            && (copy.reps[0] == 0 <==> copy.n == 0)
            && Next(c, pk, dict, size)
                 == Coder(copy.state, copy.reps, if copy.n == 0 then c.hist else W.LzCopy(c.hist, copy.reps[0], copy.n))
  {
    hide W.LzCopy, After, ToFront;
    if !pk.Match? {
      MeaningOfRepeat(c, pk, dict, size);
    }
  }

  lemma MeaningOfMatch(c: Coder, pk: Packet, d: nat, n: nat, dict: nat, size: nat)
    requires |c.reps| == 4 && dict < WORD && Legal(c, pk, dict, size) && pk.Match? && d == DistanceOf(pk)
             && n == ExtraOf(pk)
    ensures var rep0 := (d + 1) % WORD;
            && Meaning(c, pk) == Copy(After(c.state, 7, 10), [rep0] + c.reps[..3], if rep0 == 0 then 0 else n + 2)
            && rep0 <= dict && rep0 <= |c.hist|
  {
  }

  lemma MeaningOfRep(c: Coder, pk: Packet, i: nat, n: nat, dict: nat, size: nat)
    requires |c.reps| == 4 && Legal(c, pk, dict, size) && pk.Rep? && i == IndexOf(pk) && n == ExtraOf(pk)
    ensures i < 4 && Meaning(c, pk) == Copy(After(c.state, 8, 11), ToFront(c.reps, i), n + 2)
  {
  }

  lemma MeaningOfShort(c: Coder, pk: Packet)
    requires |c.reps| == 4
    ensures pk.ShortRep? ==> Meaning(c, pk) == Copy(After(c.state, 9, 11), c.reps, 1)
  {
  }

  lemma LegalParts(c: Coder, pk: Packet, dict: nat, size: nat)
    requires Legal(c, pk, dict, size) && dict < WORD
    ensures ExtraOf(pk) < 272 && DistanceOf(pk) < WORD && IndexOf(pk) < 4
  {
  }

  lemma SoundCoherent(c: Coder, dict: nat)
    requires Sound(c, dict)
    ensures Coherent(c, dict)
  {
  }

  lemma SoundParts(c: Coder, dict: nat)
    requires Sound(c, dict)
    ensures c.state < 12 && |c.reps| == 4 && dict >= 1
  {
  }

  lemma ReadableMatch(c: Coder, rep0: nat, n: nat, dict: nat)
    requires Sound(c, dict) && n < 272 && (rep0 == 0 || (1 <= rep0 <= dict && rep0 <= |c.hist|))
    ensures Readable(c, Copy(After(c.state, 7, 10), [rep0] + c.reps[..3], if rep0 == 0 then 0 else n + 2), dict)
  {
  }

  lemma ReadableRep(c: Coder, i: nat, n: nat, dict: nat)
    requires Sound(c, dict) && c.hist != [] && n < 272 && i < 4
    ensures Readable(c, Copy(After(c.state, 8, 11), ToFront(c.reps, i), n + 2), dict)
  {
  }

  lemma ReadableShort(c: Coder, dict: nat)
    requires Sound(c, dict) && c.hist != []
    ensures Readable(c, Copy(After(c.state, 9, 11), c.reps, 1), dict)
  {
  }

  lemma SoundAfter(c: Coder, copy: Copy, dict: nat)
    requires Sound(c, dict) && Readable(c, copy, dict) && copy.n > 0
    ensures 1 <= copy.reps[0] <= |c.hist| && copy.reps[0] <= dict && copy.n <= 273
    ensures Sound(Coder(copy.state, copy.reps, W.LzCopy(c.hist, copy.reps[0], copy.n)), dict)
  {
  }

  lemma FlagParts(props: Props, c: Coder, pk: Packet, rest: seq<Op>)
    ensures pk.Match? ==>
              FlagOps(props, c, pk, rest)
                == LengthOps(LEN_CODER, PosState(props, |c.hist|), ExtraOf(pk), AfterLength(pk, rest))
    ensures pk.ShortRep? ==>
              FlagOps(props, c, pk, rest) == ChoiceOps(c.state, PosState(props, |c.hist|), true, IndexOf(pk), rest)
    ensures pk.Rep? ==> FlagOps(props, c, pk, rest) ==
                        ChoiceOps(c.state, PosState(props, |c.hist|), false, IndexOf(pk),
                                  LengthOps(REP_LEN_CODER, PosState(props, |c.hist|), ExtraOf(pk), rest))
    ensures AfterLength(pk, rest) == if pk.Match? then DistanceOps(ExtraOf(pk), DistanceOf(pk), rest) else rest
  {
  }

  lemma NumProbsLarge(props: Props)
    ensures NumProbs(props) >= LITERAL
  {
  }

  // ----- streams -----

  lemma StreamHead(props: Props, c: Coder, pks: seq<Packet>, dict: nat, size: nat)
    requires Stream(c, pks, dict, size) && |c.hist| < size
    ensures pks != [] && Legal(c, pks[0], dict, size) && Coherent(c, dict)
    ensures Script(props, c, pks, dict, size) == PacketOps(props, c, pks[0], ScriptAfter(props, c, pks, dict, size))
  {
  }

  lemma StreamTail(props: Props, c: Coder, pks: seq<Packet>, dict: nat, size: nat)
    requires pks != [] && Stream(c, pks, dict, size)
    ensures Coherent(c, dict) && Legal(c, pks[0], dict, size)
    ensures IsEnd(pks[0]) ==> Run(c, pks, dict, size) == Next(c, pks[0], dict, size)
    ensures !IsEnd(pks[0]) ==>
              && Stream(Next(c, pks[0], dict, size), pks[1..], dict, size)
              && Run(c, pks, dict, size) == Run(Next(c, pks[0], dict, size), pks[1..], dict, size)
              && ScriptAfter(props, c, pks, dict, size)
                   == Script(props, Next(c, pks[0], dict, size), pks[1..], dict, size)
  {
  }

  lemma StreamGoesOn(c: Coder, pks: seq<Packet>, dict: nat, size: nat)
    requires Stream(c, pks, dict, size)
    ensures pks != [] <==> |c.hist| < size
    ensures pks == [] ==> Run(c, pks, dict, size) == c
  {
  }

  lemma {:induction false} RunGrows(c: Coder, pks: seq<Packet>, dict: nat, size: nat)
    requires Stream(c, pks, dict, size)
    ensures |c.hist| <= |Run(c, pks, dict, size).hist|
    decreases |pks|
  {
    if pks != [] && !IsEnd(pks[0]) {
      RunGrows(Next(c, pks[0], dict, size), pks[1..], dict, size);
    }
  }

  // What the next packet adds is no more than what all of them do.
  lemma RunHolds(c: Coder, pks: seq<Packet>, dict: nat, size: nat)
    requires Stream(c, pks, dict, size) && |c.hist| < size && dict < WORD
    ensures pks != [] && |c.reps| == 4
    ensures |c.hist| + (if pks[0].Literal? then 1 else Meaning(c, pks[0]).n) <= |Run(c, pks, dict, size).hist|
  {
    hide Meaning;
    var c' := Next(c, pks[0], dict, size);
    if pks[0].Literal? {
      NextLiteral(c, pks[0], dict, size);
    } else {
      MeaningIsNext(c, pks[0], dict, size);
    }
    if !IsEnd(pks[0]) {
      RunGrows(c', pks[1..], dict, size);
    }
  }

  lemma NextLiteral(c: Coder, pk: Packet, dict: nat, size: nat)
    requires Coherent(c, dict) && Legal(c, pk, dict, size)
    ensures pk.Literal? ==> Next(c, pk, dict, size) == Coder(AfterLiteral(c.state), c.reps, c.hist + [pk.b])
  {
  }

  lemma NextEnds(c: Coder, pk: Packet, dict: nat, size: nat)
    requires Coherent(c, dict) && dict < WORD && Legal(c, pk, dict, size) && !pk.Literal?
    ensures var reps := Next(c, pk, dict, size).reps; |reps| == 4 && (reps[0] == 0 <==> IsEnd(pk))
  {
    MeaningIsNext(c, pk, dict, size);
  }

  lemma FirstContext(props: Props, c: Coder, dict: nat)
    requires Sound(c, dict)
    ensures c.hist == [] ==> c.state == 0 && PosState(props, 0) == 0
  {
  }

  class Decoder {
    const props: Props
    const rc: Rc
    const wr: W.Writer
    const p: array<nat>
    var state: nat
    var rep0: nat
    var rep1: nat
    var rep2: nat
    var rep3: nat

    ghost function Now(): Coder
      reads this, wr, wr.buffer
    {
      Coder(state, [rep0, rep1, rep2, rep3], wr.History())
    }

    // The parts are there and well formed.
    ghost predicate Parts()
      reads this, rc, wr, wr.buffer, p
    {
      && InRange(props) && p.Length == NumProbs(props) && InBounds(p[..])
      && rc.Valid() && wr.Valid()
      && (p as object) != wr.buffer
    }

    ghost predicate Valid()
      reads this, rc, wr, wr.buffer, p
    {
      Parts() && Sound(Now(), wr.dictSize)
    }

    constructor (input: seq<byte>, start: nat, props: Props, dict: nat, size: nat, flush: bool, buffer: array<byte>)
      requires InRange(props) && start + 5 <= |input|
      requires 1 <= dict && (flush ==> dict <= W.HALF && (dict <= buffer.Length || size <= buffer.Length))
      requires !flush ==> (size <= W.HALF || buffer.Length <= W.HALF) && dict < WORD
      ensures Valid() && Now() == START && fresh(rc) && fresh(wr) && fresh(p) && wr.buffer == buffer
      ensures wr.dictSize == dict && wr.dstSize == size && wr.flush == flush && this.props == props
      ensures p[..] == StartProbs(props) && rc.input == input && rc.ptr == start + 5 && !rc.eof
      ensures rc.range == WORD - 1 && rc.code == Value(input[start + 1..start + 5])
    {
      this.props := props;
      state, rep0, rep1, rep2, rep3 := 0, 1, 1, 1, 1;
      rc := new Rc(input, start);
      wr := new W.Writer(flush, dict, size, buffer);
      p := new nat[NumProbs(props)](_ => 1024);
      new;
      assert p[..] == StartProbs(props);
    }

    // A literal.
    method ProcessBit0(ghost b: byte, ghost rest: seq<Op>) returns (ghost x: byte)
      requires Valid() && wr.bufferPos < wr.dstSize && wr.HasRoom(1)
      modifies this, rc, wr, wr.buffer, p
      ensures Valid() && state < 7
      ensures Now() == Coder(AfterLiteral(old(state)), old(Now()).reps, old(wr.History()) + [x])
      ensures old(rc.OnScript(p, LiteralOps(props, Now(), b, rest))) ==> x == b && rc.OnScript(p, rest)
    {
      hide InBounds, Rc.OnScript, Rc.Valid, W.Writer.Valid, W.Writer.HasRoom, W.Writer.History, LiteralBase, NumProbs,
        MatchedOps, TreeOps, W.Reduced, AfterLiteral, Sound;
      ghost var c := Now();
      wr.Facts();
      var pos := wr.GetPos();
      var base := LiteralBase(props, pos, wr.previousByte);
      LiteralBaseFits(props, pos, wr.previousByte);
      var guess: byte := 0;
      if state >= 7 {
        SoundGuess(c, wr.dictSize);
        W.ReducedWithin(rep0, wr.dictSize);
        guess := wr.PeekOldByte(rep0);
      }
      var mi := LiteralDecode(rc, p, base, state >= 7, guess, b, rest);
      LowByte(mi);
      x := mi - 256;
      SoundLiteral(c, x, wr.dictSize);
      LiteralStates(state);
      state := if state < 4 then 0 else if state < 10 then state - 3 else state - 6;
      wr.WriteByte(mi % 256);
    }

    ghost function Reps(): seq<nat>
      reads this
    {
      [rep0, rep1, rep2, rep3]
    }

    // The chosen distance moves to the front.
    method SelectRep(i: nat)
      requires i < 4
      modifies this`rep0, this`rep1, this`rep2, this`rep3
      ensures Reps() == ToFront(old(Reps()), i)
    {
      if i > 0 {
        var distance;
        if i == 1 {
          distance := rep1;
        } else {
          if i == 2 {
            distance := rep2;
          } else {
            distance := rep3;
            rep3 := rep2;
          }
          rep2 := rep1;
        }
        rep1 := rep0;
        rep0 := distance;
      }
    }

    // The input codes a legal packet that is not a literal, and then rest.
    ghost predicate Codes(pk: Packet, rest: seq<Op>)
      reads this, rc, wr, wr.buffer, p
    {
      && !pk.Literal? && Legal(Now(), pk, wr.dictSize, wr.dstSize)
      && rc.OnScript(p, [Bit(IS_REP + state, RepFlag(pk))] + FlagOps(props, Now(), pk, rest))
    }

    // The next bit says that a distance is new.
    ghost predicate NextIsNew()
      reads this, rc, p
    {
      IS_REP + state < p.Length && rc.range >= TOP && rc.code < Share(p[IS_REP + state], rc.range)
    }

    // Reads whether a distance is new or used again, and moves the distances accordingly.
    // prob is the length coder that comes next.
    method ReadKind(posState: nat, ghost pk: Packet, ghost rest: seq<Op>) returns (short: bool, prob: nat, ghost i: nat)
      requires Parts() && state < 12 && posState == PosState(props, |wr.History()|)
      modifies this, rc, p
      ensures Parts() && i < 4 && (prob == LEN_CODER || prob == REP_LEN_CODER)
      ensures if short then state == After(old(state), 9, 11) && Reps() == old(Reps())
              else if prob == LEN_CODER then state == After(old(state), 0, 3) && Reps() == [rep0] + old(Reps())[..3]
              else state == After(old(state), 8, 11) && Reps() == ToFront(old(Reps()), i)
      ensures old(NextIsNew()) ==> !short && prob == LEN_CODER
      ensures old(Codes(pk, rest)) ==>
                && short == pk.ShortRep? && (!short ==> (prob == LEN_CODER) == pk.Match?)
                && (pk.Rep? ==> i == IndexOf(pk))
                && rc.OnScript(p, if short then rest else LengthOps(prob, posState, ExtraOf(pk), AfterLength(pk, rest)))
    {
      hide InBounds, Rc.OnScript, Rc.Valid, W.Writer.Valid, W.Writer.History, LengthOps, DistanceOps, ChoiceOps,
        FlagOps, Legal, NumProbs, ToFront, ExtraOf, DistanceOf, IndexOf, PosState, AfterLength;
      ghost var c := Now();
      wr.Facts();
      FlagParts(props, c, pk, rest);
      if Codes(pk, rest) {
        LegalParts(c, pk, wr.dictSize, wr.dstSize);
      }
      var isRep := rc.GetBit(p, IS_REP + state, RepFlag(pk), FlagOps(props, c, pk, rest));
      short, i, prob := false, 0, LEN_CODER;
      if isRep == 0 {
        rep1, rep2, rep3 := rep0, rep1, rep2;
        state := if state < 7 then 0 else 3;
      } else {
        var choice;
        short, choice := ChoiceDecode(rc, p, state, posState, pk.ShortRep?, IndexOf(pk),
                                      if pk.ShortRep? then rest
                                      else LengthOps(REP_LEN_CODER, posState, ExtraOf(pk), rest));
        if short {
          state := if state < 7 then 9 else 11;
        } else {
          i := choice;
          SelectRep(choice);
          state := if state < 7 then 8 else 11;
          prob := REP_LEN_CODER;
        }
      }
    }

    // Reads what to copy: n bytes from the distance rep0, or nothing when the distance of
    // the end mark leaves rep0 at 0. It fails when a new distance lies outside the
    // dictionary or the output.
    method ReadPacket(posState: nat, ghost pk: Packet, ghost rest: seq<Op>) returns (ok: bool, n: nat)
      requires Valid() && (wr.History() == [] ==> NextIsNew()) && posState == PosState(props, |wr.History()|)
      modifies this, rc, p
      ensures Parts()
      ensures ok ==> Readable(old(Now()), Copy(state, Reps(), n), wr.dictSize)
      ensures old(Codes(pk, rest)) ==> ok && rc.OnScript(p, rest) && Copy(state, Reps(), n) == Meaning(old(Now()), pk)
    {
      hide InBounds, Rc.OnScript, Rc.Valid, W.Writer.Valid, W.Writer.History, LengthOps, DistanceOps, FlagOps, Legal,
           Meaning, Readable, NumProbs, Sound, ToFront, ExtraOf, DistanceOf, IndexOf, PosState;
      ghost var c, on := Now(), Codes(pk, rest);
      ghost var dict, size := wr.dictSize, wr.dstSize;
      wr.Facts();
      SoundParts(c, dict);
      if on {
        LegalParts(c, pk, dict, size);
        MeaningOfShort(c, pk);
      }
      var short, prob;
      ghost var i;
      short, prob, i := ReadKind(posState, pk, rest);
      if short {
        ReadableShort(c, dict);
        return true, 1;
      }
      n := LengthDecode(rc, p, prob, posState, ExtraOf(pk), AfterLength(pk, rest));
      if state < 4 {
        state := state + 7;
        ghost var moved := Reps();
        var r := DistanceDecode(rc, p, n, DistanceOf(pk), rest);
        rep0 := (r + 1) % WORD;
        assert Reps()[1..] == moved[1..] == c.reps[..3];
        assert Reps() == [rep0] + c.reps[..3];
        if on {
          MeaningOfMatch(c, pk, r, n, dict, size);
        }
        if rep0 == 0 {
          ReadableMatch(c, rep0, n, dict);
          return true, 0;
        }
        var pos := wr.GetPos();
        if rep0 > wr.dictSize || rep0 > pos {
          return false, n;
        }
        ReadableMatch(c, rep0, n, dict);
      } else {
        ReadableRep(c, i, n, dict);
        if on {
          MeaningOfRep(c, pk, i, n, dict, size);
        }
      }
      ok, n := true, n + 2;
    }

    // Does what a packet other than a literal says.
    method ProcessBit1(posState: nat, ghost pk: Packet, ghost rest: seq<Op>) returns (ok: bool)
      requires Valid() && (wr.History() == [] ==> NextIsNew()) && posState == PosState(props, |wr.History()|)
      requires wr.bufferPos < wr.dstSize && (wr.HasRoom(273) || (Codes(pk, rest) && wr.HasRoom(Meaning(Now(), pk).n)))
      modifies this, rc, wr, wr.buffer, p
      ensures Parts() && |wr.History()| <= old(|wr.History()|) + 273
      ensures ok && rep0 == 0 ==> wr.History() == old(wr.History())
      ensures ok && rep0 != 0 ==> Valid() && old(|wr.History()|) < |wr.History()|
      ensures old(Codes(pk, rest)) ==>
                ok && rc.OnScript(p, rest) && Now() == Next(old(Now()), pk, wr.dictSize, wr.dstSize)
    {
      hide InBounds, Rc.OnScript, Rc.Valid, W.Writer.Valid, W.Writer.HasRoom, W.Writer.History, W.LzCopy, FlagOps,
        Legal, Meaning, NumProbs, Sound, PosState, Next;
      ghost var c, plenty := Now(), wr.HasRoom(273);
      wr.Facts();
      SoundParts(c, wr.dictSize);
      if Codes(pk, rest) {
        SoundCoherent(c, wr.dictSize);
        MeaningIsNext(c, pk, wr.dictSize, wr.dstSize);
      }
      var n;
      ok, n := ReadPacket(posState, pk, rest);
      if ok && rep0 != 0 {
        SoundAfter(c, Copy(state, Reps(), n), wr.dictSize);
        if plenty {
          wr.LessRoom(273, n);
        }
        var missing := wr.CopyBytes(rep0, n);
        ok := missing == 0;
      }
    }

    // The first bits of the input say literal, or new distance, as they do in every legal
    // stream.
    ghost predicate StartsAnew()
      reads rc, p
    {
      && p.Length > IS_REP && rc.range >= TOP
      && var share := Share(p[0], rc.range);
         rc.code < share || (rc.range >= share + TOP && rc.code - share < Share(p[IS_REP], rc.range - share))
    }

    // The buffer has room for what the input codes, if not for all that is announced.
    ghost predicate Roomy(pks: seq<Packet>)
      reads this, rc, wr, wr.buffer, p
    {
      wr.HasRoom(wr.dstSize + 273)
      || (OnStream(pks) && |Run(Now(), pks, wr.dictSize, wr.dstSize).hist| <= wr.buffer.Length)
    }

    ghost predicate OnStream(pks: seq<Packet>)
      reads this, rc, wr, wr.buffer, p
    {
      && Stream(Now(), pks, wr.dictSize, wr.dstSize)
      && rc.OnScript(p, Script(props, Now(), pks, wr.dictSize, wr.dstSize))
    }

    lemma StartOnStream(pks: seq<Packet>)
      requires InBounds(p[..]) && !rc.eof && Stream(Now(), pks, wr.dictSize, wr.dstSize)
      requires AllFit(Script(props, Now(), pks, wr.dictSize, wr.dstSize), p.Length)
      requires Aims(rc.code, rc.range, p[..], rc.input, rc.ptr, Script(props, Now(), pks, wr.dictSize, wr.dstSize))
      ensures OnStream(pks)
    {
      hide Aims, AllFit, Script, Stream, InBounds;
    }

    // Decodes one packet; ended tells the end mark.
    method DecodePacket(ghost pks: seq<Packet>) returns (ok: bool, ended: bool)
      requires Valid() && |wr.History()| < wr.dstSize && (wr.History() == [] ==> StartsAnew()) && Roomy(pks)
      modifies this, rc, wr, wr.buffer, p
      ensures Parts() && |wr.History()| <= old(|wr.History()|) + 273
      ensures ok && !ended ==> Valid() && old(|wr.History()|) < |wr.History()|
      ensures ok && ended ==> rep0 == 0
      ensures old(OnStream(pks)) ==> ok && pks != [] && ended == IsEnd(pks[0])
      ensures old(OnStream(pks)) ==> Now() == Next(old(Now()), pks[0], wr.dictSize, wr.dstSize)
      ensures old(OnStream(pks)) ==> rc.OnScript(p, old(ScriptAfter(props, Now(), pks, wr.dictSize, wr.dstSize)))
    {
      hide InBounds, Rc.OnScript, Rc.Valid, W.Writer.Valid, W.LzCopy, FlagOps, LiteralOps, Legal, Meaning, NumProbs,
        Sound, PosState, Next, Script, ScriptAfter, Stream, Run, Share, AfterLiteral;
      ghost var c, on := Now(), OnStream(pks);
      ghost var dict, size := wr.dictSize, wr.dstSize;
      ghost var pk, rest := if on && pks != [] then pks[0] else ShortRep, [];
      SoundParts(c, dict);
      wr.Facts();
      NumProbsLarge(props);
      if on {
        StreamHead(props, c, pks, dict, size);
        RunHolds(c, pks, dict, size);
        rest := ScriptAfter(props, c, pks, dict, size);
      }
      var pos := wr.GetPos();
      var posState := PosState(props, pos);
      if pos == 0 {
        FirstContext(props, c, dict);
      }
      var bit := rc.GetBit(p, IS_MATCH + 16 * state + posState, if pk.Literal? then 0 else 1,
                           if pk.Literal? then LiteralOps(props, c, pk.b, rest)
                           else [Bit(IS_REP + state, RepFlag(pk))] + FlagOps(props, c, pk, rest));
      if bit == 0 {
        ghost var x := ProcessBit0(if pk.Literal? then pk.b else 0, rest);
        ok, ended := true, false;
        if on {
          NextLiteral(c, pk, dict, size);
        }
      } else {
        ok := ProcessBit1(posState, pk, rest);
        ended := rep0 == 0;
        if on {
          NextEnds(c, pk, dict, size);
        }
      }
    }

    // The main loop. On a stream that codes pks the output is their meaning; whatever the
    // input, the output stays near the announced size, and reaches it unless an end mark
    // or an error comes first.
    method Decode(ghost pks: seq<Packet>) returns (ok: bool, out: seq<byte>)
      requires Valid() && Now() == START && (wr.dstSize > 0 ==> StartsAnew()) && Roomy(pks)
      modifies this, rc, wr, wr.buffer, p
      ensures old(OnStream(pks)) ==> ok && out == Run(START, pks, wr.dictSize, wr.dstSize).hist
      ensures |out| <= wr.dstSize + 272
      ensures wr.StopsAtEnd() ==> |out| <= wr.dstSize
      ensures ok ==> |out| >= wr.dstSize || rep0 == 0
    {
      hide InBounds, Rc.OnScript, Rc.Valid, W.Writer.Valid, NumProbs, Sound, Next, Script, ScriptAfter, Stream, Run,
        StartsAnew;
      ghost var on, left, dict, size := OnStream(pks), pks, wr.dictSize, wr.dstSize;
      var ended := false;
      var pos := wr.GetPos();
      while pos < wr.dstSize
        invariant Parts() && pos == |wr.History()| && pos <= wr.dstSize + 272
        invariant !ended ==> Valid()
        invariant pos == 0 && wr.dstSize > 0 ==> StartsAnew()
        invariant !ended ==> Roomy(left)
        invariant on ==> OnStream(left) && Run(Now(), left, dict, size) == Run(START, pks, dict, size)
        decreases wr.dstSize - pos
      {
        ghost var c := Now();
        if on {
          StreamGoesOn(c, left, dict, size);
          StreamTail(props, c, left, dict, size);
        }
        ok, ended := DecodePacket(left);
        if !ok {
          wr.Bound();
          return false, [];
        }
        pos := wr.GetPos();
        if ended {
          break;
        }
        if on {
          rc.NotEnded(p, ScriptAfter(props, c, left, dict, size));
        }
        if rc.eof {
          return false, [];
        }
        left := if on then left[1..] else [];
      }
      if on && !ended {
        StreamGoesOn(Now(), left, dict, size);
      }
      ok := true;
      wr.Bound();
      out := wr.Finish();
    }
  }
}
