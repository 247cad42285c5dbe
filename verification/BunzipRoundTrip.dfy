// One bzip2 block's data from bytes to bits and back, and the texts of a list of blocks.
module BunzipRoundTrip {
  import opened Bytes
  import opened Words
  import opened BunzipCrc
  import MoveToFront
  import RunCounters
  import BurrowsWheeler
  import BunzipBlock
  import BunzipRuns

  // What is moved to front and written with Huffman tables from bit position p on is read
  // back. The two exclusions are those of the code: no more than 255 codes of one length,
  // and no block that fills the buffer to the last byte with a run.
  lemma DataFromBits(L: seq<byte>, h: BunzipBlock.Header, input: seq<byte>, p: nat)
    requires BunzipBlock.Usable(h) && h.used > 0 && MoveToFront.Covers(h.alphabet, h.used, BunzipBlock.Identity(), L)
    requires BunzipBlock.Coded(h, input, p, 0, MoveToFront.Encode(h.alphabet, h.used, BunzipBlock.Identity(), 0, L))
    requires BunzipBlock.NoneWraps(h)
    requires h.dbufSize < RunCounters.INT_LIMIT
    requires |L| < h.dbufSize || (|L| == h.dbufSize && !MoveToFront.EndsInRun(h.alphabet, BunzipBlock.Identity(), 0, L))
    ensures var symbols := MoveToFront.Encode(h.alphabet, h.used, BunzipBlock.Identity(), 0, L);
            BunzipBlock.ReadFrom(h, input, p, 0, BunzipBlock.Start())
            == BunzipBlock.Decoded(L, BunzipBlock.CodedEnd(h, p, 0, symbols))
  {
    var list := BunzipBlock.Identity();
    var symbols := MoveToFront.Encode(h.alphabet, h.used, list, 0, L);
    MoveToFront.UndoOfEncode(h.alphabet, h.used, h.dbufSize, list, 0, L, []);
    assert [] + Repeat(h.alphabet[list[0]], 0) + L == L;
    MoveToFront.EncodeShape(h.alphabet, h.used, list, 0, L);
    MoveToFront.NotDoneBefore(h.alphabet, h.used, h.dbufSize, BunzipBlock.Start(), symbols);
    BunzipBlock.ReadOfCoded(h, input, p, 0, BunzipBlock.Start(), symbols);
  }

  // The checksums of the texts, combined in turn.
  function TotalCrc(texts: seq<seq<byte>>, total: Word): Word
  {
    if texts == [] then total else TotalCrc(texts[1..], Combined(total, Crc(texts[0])))
  }

  // The block is made from the text.
  predicate Makes(text: seq<byte>, rows: seq<seq<byte>>, b: BunzipRuns.Block)
  {
    text != [] && BurrowsWheeler.Transforms(BunzipRuns.RunEncode(text), rows, b.L, b.origPtr) && b.crc == Crc(text)
  }

  // A file of several blocks decodes to its texts, one after the other.
  lemma {:induction false} StreamRoundTrip(texts: seq<seq<byte>>, tables: seq<seq<seq<byte>>>,
                                           blocks: seq<BunzipRuns.Block>, crc: Word, total: Word)
    requires |texts| == |tables| == |blocks|
    requires forall i :: 0 <= i < |texts| ==> Makes(texts[i], tables[i], blocks[i])
    ensures BunzipRuns.StreamOutput(blocks) == Concat(texts)
    ensures BunzipRuns.StreamEnd(blocks, BunzipRuns.Mark(crc), total)
              == BunzipRuns.Complete(crc == TotalCrc(texts, total))
  {
    hide BunzipRuns.BlockOutput, BurrowsWheeler.Transforms, BunzipRuns.RunEncode, CrcFrom, Combined;
    if texts != [] {
      BunzipRuns.BlockRoundTrip(texts[0], tables[0], blocks[0]);
      StreamRoundTrip(texts[1..], tables[1..], blocks[1..], crc, Combined(total, Crc(texts[0])));
    }
  }

  // The total notices every checksum, and the order of neighbours unless their checksums
  // are equal or complements.
  lemma TotalOfOne(text: seq<byte>)
    ensures TotalCrc([text], ZERO) == Crc(text)
  {
    hide Crc, BitAt, Combined;
    var crc := Crc(text);
    forall i | 0 <= i < BITS ensures BitAt(Combined(ZERO, crc), i) <==> BitAt(crc, i) {
      CombinedBit(ZERO, crc, i);
      BitsOfConstants(Before(i));
    }
    WordsEqual(Combined(ZERO, crc), crc);
    TotalFirst(text, [], ZERO);
  }

  lemma TotalFirst(text: seq<byte>, rest: seq<seq<byte>>, total: Word)
    ensures TotalCrc([text] + rest, total) == TotalCrc(rest, Combined(total, Crc(text)))
    ensures rest == [] ==> TotalCrc([text], total) == Combined(total, Crc(text))
  {
    assert ([text] + rest)[1..] == rest;
  }

  lemma {:induction false} TotalAppend(texts: seq<seq<byte>>, rest: seq<seq<byte>>, total: Word)
    ensures TotalCrc(texts + rest, total) == TotalCrc(rest, TotalCrc(texts, total))
  {
    hide Crc, Combined;
    if texts == [] {
      assert texts + rest == rest;
    } else {
      assert (texts + rest)[1..] == texts[1..] + rest;
      TotalAppend(texts[1..], rest, Combined(total, Crc(texts[0])));
    }
  }

  lemma {:induction false} TotalInjective(texts: seq<seq<byte>>, total: Word, total': Word)
    requires TotalCrc(texts, total) == TotalCrc(texts, total')
    ensures total == total'
  {
    hide Crc, Combined;
    if texts != [] {
      var crc := Crc(texts[0]);
      TotalInjective(texts[1..], Combined(total, crc), Combined(total', crc));
      TotalNoticed(total, total', crc);
    }
  }

  lemma TextNoticed(before: seq<seq<byte>>, a: seq<byte>, b: seq<byte>, after: seq<seq<byte>>, total: Word)
    ensures TotalCrc(before + ([a] + after), total) == TotalCrc(before + ([b] + after), total) <==> Crc(a) == Crc(b)
  {
    hide Crc, Combined, TotalCrc;
    var t := TotalCrc(before, total);
    TotalAppend(before, [a] + after, total);
    TotalAppend(before, [b] + after, total);
    TotalFirst(a, after, t);
    TotalFirst(b, after, t);
    if TotalCrc(before + ([a] + after), total) == TotalCrc(before + ([b] + after), total) {
      TotalInjective(after, Combined(t, Crc(a)), Combined(t, Crc(b)));
      PartNoticed(t, Crc(a), Crc(b));
    }
  }

  lemma SwapNoticed(before: seq<seq<byte>>, a: seq<byte>, b: seq<byte>, after: seq<seq<byte>>, total: Word)
    ensures TotalCrc(before + ([a] + ([b] + after)), total) == TotalCrc(before + ([b] + ([a] + after)), total)
       <==> Crc(a) == Crc(b) || Crc(a) == Not(Crc(b))
  {
    hide Crc, Combined, TotalCrc, Not;
    var t := TotalCrc(before, total);
    TotalAppend(before, [a] + ([b] + after), total);
    TotalAppend(before, [b] + ([a] + after), total);
    TotalFirst(a, [b] + after, t);
    TotalFirst(b, [a] + after, t);
    TotalFirst(b, after, Combined(t, Crc(a)));
    TotalFirst(a, after, Combined(t, Crc(b)));
    if TotalCrc(before + ([a] + ([b] + after)), total) == TotalCrc(before + ([b] + ([a] + after)), total) {
      TotalInjective(after, Combined(Combined(t, Crc(a)), Crc(b)), Combined(Combined(t, Crc(b)), Crc(a)));
    }
    OrderNoticed(t, Crc(a), Crc(b));
  }

  function Concat(texts: seq<seq<byte>>): seq<byte>
  {
    if texts == [] then [] else texts[0] + Concat(texts[1..])
  }
}
