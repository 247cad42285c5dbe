// Whole bzip2 files as an encoder writes them, and the proof that they are read back: every
// text has a file.
module BunzipFile {
  import opened Bytes
  import opened BunzipStatus
  import opened CountingSort
  import opened Powers
  import opened BitReader
  import opened Huffman
  import opened MoveToFront
  import opened RunCounters
  import opened BunzipHeader
  import opened BunzipStream
  import opened BunzipBits
  import opened BunzipWriter
  import opened BunzipRoundTrip
  import opened Words
  import opened BunzipCrc
  import BurrowsWheeler
  import BunzipOutput
  import B = BunzipBlock
  import R = BunzipRuns

  // ----- the symbols of a block -----

  // The codes of the symbols, of which the first is symbol number k of the block.
  function SymbolBits(h: B.Header, k: nat, symbols: seq<nat>): (bits: seq<nat>)
    requires B.Usable(h)
    ensures AreBits(bits)
    decreases |symbols|
  {
    if symbols == [] || k / B.GROUP_SIZE >= |h.selectors| || symbols[0] >= h.used + 2 then []
    else
      var lengths := B.TableFor(h, k);
      Digits(Code(lengths, symbols[0]), lengths[symbols[0]]) + SymbolBits(h, k + 1, symbols[1..])
  }

  // The tables meet the Kraft inequality.
  predicate Prefixed(h: B.Header)
  {
    forall g :: 0 <= g < |h.tables| ==> KraftSum(h.tables[g], MAX_HUFCODE_BITS) <= Pow2(MAX_HUFCODE_BITS)
  }

  // There are selectors for all symbols, and the symbols are those of the tables.
  predicate Selected(h: B.Header, k: nat, symbols: seq<nat>)
  {
    k + |symbols| <= B.GROUP_SIZE * |h.selectors| && forall i :: 0 <= i < |symbols| ==> symbols[i] < h.used + 2
  }

  lemma CodeWritten(h: B.Header, input: seq<byte>, p: nat, k: nat, t: nat)
    requires B.Usable(h) && Prefixed(h) && k / B.GROUP_SIZE < |h.selectors| && t < h.used + 2
    requires var lengths := B.TableFor(h, k); Reads(input, p, Digits(Code(lengths, t), lengths[t]))
    requires p + MAX_HUFCODE_BITS <= 8 * |input|
    ensures var lengths := B.TableFor(h, k);
            p + MaxLen(lengths) <= 8 * |input| && CodeAt(lengths, input, p, t)
  {
    hide Pow2, KraftSum, Field, Code, Reads, Digits;
    var lengths := B.TableFor(h, k);
    LengthsRange(lengths);
    CodeFits(lengths, t, MAX_HUFCODE_BITS);
    FieldOfDigits(input, p, Code(lengths, t), lengths[t]);
  }

  // What is written so is coded.
  lemma {:induction false} CodedBits(h: B.Header, input: seq<byte>, p: nat, k: nat, symbols: seq<nat>)
    requires B.Usable(h) && Prefixed(h) && Selected(h, k, symbols)
    requires Reads(input, p, SymbolBits(h, k, symbols))
    requires p + |SymbolBits(h, k, symbols)| + MAX_HUFCODE_BITS <= 8 * |input|
    ensures B.Coded(h, input, p, k, symbols) && B.CodedEnd(h, p, k, symbols) == p + |SymbolBits(h, k, symbols)|
    decreases |symbols|
  {
    hide Reads, Prefixed, B.Usable, B.TableFor, Digits, Code, CodeAt, MaxLen;
    if symbols != [] {
      assert k / B.GROUP_SIZE < |h.selectors|;
      var lengths := B.TableFor(h, k);
      B.UsableSizes(h);
      ReadsBoth(input, p, Digits(Code(lengths, symbols[0]), lengths[symbols[0]]), SymbolBits(h, k + 1, symbols[1..]));
      CodeWritten(h, input, p, k, symbols[0]);
      CodedBits(h, input, p + lengths[symbols[0]], k + 1, symbols[1..]);
    }
  }

  // With enough selectors and codes that fit, every list of symbols of the tables is coded
  // by some input.
  lemma SymbolsHaveInput(h: B.Header, symbols: seq<nat>) returns (input: seq<byte>)
    requires B.Usable(h) && Prefixed(h) && Selected(h, 0, symbols)
    ensures B.Coded(h, input, 0, 0, symbols)
  {
    var bits, tail := SymbolBits(h, 0, symbols), Digits(0, MAX_HUFCODE_BITS);
    input := BitsHaveInput(bits + tail);
    ReadsBoth(input, 0, bits, tail);
    CodedBits(h, input, 0, 0, symbols);
  }

  // ----- one block -----

  lemma {:induction false} RunSymbolsShort(n: nat)
    ensures |RunSymbols(n)| <= n
  {
    if n > 0 {
      RunSymbolsShort(if n % 2 == 1 then (n - 1) / 2 else (n - 2) / 2);
    }
  }

  // An encoded text has no more symbols than it has bytes, but for the end.
  lemma {:induction false} EncodeShort(alphabet: seq<byte>, used: nat, list: seq<byte>, zeros: nat, text: seq<byte>)
    requires Covers(alphabet, used, list, text)
    ensures |Encode(alphabet, used, list, zeros, text)| <= |text| + zeros + 1
    decreases |text|
  {
    RunSymbolsShort(zeros);
    if text != [] {
      CoversFirst(alphabet, used, list, text);
      var p := Place(alphabet, list[..used], text[0]);
      CoversNext(alphabet, used, list, text, p);
      hide Place, Covers, RunSymbols, ToFront;
      if p == 0 {
        EncodeShort(alphabet, used, list, zeros + 1, text[1..]);
      } else {
        EncodeShort(alphabet, used, ToFront(list, p), 0, text[1..]);
      }
    }
  }

  // What goes into the file for one block: the choices of the encoder and the bytes.
  datatype Piece = Piece(form: Form, L: seq<byte>)

  predicate Encodable(piece: Piece, dbufSize: nat)
  {
    var h := HeaderFor(piece.form, dbufSize);
    && Writable(piece.form, dbufSize) && piece.form.origPtr < |piece.L|
    && Prefixed(h) && B.NoneWraps(h) && Covers(h.alphabet, h.used, B.Identity(), piece.L)
    && |piece.L| + 1 <= B.GROUP_SIZE * |h.selectors|
    && (|piece.L| < dbufSize || (|piece.L| == dbufSize && !EndsInRun(h.alphabet, B.Identity(), 0, piece.L)))
  }

  lemma HeaderUsable(f: Form, dbufSize: nat)
    requires Writable(f, dbufSize)
    ensures B.Usable(HeaderFor(f, dbufSize))
  {
    hide Members, Pow2, Padded;
  }

  lemma SomeUsed(h: B.Header, L: seq<byte>)
    requires Covers(h.alphabet, h.used, B.Identity(), L) && L != []
    ensures h.used > 0
  {
    assert L[0] in L;
  }

  // The symbols of a block's bytes.
  function SymbolsOf(h: B.Header, L: seq<byte>): (symbols: seq<nat>)
    requires Covers(h.alphabet, h.used, B.Identity(), L)
  {
    Encode(h.alphabet, h.used, B.Identity(), 0, L)
  }

  lemma SymbolsSelected(h: B.Header, L: seq<byte>)
    requires Covers(h.alphabet, h.used, B.Identity(), L) && L != []
    requires |L| + 1 <= B.GROUP_SIZE * |h.selectors|
    ensures Selected(h, 0, SymbolsOf(h, L))
  {
    hide Covers, Encode, B.Identity;
    SomeUsed(h, L);
    EncodeShort(h.alphabet, h.used, B.Identity(), 0, L);
    EncodeShape(h.alphabet, h.used, B.Identity(), 0, L);
  }

  function PieceBits(piece: Piece, dbufSize: nat): (bits: seq<nat>)
    requires Encodable(piece, dbufSize)
    ensures AreBits(bits)
  {
    hide Writable, Covers, Prefixed, B.NoneWraps, B.Usable, HeaderBits, SymbolBits;
    HeaderUsable(piece.form, dbufSize);
    var h := HeaderFor(piece.form, dbufSize);
    HeaderBits(piece.form, dbufSize) + SymbolBits(h, 0, SymbolsOf(h, piece.L))
  }

  // The data of a block.
  lemma DataReads(input: seq<byte>, p: nat, h: B.Header, L: seq<byte>)
    requires B.Usable(h) && Prefixed(h) && B.NoneWraps(h) && Covers(h.alphabet, h.used, B.Identity(), L) && L != []
    requires |L| + 1 <= B.GROUP_SIZE * |h.selectors|
    requires h.dbufSize < INT_LIMIT
    requires |L| < h.dbufSize || (|L| == h.dbufSize && !EndsInRun(h.alphabet, B.Identity(), 0, L))
    requires Reads(input, p, SymbolBits(h, 0, SymbolsOf(h, L)))
    requires p + |SymbolBits(h, 0, SymbolsOf(h, L))| + MAX_HUFCODE_BITS <= 8 * |input|
    ensures B.ReadFrom(h, input, p, 0, B.Start()) == B.Decoded(L, p + |SymbolBits(h, 0, SymbolsOf(h, L))|)
  {
    hide B.Usable, Prefixed, B.NoneWraps, Covers, EndsInRun, Reads, SymbolBits, B.ReadFrom, Selected, Encode, B.Coded,
      B.CodedEnd, B.Start;
    SymbolsSelected(h, L);
    SomeUsed(h, L);
    CodedBits(h, input, p, 0, SymbolsOf(h, L));
    DataFromBits(L, h, input, p);
  }

  lemma BufferOnInts(f: Form, dbufSize: nat)
    requires Writable(f, dbufSize)
    ensures dbufSize < INT_LIMIT
  {
    hide Pow2, Members, AllTables;
    PowerValues();
  }

  // A block that is written is the next block.
  lemma PieceReads(input: seq<byte>, p: nat, piece: Piece, dbufSize: nat)
    requires Encodable(piece, dbufSize) && Reads(input, p, PieceBits(piece, dbufSize))
    requires p + |PieceBits(piece, dbufSize)| + MAX_HUFCODE_BITS <= 8 * |input|
    ensures NextBlock(input, p, dbufSize) == Got(BlockOf(piece), p + |PieceBits(piece, dbufSize)|)
  {
    hide StoredCrc, Writable, Prefixed, B.NoneWraps, Covers, EndsInRun, Reads, SymbolBits, HeaderBits, HeaderOf,
      B.ReadFrom, B.Start, SymbolsOf, B.Usable, Members;
    HeaderUsable(piece.form, dbufSize);
    BufferOnInts(piece.form, dbufSize);
    var h := HeaderFor(piece.form, dbufSize);
    var header := HeaderBits(piece.form, dbufSize);
    ReadsBoth(input, p, header, SymbolBits(h, 0, SymbolsOf(h, piece.L)));
    HeaderReads(input, p, piece.form, dbufSize);
    DataReads(input, p + |header|, h, piece.L);
  }

  // ----- the file -----

  // The mark that ends a file, and a checksum.
  function EndBits(crc: Word): (bits: seq<nat>)
    ensures AreBits(bits) && |bits| == 80
  {
    Digits(0x177245, 24) + (Digits(0x385090, 24) + CrcBits(crc))
  }

  lemma EndReads(input: seq<byte>, p: nat, dbufSize: nat, crc: Word)
    requires Reads(input, p, EndBits(crc))
    ensures NextBlock(input, p, dbufSize) == Refused(RETVAL_LAST_BLOCK) && StoredCrc(input, p) == crc
  {
    hide Pow2, Digits, Reads, Take, AreBits, B.ReadFrom, B.Usable, StoredCrc, CrcBits;
    MarksFit();
    TakesDigits(input, p, 0x177245, 24, Digits(0x385090, 24) + CrcBits(crc));
    TakesDigits(input, p + 24, 0x385090, 24, CrcBits(crc));
    assert CrcBits(crc) + [] == CrcBits(crc);
    TakesCrc(input, p, crc, []);
    assert StartOf(input, p, dbufSize) == Refused(RETVAL_LAST_BLOCK);
  }

  predicate AllEncodable(pieces: seq<Piece>, dbufSize: nat)
  {
    forall i :: 0 <= i < |pieces| ==> Encodable(pieces[i], dbufSize)
  }

  function StreamBits(pieces: seq<Piece>, dbufSize: nat, crc: Word): (bits: seq<nat>)
    requires AllEncodable(pieces, dbufSize)
    ensures AreBits(bits) && |bits| >= 80
  {
    hide Encodable, PieceBits, EndBits;
    if pieces == [] then EndBits(crc) else PieceBits(pieces[0], dbufSize) + StreamBits(pieces[1..], dbufSize, crc)
  }

  function BlockOf(piece: Piece): R.Block
  {
    R.Block(piece.L, piece.form.origPtr, piece.form.crc)
  }

  // All the blocks are read back, and then the end.
  lemma {:induction false} StreamReads(input: seq<byte>, p: nat, pieces: seq<Piece>, dbufSize: nat, crc: Word)
    requires AllEncodable(pieces, dbufSize) && Reads(input, p, StreamBits(pieces, dbufSize, crc))
    ensures ContentsOf(input, p, dbufSize) == Contents(Map(BlockOf, pieces), R.Mark(crc))
    decreases |pieces|
  {
    hide Encodable, PieceBits, EndBits, NextBlock, StoredCrc;
    if pieces == [] {
      EndReads(input, p, dbufSize, crc);
    } else {
      hide ReadsAt;
      var first := PieceBits(pieces[0], dbufSize);
      ReadsBoth(input, p, first, StreamBits(pieces[1..], dbufSize, crc));
      PieceReads(input, p, pieces[0], dbufSize);
      StreamReads(input, p + |first|, pieces[1..], dbufSize, crc);
      assert Map(BlockOf, pieces) == [BlockOf(pieces[0])] + Map(BlockOf, pieces[1..]);
    }
  }

  function FileBits(pieces: seq<Piece>, level: nat, crc: Word): (bits: seq<nat>)
    requires AllEncodable(pieces, 100000 * level)
    ensures AreBits(bits)
  {
    Digits(BunzipOutput.BZH0 + level, 32) + StreamBits(pieces, 100000 * level, crc)
  }

  lemma MarkFits(level: nat)
    requires level <= 9
    ensures BunzipOutput.BZH0 + level < Pow2(32)
  {
    hide Pow2;
    PowerValues();
  }

  // A file that is written holds its blocks, with any choice of rows, selectors and tables
  // that has room for them.
  lemma FileReads(input: seq<byte>, pieces: seq<Piece>, level: nat, crc: Word)
    requires 1 <= level <= 9 && AllEncodable(pieces, 100000 * level)
    requires Reads(input, 0, FileBits(pieces, level, crc))
    ensures BunzipOutput.LevelOf(input) == level
    ensures BunzipOutput.FileOf(input) == Contents(Map(BlockOf, pieces), R.Mark(crc))
  {
    hide Pow2, Field, Digits, Reads, AllEncodable, StreamBits, ContentsOf;
    MarkFits(level);
    ReadsBoth(input, 0, Digits(BunzipOutput.BZH0 + level, 32), StreamBits(pieces, 100000 * level, crc));
    FieldOfDigits(input, 0, BunzipOutput.BZH0 + level, 32);
    StreamReads(input, 32, pieces, 100000 * level, crc);
  }

  // The pieces are made from the texts.
  predicate MadeFrom(pieces: seq<Piece>, texts: seq<seq<byte>>, rows: seq<seq<seq<byte>>>)
  {
    |pieces| == |texts| == |rows| && forall i :: 0 <= i < |texts| ==> PieceOf(pieces[i], texts[i], rows[i])
  }

  predicate PieceOf(piece: Piece, text: seq<byte>, rows: seq<seq<byte>>)
  {
    Makes(text, rows, BlockOf(piece))
  }

  // The whole decoder undoes the whole encoder.
  lemma FileRoundTrip(input: seq<byte>, pieces: seq<Piece>, level: nat, crc: Word, texts: seq<seq<byte>>,
                      rows: seq<seq<seq<byte>>>)
    requires 1 <= level <= 9 && AllEncodable(pieces, 100000 * level)
    requires MadeFrom(pieces, texts, rows)
    requires Reads(input, 0, FileBits(pieces, level, crc))
    ensures BunzipOutput.LevelOf(input) == level && BunzipOutput.FileOf(input).Contents?
    ensures BunzipOutput.MeaningOf(BunzipOutput.FileOf(input))
         == R.Future(Concat(texts), R.Complete(crc == TotalCrc(texts, ZERO)))
  {
    hide Reads, AllEncodable, FileBits, BunzipOutput.LevelOf, BunzipOutput.FileOf, Makes, TotalCrc, R.StreamOutput,
      R.StreamEnd;
    FileReads(input, pieces, level, crc);
    forall i | 0 <= i < |texts| ensures Makes(texts[i], rows[i], Map(BlockOf, pieces)[i]) {
      assert PieceOf(pieces[i], texts[i], rows[i]);
    }
    StreamRoundTrip(texts, rows, Map(BlockOf, pieces), crc, ZERO);
  }

  // ----- a file for every text -----

  // Code lengths for 258 symbols that suit every block: 200 of nine bits, the rest of eight.
  function PlainLengths(n: nat): (lengths: seq<byte>)
    ensures |lengths| == n && InRange(lengths)
  {
    if n == 0 then [] else PlainLengths(n - 1) + [if n <= 200 then 9 else 8]
  }

  lemma {:induction false} PlainCounts(n: nat, l: byte)
    ensures |Positions(PlainLengths(n), l)|
         == if l == 9 then (if n <= 200 then n else 200) else if l == 8 && n > 200 then n - 200 else 0
  {
    if n > 0 {
      PlainCounts(n - 1, l);
      assert PlainLengths(n)[..n - 1] == PlainLengths(n - 1);
    }
  }

  lemma KraftNothing()
    ensures KraftSum([], 20) == 0
  {
  }

  lemma KraftStep(lengths: seq<byte>, l: byte)
    requires l <= 20
    ensures KraftSum(lengths + [l], 20) == KraftSum(lengths, 20) + Pow2(20 - l)
  {
    assert (lengths + [l])[..|lengths|] == lengths;
  }

  lemma {:induction false} PlainSum(n: nat)
    ensures KraftSum(PlainLengths(n), 20) == if n <= 200 then 2048 * n else 2048 * 200 + 4096 * (n - 200)
  {
    hide Pow2, KraftSum;
    KraftNothing();
    if n > 0 {
      PlainSum(n - 1);
      KraftStep(PlainLengths(n - 1), if n <= 200 then 9 else 8);
      PowerValues();
    }
  }

  lemma PlainSuits()
    ensures KraftSum(PlainLengths(258), MAX_HUFCODE_BITS) <= Pow2(MAX_HUFCODE_BITS) && NoCounterWraps(PlainLengths(258))
  {
    hide Pow2, PlainLengths, KraftSum, Positions;
    PlainSum(258);
    PowerValues();
    forall l | 0 <= l < 22 ensures |Positions(PlainLengths(258), l)| < 256 {
      PlainCounts(258, l);
    }
  }

  function BytesBelow(n: nat): (bytes: set<byte>)
    requires n <= 256
    ensures forall b: byte :: b in bytes <==> b < n
  {
    if n == 0 then {} else BytesBelow(n - 1) + {(n - 1) as byte}
  }

  function AllBytes(): (bytes: set<byte>)
    ensures forall b: byte :: b in bytes
  {
    BytesBelow(256)
  }

  lemma {:induction false} AllMembers(lo: nat)
    requires lo <= 256
    ensures var r := Members(AllBytes(), lo, 256);
            |r| == 256 - lo && forall i :: 0 <= i < 256 - lo ==> r[i] == lo + i
    decreases 256 - lo
  {
    hide AllBytes;
    if lo < 256 {
      assert (lo as byte) in AllBytes();
      AllMembers(lo + 1);
    }
  }

  // Header choices that suit every block: all bytes in use, and two equal tables, of which
  // the first is always selected.
  function PlainForm(crc: Word, origPtr: nat, n: nat): (f: Form)
    ensures f.origPtr == origPtr && f.crc == crc
  {
    Form(crc, origPtr, AllBytes(), Repeat(0, (n + B.GROUP_SIZE) / B.GROUP_SIZE), [PlainLengths(258), PlainLengths(258)])
  }

  lemma PlainHeader(crc: Word, origPtr: nat, n: nat, dbufSize: nat)
    ensures var h := HeaderFor(PlainForm(crc, origPtr, n), dbufSize);
            && h.alphabet == B.Identity() && h.used == 256 && h.dbufSize == dbufSize
            && h.tables == [PlainLengths(258), PlainLengths(258)]
            && Prefixed(h) && B.NoneWraps(h) && n + 1 <= B.GROUP_SIZE * |h.selectors|
  {
    hide AllBytes, PlainLengths, KraftSum, Pow2, NoCounterWraps, Members;
    AllMembers(0);
    PlainSuits();
    assert Padded(Members(AllBytes(), 0, 256)) == B.Identity();
  }

  lemma IdentityCovers(L: seq<byte>)
    ensures Covers(B.Identity(), 256, B.Identity(), L)
  {
    var list := B.Identity();
    forall x | x in L ensures exists i :: 0 <= i < 256 && list[list[i]] == x {
      assert list[list[x]] == x;
    }
  }

  lemma SizesFit()
    ensures 900000 <= Pow2(24) && 18001 < Pow2(15)
  {
    hide Pow2;
    PowerValues();
  }

  lemma PlainWritable(crc: Word, origPtr: nat, n: nat, dbufSize: nat)
    requires origPtr < dbufSize <= 900000 && n <= 900000
    ensures Writable(PlainForm(crc, origPtr, n), dbufSize)
  {
    hide AllBytes, Pow2, PlainLengths, Members, InRange;
    SizesFit();
    AllMembers(0);
    var f := PlainForm(crc, origPtr, n);
    RepeatAt<nat>(0, |f.selectors|);
  }

  lemma PlainEncodable(L: seq<byte>, crc: Word, origPtr: nat, dbufSize: nat)
    requires origPtr < |L| < dbufSize <= 900000
    ensures Encodable(Piece(PlainForm(crc, origPtr, |L|), L), dbufSize)
  {
    hide Writable, Prefixed, B.NoneWraps, Covers, PlainForm, B.Identity, HeaderFor;
    PlainWritable(crc, origPtr, |L|, dbufSize);
    PlainHeader(crc, origPtr, |L|, dbufSize);
    IdentityCovers(L);
  }

  // Writing runs by their counts makes a text at most twice as long.
  lemma {:induction false} RunEncodeShort(s: seq<byte>)
    ensures |R.RunEncode(s)| <= 2 * |s| && (s != [] ==> R.RunEncode(s) != [])
    decreases |s|
  {
    if s != [] {
      RunEncodeShort(s[R.LeadingRun(s, s[0], 259)..]);
    }
  }

  // One piece for a text that is not too long.
  lemma PieceFor(text: seq<byte>, dbufSize: nat) returns (piece: Piece, rows: seq<seq<byte>>)
    requires text != [] && 2 * |text| < dbufSize <= 900000
    ensures Encodable(piece, dbufSize) && PieceOf(piece, text, rows)
  {
    hide Encodable, BurrowsWheeler.Rotations, BurrowsWheeler.LexLeq, R.RunEncode, PlainForm;
    RunEncodeShort(text);
    var o;
    rows, o := BurrowsWheeler.TransformExists(R.RunEncode(text));
    BurrowsWheeler.RowLengths(R.RunEncode(text), rows);
    var L := BurrowsWheeler.LastColumn(rows);
    piece := Piece(PlainForm(Crc(text), o, |L|), L);
    PlainEncodable(L, Crc(text), o, dbufSize);
  }

  // Any text, cut into pieces.
  lemma {:induction false} PiecesFor(s: seq<byte>, level: nat)
    returns (pieces: seq<Piece>, texts: seq<seq<byte>>, rows: seq<seq<seq<byte>>>)
    requires 1 <= level <= 9
    ensures AllEncodable(pieces, 100000 * level) && MadeFrom(pieces, texts, rows) && Concat(texts) == s
    decreases |s|
  {
    hide Encodable, PieceOf;
    if s == [] {
      pieces, texts, rows := [], [], [];
    } else {
      var n := if |s| < 40000 then |s| else 40000;
      var piece, table := PieceFor(s[..n], 100000 * level);
      pieces, texts, rows := PiecesFor(s[n..], level);
      pieces, texts, rows := [piece] + pieces, [s[..n]] + texts, [table] + rows;
    }
  }

  // Every text is what some intact file of each level decompresses to.
  lemma EveryStringHasFile(s: seq<byte>, level: nat) returns (input: seq<byte>)
    requires 1 <= level <= 9
    ensures BunzipOutput.LevelOf(input) == level && BunzipOutput.FileOf(input).Contents?
    ensures BunzipOutput.MeaningOf(BunzipOutput.FileOf(input)) == R.Future(s, R.Complete(true))
  {
    hide AllEncodable, MadeFrom, FileBits, BunzipOutput.LevelOf, BunzipOutput.FileOf, Reads, TotalCrc, R.StreamOutput,
      R.StreamEnd;
    var pieces, texts, rows := PiecesFor(s, level);
    var crc := TotalCrc(texts, ZERO);
    input := BitsHaveInput(FileBits(pieces, level, crc));
    FileRoundTrip(input, pieces, level, crc, texts, rows);
  }

  // ----- two files that show where the code falls short -----

  // The checksum of a file without bytes may be wrong, and the file is accepted.
  lemma EmptyFileUnchecked(level: nat, crc: Word) returns (input: seq<byte>)
    requires 1 <= level <= 9 && crc != ZERO
    ensures BunzipOutput.LevelOf(input) == level && BunzipOutput.FileOf(input).Contents?
    ensures BunzipOutput.MeaningOf(BunzipOutput.FileOf(input)) == R.Future([], R.Complete(false))
  {
    hide FileBits, BunzipOutput.LevelOf, BunzipOutput.FileOf, Reads, R.StreamOutput, R.StreamEnd;
    input := BitsHaveInput(FileBits([], level, crc));
    FileRoundTrip(input, [], level, crc, [], []);
  }

  // 30 times RUNA, RUNB, and a literal.
  function LongRun(): (symbols: seq<nat>)
  {
    Repeat<nat>(0, 30) + [1] + [2]
  }

  lemma LongRunSelected(h: B.Header)
    requires h.used == 256 && 32 <= B.GROUP_SIZE * |h.selectors|
    ensures Selected(h, 0, LongRun()) && |LongRun()| == 32
  {
    LongRuns();
    hide RunLength, Repeat;
  }

  // The run is counted up to its last symbol, and the literal makes it overrun.
  lemma LongRunUndone(h: B.Header)
    requires B.Usable(h) && h.dbufSize < INT_LIMIT
    ensures Undo(h.alphabet, h.used, h.dbufSize, B.Start(), LongRun()[..31]).More?
    ensures Undo(h.alphabet, h.used, h.dbufSize, B.Start(), LongRun()) == Overrun
  {
    hide Undo, RunLength, Repeat, B.Identity, CountAll;
    B.UsableSizes(h);
    var digits := Repeat<nat>(0, 30) + [1];
    LongRuns();
    LongRunExample(h.alphabet, h.used, h.dbufSize, B.Start(), 2, []);
    assert digits + ([2] + []) == LongRun();
    assert LongRun()[..31] == digits + [];
    DigitsUndone(h.alphabet, h.used, h.dbufSize, B.Start(), digits, []);
    UndoneNothing(h, B.Start().(run := CountAll(B.Start().run, digits)));
  }

  lemma UndoneNothing(h: B.Header, s: State)
    requires |h.alphabet| == 256 == |s.list| && h.used <= 256
    ensures Undo(h.alphabet, h.used, h.dbufSize, s, []).More?
  {
  }

  // A file of any level on which the decoder writes outside its buffer: the header is fine,
  // and so is every code.
  lemma OverrunFile(level: nat) returns (input: seq<byte>, h: B.Header, next: nat)
    requires 1 <= level <= 9
    ensures BunzipOutput.LevelOf(input) == level
    ensures HeaderOf(input, 32, 100000 * level) == Got((h, 0), next)
    ensures B.ReadFrom(h, input, next, 0, B.Start()) == B.OutsideBuffer
  {
    hide Writable, Reads, PlainForm, HeaderFor, HeaderBits, SymbolBits, HeaderOf, B.ReadFrom, B.Usable, Prefixed,
      B.NoneWraps, Pow2, Field, Digits, Undo, B.Start, LongRun, Selected, AreBits;
    var f, dbufSize := PlainForm(ZERO, 0, 40), 100000 * level;
    PlainWritable(ZERO, 0, 40, dbufSize);
    PlainHeader(ZERO, 0, 40, dbufSize);
    HeaderUsable(f, dbufSize);
    h := HeaderFor(f, dbufSize);
    var mark, header := Digits(BunzipOutput.BZH0 + level, 32), HeaderBits(f, dbufSize);
    LongRunSelected(h);
    var data, tail := SymbolBits(h, 0, LongRun()), Digits(0, MAX_HUFCODE_BITS);
    JoinBits(data, tail);
    JoinBits(header, data + tail);
    JoinBits(mark, header + (data + tail));
    input := BitsHaveInput(mark + (header + (data + tail)));
    ReadsBoth(input, 0, mark, header + (data + tail));
    ReadsBoth(input, 32, header, data + tail);
    next := 32 + |header|;
    ReadsBoth(input, next, data, tail);
    ReadsInside(input, next + |data|, tail);
    MarkFits(level);
    FieldOfDigits(input, 0, BunzipOutput.BZH0 + level, 32);
    HeaderReads(input, 32, f, dbufSize);
    CodedBits(h, input, next, 0, LongRun());
    LongRunUndone(h);
    B.ReadOfCoded(h, input, next, 0, B.Start(), LongRun());
  }

  lemma JoinBits(a: seq<nat>, b: seq<nat>)
    requires AreBits(a) && AreBits(b)
    ensures AreBits(a + b)
  {
  }

  lemma ReadsInside(input: seq<byte>, p: nat, bits: seq<nat>)
    requires Reads(input, p, bits)
    ensures p + |bits| <= 8 * |input|
  {
  }
}
