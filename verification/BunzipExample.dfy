// A bzip2 file as the reference compressor writes it for the text "banana", and the proof
// that the decoder gives the text.
module BunzipExample {
  import opened Bytes
  import opened CountingSort
  import opened Powers
  import opened BitReader
  import opened Huffman
  import opened MoveToFront
  import opened RunCounters
  import opened BunzipHeader
  import opened BunzipBits
  import opened BunzipWriter
  import opened BunzipRoundTrip
  import opened BunzipFile
  import opened Words
  import opened BunzipCrc
  import BurrowsWheeler
  import BunzipOutput
  import B = BunzipBlock
  import R = BunzipRuns

  function Start(): (s: seq<byte>)
    ensures |s| == 10
  {
    [0x42, 0x5a, 0x68, 0x39, 0x31, 0x41, 0x59, 0x26, 0x53, 0x59]
  }

  function Middle(): (s: seq<byte>)
    ensures |s| == 10
  {
    [0xef, 0xb6, 0xec, 0x01, 0x00, 0x00, 0x01, 0x81, 0x00, 0x30]
  }

  function Rest(): (s: seq<byte>)
    ensures |s| == 10
  {
    [0x01, 0x20, 0x00, 0x30, 0xcc, 0x0c, 0x7a, 0x88, 0x5e, 0x2e]
  }

  function End(): (s: seq<byte>)
    ensures |s| == 9
  {
    [0xe4, 0x8a, 0x70, 0xa1, 0x21, 0xdf, 0x6d, 0xd8, 0x02]
  }

  function File(): (input: seq<byte>)
    ensures |input| == 39
  {
    Start() + Middle() + Rest() + End()
  }

  const TEXT: seq<byte> := [0x62, 0x61, 0x6e, 0x61, 0x6e, 0x61]
  const CRC := Word(0xEFB6EC01)

  function Tables(): seq<seq<byte>>
  {
    [[3, 3, 2, 2, 2], [3, 3, 3, 1, 3]]
  }

  function Chosen(): Form
  {
    Form(CRC, 3, USED, [1], Tables())
  }

  function Last(): (L: seq<byte>)
    ensures |L| == 6
  {
    [0x6e, 0x6e, 0x62, 0x61, 0x61, 0x61]
  }

  // ----- fields of the file -----

  function Big(a: byte, b: byte, c: byte, d: byte, e: byte): int
  {
    (((a * 256 + b) * 256 + c) * 256 + d) * 256 + e
  }

  lemma NextByte(input: seq<byte>, k: nat, n: nat)
    requires k + n < |input|
    ensures Field(input, 8 * k, 8 * n + 8) == 256 * Field(input, 8 * k, 8 * n) + input[k + n]
  {
    hide Field, Pow2;
    Pow2Eight();
    FieldSplit(input, 8 * k, 8 * n, 8);
    FieldByte(input, k + n);
  }

  lemma FiveBytes(input: seq<byte>, k: nat)
    requires k + 5 <= |input|
    ensures Field(input, 8 * k, 40) == Big(input[k], input[k + 1], input[k + 2], input[k + 3], input[k + 4])
  {
    assert Field(input, 8 * k, 0) == 0;
    hide Field;
    NextByte(input, k, 0);
    NextByte(input, k, 1);
    NextByte(input, k, 2);
    NextByte(input, k, 3);
    NextByte(input, k, 4);
  }

  // w bits, of which r precede in their first byte.
  lemma FieldInside(input: seq<byte>, k: nat, r: nat, w: nat)
    requires k + 5 <= |input| && r + w <= 40
    ensures Field(input, 8 * k + r, w) == Field(input, 8 * k, 40) / Pow2(40 - r - w) % Pow2(w)
  {
    hide Field, Pow2;
    var high, mid, low := Field(input, 8 * k, r), Field(input, 8 * k + r, w), Field(input, 8 * k + r + w, 40 - r - w);
    FieldSplit(input, 8 * k, r, w);
    FieldSplit(input, 8 * k, r + w, 40 - r - w);
    DivModUnique(Field(input, 8 * k, 40), high * Pow2(w) + mid, Pow2(40 - r - w), low);
    DivModUnique(high * Pow2(w) + mid, high, Pow2(w), mid);
  }

  lemma {:induction false} ReadsOfNumber(input: seq<byte>, p: nat, bits: seq<nat>)
    requires AreBits(bits) && p + |bits| <= 8 * |input| && Field(input, p, |bits|) == NumberOfBits(bits)
    ensures Reads(input, p, bits)
    decreases |bits|
  {
    hide Bit;
    if bits != [] {
      var n := |bits| - 1;
      assert bits == bits[..n] + [bits[n]];
      ReadsOfNumber(input, p, bits[..n]);
      assert Reads(input, p + n, [bits[n]]);
      ReadsBoth(input, p, bits[..n], [bits[n]]);
    }
  }

  // The digits of a number are read where the five bytes say so.
  lemma DigitsAt(k: nat, r: nat, w: nat, v: nat, rest: nat, width: nat)
    requires k + 5 <= 39 && r + w <= 40 && rest == Pow2(40 - r - w) && width == Pow2(w)
    requires Big(File()[k], File()[k + 1], File()[k + 2], File()[k + 3], File()[k + 4]) / rest % width == v
    ensures Reads(File(), 8 * k + r, Digits(v, w))
  {
    hide Field, Pow2, Digits, Reads, Big, File, NumberOfBits;
    FiveBytes(File(), k);
    FieldInside(File(), k, r, w);
    NumberOfDigits(v, w);
    ReadsOfNumber(File(), 8 * k + r, Digits(v, w));
  }

  lemma FieldPowers()
    ensures Pow2(1) == 0x2 && Pow2(2) == 0x4 && Pow2(3) == 0x8 && Pow2(5) == 0x20
    ensures Pow2(7) == 0x80 && Pow2(8) == 0x100 && Pow2(9) == 0x200 && Pow2(13) == 0x2000
    ensures Pow2(15) == 0x8000 && Pow2(16) == 0x10000 && Pow2(21) == 0x200000 && Pow2(23) == 0x800000
    ensures Pow2(24) == 0x1000000 && Pow2(30) == 0x40000000 && Pow2(31) == 0x80000000 && Pow2(32) == 0x100000000
    ensures Pow2(33) == 0x200000000 && Pow2(34) == 0x400000000 && Pow2(35) == 0x800000000 && Pow2(36) == 0x1000000000
    ensures Pow2(39) == 0x8000000000
  {
    hide Pow2;
    PowerValues();
    SmallPowers();
    Pow2Add(4, 1);
    Pow2Add(5, 2);
    Pow2Add(7, 1);
    Pow2Add(8, 1);
    Pow2Add(12, 1);
    Pow2Add(15, 1);
    Pow2Add(20, 1);
    Pow2Add(21, 2);
    Pow2Add(32, 1);
    Pow2Add(33, 1);
    Pow2Add(34, 1);
    Pow2Add(35, 1);
    Pow2Add(36, 3);
  }

  lemma StartBytes()
    ensures Start()[0] == 0x42 && Start()[1] == 0x5a && Start()[2] == 0x68 && Start()[3] == 0x39 && Start()[4] == 0x31
    ensures Start()[5] == 0x41 && Start()[6] == 0x59 && Start()[7] == 0x26 && Start()[8] == 0x53 && Start()[9] == 0x59
  {
  }

  lemma MiddleBytes()
    ensures Middle()[0] == 0xef && Middle()[1] == 0xb6 && Middle()[2] == 0xec && Middle()[3] == 0x01
            && Middle()[4] == 0x00
    ensures Middle()[5] == 0x00 && Middle()[6] == 0x01 && Middle()[7] == 0x81 && Middle()[8] == 0x00
            && Middle()[9] == 0x30
  {
  }

  lemma RestBytes()
    ensures Rest()[0] == 0x01 && Rest()[1] == 0x20 && Rest()[2] == 0x00 && Rest()[3] == 0x30 && Rest()[4] == 0xcc
    ensures Rest()[5] == 0x0c && Rest()[6] == 0x7a && Rest()[7] == 0x88 && Rest()[8] == 0x5e && Rest()[9] == 0x2e
  {
  }

  lemma EndBytes()
    ensures End()[0] == 0xe4 && End()[1] == 0x8a && End()[2] == 0x70 && End()[3] == 0xa1 && End()[4] == 0x21
    ensures End()[5] == 0xdf && End()[6] == 0x6d && End()[7] == 0xd8 && End()[8] == 0x02
  {
  }

  lemma FileBytes()
    ensures File()[0] == 0x42 && File()[1] == 0x5a && File()[2] == 0x68 && File()[3] == 0x39 && File()[4] == 0x31
    ensures File()[5] == 0x41 && File()[6] == 0x59 && File()[7] == 0x26 && File()[8] == 0x53 && File()[9] == 0x59
    ensures File()[10] == 0xef && File()[11] == 0xb6 && File()[12] == 0xec && File()[13] == 0x01 && File()[14] == 0x00
    ensures File()[15] == 0x00 && File()[16] == 0x01 && File()[17] == 0x81 && File()[18] == 0x00 && File()[19] == 0x30
    ensures File()[20] == 0x01 && File()[21] == 0x20 && File()[22] == 0x00 && File()[23] == 0x30 && File()[24] == 0xcc
    ensures File()[25] == 0x0c && File()[26] == 0x7a && File()[27] == 0x88 && File()[28] == 0x5e && File()[29] == 0x2e
    ensures File()[30] == 0xe4 && File()[31] == 0x8a && File()[32] == 0x70 && File()[33] == 0xa1 && File()[34] == 0x21
    ensures File()[35] == 0xdf && File()[36] == 0x6d && File()[37] == 0xd8 && File()[38] == 0x02
  {
    hide Start, Middle, Rest, End;
    StartBytes();
    MiddleBytes();
    RestBytes();
    EndBytes();
  }

  lemma StartFields()
    ensures Reads(File(), 0, Digits(0x425a6839, 32))
    ensures Reads(File(), 32, Digits(0x314159, 24))
    ensures Reads(File(), 56, Digits(0x265359, 24))
    ensures Reads(File(), 80, Digits(0xefb6ec01, 32))
    ensures Reads(File(), 112, Digits(0, 1))
    ensures Reads(File(), 113, Digits(3, 24))
  {
    hide File, Pow2, Digits, Reads;
    FileBytes();
    FieldPowers();
    DigitsAt(0, 0, 32, 0x425a6839, 0x100, 0x100000000);
    DigitsAt(4, 0, 24, 0x314159, 0x10000, 0x1000000);
    DigitsAt(7, 0, 24, 0x265359, 0x10000, 0x1000000);
    DigitsAt(10, 0, 32, 0xefb6ec01, 0x100, 0x100000000);
    DigitsAt(14, 0, 1, 0, 0x8000000000, 0x2);
    DigitsAt(14, 1, 24, 3, 0x8000, 0x1000000);
  }

  lemma MapFields()
    ensures Reads(File(), 137, Digits(0x200, 16))
    ensures Reads(File(), 153, Digits(0x6002, 16))
    ensures Reads(File(), 169, Digits(2, 3))
    ensures Reads(File(), 172, Digits(1, 15))
  {
    hide File, Pow2, Digits, Reads;
    FileBytes();
    FieldPowers();
    DigitsAt(17, 1, 16, 0x200, 0x800000, 0x10000);
    DigitsAt(19, 1, 16, 0x6002, 0x800000, 0x10000);
    DigitsAt(21, 1, 3, 2, 0x1000000000, 0x8);
    DigitsAt(21, 4, 15, 1, 0x200000, 0x8000);
  }

  lemma TableFields()
    ensures Reads(File(), 187, Digits(2, 2))
    ensures Reads(File(), 189, Digits(3, 5))
    ensures Reads(File(), 194, Digits(0x18, 7))
    ensures Reads(File(), 201, Digits(3, 5))
    ensures Reads(File(), 206, Digits(0x3d4, 13))
  {
    hide File, Pow2, Digits, Reads;
    FileBytes();
    FieldPowers();
    DigitsAt(23, 3, 2, 2, 0x800000000, 0x4);
    DigitsAt(23, 5, 5, 3, 0x40000000, 0x20);
    DigitsAt(24, 2, 7, 0x18, 0x80000000, 0x80);
    DigitsAt(25, 1, 5, 3, 0x400000000, 0x20);
    DigitsAt(25, 6, 13, 0x3d4, 0x200000, 0x2000);
  }

  lemma SymbolFields()
    ensures Reads(File(), 219, Digits(0, 1))
    ensures Reads(File(), 220, Digits(4, 3))
    ensures Reads(File(), 223, Digits(0, 1))
    ensures Reads(File(), 224, Digits(0, 1))
    ensures Reads(File(), 225, Digits(5, 3))
    ensures Reads(File(), 228, Digits(7, 3))
  {
    hide File, Pow2, Digits, Reads;
    FileBytes();
    FieldPowers();
    DigitsAt(27, 3, 1, 0, 0x1000000000, 0x2);
    DigitsAt(27, 4, 3, 4, 0x200000000, 0x8);
    DigitsAt(27, 7, 1, 0, 0x100000000, 0x2);
    DigitsAt(28, 0, 1, 0, 0x8000000000, 0x2);
    DigitsAt(28, 1, 3, 5, 0x1000000000, 0x8);
    DigitsAt(28, 4, 3, 7, 0x200000000, 0x8);
  }

  lemma EndFields()
    ensures Reads(File(), 231, Digits(0x177245, 24))
    ensures Reads(File(), 255, Digits(0x385090, 24))
    ensures Reads(File(), 279, Digits(0xefb6ec01, 32))
  {
    hide File, Pow2, Digits, Reads;
    FileBytes();
    FieldPowers();
    DigitsAt(28, 7, 24, 0x177245, 0x200, 0x1000000);
    DigitsAt(31, 7, 24, 0x385090, 0x200, 0x1000000);
    DigitsAt(34, 7, 32, 0xefb6ec01, 0x2, 0x100000000);
  }

  // ----- the choices of the compressor -----

  const USED: set<byte> := {0x61, 0x62, 0x6e}

  lemma {:induction false} NoneBetween(lo: nat, hi: nat)
    requires lo <= hi <= 256 && forall x :: x in USED ==> x < lo || x >= hi
    ensures Members(USED, lo, hi) == []
    decreases hi - lo
  {
    if lo < hi {
      NoneBetween(lo + 1, hi);
    }
  }

  lemma OneMember(x: byte)
    requires x in USED
    ensures Members(USED, x, x + 1) == [x]
  {
    MembersStep(USED, x, x + 1);
    NoMembers(USED, x + 1);
  }

  lemma MembersAre()
    ensures Members(USED, 0, 256) == [0x61, 0x62, 0x6e] && Members(USED, 96, 112) != []
  {
    hide Members;
    MembersSplit(USED, 0, 0x61, 256);
    MembersSplit(USED, 0x61, 0x62, 256);
    MembersSplit(USED, 0x62, 0x63, 256);
    MembersSplit(USED, 0x63, 0x6e, 256);
    MembersSplit(USED, 0x6e, 0x6f, 256);
    MembersSplit(USED, 96, 0x61, 112);
    MembersSplit(USED, 0x61, 0x62, 112);
    NoneBetween(0, 0x61);
    NoneBetween(0x63, 0x6e);
    NoneBetween(0x6f, 256);
    OneMember(0x61);
    OneMember(0x62);
    OneMember(0x6e);
  }

  // The only group in use is number 6.
  lemma GroupIs(i: nat)
    requires i < 16
    ensures GroupFlag(USED, i) == if i == 6 then 1 else 0
  {
    hide Members;
    if i == 6 {
      MembersAre();
    } else {
      NoneBetween(16 * i, 16 * i + 16);
    }
  }

  lemma {:induction false} MapIs(i: nat)
    requires i <= 16
    ensures MapBits(USED, i) == if i <= 6 then ByteFlags(USED, 6) else []
    decreases 16 - i
  {
    hide MapBits, ByteFlags, GroupFlag;
    if i < 16 {
      MapIs(i + 1);
      GroupIs(i);
      MapStep(USED, i);
    } else {
      MapStep(USED, 0);
    }
  }

  // ----- small lists of digits -----

  lemma {:induction false} DigitsJoin(v: nat, m: nat, w: nat, n: nat)
    requires w < Pow2(n)
    ensures Digits(v * Pow2(n) + w, m + n) == Digits(v, m) + Digits(w, n)
    decreases n
  {
    if n > 0 {
      Triple(v, 2, Pow2(n - 1));
      Triple(2, v, Pow2(n - 1));
      HalfOf(v * Pow2(n - 1), w);
      DigitsJoin(v, m, w / 2, n - 1);
    }
  }

  lemma HalfOf(q: int, w: nat)
    ensures (2 * q + w) / 2 == q + w / 2 && (2 * q + w) % 2 == w % 2
  {
  }

  lemma Eights()
    ensures Digits(0, 8) == [0, 0, 0, 0, 0, 0, 0, 0] && Digits(2, 8) == [0, 0, 0, 0, 0, 0, 1, 0]
    ensures Digits(0x60, 8) == [0, 1, 1, 0, 0, 0, 0, 0]
  {
    Fours();
    SmallPowers();
    hide Digits, Pow2;
    DigitsJoin(0, 4, 0, 4);
    DigitsJoin(0, 4, 2, 4);
    DigitsJoin(6, 4, 0, 4);
  }

  lemma DigitsStep(v: nat, w: nat)
    requires w > 0
    ensures Digits(v, w) == Digits(v / 2, w - 1) + [v % 2] && Digits(v, 0) == []
  {
  }

  lemma Twos()
    ensures Digits(0, 2) == [0, 0] && Digits(1, 2) == [0, 1] && Digits(2, 2) == [1, 0] && Digits(3, 2) == [1, 1]
  {
    hide Digits;
    DigitsStep(0, 1);
    DigitsStep(1, 1);
    DigitsStep(0, 2);
    DigitsStep(1, 2);
    DigitsStep(2, 2);
    DigitsStep(3, 2);
  }

  lemma Fours()
    ensures Digits(0, 4) == [0, 0, 0, 0] && Digits(2, 4) == [0, 0, 1, 0] && Digits(6, 4) == [0, 1, 1, 0]
    ensures Digits(1, 3) == [0, 0, 1] && Digits(8, 4) == [1, 0, 0, 0] && Digits(1, 4) == [0, 0, 0, 1]
    ensures Digits(0xE, 4) == [1, 1, 1, 0] && Digits(0x14, 5) == [1, 0, 1, 0, 0] && Digits(2, 2) == [1, 0]
  {
    hide Digits, Pow2;
    Twos();
    SmallPowers();
    DigitsJoin(0, 2, 0, 2);
    DigitsJoin(0, 2, 2, 2);
    DigitsJoin(1, 2, 2, 2);
    DigitsJoin(2, 2, 0, 2);
    DigitsJoin(0, 2, 1, 2);
    DigitsJoin(3, 2, 2, 2);
    DigitsStep(1, 3);
    DigitsStep(0x14, 5);
    DigitsStep(0xA, 4);
    DigitsStep(5, 3);
  }

  lemma FlagsAre()
    ensures GroupFlags(USED) == Digits(0x200, 16) && ByteFlags(USED, 6) == Digits(0x6002, 16)
  {
    hide GroupFlag, Digits, Pow2;
    Eights();
    FieldPowers();
    DigitsJoin(2, 8, 0, 8);
    DigitsJoin(0x60, 8, 2, 8);
    forall i | 0 <= i < 16 ensures GroupFlags(USED)[i] == if i == 6 then 1 else 0 {
      GroupIs(i);
    }
    GroupList(GroupFlags(USED));
  }

  lemma GroupList(bits: seq<nat>)
    requires |bits| == 16 && forall i :: 0 <= i < 16 ==> bits[i] == if i == 6 then 1 else 0
    ensures bits == [0, 0, 0, 0, 0, 0, 1, 0] + [0, 0, 0, 0, 0, 0, 0, 0]
  {
  }

  lemma TablesAre()
    ensures TableBits([3, 3, 2, 2, 2]) == Digits(3, 5) + Digits(0x18, 7)
    ensures TableBits([3, 3, 3, 1, 3]) == Digits(3, 5) + Digits(0x3d4, 13)
  {
    hide Digits, Pow2;
    Fours();
    Eights();
    SmallPowers();
    FieldPowers();
    DigitsJoin(1, 3, 8, 4);
    DigitsJoin(1, 4, 0xE, 4);
    DigitsJoin(0x1E, 8, 0x14, 5);
    FirstLengths();
    SecondLengths();
  }

  lemma LengthsHead(len: nat, l: byte, rest: seq<byte>)
    ensures LengthsBits(len, [l] + rest) == LengthBits(len, l) + LengthsBits(l, rest)
    ensures LengthsBits(len, []) == []
  {
    hide LengthBits;
    assert ([l] + rest)[1..] == rest;
  }

  lemma Steps()
    ensures LengthBits(3, 3) == [0] && LengthBits(3, 1) == [1, 1, 1, 1, 0] && LengthBits(1, 3) == [1, 0, 1, 0, 0]
    ensures LengthBits(2, 2) == [0] && LengthBits(3, 2) == [1, 1, 0]
  {
    assert LengthBits(1, 1) == [0];
    assert LengthBits(2, 1) == [1, 1, 0];
    assert LengthBits(2, 3) == [1, 0, 0];
  }

  lemma FirstLengths()
    ensures LengthsBits(3, [3, 3, 2, 2, 2]) == [0, 0, 1] + [1, 0, 0, 0]
  {
    hide LengthBits, LengthsBits;
    Steps();
    LengthsHead(2, 2, []);
    LengthsHead(2, 2, [2]);
    LengthsHead(3, 2, [2, 2]);
    LengthsHead(3, 3, [2, 2, 2]);
    LengthsHead(3, 3, [3, 2, 2, 2]);
    assert [2 as byte] + [] == [2] && [2 as byte] + [2] == [2, 2] && [2 as byte] + [2, 2] == [2, 2, 2];
    assert [3 as byte] + [2, 2, 2] == [3, 2, 2, 2] && [3 as byte] + [3, 2, 2, 2] == [3, 3, 2, 2, 2];
  }

  lemma SecondLengths()
    ensures LengthsBits(3, [3, 3, 3, 1, 3]) == [0, 0, 0, 1] + [1, 1, 1, 0] + [1, 0, 1, 0, 0]
  {
    hide LengthBits, LengthsBits;
    Steps();
    LengthsHead(1, 3, []);
    LengthsHead(3, 1, [3]);
    LengthsHead(3, 3, [1, 3]);
    LengthsHead(3, 3, [3, 1, 3]);
    LengthsHead(3, 3, [3, 3, 1, 3]);
    assert [3 as byte] + [] == [3] && [1 as byte] + [3] == [1, 3] && [3 as byte] + [1, 3] == [3, 1, 3];
    assert [3 as byte] + [3, 1, 3] == [3, 3, 1, 3] && [3 as byte] + [3, 3, 1, 3] == [3, 3, 3, 1, 3];
  }

  // ----- the symbols -----

  lemma HeaderIs()
    ensures HeaderFor(Chosen(), 900000) == B.Header(Tables(), [1], Padded([0x61, 0x62, 0x6e]), 3, 900000)
  {
    hide Members, Padded;
    MembersAre();
  }

  function Alphabet(): (a: seq<byte>)
    ensures |a| == 256 && a[0] == 0x61 && a[1] == 0x62 && a[2] == 0x6e
  {
    Padded([0x61, 0x62, 0x6e])
  }

  // The list starts with the numbers of the three bytes in some order.
  predicate Leads(list: seq<byte>, x: byte, y: byte, z: byte)
  {
    |list| == 256 && list[0] == x && list[1] == y && list[2] == z && x < 3 && y < 3 && z < 3
    && x != y && y != z && x != z
  }

  predicate Three(text: seq<byte>)
  {
    forall i :: 0 <= i < |text| ==> text[i] == 0x61 || text[i] == 0x62 || text[i] == 0x6e
  }

  lemma LeadsCovers(list: seq<byte>, x: byte, y: byte, z: byte, text: seq<byte>)
    requires Leads(list, x, y, z) && Three(text)
    ensures Covers(Alphabet(), 3, list, text)
  {
    var a := Alphabet();
    forall b | b in text ensures exists i :: 0 <= i < 3 && a[list[i]] == b {
      var n := if b == 0x61 then 0 else if b == 0x62 then 1 else 2;
      assert a[n] == b;
      assert a[list[0]] == b || a[list[1]] == b || a[list[2]] == b;
    }
  }

  // One byte more: another one of the run, or another place of the list.
  lemma SameByte(list: seq<byte>, x: byte, y: byte, z: byte, zeros: nat, text: seq<byte>)
    requires Leads(list, x, y, z) && Three(text) && text != [] && text[0] == Alphabet()[x]
    ensures Covers(Alphabet(), 3, list, text) && Covers(Alphabet(), 3, list, text[1..])
    ensures Encode(Alphabet(), 3, list, zeros, text) == Encode(Alphabet(), 3, list, zeros + 1, text[1..])
  {
    LeadsCovers(list, x, y, z, text);
    LeadsCovers(list, x, y, z, text[1..]);
    hide Covers, Alphabet;
    CoversFirst(Alphabet(), 3, list, text);
  }

  lemma OtherByte(list: seq<byte>, x: byte, y: byte, z: byte, zeros: nat, text: seq<byte>, p: nat)
    requires Leads(list, x, y, z) && Three(text) && text != [] && 1 <= p < 3 && text[0] == Alphabet()[list[p]]
    ensures Covers(Alphabet(), 3, list, text) && Leads(ToFront(list, p), list[p], x, if p == 1 then z else y)
    ensures Covers(Alphabet(), 3, ToFront(list, p), text[1..])
    ensures Encode(Alphabet(), 3, list, zeros, text)
         == RunSymbols(zeros) + [p + 1] + Encode(Alphabet(), 3, ToFront(list, p), 0, text[1..])
  {
    LeadsCovers(list, x, y, z, text);
    LeadsCovers(ToFront(list, p), list[p], x, if p == 1 then z else y, text[1..]);
    var a := Alphabet();
    assert a[0] != a[1] && a[1] != a[2] && a[0] != a[2];
    hide Covers, Alphabet, ToFront, RunSymbols;
    CoversFirst(a, 3, list, text);
    var q := Place(a, list[..3], text[0]);
    assert list[..3][q] == list[q];
  }

  lemma SymbolsAre()
    ensures Covers(Alphabet(), 3, B.Identity(), Last())
    ensures Encode(Alphabet(), 3, B.Identity(), 0, Last()) == [3, 0, 3, 3, 1, 4]
  {
    hide Encode, Covers, Alphabet, ToFront, RunSymbols, B.Identity;
    var l0, t := B.Identity(), Last();
    IdentityLeads();
    Runs();
    OtherByte(l0, 0, 1, 2, 0, t, 2);
    var l1 := ToFront(l0, 2);
    SameByte(l1, 2, 0, 1, 0, t[1..]);
    assert t[1..][1..] == t[2..];
    OtherByte(l1, 2, 0, 1, 1, t[2..], 2);
    assert t[2..][1..] == t[3..];
    LaterSymbols(ToFront(l1, 2));
  }

  lemma LaterSymbols(list: seq<byte>)
    requires Leads(list, 1, 2, 0)
    ensures Covers(Alphabet(), 3, list, Last()[3..])
    ensures Encode(Alphabet(), 3, list, 0, Last()[3..]) == [3, 1, 4]
  {
    hide Encode, Covers, Alphabet, ToFront, RunSymbols;
    var t := Last();
    Runs();
    OtherByte(list, 1, 2, 0, 0, t[3..], 2);
    var next := ToFront(list, 2);
    assert t[3..][1..] == t[4..];
    SameByte(next, 0, 1, 2, 0, t[4..]);
    assert t[4..][1..] == t[5..];
    SameByte(next, 0, 1, 2, 1, t[5..]);
    assert t[5..][1..] == [];
    EncodeNothing(next, 2);
  }

  lemma Runs()
    ensures RunSymbols(0) == [] && RunSymbols(1) == [0] && RunSymbols(2) == [1]
  {
  }

  lemma IdentityLeads()
    ensures Leads(B.Identity(), 0, 1, 2)
  {
  }

  lemma EncodeNothing(list: seq<byte>, zeros: nat)
    requires |list| == 256
    ensures Covers(Alphabet(), 3, list, []) && Encode(Alphabet(), 3, list, zeros, []) == RunSymbols(zeros) + [4]
  {
  }

  // ----- the codes -----

  const SECOND: seq<byte> := [3, 3, 3, 1, 3]

  lemma PositionStep(L: seq<byte>, x: byte, c: byte)
    ensures Positions(L + [x], c) == Positions(L, c) + if x == c then [|L|] else []
    ensures Positions([], c) == []
  {
    assert (L + [x])[..|L|] == L;
  }

  lemma PositionsAre(c: byte)
    ensures |Positions(SECOND, c)| == if c == 3 then 4 else if c == 1 then 1 else 0
    ensures |Positions(SECOND[..0], 3)| == 0 && |Positions(SECOND[..1], 3)| == 1 && |Positions(SECOND[..3], 1)| == 0
    ensures |Positions(SECOND[..4], 3)| == 3
  {
    hide Positions;
    var s0: seq<byte>, s1: seq<byte>, s2: seq<byte>, s3: seq<byte>, s4: seq<byte> := [], [3], [3, 3], [3, 3, 3],
          [3, 3, 3, 1];
    forall d: byte
      ensures |Positions(s1, d)| == (if d == 3 then 1 else 0) && |Positions(s3, d)| == (if d == 3 then 3 else 0)
      ensures |Positions(s4, d)| == if d == 3 then 3 else if d == 1 then 1 else 0
    {
      assert s1 == s0 + [3] && s2 == s1 + [3] && s3 == s2 + [3] && s4 == s3 + [1];
      PositionStep(s0, 3, d);
      PositionStep(s1, 3, d);
      PositionStep(s2, 3, d);
      PositionStep(s3, 1, d);
    }
    assert SECOND == s4 + [3];
    PositionStep(s4, 3, c);
    PositionStep(s0, 3, 3);
    assert SECOND[..0] == s0 && SECOND[..1] == s1 && SECOND[..3] == s3 && SECOND[..4] == s4;
  }

  lemma CodesAre()
    ensures Code(SECOND, 3) == 0 && Code(SECOND, 0) == 4 && Code(SECOND, 1) == 5 && Code(SECOND, 4) == 7
  {
    hide Positions;
    var c := Counts(SECOND);
    PositionsAre(0);
    PositionsAre(1);
    PositionsAre(2);
    PositionsAre(3);
    assert c[0] == 0 && c[1] == 1 && c[2] == 0 && c[3] == 4;
    assert First(c, 0) == 0;
    assert First(c, 1) == 0;
    assert First(c, 2) == 2;
    assert First(c, 3) == 4;
  }

  lemma {:induction false} PositionsFew(L: seq<byte>, c: byte)
    ensures |Positions(L, c)| <= |L|
  {
    if L != [] {
      PositionsFew(L[..|L| - 1], c);
    }
  }

  lemma KraftOf(lengths: seq<byte>)
    requires lengths == [3, 3, 2, 2, 2] || lengths == SECOND
    ensures KraftSum(lengths, 20) == Pow2(20) && NoCounterWraps(lengths) && CodeLengths(lengths)
  {
    hide KraftSum, Pow2, Positions;
    FieldPowers();
    PowerValues();
    Pow2Add(16, 1);
    Pow2Add(16, 2);
    Pow2Add(16, 3);
    forall l | 0 <= l < 22 ensures |Positions(lengths, l)| < 256 {
      PositionsFew(lengths, l);
    }
    KraftNothing();
    var x: byte, y: byte, z: byte := lengths[2], lengths[3], lengths[4];
    KraftStep([], 3);
    KraftStep([3], 3);
    KraftStep([3, 3], x);
    KraftStep([3, 3, x], y);
    KraftStep([3, 3, x, y], z);
    assert [] + [3 as byte] == [3] && [3 as byte] + [3] == [3, 3] && [3 as byte, 3] + [x] == [3, 3, x];
    assert [3 as byte, 3, x] + [y] == [3, 3, x, y] && [3 as byte, 3, x, y] + [z] == lengths;
  }

  function BananaPiece(): Piece
  {
    Piece(Chosen(), Last())
  }

  lemma FormWritable()
    ensures Writable(Chosen(), 900000)
  {
    hide Members, Pow2, KraftSum, NoCounterWraps;
    MembersAre();
    SizesFit();
    SmallPowers();
    Pow2Add(4, 11);
    assert Tables()[0] == [3, 3, 2, 2, 2] && Tables()[1] == SECOND;
  }

  lemma TablesSuit(h: B.Header)
    requires h.tables == Tables()
    ensures Prefixed(h) && B.NoneWraps(h)
  {
    hide Pow2, KraftSum, NoCounterWraps;
    KraftOf([3, 3, 2, 2, 2]);
    KraftOf(SECOND);
  }

  lemma PieceEncodable()
    ensures Writable(Chosen(), 900000) && Encodable(BananaPiece(), 900000)
  {
    hide Writable, Covers, Padded, HeaderFor, Prefixed, B.NoneWraps, Tables, B.Identity, Encode;
    FormWritable();
    HeaderIs();
    TablesSuit(HeaderFor(Chosen(), 900000));
    SymbolsAre();
  }

  // ----- the bits -----

  lemma SymbolStep(h: B.Header, k: nat, t: nat, rest: seq<nat>)
    requires B.Usable(h) && h.tables == Tables() && h.selectors == [1] && h.used == 3 && k < 50 && t < 5
    ensures SymbolBits(h, k, [t] + rest) == Digits(Code(SECOND, t), SECOND[t]) + SymbolBits(h, k + 1, rest)
    ensures SymbolBits(h, k, []) == []
  {
    hide Digits, Code;
    assert ([t] + rest)[1..] == rest;
    assert k / B.GROUP_SIZE == 0 && B.TableFor(h, k) == SECOND;
  }

  // Bits that are read one after the other.
  lemma Both(p: nat, a: seq<nat>, b: seq<nat>)
    requires Reads(File(), p, a) && Reads(File(), p + |a|, b)
    ensures Reads(File(), p, a + b)
  {
    ReadsBoth(File(), p, a, b);
  }

  lemma SymbolsRead(h: B.Header)
    requires B.Usable(h) && h.tables == Tables() && h.selectors == [1] && h.used == 3
    ensures Reads(File(), 219, SymbolBits(h, 0, [3, 0, 3, 3, 1, 4])) && |SymbolBits(h, 0, [3, 0, 3, 3, 1, 4])| == 12
  {
    hide Reads, File, SymbolBits, B.Usable, Digits, Code, Tables;
    CodesAre();
    SymbolFields();
    var five, four, three, two, one: seq<nat> := [0, 3, 3, 1, 4], [3, 3, 1, 4], [3, 1, 4], [1, 4], [4];
    assert [3 as nat] + five == [3, 0, 3, 3, 1, 4] && [0 as nat] + four == five && [3 as nat] + three == four;
    assert [3 as nat] + two == three && [1 as nat] + one == two && [4 as nat] + [] == one;
    SymbolStep(h, 0, 3, five);
    SymbolStep(h, 1, 0, four);
    SymbolStep(h, 2, 3, three);
    SymbolStep(h, 3, 3, two);
    SymbolStep(h, 4, 1, one);
    SymbolStep(h, 5, 4, []);
    SymbolStep(h, 6, 4, []);
    assert Digits(7, 3) + [] == Digits(7, 3);
    Both(225, Digits(5, 3), SymbolBits(h, 5, one));
    Both(224, Digits(0, 1), SymbolBits(h, 4, two));
    Both(223, Digits(0, 1), SymbolBits(h, 3, three));
    Both(220, Digits(4, 3), SymbolBits(h, 2, four));
    Both(219, Digits(0, 1), SymbolBits(h, 1, five));
  }

  lemma StartIs()
    ensures Reads(File(), 32, StartBits(Chosen())) && |StartBits(Chosen())| == 121
  {
    hide Reads, File, Digits, GroupFlags, NumberOf;
    StartFields();
    MapFields();
    FlagsAre();
    CrcNumber();
    var flags := GroupFlags(USED);
    Both(113, Digits(3, 24), flags);
    Both(112, Digits(0, 1), Digits(3, 24) + flags);
    Both(80, Digits(0xefb6ec01, 32), Digits(0, 1) + (Digits(3, 24) + flags));
    Both(56, Digits(0x265359, 24), Digits(0xefb6ec01, 32) + (Digits(0, 1) + (Digits(3, 24) + flags)));
    Both(32, Digits(0x314159, 24),
         Digits(0x265359, 24) + (Digits(0xefb6ec01, 32) + (Digits(0, 1) + (Digits(3, 24) + flags))));
  }

  lemma CrcNumber()
    ensures NumberOf(CRC) == 0xefb6ec01
  {
  }

  lemma SelectorIs(list: seq<byte>)
    requires list == [0, 1] && AllIn([1], list)
    ensures SelectorBits(list, [1]) == [1, 0]
  {
    assert [1 as nat][1..] == [];
    assert UnaryBits(1) == [1, 0];
    assert IndexOf(list, 1) == 1;
  }

  lemma TablesBitsAre()
    ensures AllTables(Tables(), 5)
    ensures TablesBits(Tables(), 5) == (Digits(3, 5) + Digits(0x18, 7)) + (Digits(3, 5) + Digits(0x3d4, 13))
  {
    hide TableBits, Digits;
    var second: seq<seq<byte>> := [[3, 3, 3, 1, 3]];
    assert Tables()[1..] == second && second[1..] == [];
    TablesAre();
    assert TablesBits([], 5) == [];
    assert TablesBits(second, 5) == Digits(3, 5) + Digits(0x3d4, 13);
  }

  lemma ChoicesAt()
    requires Writable(Chosen(), 900000)
    ensures Reads(File(), 169, ChoicesBits(Chosen(), 900000)) && |ChoicesBits(Chosen(), 900000)| == 50
  {
    hide Reads, File, Digits, Members, TablesBits, SelectorBits, B.Identity, AllTables, Pow2;
    MembersAre();
    MapFields();
    TableFields();
    TablesBitsAre();
    Twos();
    var list := B.Identity()[..2];
    IdentityStarts();
    GroupsListed(2, [1]);
    SelectorIs(list);
    var t0, t1 := Digits(3, 5) + Digits(0x18, 7), Digits(3, 5) + Digits(0x3d4, 13);
    Both(189, Digits(3, 5), Digits(0x18, 7));
    Both(201, Digits(3, 5), Digits(0x3d4, 13));
    Both(189, t0, t1);
    Both(187, Digits(2, 2), t0 + t1);
    Both(172, Digits(1, 15), Digits(2, 2) + (t0 + t1));
    Both(169, Digits(2, 3), Digits(1, 15) + (Digits(2, 2) + (t0 + t1)));
  }

  lemma IdentityStarts()
    ensures B.Identity()[..2] == [0, 1]
  {
  }

  lemma HeaderRead()
    requires Writable(Chosen(), 900000)
    ensures Reads(File(), 32, HeaderBits(Chosen(), 900000)) && |HeaderBits(Chosen(), 900000)| == 187
  {
    hide Reads, File, Writable, StartBits, MapBits, ChoicesBits, Digits;
    var start, middle, choices := StartBits(Chosen()), MapBits(USED, 0), ChoicesBits(Chosen(), 900000);
    StartIs();
    MapIs(0);
    FlagsAre();
    MapFields();
    ChoicesAt();
    Both(153, middle, choices);
    Both(32, start, middle + choices);
  }

  lemma EndRead()
    ensures Reads(File(), 231, EndBits(CRC))
  {
    hide Reads, File, Digits, NumberOf;
    EndFields();
    CrcNumber();
    Both(255, Digits(0x385090, 24), Digits(0xefb6ec01, 32));
    Both(231, Digits(0x177245, 24), Digits(0x385090, 24) + Digits(0xefb6ec01, 32));
  }

  lemma PieceRead()
    requires Writable(Chosen(), 900000) && Encodable(BananaPiece(), 900000)
    ensures Reads(File(), 32, PieceBits(BananaPiece(), 900000)) && |PieceBits(BananaPiece(), 900000)| == 199
  {
    hide Reads, File, Writable, Covers, HeaderBits, SymbolBits, B.Usable, Encodable, Padded, Encode, B.Identity;
    HeaderIs();
    HeaderUsable(Chosen(), 900000);
    HeaderRead();
    SymbolsAre();
    var h := HeaderFor(Chosen(), 900000);
    SymbolsRead(h);
    Both(32, HeaderBits(Chosen(), 900000), SymbolBits(h, 0, [3, 0, 3, 3, 1, 4]));
    PieceIs();
  }

  lemma PieceIs()
    requires Writable(Chosen(), 900000) && Encodable(BananaPiece(), 900000)
    ensures B.Usable(HeaderFor(Chosen(), 900000))
    ensures PieceBits(BananaPiece(), 900000)
         == HeaderBits(Chosen(), 900000) + SymbolBits(HeaderFor(Chosen(), 900000), 0, [3, 0, 3, 3, 1, 4])
  {
    hide Writable, Covers, HeaderBits, SymbolBits, B.Usable, Padded, Encode, B.Identity;
    HeaderIs();
    HeaderUsable(Chosen(), 900000);
    SymbolsAre();
  }

  lemma FileRead()
    ensures AllEncodable([BananaPiece()], 900000) && Reads(File(), 0, FileBits([BananaPiece()], 9, CRC))
  {
    hide Reads, File, Writable, Encodable, PieceBits, EndBits, Digits, BananaPiece;
    PieceEncodable();
    PieceRead();
    EndRead();
    StartFields();
    var piece := BananaPiece();
    assert [piece][1..] == [];
    assert StreamBits([], 900000, CRC) == EndBits(CRC);
    assert StreamBits([piece], 900000, CRC) == PieceBits(piece, 900000) + EndBits(CRC);
    Both(32, PieceBits(piece, 900000), EndBits(CRC));
    Both(0, Digits(0x425a6839, 32), StreamBits([piece], 900000, CRC));
  }

  // ----- the text -----

  // A byte that is not followed by an equal one stands for itself.
  lemma SingleByte(x: byte, rest: seq<byte>)
    requires rest == [] || rest[0] != x
    ensures R.RunEncode([x] + rest) == [x] + R.RunEncode(rest) && R.RunEncode([]) == []
  {
    var s := [x] + rest;
    assert s[1..] == rest;
    assert R.LeadingRun(s, x, 259) == 1;
    assert s[..1] == [x];
  }

  lemma NoRuns()
    ensures R.RunEncode(TEXT) == TEXT
  {
    hide R.RunEncode;
    var t1: seq<byte>, t2: seq<byte>, t3: seq<byte> := [0x61, 0x6e, 0x61, 0x6e, 0x61], [0x6e, 0x61, 0x6e, 0x61],
          [0x61, 0x6e, 0x61];
    var t4: seq<byte>, t5: seq<byte> := [0x6e, 0x61], [0x61];
    assert TEXT == [0x62] + t1 && t1 == [0x61] + t2 && t2 == [0x6e] + t3 && t3 == [0x61] + t4 && t4 == [0x6e] + t5;
    assert t5 == [0x61] + [];
    SingleByte(0x61, []);
    SingleByte(0x6e, t5);
    SingleByte(0x61, t4);
    SingleByte(0x6e, t3);
    SingleByte(0x61, t2);
    SingleByte(0x62, t1);
  }

  // The sorted rotations.
  function Rows(): (rows: seq<seq<byte>>)
    ensures |rows| == 6
  {
    [
      [0x61, 0x62, 0x61, 0x6e, 0x61, 0x6e],
      [0x61, 0x6e, 0x61, 0x62, 0x61, 0x6e],
      [0x61, 0x6e, 0x61, 0x6e, 0x61, 0x62],
      [0x62, 0x61, 0x6e, 0x61, 0x6e, 0x61],
      [0x6e, 0x61, 0x62, 0x61, 0x6e, 0x61],
      [0x6e, 0x61, 0x6e, 0x61, 0x62, 0x61]
    ]
  }

  lemma RowsAre()
    ensures var r := BurrowsWheeler.Rotations(TEXT);
            Rows() == [r[5], r[3], r[1], r[0], r[4], r[2]]
  {
    var r := BurrowsWheeler.Rotations(TEXT);
    assert TEXT[5..] + TEXT[..5] == Rows()[0];
    assert TEXT[3..] + TEXT[..3] == Rows()[1];
    assert TEXT[1..] + TEXT[..1] == Rows()[2];
    assert TEXT[0..] + TEXT[..0] == Rows()[3];
    assert TEXT[4..] + TEXT[..4] == Rows()[4];
    assert TEXT[2..] + TEXT[..2] == Rows()[5];
  }

  ghost function One<X>(x: X): multiset<X>
  {
    multiset{x}
  }

  lemma OfSix<X>(a: X, b: X, c: X, d: X, e: X, f: X)
    ensures multiset([a, b, c, d, e, f]) == One(a) + One(b) + One(c) + One(d) + One(e) + One(f)
  {
    assert [a, b, c, d, e, f] == [a] + [b] + [c] + [d] + [e] + [f];
    SplitSix([a], [b], [c], [d], [e], [f]);
  }

  lemma SplitSix<X>(a: seq<X>, b: seq<X>, c: seq<X>, d: seq<X>, e: seq<X>, f: seq<X>)
    ensures multiset(a + b + c + d + e + f)
         == multiset(a) + multiset(b) + multiset(c) + multiset(d) + multiset(e) + multiset(f)
  {
  }

  lemma Shuffled<X>(a: X, b: X, c: X, d: X, e: X, f: X)
    ensures multiset([f, d, b, a, e, c]) == multiset([a, b, c, d, e, f])
  {
    hide One;
    OfSix(a, b, c, d, e, f);
    OfSix(f, d, b, a, e, c);
    Reordered(One(a), One(b), One(c), One(d), One(e), One(f));
  }

  lemma Reordered<X>(a: multiset<X>, b: multiset<X>, c: multiset<X>, d: multiset<X>, e: multiset<X>, f: multiset<X>)
    ensures f + d + b + a + e + c == a + b + c + d + e + f
  {
  }

  // The first difference decides, at a place k.
  lemma {:induction false} DiffersAt(a: seq<byte>, b: seq<byte>, k: nat)
    requires k < |a| && k < |b| && a[k] < b[k] && forall i :: 0 <= i < k ==> a[i] == b[i]
    ensures BurrowsWheeler.LexLeq(a, b)
  {
    if k > 0 {
      DiffersAt(a[1..], b[1..], k - 1);
    }
  }

  lemma RowsSorted()
    ensures SortedBy(BurrowsWheeler.LexLeq, Rows())
  {
    hide BurrowsWheeler.LexLeq;
    var rows := Rows();
    forall i, j | 0 <= i < j < 6 ensures BurrowsWheeler.LexLeq(rows[i], rows[j]) {
      DiffersAt(rows[i], rows[j],
                if j >= 4 then (if i == 4 then 2 else 0) else if j == 3 then 0 else if i == 0 then 1 else 3);
    }
  }

  lemma SameRows()
    ensures multiset(Rows()) == multiset(BurrowsWheeler.Rotations(TEXT))
  {
    hide BurrowsWheeler.Rotations, Rows;
    var r := BurrowsWheeler.Rotations(TEXT);
    RowsAre();
    SixOf(r);
    Shuffled(r[0], r[1], r[2], r[3], r[4], r[5]);
  }

  lemma SixOf<X>(r: seq<X>)
    requires |r| == 6
    ensures r == [r[0], r[1], r[2], r[3], r[4], r[5]]
  {
  }

  lemma LastColumnIs(j: nat)
    requires j < 6
    ensures |Rows()[j]| == 6 && Rows()[j][5] == Last()[j] && Rows()[3] == TEXT
  {
  }

  lemma TextTransforms()
    ensures BurrowsWheeler.Transforms(R.RunEncode(TEXT), Rows(), Last(), 3)
  {
    hide BurrowsWheeler.LexLeq, BurrowsWheeler.Rotations, R.RunEncode, Rows, Last, SortedBy;
    NoRuns();
    SameRows();
    RowsSorted();
    LastColumnIs(3);
    forall j | 0 <= j < 6 ensures |Rows()[j]| > 0 && Last()[j] == Rows()[j][|Rows()[j]| - 1] {
      LastColumnIs(j);
    }
  }

  // ----- the checksum -----

  lemma FirstHalf()
    ensures CrcByte(Word(0xFFFFFFFF), 0x62) == Word(0xEB2F424D) && CrcByte(Word(0xEB2F424D), 0x61) == Word(0x69C47B38)
    ensures CrcByte(Word(0x69C47B38), 0x6E) == Word(0xDA3C6805)
  {
    hide CrcByte;
    StepOf(0xFFFFFFFF, 0x62, 0x62000000, 0xFD360FFF, 0xEB2F424D);
    StepOf(0xEB2F424D, 0x61, 0x61000000, 0x84FCC968, 0x69C47B38);
    StepOf(0x69C47B38, 0x6E, 0x6E000000, 0x7C47B380, 0xDA3C6805);
  }

  lemma SecondHalf()
    ensures CrcByte(Word(0xDA3C6805), 0x61) == Word(0xAA1D431F) && CrcByte(Word(0xAA1D431F), 0x6E) == Word(0x53CDF945)
    ensures CrcByte(Word(0x53CDF945), 0x61) == Word(0x104913FE)
  {
    hide CrcByte;
    StepOf(0xDA3C6805, 0x61, 0x61000000, 0x988D4B31, 0xAA1D431F);
    StepOf(0xAA1D431F, 0x6E, 0x6E000000, 0x74D8AA94, 0x53CDF945);
    StepOf(0x53CDF945, 0x61, 0x61000000, 0x219CB289, 0x104913FE);
  }

  lemma CrcIs()
    ensures Crc(TEXT) == CRC
  {
    hide CrcByte, CrcFrom;
    FirstHalf();
    SecondHalf();
    CrcFrom6(Word(0xFFFFFFFF), TEXT);
  }

  lemma CrcFrom6(v: Word, s: seq<byte>)
    requires |s| == 6
    ensures CrcFrom(v, s)
         == CrcByte(CrcByte(CrcByte(CrcByte(CrcByte(CrcByte(v, s[0]), s[1]), s[2]), s[3]), s[4]), s[5])
  {
    hide CrcByte, CrcFrom;
    CrcHead(v, s);
    CrcHead(CrcByte(v, s[0]), s[1..]);
    var w := CrcByte(CrcByte(v, s[0]), s[1]);
    assert s[1..][1..] == s[2..] && s[2..][1..] == s[3..] && s[3..][1..] == s[4..] && s[4..][1..] == s[5..];
    CrcHead(w, s[2..]);
    CrcHead(CrcByte(w, s[2]), s[3..]);
    var u := CrcByte(CrcByte(w, s[2]), s[3]);
    CrcHead(u, s[4..]);
    CrcHead(CrcByte(u, s[4]), s[5..]);
    assert s[5..][1..] == [];
    CrcHead(CrcByte(CrcByte(u, s[4]), s[5]), s);
  }

  lemma CrcHead(v: Word, s: seq<byte>)
    requires s != []
    ensures CrcFrom(v, s) == CrcFrom(CrcByte(v, s[0]), s[1..]) && CrcFrom(v, []) == v
  {
    hide CrcByte;
  }

  // The file decodes to the text, and its checksum is right.
  lemma BananaFile()
    ensures BunzipOutput.LevelOf(File()) == 9 && BunzipOutput.FileOf(File()).Contents?
    ensures BunzipOutput.MeaningOf(BunzipOutput.FileOf(File())) == R.Future(TEXT, R.Complete(true))
  {
    hide File, Reads, AllEncodable, FileBits, BunzipOutput.LevelOf, BunzipOutput.FileOf, BunzipOutput.MeaningOf, Crc,
      TotalCrc, BurrowsWheeler.Transforms, R.RunEncode;
    FileRead();
    TextTransforms();
    CrcIs();
    assert MadeFrom([BananaPiece()], [TEXT], [Rows()]);
    FileRoundTrip(File(), [BananaPiece()], 9, CRC, [TEXT], [Rows()]);
    TotalOfOne(TEXT);
    OneText(TEXT);
  }

  lemma OneText(text: seq<byte>)
    ensures Concat([text]) == text
  {
    assert [text][1..] == [];
  }
}
