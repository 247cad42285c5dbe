// The header of a bzip2 block as an encoder writes it, and the proof that it is read back.
module BunzipWriter {
  import opened Bytes
  import opened Powers
  import opened BitReader
  import opened Huffman
  import opened MoveToFront
  import opened BunzipBlock
  import opened BunzipHeader
  import opened BunzipBits
  import opened Words
  import opened BunzipCrc

  // What an encoder chooses for one block.
  datatype Form = Form(crc: Word, origPtr: nat, bytes: set<byte>, selectors: seq<nat>, tables: seq<seq<byte>>)

  // The members of a set of bytes from lo up to hi, in order.
  function Members(bytes: set<byte>, lo: nat, hi: nat): (r: seq<byte>)
    requires lo <= hi <= 256
    ensures |r| <= hi - lo
    decreases hi - lo
  {
    if lo == hi then [] else (if lo in bytes then [lo as byte] else []) + Members(bytes, lo + 1, hi)
  }

  lemma {:induction false} MembersSplit(bytes: set<byte>, lo: nat, mid: nat, hi: nat)
    requires lo <= mid <= hi <= 256
    ensures Members(bytes, lo, hi) == Members(bytes, lo, mid) + Members(bytes, mid, hi)
    decreases mid - lo
  {
    if lo < mid {
      MembersSplit(bytes, lo + 1, mid, hi);
    }
  }

  function HeaderFor(f: Form, dbufSize: nat): Header
  {
    var members := Members(f.bytes, 0, 256);
    Header(f.tables, f.selectors, Padded(members), |members|, dbufSize)
  }

  // What the fields of the header have room for.
  predicate Writable(f: Form, dbufSize: nat)
  {
    && f.origPtr < dbufSize <= Pow2(24)
    && 2 <= |f.tables| <= MAX_GROUPS && AllTables(f.tables, |Members(f.bytes, 0, 256)| + 2)
    && 0 < |f.selectors| < Pow2(15) && forall i :: 0 <= i < |f.selectors| ==> f.selectors[i] < |f.tables|
  }

  lemma TakesDigits(input: seq<byte>, p: nat, v: nat, w: nat, rest: seq<nat>)
    requires v < Pow2(w) && Reads(input, p, Digits(v, w) + rest)
    ensures Take(input, p, w) == Got(v, p + w) && Reads(input, p + w, rest)
  {
    hide Pow2, Field, Digits, Reads;
    ReadsBoth(input, p, Digits(v, w), rest);
    FieldOfDigits(input, p, v, w);
  }

  lemma TakesBits(input: seq<byte>, p: nat, bits: seq<nat>, rest: seq<nat>)
    requires AreBits(bits) && Reads(input, p, bits + rest)
    ensures Take(input, p, |bits|) == Got(NumberOfBits(bits), p + |bits|) && Reads(input, p + |bits|, rest)
  {
    hide Pow2, Field, Reads, NumberOfBits;
    ReadsBoth(input, p, bits, rest);
    FieldIsNumber(input, p, bits);
  }

  lemma FlagOfBits(bits: seq<nat>, j: nat)
    requires AreBits(bits) && |bits| == 16 && j < 16
    ensures Flag(NumberOfBits(bits), j) <==> bits[j] == 1
  {
    hide Pow2, NumberOfBits;
    BitOfNumber(bits, j);
  }

  lemma SmallFit(v: nat)
    ensures v < 8 ==> v < Pow2(3)
    ensures v < 32 ==> v < Pow2(5)
  {
  }

  // ----- the marks and the row -----

  lemma MarksFit()
    ensures 0x314159 < Pow2(24) && 0x265359 < Pow2(24) && 0x177245 < Pow2(24) && 0x385090 < Pow2(24)
    ensures 0 < Pow2(1) && 0 < Pow2(32)
  {
    hide Pow2;
    PowerValues();
  }

  // Whether the set has bytes in group i.
  function GroupFlag(bytes: set<byte>, i: nat): nat
    requires i < 16
  {
    if Members(bytes, 16 * i, 16 * i + 16) == [] then 0 else 1
  }

  function GroupFlags(bytes: set<byte>): (bits: seq<nat>)
    ensures |bits| == 16 && AreBits(bits)
    ensures forall i :: 0 <= i < 16 ==> bits[i] == GroupFlag(bytes, i)
  {
    seq(16, i requires 0 <= i < 16 => GroupFlag(bytes, i))
  }

  function CrcBits(crc: Word): (bits: seq<nat>)
    ensures AreBits(bits) && |bits| == 32
  {
    Digits(NumberOf(crc), 32)
  }

  lemma TakesCrc(input: seq<byte>, p: nat, crc: Word, rest: seq<nat>)
    requires Reads(input, p + 48, CrcBits(crc) + rest)
    ensures Take(input, p + 48, 32) == Got(NumberOf(crc), p + 80) && Reads(input, p + 80, rest)
    ensures StoredCrc(input, p) == crc
  {
    hide Pow2, Field, Digits, Reads, WordOf, NumberOf;
    PowerValues();
    WordOfNumber(crc);
    TakesDigits(input, p + 48, NumberOf(crc), 32, rest);
  }

  function StartBits(f: Form): (bits: seq<nat>)
    ensures AreBits(bits)
  {
    Digits(0x314159, 24)
      + (Digits(0x265359, 24) + (CrcBits(f.crc) + (Digits(0, 1) + (Digits(f.origPtr, 24) + GroupFlags(f.bytes)))))
  }

  lemma StartSize(f: Form)
    ensures |StartBits(f)| == 121
  {
  }

  lemma StartReads(input: seq<byte>, p: nat, dbufSize: nat, f: Form)
    requires f.origPtr < dbufSize <= Pow2(24)
    requires Reads(input, p, StartBits(f))
    ensures StartOf(input, p, dbufSize) == Got((f.origPtr, NumberOfBits(GroupFlags(f.bytes))), p + |StartBits(f)|)
    ensures StoredCrc(input, p) == f.crc
  {
    StartSize(f);
    var flags := GroupFlags(f.bytes);
    hide Pow2, Digits, Reads, Take, NumberOfBits, GroupFlags;
    MarksFit();
    var row := Digits(f.origPtr, 24) + flags;
    var marks := CrcBits(f.crc) + (Digits(0, 1) + row);
    TakesDigits(input, p, 0x314159, 24, Digits(0x265359, 24) + marks);
    TakesDigits(input, p + 24, 0x265359, 24, marks);
    TakesCrc(input, p, f.crc, Digits(0, 1) + row);
    TakesDigits(input, p + 80, 0, 1, row);
    TakesDigits(input, p + 81, f.origPtr, 24, flags);
    assert flags + [] == flags;
    TakesBits(input, p + 105, flags, []);
  }

  // ----- the bytes in use -----

  function ByteFlags(bytes: set<byte>, i: nat): (bits: seq<nat>)
    requires i < 16
    ensures |bits| == 16 && AreBits(bits)
    ensures forall j :: 0 <= j < 16 ==> (bits[j] == 1 <==> 16 * i + j in bytes)
  {
    seq(16, j requires 0 <= j < 16 => if 16 * i + j in bytes then 1 else 0)
  }

  function MapBits(bytes: set<byte>, i: nat): (bits: seq<nat>)
    requires i <= 16
    ensures AreBits(bits)
    decreases 16 - i
  {
    if i == 16 then [] else (if GroupFlag(bytes, i) == 1 then ByteFlags(bytes, i) else []) + MapBits(bytes, i + 1)
  }

  predicate TellsBytes(word: nat, bytes: set<byte>, i: nat)
  {
    forall k :: 0 <= k < 16 ==> (Flag(word, k) <==> 16 * i + k in bytes)
  }

  lemma MembersStep(bytes: set<byte>, lo: nat, hi: nat)
    requires lo < hi <= 256
    ensures Members(bytes, lo, hi) == (if lo in bytes then [lo as byte] else []) + Members(bytes, lo + 1, hi)
  {
  }

  lemma {:induction false} GroupReads(word: nat, bytes: set<byte>, i: nat, j: nat, acc: seq<byte>)
    requires i < 16 && j <= 16 && |acc| <= 16 * i + j
    requires TellsBytes(word, bytes, i)
    ensures UsedInGroup(word, i, j, acc) == acc + Members(bytes, 16 * i + j, 16 * i + 16)
    decreases 16 - j
  {
    hide Flag, Members;
    if j == 16 {
      NoMembers(bytes, 16 * i + 16);
      assert acc + [] == acc;
    } else {
      MembersStep(bytes, 16 * i + j, 16 * i + 16);
      var one: seq<byte> := if Flag(word, j) then [16 * i + j] else [];
      assert acc + [] == acc;
      GroupReads(word, bytes, i, j + 1, acc + one);
      Regroup(acc, one, Members(bytes, 16 * i + j + 1, 16 * i + 16));
    }
  }

  // The word of one group gives its members.
  lemma WordReads(bytes: set<byte>, i: nat, acc: seq<byte>)
    requires i < 16 && |acc| <= 16 * i
    ensures UsedInGroup(NumberOfBits(ByteFlags(bytes, i)), i, 0, acc) == acc + Members(bytes, 16 * i, 16 * i + 16)
  {
    hide TellsBytes, NumberOfBits, Members, UsedInGroup, ByteFlags, AreBits;
    BytesTold(bytes, i);
    GroupReads(NumberOfBits(ByteFlags(bytes, i)), bytes, i, 0, acc);
  }

  lemma BytesTold(bytes: set<byte>, i: nat)
    requires i < 16
    ensures TellsBytes(NumberOfBits(ByteFlags(bytes, i)), bytes, i)
  {
    hide Flag, NumberOfBits, ByteFlags, AreBits;
    var bits := ByteFlags(bytes, i);
    forall k | 0 <= k < 16 ensures Flag(NumberOfBits(bits), k) <==> 16 * i + k in bytes {
      FlagOfBits(bits, k);
    }
  }

  predicate TellsGroups(t: nat, bytes: set<byte>)
  {
    forall i :: 0 <= i < 16 ==> (Flag(t, i) <==> GroupFlag(bytes, i) == 1)
  }

  lemma GroupsTold(bytes: set<byte>)
    ensures TellsGroups(NumberOfBits(GroupFlags(bytes)), bytes)
  {
    hide Flag, NumberOfBits;
    var bits := GroupFlags(bytes);
    forall i | 0 <= i < 16 ensures Flag(NumberOfBits(bits), i) <==> GroupFlag(bytes, i) == 1 {
      FlagOfBits(bits, i);
    }
  }

  lemma MapStep(bytes: set<byte>, i: nat)
    requires i < 16
    ensures GroupFlag(bytes, i) == 1 ==> MapBits(bytes, i) == ByteFlags(bytes, i) + MapBits(bytes, i + 1)
    ensures GroupFlag(bytes, i) != 1 ==>
              MapBits(bytes, i) == MapBits(bytes, i + 1) && Members(bytes, 16 * i, 16 * i + 16) == []
    ensures MapBits(bytes, 16) == []
  {
    hide Members, ByteFlags;
  }

  lemma UsedStep(input: seq<byte>, p: nat, t: nat, bytes: set<byte>, i: nat, acc: seq<byte>)
    requires i < 16 && |acc| <= 16 * i && TellsGroups(t, bytes)
    ensures GroupFlag(bytes, i) != 1 ==> UsedBytes(input, p, t, i, acc) == UsedBytes(input, p, t, i + 1, acc)
    ensures GroupFlag(bytes, i) == 1 && Take(input, p, 16).Got? ==>
              UsedBytes(input, p, t, i, acc)
              == UsedBytes(input, p + 16, t, i + 1, UsedInGroup(Take(input, p, 16).value, i, 0, acc))
  {
    hide Flag, Take, UsedInGroup, GroupFlag;
  }

  // A group is read.
  lemma UsedGroup(input: seq<byte>, p: nat, t: nat, bytes: set<byte>, i: nat, acc: seq<byte>)
    requires i < 16 && |acc| <= 16 * i && TellsGroups(t, bytes) && Reads(input, p, MapBits(bytes, i))
    requires GroupFlag(bytes, i) == 1
    ensures Reads(input, p + 16, MapBits(bytes, i + 1)) && |MapBits(bytes, i)| == 16 + |MapBits(bytes, i + 1)|
    ensures UsedBytes(input, p, t, i, acc)
         == UsedBytes(input, p + 16, t, i + 1, acc + Members(bytes, 16 * i, 16 * i + 16))
  {
    hide Take, Members, UsedInGroup, NumberOfBits, Reads, ByteFlags, AreBits, MapBits, UsedBytes, TellsGroups,
      GroupFlag;
    MapStep(bytes, i);
    UsedStep(input, p, t, bytes, i, acc);
    TakesBits(input, p, ByteFlags(bytes, i), MapBits(bytes, i + 1));
    WordReads(bytes, i, acc);
  }

  lemma UsedNone(input: seq<byte>, p: nat, t: nat, bytes: set<byte>, acc: seq<byte>)
    requires |acc| <= 256
    ensures UsedBytes(input, p, t, 16, acc) == Got(acc + Members(bytes, 256, 256), p + |MapBits(bytes, 16)|)
  {
    assert acc + [] == acc;
  }

  lemma {:induction false} UsedReads(input: seq<byte>, p: nat, t: nat, bytes: set<byte>, i: nat, acc: seq<byte>)
    requires i <= 16 && |acc| <= 16 * i && TellsGroups(t, bytes) && Reads(input, p, MapBits(bytes, i))
    ensures UsedBytes(input, p, t, i, acc) == Got(acc + Members(bytes, 16 * i, 256), p + |MapBits(bytes, i)|)
    decreases 16 - i
  {
    hide Members, Reads, AreBits, MapBits, UsedBytes, TellsGroups, GroupFlag;
    if i == 16 {
      UsedNone(input, p, t, bytes, acc);
    } else {
      MembersSplit(bytes, 16 * i, 16 * i + 16, 256);
      var members, more := Members(bytes, 16 * i, 16 * i + 16), Members(bytes, 16 * i + 16, 256);
      Regroup(acc, members, more);
      if GroupFlag(bytes, i) == 1 {
        UsedGroup(input, p, t, bytes, i, acc);
        UsedReads(input, p + 16, t, bytes, i + 1, acc + members);
      } else {
        MapStep(bytes, i);
        UsedStep(input, p, t, bytes, i, acc);
        assert acc + [] == acc;
        UsedReads(input, p, t, bytes, i + 1, acc);
      }
    }
  }

  lemma NoMembers(bytes: set<byte>, lo: nat)
    requires lo <= 256
    ensures Members(bytes, lo, lo) == []
  {
  }

  // ----- the selectors -----

  function IndexOf(list: seq<byte>, x: nat): (i: nat)
    requires x in list
    ensures i < |list| && list[i] == x
  {
    if list[0] == x then 0 else 1 + IndexOf(list[1..], x)
  }

  // A place in the list, and a zero.
  function UnaryBits(j: nat): (bits: seq<nat>)
    ensures AreBits(bits) && |bits| == j + 1
  {
    if j == 0 then [0] else [1] + UnaryBits(j - 1)
  }

  lemma TakesOne(input: seq<byte>, p: nat, bit: nat, rest: seq<nat>)
    requires bit <= 1 && Reads(input, p, [bit] + rest)
    ensures Take(input, p, 1) == Got(bit, p + 1) && Reads(input, p + 1, rest)
  {
    hide Pow2;
    TakesBits(input, p, [bit], rest);
    assert [bit][..0] == [];
  }

  lemma {:induction false} UnaryReads(input: seq<byte>, p: nat, j: nat, n: nat, groupCount: nat)
    requires j + n <= groupCount && Reads(input, p, UnaryBits(n))
    ensures Unary(input, p, j, groupCount) == Got(j + n, p + n + 1)
    decreases n
  {
    hide Take, Reads;
    if n == 0 {
      assert [0] + [] == UnaryBits(0);
      TakesOne(input, p, 0, []);
    } else {
      TakesOne(input, p, 1, UnaryBits(n - 1));
      UnaryReads(input, p + 1, j + 1, n - 1, groupCount);
    }
  }

  predicate AllIn(selectors: seq<nat>, list: seq<byte>)
  {
    forall i :: 0 <= i < |selectors| ==> selectors[i] in list
  }

  lemma ToFrontKeepsAll(selectors: seq<nat>, list: seq<byte>, j: nat)
    requires AllIn(selectors, list) && j < |list|
    ensures AllIn(selectors, ToFront(list, j))
  {
    ToFrontPermutes(list, j);
    forall i | 0 <= i < |selectors| ensures selectors[i] in ToFront(list, j) {
      assert selectors[i] in multiset(list);
    }
  }

  function SelectorBits(list: seq<byte>, selectors: seq<nat>): (bits: seq<nat>)
    requires AllIn(selectors, list)
    ensures AreBits(bits)
    decreases |selectors|
  {
    if selectors == [] then []
    else
      var j := IndexOf(list, selectors[0]);
      ToFrontKeepsAll(selectors, list, j);
      UnaryBits(j) + SelectorBits(ToFront(list, j), selectors[1..])
  }

  lemma {:induction false} SelectorsRead(input: seq<byte>, p: nat, list: seq<byte>, selectors: seq<nat>, acc: seq<nat>)
    requires LowFirst(list, |list|) && AllIn(selectors, list) && Reads(input, p, SelectorBits(list, selectors))
    ensures Selectors(input, p, |selectors|, list, acc) == Got(acc + selectors, p + |SelectorBits(list, selectors)|)
    decreases |selectors|
  {
    hide Reads, Unary, ToFront, IndexOf, UnaryBits;
    if selectors == [] {
      assert acc + [] == acc;
    } else {
      var j := IndexOf(list, selectors[0]);
      ToFrontKeepsAll(selectors, list, j);
      var moved := ToFront(list, j);
      ReadsBoth(input, p, UnaryBits(j), SelectorBits(moved, selectors[1..]));
      UnaryReads(input, p, 0, j, |list|);
      ToFrontKeepsLow(list, |list|, j);
      SelectorsRead(input, p + j + 1, moved, selectors[1..], acc + [selectors[0]]);
      Regroup(acc, [selectors[0]], selectors[1..]);
      assert [selectors[0]] + selectors[1..] == selectors;
    }
  }

  // ----- the code lengths -----

  // From one length to another, a step of one at a time.
  function LengthBits(len: nat, l: nat): (bits: seq<nat>)
    ensures AreBits(bits)
    decreases if len < l then l - len else len - l
  {
    if len == l then [0] else if len < l then [1, 0] + LengthBits(len + 1, l) else [1, 1] + LengthBits(len - 1, l)
  }

  lemma TakesTwo(input: seq<byte>, p: nat, a: nat, b: nat, rest: seq<nat>)
    requires a <= 1 && b <= 1 && Reads(input, p, [a, b] + rest)
    ensures Take(input, p, 2) == Got(2 * a + b, p + 2) && Reads(input, p + 2, rest)
  {
    hide Pow2;
    TakesBits(input, p, [a, b], rest);
    TwoDigits(a, b);
  }

  lemma TwoDigits(a: nat, b: nat)
    requires a <= 1 && b <= 1
    ensures NumberOfBits([a, b]) == 2 * a + b
  {
    assert [a, b][..1] == [a] && [a][..0] == [];
    assert NumberOfBits([a]) == a;
  }

  // A zero bit ends a length, whatever the bit after it.
  lemma TakesEnd(input: seq<byte>, p: nat)
    requires Reads(input, p, [0]) && p + 1 < 8 * |input|
    ensures Take(input, p, 2).Got? && Take(input, p, 2).value < 2
  {
    assert ReadsAt(input, p, [0], 0);
    hide Bit;
    assert Field(input, p, 1) == 2 * Field(input, p, 0) + Bit(input, p);
  }

  lemma {:induction false} LengthReads(input: seq<byte>, p: nat, len: nat, l: nat)
    requires 1 <= len <= MAX_HUFCODE_BITS && 1 <= l <= MAX_HUFCODE_BITS
    requires Reads(input, p, LengthBits(len, l)) && p + |LengthBits(len, l)| < 8 * |input|
    ensures LengthAt(input, p, len) == Got(l, p + |LengthBits(len, l)|)
    decreases if len < l then l - len else len - l
  {
    hide Take, Reads;
    if len == l {
      TakesEnd(input, p);
    } else {
      var bit, len' := if len < l then 0 else 1, if len < l then len + 1 else len - 1;
      TakesTwo(input, p, 1, bit, LengthBits(len', l));
      LengthReads(input, p + 2, len', l);
    }
  }

  function LengthsBits(len: nat, lengths: seq<byte>): (bits: seq<nat>)
    ensures AreBits(bits)
    decreases |lengths|
  {
    if lengths == [] then [] else LengthBits(len, lengths[0]) + LengthsBits(lengths[0], lengths[1..])
  }

  lemma {:induction false} LengthsRead(input: seq<byte>, p: nat, len: nat, lengths: seq<byte>, acc: seq<byte>)
    requires 1 <= len <= MAX_HUFCODE_BITS && InRange(lengths)
    requires Reads(input, p, LengthsBits(len, lengths)) && p + |LengthsBits(len, lengths)| < 8 * |input|
    ensures Lengths(input, p, |lengths|, len, acc) == Got(acc + lengths, p + |LengthsBits(len, lengths)|)
    decreases |lengths|
  {
    hide Reads, LengthAt, LengthBits;
    if lengths == [] {
      assert acc + [] == acc;
    } else {
      var l := lengths[0];
      var first := LengthBits(len, l);
      ReadsBoth(input, p, first, LengthsBits(l, lengths[1..]));
      LengthReads(input, p, len, l);
      LengthsRead(input, p + |first|, l, lengths[1..], acc + [l]);
      Regroup(acc, [l], lengths[1..]);
      assert [l] + lengths[1..] == lengths;
    }
  }

  // A table starts from its first length.
  function TableBits(lengths: seq<byte>): (bits: seq<nat>)
    requires lengths != []
    ensures AreBits(bits)
  {
    Digits(lengths[0], 5) + LengthsBits(lengths[0], lengths)
  }

  function TablesBits(tables: seq<seq<byte>>, n: nat): (bits: seq<nat>)
    requires AllTables(tables, n) && n > 0
    ensures AreBits(bits)
    decreases |tables|
  {
    if tables == [] then [] else TableBits(tables[0]) + TablesBits(tables[1..], n)
  }

  lemma TableReads(input: seq<byte>, p: nat, lengths: seq<byte>)
    requires lengths != [] && InRange(lengths)
    requires Reads(input, p, TableBits(lengths)) && p + |TableBits(lengths)| < 8 * |input|
    ensures Take(input, p, 5) == Got(lengths[0] as nat, p + 5)
    ensures Lengths(input, p + 5, |lengths|, lengths[0], []) == Got(lengths, p + |TableBits(lengths)|)
  {
    hide Reads, Take, Lengths, LengthsBits, Pow2, Digits, AreBits;
    SmallFit(lengths[0]);
    TakesDigits(input, p, lengths[0], 5, LengthsBits(lengths[0], lengths));
    LengthsRead(input, p + 5, lengths[0], lengths, []);
    assert [] + lengths == lengths;
  }

  lemma {:induction false} TablesRead(input: seq<byte>, p: nat, groupCount: nat, n: nat, acc: seq<seq<byte>>,
                                      tables: seq<seq<byte>>)
    requires |acc| + |tables| == groupCount && AllTables(tables, n) && n > 0
    requires Reads(input, p, TablesBits(tables, n)) && p + |TablesBits(tables, n)| < 8 * |input|
    ensures Tables(input, p, groupCount, n, acc) == Got(acc + tables, p + |TablesBits(tables, n)|)
    decreases |tables|
  {
    hide Reads, Take, Lengths, TableBits;
    if tables == [] {
      assert acc + [] == acc;
    } else {
      var first := TableBits(tables[0]);
      ReadsBoth(input, p, first, TablesBits(tables[1..], n));
      TableReads(input, p, tables[0]);
      TablesRead(input, p + |first|, groupCount, n, acc + [tables[0]], tables[1..]);
      Regroup(acc, [tables[0]], tables[1..]);
      assert [tables[0]] + tables[1..] == tables;
    }
  }

  // ----- the whole header -----

  lemma GroupsListed(n: nat, selectors: seq<nat>)
    requires n <= 256 && forall i :: 0 <= i < |selectors| ==> selectors[i] < n
    ensures AllIn(selectors, Identity()[..n]) && LowFirst(Identity()[..n], n)
  {
    forall i | 0 <= i < |selectors| ensures selectors[i] in Identity()[..n] {
      assert Identity()[..n][selectors[i]] == selectors[i];
    }
  }

  function ChoicesBits(f: Form, dbufSize: nat): (bits: seq<nat>)
    requires Writable(f, dbufSize)
    ensures AreBits(bits)
  {
    hide Pow2, Members, AllTables, Identity;
    GroupsListed(|f.tables|, f.selectors);
    Digits(|f.tables|, 3)
    + (Digits(|f.selectors|, 15)
       + (SelectorBits(Identity()[..|f.tables|], f.selectors) + TablesBits(f.tables, |Members(f.bytes, 0, 256)| + 2)))
  }

  lemma GroupsRead(input: seq<byte>, p: nat, n: nat, m: nat, rest: seq<nat>)
    requires 2 <= n <= MAX_GROUPS && 0 < m < Pow2(15) && Reads(input, p, Digits(n, 3) + (Digits(m, 15) + rest))
    ensures GroupsOf(input, p) == Got((n, m), p + 18) && Reads(input, p + 18, rest)
  {
    hide Reads, Take, Digits, Pow2, AreBits;
    SmallFit(n);
    TakesDigits(input, p, n, 3, Digits(m, 15) + rest);
    TakesDigits(input, p + 3, m, 15, rest);
  }

  lemma WritableParts(f: Form, dbufSize: nat)
    requires Writable(f, dbufSize)
    ensures f.origPtr < dbufSize <= Pow2(24)
    ensures 2 <= |f.tables| <= MAX_GROUPS && AllTables(f.tables, |Members(f.bytes, 0, 256)| + 2)
    ensures 0 < |f.selectors| < Pow2(15) && forall i :: 0 <= i < |f.selectors| ==> f.selectors[i] < |f.tables|
  {
  }

  lemma ChoicesRead(input: seq<byte>, p: nat, f: Form, dbufSize: nat)
    requires Writable(f, dbufSize)
    requires Reads(input, p, ChoicesBits(f, dbufSize)) && p + |ChoicesBits(f, dbufSize)| < 8 * |input|
    ensures ChoicesOf(input, p, |Members(f.bytes, 0, 256)|)
         == Got((f.selectors, f.tables), p + |ChoicesBits(f, dbufSize)|)
  {
    hide Writable, Reads, GroupsOf, Selectors, Tables, SelectorBits, TablesBits, Members, Digits, Identity, Pow2,
      AllTables, AllIn, LowFirst;
    WritableParts(f, dbufSize);
    var n, used := |f.tables|, |Members(f.bytes, 0, 256)|;
    GroupsListed(n, f.selectors);
    var list := Identity()[..n];
    var b2, b1 := TablesBits(f.tables, used + 2), SelectorBits(list, f.selectors);
    GroupsRead(input, p, n, |f.selectors|, b1 + b2);
    ReadsBoth(input, p + 18, b1, b2);
    SelectorsRead(input, p + 18, list, f.selectors, []);
    TablesRead(input, p + 18 + |b1|, n, used + 2, [], f.tables);
    assert [] + f.selectors == f.selectors && [] + f.tables == f.tables;
  }

  function HeaderBits(f: Form, dbufSize: nat): (bits: seq<nat>)
    requires Writable(f, dbufSize)
    ensures AreBits(bits)
  {
    hide Writable, StartBits, MapBits, ChoicesBits;
    StartBits(f) + (MapBits(f.bytes, 0) + ChoicesBits(f, dbufSize))
  }

  // Every header that fits its fields is read back.
  lemma HeaderReads(input: seq<byte>, p: nat, f: Form, dbufSize: nat)
    requires Writable(f, dbufSize)
    requires Reads(input, p, HeaderBits(f, dbufSize)) && p + |HeaderBits(f, dbufSize)| < 8 * |input|
    ensures StoredCrc(input, p) == f.crc
    ensures HeaderOf(input, p, dbufSize) == Got((HeaderFor(f, dbufSize), f.origPtr), p + |HeaderBits(f, dbufSize)|)
  {
    hide Writable, Reads, AreBits, Pow2, StoredCrc, StartOf, UsedBytes, ChoicesOf, StartBits, MapBits, ChoicesBits,
      Members, GroupFlags, NumberOfBits, TellsGroups, Padded;
    WritableParts(f, dbufSize);
    var start, groups, choices := StartBits(f), MapBits(f.bytes, 0), ChoicesBits(f, dbufSize);
    ReadsBoth(input, p, start, groups + choices);
    ReadsBoth(input, p + |start|, groups, choices);
    StartReads(input, p, dbufSize, f);
    GroupsTold(f.bytes);
    UsedReads(input, p + |start|, NumberOfBits(GroupFlags(f.bytes)), f.bytes, 0, []);
    assert [] + Members(f.bytes, 0, 256) == Members(f.bytes, 0, 256);
    ChoicesRead(input, p + |start| + |groups|, f, dbufSize);
  }
}
