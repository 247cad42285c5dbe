// The header of a bzip2 block, read from the bits: marks, the place of the text's row, the
// bytes in use, the selectors, and the code lengths of each table.
module BunzipHeader {
  import opened Bytes
  import opened BunzipStatus
  import opened Powers
  import opened BitReader
  import opened Huffman
  import opened MoveToFront
  import opened BunzipBlock
  import opened Words

  const MAX_GROUPS := 6

  // A part of the header and the bit position behind it, or the status that reading ends
  // with. What it means is undefined when the input ends or a selector names no group.
  datatype Parse<T> = Got(value: T, next: nat) | Refused(status: int) | Undefined
  {
    predicate IsFailure()
    {
      !Got?
    }

    function PropagateFailure<U>(): Parse<U>
      requires IsFailure()
    {
      if Refused? then Parse<U>.Refused(status) else Parse<U>.Undefined
    }

    function Extract(): (T, nat)
      requires !IsFailure()
    {
      (value, next)
    }
  }

  // ----- the header, as specified -----

  function Take(input: seq<byte>, p: nat, w: nat): (r: Parse<nat>)
    ensures r.Got? ==> r.value < Pow2(w) && r.next == p + w <= 8 * |input|
    ensures !r.Refused?
  {
    if p + w <= 8 * |input| then Got(Field(input, p, w), p + w) else Undefined
  }

  // The checksum behind the marks at p.
  function StoredCrc(input: seq<byte>, p: nat): Word
  {
    if p + 80 <= 8 * |input| then
      Below32(Field(input, p + 48, 32));
      WordOf(Field(input, p + 48, 32))
    else ZERO
  }

  lemma Below32(v: nat)
    requires v < Pow2(32)
    ensures v < WORD
  {
    hide Pow2;
    PowerValues();
  }

  // Bit j of a word of sixteen bits, counted from the top.
  predicate Flag(word: nat, j: nat)
  {
    j < 16 && word / Pow2(15 - j) % 2 == 1
  }

  // The marks and what follows up to the map of groups of bytes: the row, and the map.
  function StartOf(input: seq<byte>, p: nat, dbufSize: nat): (r: Parse<(nat, nat)>)
    ensures r.Refused? ==> r.status < 0
    ensures r.Got? ==> r.value.0 < dbufSize && p < r.next <= 8 * |input|
  {
    var (i, p1) :- Take(input, p, 24);
    var (j, p2) :- Take(input, p1, 24);
    var (crc, p3) :- Take(input, p2, 32);
    if i == 0x177245 && j == 0x385090 then Refused(RETVAL_LAST_BLOCK)
    else if i != 0x314159 || j != 0x265359 then Refused(RETVAL_NOT_BZIP_DATA)
    else
      var (randomised, p4) :- Take(input, p3, 1);
      if randomised != 0 then Refused(RETVAL_OBSOLETE_INPUT)
      else
        var (origPtr, p5) :- Take(input, p4, 24);
        if origPtr >= dbufSize then Refused(RETVAL_DATA_ERROR)
        else
          var (t, p6) :- Take(input, p5, 16);
          Got((origPtr, t), p6)
  }

  // The bytes of group i from j on that the word names.
  function UsedInGroup(word: nat, i: nat, j: nat, acc: seq<byte>): (r: seq<byte>)
    requires i < 16 && j <= 16 && |acc| <= 16 * i + j
    ensures |r| <= 16 * i + 16
    decreases 16 - j
  {
    if j == 16 then acc
    else UsedInGroup(word, i, j + 1, if Flag(word, j) then acc + [16 * i + j] else acc)
  }

  function UsedBytes(input: seq<byte>, p: nat, t: nat, i: nat, acc: seq<byte>): (r: Parse<seq<byte>>)
    requires i <= 16 && |acc| <= 16 * i
    ensures r.Got? ==> |r.value| <= 256 && p <= r.next
    ensures !r.Refused?
    decreases 16 - i
  {
    if i == 16 then Got(acc, p)
    else if !Flag(t, i) then UsedBytes(input, p, t, i + 1, acc)
    else
      var (k, next) :- Take(input, p, 16);
      UsedBytes(input, next, t, i + 1, UsedInGroup(k, i, 0, acc))
  }

  // The numbers of groups and of selectors.
  function GroupsOf(input: seq<byte>, p: nat): (r: Parse<(nat, nat)>)
    ensures r.Refused? ==> r.status < 0
    ensures r.Got? ==> 2 <= r.value.0 <= MAX_GROUPS && p <= r.next
  {
    var (groupCount, p1) :- Take(input, p, 3);
    if groupCount < 2 || groupCount > MAX_GROUPS then Refused(RETVAL_DATA_ERROR)
    else
      var (nSelectors, p2) :- Take(input, p1, 15);
      if nSelectors == 0 then Refused(RETVAL_DATA_ERROR) else Got((groupCount, nSelectors), p2)
  }

  // Two to six groups, and at least one selector.
  lemma GroupsExact(input: seq<byte>, p: nat)
    requires p + 18 <= 8 * |input|
    ensures GroupsOf(input, p).Got? <==> 2 <= Field(input, p, 3) <= 6 && Field(input, p + 3, 15) > 0
    ensures !GroupsOf(input, p).Got? ==> GroupsOf(input, p) == Refused(RETVAL_DATA_ERROR)
  {
    hide Field, Pow2;
  }

  // How many one bits come before the next zero, on top of j: not more than the groups.
  function Unary(input: seq<byte>, p: nat, j: nat, groupCount: nat): (r: Parse<nat>)
    ensures r.Refused? ==> r.status < 0
    ensures r.Got? ==> p < r.next
    decreases if p <= 8 * |input| then 8 * |input| - p else 0
  {
    var (bit, next) :- Take(input, p, 1);
    if bit == 0 then Got(j, next)
    else if j >= groupCount then Refused(RETVAL_DATA_ERROR)
    else Unary(input, next, j + 1, groupCount)
  }

  // n selectors, each a place in the list of groups, which moves to the front.
  function Selectors(input: seq<byte>, p: nat, n: nat, list: seq<byte>, acc: seq<nat>): (r: Parse<seq<nat>>)
    requires LowFirst(list, |list|)
    ensures r.Refused? ==> r.status < 0
    ensures r.Got? ==> p <= r.next
    ensures r.Got? && AllBelow(acc, |list|) ==> AllBelow(r.value, |list|)
    decreases n
  {
    if n == 0 then Got(acc, p)
    else
      var (j, next) :- Unary(input, p, 0, |list|);
      if j >= |list| then Undefined
      else
        ToFrontKeepsLow(list, |list|, j);
        Selectors(input, next, n - 1, ToFront(list, j), acc + [list[j]])
  }

  // A length: steps up or down from the length before, and a zero bit.
  function LengthAt(input: seq<byte>, p: nat, len: int): (r: Parse<byte>)
    ensures r.Refused? ==> r.status < 0
    ensures r.Got? ==> 1 <= r.value <= MAX_HUFCODE_BITS && p < r.next
    decreases if p <= 8 * |input| then 8 * |input| - p else 0
  {
    if len < 1 || len > MAX_HUFCODE_BITS then Refused(RETVAL_DATA_ERROR)
    else
      var (k, next) :- Take(input, p, 2);
      if k < 2 then Got(len, p + 1) else LengthAt(input, next, if k == 2 then len + 1 else len - 1)
  }

  function Lengths(input: seq<byte>, p: nat, n: nat, len: nat, acc: seq<byte>): (r: Parse<seq<byte>>)
    ensures r.Refused? ==> r.status < 0
    ensures r.Got? ==> p <= r.next && |r.value| == |acc| + n
    ensures r.Got? && InRange(acc) ==> InRange(r.value)
    decreases n
  {
    if n == 0 then Got(acc, p)
    else
      var (l, next) :- LengthAt(input, p, len);
      Lengths(input, next, n - 1, l, acc + [l])
  }

  predicate InRange(lengths: seq<byte>)
  {
    forall t :: 0 <= t < |lengths| ==> 1 <= lengths[t] <= MAX_HUFCODE_BITS
  }

  // The tables of n lengths each that are still missing.
  function Tables(input: seq<byte>, p: nat, groupCount: nat, n: nat, acc: seq<seq<byte>>): (r: Parse<seq<seq<byte>>>)
    requires |acc| <= groupCount
    ensures r.Refused? ==> r.status < 0
    ensures r.Got? ==> p <= r.next && |r.value| == groupCount
    ensures r.Got? && AllTables(acc, n) ==> AllTables(r.value, n)
    decreases groupCount - |acc|
  {
    if |acc| == groupCount then Got(acc, p)
    else
      var (len, p1) :- Take(input, p, 5);
      var (lengths, p2) :- Lengths(input, p1, n, len, []);
      Tables(input, p2, groupCount, n, acc + [lengths])
  }

  predicate AllTables(tables: seq<seq<byte>>, n: nat)
  {
    forall g :: 0 <= g < |tables| ==> |tables[g]| == n && InRange(tables[g])
  }

  // The bytes in use, and then whatever.
  function Padded(used: seq<byte>): (alphabet: seq<byte>)
    requires |used| <= 256
    ensures |alphabet| == 256 && used <= alphabet
  {
    used + seq(256 - |used|, _ => 0)
  }

  // Selectors and tables.
  function ChoicesOf(input: seq<byte>, p: nat, used: nat): (r: Parse<(seq<nat>, seq<seq<byte>>)>)
    ensures r.Refused? ==> r.status < 0
    ensures r.Got? ==> p <= r.next && AllTables(r.value.1, used + 2)
    ensures r.Got? ==> forall i :: 0 <= i < |r.value.0| ==> r.value.0[i] < |r.value.1|
  {
    var ((groupCount, nSelectors), p1) :- GroupsOf(input, p);
    var (selectors, p2) :- Selectors(input, p1, nSelectors, Identity()[..groupCount], []);
    var (tables, p3) :- Tables(input, p2, groupCount, used + 2, []);
    Got((selectors, tables), p3)
  }

  // The whole header of a block, with the row of the text.
  function HeaderOf(input: seq<byte>, p: nat, dbufSize: nat): (r: Parse<(Header, nat)>)
    ensures r.Refused? ==> r.status < 0
    ensures r.Got? ==> Usable(r.value.0) && r.value.0.dbufSize == dbufSize && r.value.1 < dbufSize && p < r.next
  {
    var ((origPtr, t), p1) :- StartOf(input, p, dbufSize);
    var (used, p2) :- UsedBytes(input, p1, t, 0, []);
    var ((selectors, tables), p3) :- ChoicesOf(input, p2, |used|);
    Got((Header(tables, selectors, Padded(used), |used|, dbufSize), origPtr), p3)
  }

  // ----- reading it -----

  // Bits that are known to be there.
  method Bits(bd: Reader, w: nat, ghost p: nat) returns (v: nat)
    requires bd.At(p) && Take(bd.inbuf, p, w).Got? && w <= 32
    modifies bd
    ensures bd.At(p + w) && v == Field(bd.inbuf, p, w) < Pow2(w)
    ensures w <= 24 ==> bd.inbufBitCount + w <= 31
  {
    hide Field, Pow2;
    v := bd.GetBits(w);
  }

  method ReadStart(bd: Reader, dbufSize: nat, ghost p: nat) returns (status: int, headerCRC: Word, origPtr: nat, t: nat)
    requires bd.At(p) && !StartOf(bd.inbuf, p, dbufSize).Undefined?
    modifies bd
    ensures headerCRC == StoredCrc(bd.inbuf, p)
    ensures match StartOf(bd.inbuf, p, dbufSize)
            case Got(v, next) => status == RETVAL_OK && (origPtr, t) == v && bd.At(next)
            case Refused(st) => status == st != RETVAL_OK
  {
    hide Reader.At, Field, Pow2, WordOf;
    origPtr, t := 0, 0;
    var i := Bits(bd, 24, p);
    var j := Bits(bd, 24, p + 24);
    var crc := Bits(bd, 32, p + 48);
    Below32(crc);
    headerCRC := WordOf(crc);
    if i == 0x177245 && j == 0x385090 {
      return RETVAL_LAST_BLOCK, headerCRC, 0, 0;
    }
    if i != 0x314159 || j != 0x265359 {
      return RETVAL_NOT_BZIP_DATA, headerCRC, 0, 0;
    }
    var randomised := Bits(bd, 1, p + 80);
    if randomised != 0 {
      return RETVAL_OBSOLETE_INPUT, headerCRC, 0, 0;
    }
    origPtr := Bits(bd, 24, p + 81);
    if origPtr >= dbufSize {
      return RETVAL_DATA_ERROR, headerCRC, 0, 0;
    }
    t := Bits(bd, 16, p + 105);
    status := RETVAL_OK;
  }

  // The bytes in use, in order.
  method ReadUsed(bd: Reader, t: nat, symToByte: array<byte>, ghost p: nat) returns (symTotal: nat, ghost next: nat)
    requires bd.At(p) && UsedBytes(bd.inbuf, p, t, 0, []).Got? && symToByte.Length == 256
    modifies bd, symToByte
    ensures symTotal <= 256 && UsedBytes(bd.inbuf, p, t, 0, []) == Got(symToByte[..symTotal], next) && bd.At(next)
  {
    hide Reader.At, Field, Pow2, Flag;
    ghost var result := UsedBytes(bd.inbuf, p, t, 0, []);
    symTotal := 0;
    next := p;
    var i := 0;
    assert symToByte[..0] == [];
    while i < 16
      invariant 0 <= i <= 16 && symTotal <= 16 * i && bd.At(next)
      invariant UsedBytes(bd.inbuf, next, t, i, symToByte[..symTotal]) == result
    {
      if Flag(t, i) {
        var k := Bits(bd, 16, next);
        symTotal := ReadGroup(k, i, symToByte, symTotal);
        next := next + 16;
      }
      i := i + 1;
    }
  }

  // The bytes of one group.
  method ReadGroup(k: nat, i: nat, symToByte: array<byte>, start: nat) returns (symTotal: nat)
    requires i < 16 && start <= 16 * i && symToByte.Length == 256
    modifies symToByte
    ensures symTotal <= 16 * i + 16 && symToByte[..symTotal] == UsedInGroup(k, i, 0, old(symToByte[..start]))
  {
    hide Flag;
    symTotal := start;
    ghost var result := UsedInGroup(k, i, 0, symToByte[..start]);
    var j := 0;
    while j < 16
      invariant 0 <= j <= 16 && symTotal <= 16 * i + j
      invariant UsedInGroup(k, i, j, symToByte[..symTotal]) == result
    {
      ghost var acc := symToByte[..symTotal];
      if Flag(k, j) {
        symToByte[symTotal] := 16 * i + j;
        symTotal := symTotal + 1;
        assert symToByte[..symTotal] == acc + [(16 * i + j) as byte];
      }
      j := j + 1;
    }
  }

  method ReadGroups(bd: Reader, ghost p: nat) returns (status: int, groupCount: nat, nSelectors: nat)
    requires bd.At(p) && !GroupsOf(bd.inbuf, p).Undefined?
    modifies bd
    ensures match GroupsOf(bd.inbuf, p)
            case Got(v, next) => status == RETVAL_OK && (groupCount, nSelectors) == v && bd.At(next)
            case Refused(st) => status == st != RETVAL_OK
  {
    hide Reader.At, Field, Pow2;
    nSelectors := 0;
    groupCount := Bits(bd, 3, p);
    if groupCount < 2 || groupCount > MAX_GROUPS {
      return RETVAL_DATA_ERROR, 0, 0;
    }
    nSelectors := Bits(bd, 15, p + 3);
    if nSelectors == 0 {
      return RETVAL_DATA_ERROR, 0, 0;
    }
    status := RETVAL_OK;
  }

  // One selector's place in the list.
  method ReadUnary(bd: Reader, groupCount: nat, ghost p: nat) returns (status: int, j: nat, ghost next: nat)
    requires bd.At(p) && !Unary(bd.inbuf, p, 0, groupCount).Undefined?
    modifies bd
    ensures match Unary(bd.inbuf, p, 0, groupCount)
            case Got(v, n) => status == RETVAL_OK && j == v && next == n && bd.At(n)
            case Refused(st) => status == st != RETVAL_OK
  {
    hide Reader.At, Field, Pow2;
    ghost var result := Unary(bd.inbuf, p, 0, groupCount);
    j, next := 0, p;
    while true
      invariant bd.At(next) && Unary(bd.inbuf, next, j, groupCount) == result
      decreases 8 * |bd.inbuf| - next
    {
      var bit := Bits(bd, 1, next);
      next := next + 1;
      if bit == 0 {
        return RETVAL_OK, j, next;
      }
      if j >= groupCount {
        return RETVAL_DATA_ERROR, j, next;
      }
      j := j + 1;
    }
  }

  // The selectors, with the groups in a list whose entries move to the front.
  method ReadSelectors(bd: Reader, groupCount: nat, nSelectors: nat, mtfSymbol: array<byte>, ghost p: nat)
    returns (status: int, selectors: seq<nat>, ghost next: nat)
    requires mtfSymbol.Length == 256 && 0 < groupCount <= MAX_GROUPS
    requires bd.At(p) && !Selectors(bd.inbuf, p, nSelectors, Identity()[..groupCount], []).Undefined?
    modifies bd, mtfSymbol
    ensures match Selectors(bd.inbuf, p, nSelectors, Identity()[..groupCount], [])
            case Got(v, n) => status == RETVAL_OK && selectors == v && next == n && bd.At(n)
            case Refused(st) => status == st != RETVAL_OK
  {
    hide Reader.At, Unary, ToFront;
    ghost var result := Selectors(bd.inbuf, p, nSelectors, Identity()[..groupCount], []);
    ListGroups(mtfSymbol, groupCount);
    selectors, next := [], p;
    var i := 0;
    while i < nSelectors
      invariant 0 <= i <= nSelectors && bd.At(next) && LowFirst(mtfSymbol[..groupCount], groupCount)
      invariant Selectors(bd.inbuf, next, nSelectors - i, mtfSymbol[..groupCount], selectors) == result
    {
      var st, j;
      ghost var q;
      st, j, q := ReadUnary(bd, groupCount, next);
      if st != RETVAL_OK {
        return st, [], next;
      }
      next := q;
      ghost var list := mtfSymbol[..groupCount];
      var uc := mtfSymbol[j];
      MoveFirst(mtfSymbol, groupCount, j);
      ToFrontKeepsLow(list, groupCount, j);
      selectors := selectors + [uc as nat];
      i := i + 1;
    }
    status := RETVAL_OK;
  }

  method ListGroups(mtfSymbol: array<byte>, groupCount: nat)
    requires groupCount <= mtfSymbol.Length <= 256
    modifies mtfSymbol
    ensures mtfSymbol[..groupCount] == Identity()[..groupCount] && LowFirst(mtfSymbol[..groupCount], groupCount)
  {
    var i := 0;
    while i < groupCount
      invariant 0 <= i <= groupCount
      invariant forall k :: 0 <= k < i ==> mtfSymbol[k] == k
    {
      mtfSymbol[i] := i;
      i := i + 1;
    }
  }

  // Moves an entry of the first n to the front.
  method MoveFirst(mtfSymbol: array<byte>, n: nat, j: nat)
    requires j < n <= mtfSymbol.Length
    modifies mtfSymbol
    ensures mtfSymbol[..n] == ToFront(old(mtfSymbol[..n]), j)
  {
    if j > 0 {
      MoveUp(mtfSymbol, j);
    }
  }

  // One length.
  method ReadLength(bd: Reader, len: int, ghost p: nat) returns (status: int, length: byte, ghost next: nat)
    requires bd.At(p) && !LengthAt(bd.inbuf, p, len).Undefined?
    modifies bd
    ensures match LengthAt(bd.inbuf, p, len)
            case Got(v, n) => status == RETVAL_OK && length == v && next == n && bd.At(n)
            case Refused(st) => status == st != RETVAL_OK
  {
    hide Field, Pow2, Holds;
    ghost var result := LengthAt(bd.inbuf, p, len);
    var t := len - 1;
    next := p;
    while true
      invariant bd.At(next) && LengthAt(bd.inbuf, next, t + 1) == result
      decreases 8 * |bd.inbuf| - next
    {
      if t < 0 || t > MAX_HUFCODE_BITS - 1 {
        return RETVAL_DATA_ERROR, 0, next;
      }
      var k := Bits(bd, 2, next);
      if k < 2 {
        bd.Unget(1);
        return RETVAL_OK, t + 1, next + 1;
      }
      FourValues(k);
      t := t + (if k == 2 then 1 else -1);
      next := next + 2;
    }
  }

  lemma FourValues(k: nat)
    requires k < Pow2(2)
    ensures k < 4
  {
    assert Pow2(2) == 4;
  }

  // The lengths of one table: each starts from the one before.
  method ReadLengths(bd: Reader, start: nat, n: nat, ghost p: nat)
    returns (status: int, lengths: seq<byte>, ghost next: nat)
    requires bd.At(p) && !Lengths(bd.inbuf, p, n, start, []).Undefined?
    modifies bd
    ensures match Lengths(bd.inbuf, p, n, start, [])
            case Got(v, q) => status == RETVAL_OK && lengths == v && next == q && bd.At(q)
            case Refused(st) => status == st != RETVAL_OK
  {
    hide Reader.At, LengthAt;
    ghost var result := Lengths(bd.inbuf, p, n, start, []);
    lengths, next := [], p;
    var len: nat := start;
    var i := 0;
    while i < n
      invariant 0 <= i <= n && bd.At(next)
      invariant Lengths(bd.inbuf, next, n - i, len, lengths) == result
    {
      var st, l;
      ghost var q;
      st, l, q := ReadLength(bd, len, next);
      if st != RETVAL_OK {
        return st, [], next;
      }
      len, next := l, q;
      lengths := lengths + [l];
      i := i + 1;
    }
    status := RETVAL_OK;
  }

  // The groups share nothing.
  ghost predicate Separate(groups: seq<HufGroup>)
  {
    forall i, j :: 0 <= i < |groups| && 0 <= j < |groups| && i != j ==> Disjoint(groups[i], groups[j])
  }

  // All that the groups consist of.
  ghost predicate Within(groups: seq<HufGroup>, parts: set<object>)
  {
    forall g :: g in groups ==> g.Valid() && g in parts && g.limit in parts && g.base in parts && g.permute in parts
  }

  ghost predicate Disjoint(g: HufGroup, g': HufGroup)
  {
    g != g' && g.permute != g'.permute && {g.limit, g.base} !! {g'.limit, g'.base}
  }

  method NewGroups() returns (groups: seq<HufGroup>, ghost parts: set<object>)
    ensures |groups| == MAX_GROUPS && Separate(groups) && Within(groups, parts) && fresh(parts)
  {
    groups, parts := [], {};
    while |groups| < MAX_GROUPS
      invariant |groups| <= MAX_GROUPS && Separate(groups) && Within(groups, parts) && fresh(parts)
      decreases MAX_GROUPS - |groups|
    {
      var g := new HufGroup();
      groups, parts := groups + [g], parts + {g, g.limit, g.base, g.permute};
    }
  }

  lemma NoneBuilt(groups: seq<HufGroup>)
    ensures GroupsFor(groups, [])
  {
  }

  // Lengths and tables, group by group.
  method ReadTables(bd: Reader, groups: seq<HufGroup>, groupCount: nat, n: nat, ghost p: nat, ghost parts: set<object>)
    returns (status: int, tables: seq<seq<byte>>, ghost next: nat)
    requires groupCount <= |groups| && Separate(groups) && 1 <= n <= MAX_SYMBOLS
    requires Within(groups, parts)
    requires bd.At(p) && bd !in parts && !Tables(bd.inbuf, p, groupCount, n, []).Undefined?
    modifies bd, parts
    ensures match Tables(bd.inbuf, p, groupCount, n, [])
            case Got(v, q) => status == RETVAL_OK && tables == v && next == q && bd.At(q) && GroupsFor(groups, tables)
            case Refused(st) => status == st != RETVAL_OK
  {
    hide Reader.At, Lengths, Take, HufGroup.TablesOf, Separate, Disjoint, GroupsFor, Within;
    NoneBuilt(groups);
    ghost var result := Tables(bd.inbuf, p, groupCount, n, []);
    tables, next := [], p;
    while |tables| < groupCount
      invariant |tables| <= groupCount && bd.At(next) && AllTables(tables, n)
      invariant Tables(bd.inbuf, next, groupCount, n, tables) == result
      invariant GroupsFor(groups, tables)
      decreases groupCount - |tables|
    {
      TakeFive(bd.inbuf, next);
      var len := Bits(bd, 5, next);
      var st, lengths;
      ghost var q;
      st, lengths, q := ReadLengths(bd, len, n, next + 5);
      if st != RETVAL_OK {
        return st, [], next;
      }
      next := q;
      BuildNext(groups, tables, lengths, parts);
      tables := tables + [lengths];
    }
    status := RETVAL_OK;
  }

  lemma TakeFive(input: seq<byte>, p: nat)
    ensures !Take(input, p, 5).Undefined? ==> Take(input, p, 5) == Got(Field(input, p, 5), p + 5)
    ensures !Take(input, p, 5).Refused?
  {
  }

  // Building one more table leaves those before it alone.
  method BuildNext(groups: seq<HufGroup>, tables: seq<seq<byte>>, lengths: seq<byte>, ghost parts: set<object>)
    requires Separate(groups) && |tables| < |groups| && CodeLengths(lengths)
    requires Within(groups, parts) && GroupsFor(groups, tables)
    modifies parts
    ensures GroupsFor(groups, tables + [lengths])
  {
    hide HufGroup.TablesOf;
    var group := groups[|tables|];
    group.BuildTables(lengths);
  }

  // Selectors and tables.
  method ReadChoices(bd: Reader, groups: seq<HufGroup>, mtfSymbol: array<byte>, used: nat, ghost p: nat,
                     ghost parts: set<object>)
    returns (status: int, selectors: seq<nat>, tables: seq<seq<byte>>, ghost next: nat)
    requires |groups| == MAX_GROUPS && Separate(groups) && Within(groups, parts)
    requires mtfSymbol.Length == 256 && used <= 256
    requires bd.At(p) && bd !in parts && mtfSymbol !in parts && !ChoicesOf(bd.inbuf, p, used).Undefined?
    modifies bd, mtfSymbol, parts
    ensures match ChoicesOf(bd.inbuf, p, used)
            case Got(v, q) => && status == RETVAL_OK && (selectors, tables) == v && next == q && bd.At(q)
                              && GroupsFor(groups, tables)
            case Refused(st) => status == st != RETVAL_OK
  {
    hide Reader.At, GroupsOf, Selectors, Tables, HufGroup.TablesOf, GroupsFor, Separate, Identity, Take, Within;
    selectors, tables, next := [], [], p;
    var st, groupCount, nSelectors := ReadGroups(bd, p);
    if st != RETVAL_OK {
      return st, [], [], p;
    }
    next := GroupsOf(bd.inbuf, p).next;
    st, selectors, next := ReadSelectors(bd, groupCount, nSelectors, mtfSymbol, next);
    if st != RETVAL_OK {
      return st, [], [], p;
    }
    status, tables, next := ReadTables(bd, groups, groupCount, used + 2, next, parts);
  }

  // The whole header.
  method ReadHeader(bd: Reader, groups: seq<HufGroup>, mtfSymbol: array<byte>, symToByte: array<byte>, dbufSize: nat,
                    ghost p: nat, ghost parts: set<object>)
    returns (status: int, headerCRC: Word, h: Header, origPtr: nat, ghost next: nat)
    requires |groups| == MAX_GROUPS && Separate(groups) && Within(groups, parts)
    requires mtfSymbol.Length == 256 == symToByte.Length && mtfSymbol != symToByte
    requires bd !in parts && mtfSymbol !in parts && symToByte !in parts
    requires bd.At(p) && !HeaderOf(bd.inbuf, p, dbufSize).Undefined?
    modifies bd, mtfSymbol, symToByte, parts
    ensures headerCRC == StoredCrc(bd.inbuf, p)
    ensures match HeaderOf(bd.inbuf, p, dbufSize)
            case Got(v, q) => && status == RETVAL_OK && (h, origPtr) == v && next == q && bd.At(q)
                              && GroupsFor(groups, h.tables) && Names(h, symToByte[..])
            case Refused(st) => status == st != RETVAL_OK
  {
    hide Reader.At, StoredCrc, StartOf, UsedBytes, ChoicesOf, GroupsFor, Separate, Names, Padded, Usable, Within;
    h, origPtr, next := Header([], [], [], 0, 0), 0, p;
    var st, row, t;
    st, headerCRC, row, t := ReadStart(bd, dbufSize, p);
    if st != RETVAL_OK {
      return st, headerCRC, h, 0, p;
    }
    next := StartOf(bd.inbuf, p, dbufSize).next;
    var symTotal;
    symTotal, next := ReadUsed(bd, t, symToByte, next);
    var selectors, tables;
    status, selectors, tables, next := ReadChoices(bd, groups, mtfSymbol, symTotal, next, parts);
    if status == RETVAL_OK {
      h := Header(tables, selectors, Padded(symToByte[..symTotal]), symTotal, dbufSize);
      origPtr := row;
      NamesFor(h, symToByte[..]);
    }
  }

  lemma NamesFor(h: Header, symToByte: seq<byte>)
    requires |symToByte| == 256 && h.used <= 256 && h.alphabet == Padded(symToByte[..h.used])
    ensures Names(h, symToByte)
  {
  }
}
