// The bytes of a SPIFFS image: numbers, pages, blocks and the image, and the proof that the
// pages can be read from them again.
module SpiffsBytes {
  import opened Bytes
  import opened Powers
  import opened SpiffsImage
  import opened SpiffsBlocks
  import N = NatBits

  const FLAG_INDEX := 0xF8
  const FLAG_DATA := 0xFC
  const TYPE_FILE := 1
  const FREE: byte := 0xFF

  // ----- numbers of a fixed width, in either byte order -----

  function Pack(big: bool, v: nat, w: nat): (s: seq<byte>)
    ensures |s| == w
  {
    if w == 0 then []
    else if big then Pack(big, v / 256, w - 1) + [v % 256]
    else [v % 256] + Pack(big, v / 256, w - 1)
  }

  function Unpack(big: bool, s: seq<byte>): (v: nat)
  {
    if s == [] then 0
    else if big then 256 * Unpack(big, s[..|s| - 1]) + s[|s| - 1]
    else s[0] + 256 * Unpack(big, s[1..])
  }

  // A number that fits its width is read back.
  lemma {:induction false} UnpackOfPack(big: bool, v: nat, w: nat)
    requires v < Base(w)
    ensures Unpack(big, Pack(big, v, w)) == v
  {
    if w > 0 {
      UnpackOfPack(big, v / 256, w - 1);
      var s := Pack(big, v / 256, w - 1);
      assert (s + [v % 256])[..w - 1] == s && ([v % 256] + s)[1..] == s;
    }
  }

  // Free bytes read as the largest number.
  lemma {:induction false} UnpackOfFree(big: bool, w: nat)
    ensures Unpack(big, Repeat(FREE, w)) == Base(w) - 1
  {
    if w > 0 {
      UnpackOfFree(big, w - 1);
      RepeatSplit(FREE, w - 1, 1);
      assert Repeat(FREE, 1) == [FREE];
      assert Repeat(FREE, w)[..w - 1] == Repeat(FREE, w - 1) && Repeat(FREE, w)[w - 1] == FREE;
    }
  }

  // The top bit, which marks the ids of index pages, is turned over.
  function FlipTop(v: nat, w: nat): (r: nat)
    requires w > 0 && v < Base(w)
    ensures r < Base(w)
  {
    if v < Half(w) then v + Half(w) else v - Half(w)
  }

  function Half(w: nat): (h: nat)
    requires w > 0
    ensures 2 * h == Base(w)
  {
    128 * Base(w - 1)
  }

  function Padded(s: seq<byte>, n: nat): (r: seq<byte>)
    ensures |s| <= n ==> |r| == n
    ensures s <= r
  {
    s + Repeat(FREE, if |s| <= n then n - |s| else 0)
  }

  // ----- the fields of a page -----

  datatype Format = Format(c: Config, big: bool, useMagicLen: bool)

  // Widths are positive.
  predicate Formed(f: Format)
  {
    f.c.idLen > 0 && f.c.spanLen > 0 && f.c.pageIxLen > 0 && f.c.pageSize > 0
  }

  function Header(f: Format, id: nat, span: nat, flag: byte): (s: seq<byte>)
    ensures |s| == f.c.DataHeader()
  {
    Pack(f.big, id, f.c.idLen) + Pack(f.big, span, f.c.spanLen) + [flag]
  }

  // One character in UTF-8.
  function Encoded(x: char): (s: seq<byte>)
    ensures |s| > 0 && (|s| == 1 <==> x as int < 0x80)
    ensures x as int < 0x80 ==> s == [x as int]
  {
    var v := x as int;
    if v < 0x80 then [v]
    else if v < 0x800 then [0xC0 + v / 64, 0x80 + v % 64]
    else if v < 0x10000 then [0xE0 + v / 4096, 0x80 + v / 64 % 64, 0x80 + v % 64]
    else [0xF0 + v / 262144 % 8, 0x80 + v / 4096 % 64, 0x80 + v / 64 % 64, 0x80 + v % 64]
  }

  function NameBytes(name: string): (s: seq<byte>)
    ensures |s| >= |name|
  {
    if name == [] then [] else Encoded(name[0]) + NameBytes(name[1..])
  }

  // The first character of a text in UTF-8, and how many bytes it takes.
  function FirstChar(s: seq<byte>): Option<(int, nat)>
  {
    if s == [] then None
    else if s[0] < 0x80 then Some((s[0] as int, 1))
    else if 0xC0 <= s[0] < 0xE0 && |s| >= 2 then Some((64 * Low(s, 0, 0xC0) + Low(s, 1, 0x80), 2))
    else if 0xE0 <= s[0] < 0xF0 && |s| >= 3 then
      Some((4096 * Low(s, 0, 0xE0) + 64 * Low(s, 1, 0x80) + Low(s, 2, 0x80), 3))
    else if 0xF0 <= s[0] < 0xF8 && |s| >= 4 then
      Some((262144 * Low(s, 0, 0xF0) + 4096 * Low(s, 1, 0x80) + 64 * Low(s, 2, 0x80) + Low(s, 3, 0x80), 4))
    else None
  }

  // Byte i without its mark.
  function Low(s: seq<byte>, i: nat, mark: int): int
    requires i < |s|
  {
    s[i] as int - mark
  }

  lemma CharReads(x: char, rest: seq<byte>)
    ensures FirstChar(Encoded(x) + rest) == Some((x as int, |Encoded(x)|))
  {
    var v := x as int;
    if v >= 0x10000 {
      FourParts(v);
      assert 0xF0 + v / 262144 % 8 < 0xF8;
    } else if v >= 0x800 {
      ThreeParts(v);
    }
  }

  lemma ThreeParts(v: int)
    ensures v == 4096 * (v / 4096) + 64 * (v / 64 % 64) + v % 64
  {
    assert v / 4096 == v / 64 / 64;
  }

  lemma FourParts(v: int)
    requires 0 <= v < 0x200000
    ensures v == 262144 * (v / 262144 % 8) + 4096 * (v / 4096 % 64) + 64 * (v / 64 % 64) + v % 64
  {
    assert v / 262144 == v / 4096 / 64 && v / 262144 < 8;
    ThreeParts(v);
  }

  function Chars(s: seq<byte>): seq<int>
    decreases |s|
  {
    var c := FirstChar(s);
    if c.None? then [] else [c.value.0] + Chars(s[c.value.1..])
  }

  // A name is read back from its bytes.
  lemma {:induction false} CharsOfName(name: string)
    ensures |Chars(NameBytes(name))| == |name|
    ensures forall i :: 0 <= i < |name| ==> Chars(NameBytes(name))[i] == name[i] as int
  {
    if name != [] {
      hide Encoded, FirstChar;
      CharReads(name[0], NameBytes(name[1..]));
      CharsOfName(name[1..]);
      assert NameBytes(name)[|Encoded(name[0])|..] == NameBytes(name[1..]);
    }
  }

  predicate Ascii(name: string)
  {
    forall i :: 0 <= i < |name| ==> name[i] as int < 0x80
  }

  // Name and metadata, filled up by the number of characters.
  function NameField(f: Format, name: string): seq<byte>
  {
    NameBytes(name)
      + Repeat<byte>(0, if |name| <= f.c.nameLen + f.c.metaLen then f.c.nameLen + f.c.metaLen - |name| else 0)
  }

  lemma {:induction false} NameBytesExact(name: string)
    ensures |NameBytes(name)| == |name| <==> Ascii(name)
    ensures Ascii(name) ==> forall i :: 0 <= i < |name| ==> NameBytes(name)[i] == name[i] as int
  {
    if name != [] {
      hide Encoded;
      NameBytesExact(name[1..]);
      assert Ascii(name) <==> name[0] as int < 0x80 && Ascii(name[1..]) by {
        assert name == [name[0]] + name[1..];
      }
    }
  }

  // The field has its length, so that the references stand in their place, if and only if the
  // name is plain.
  lemma NameFieldExact(f: Format, name: string)
    requires |name| <= f.c.nameLen
    ensures |NameField(f, name)| == f.c.nameLen + f.c.metaLen <==> Ascii(name)
  {
    NameBytesExact(name);
  }

  function Log2(n: nat): nat
  {
    if n < 2 then 0 else 1 + Log2(n / 2)
  }

  // What is stored for a page at an offset: the offset is shifted.
  function PageNumber(f: Format, offset: nat): nat
  {
    Quotient(offset, Pow2(Log2(f.c.pageSize)))
  }

  lemma {:induction false} Log2Below(n: nat)
    requires n > 0
    ensures Pow2(Log2(n)) <= n < 2 * Pow2(Log2(n))
  {
    if n >= 2 {
      Log2Below(n / 2);
    }
  }

  // The number stored is that of the page if and only if the page comes early enough for what
  // its size exceeds a power of two by: for powers of two that is always so.
  lemma PageNumberExact(f: Format, k: nat)
    requires Formed(f)
    ensures var p := Pow2(Log2(f.c.pageSize));
            PageNumber(f, k * f.c.pageSize) == k <==> k * (f.c.pageSize - p) < p
  {
    var s, p := f.c.pageSize, Pow2(Log2(f.c.pageSize));
    Log2Below(s);
    Distribute(p, s - p, k);
    Commuted(k, s);
    Commuted(k, s - p);
    Commuted(k, p);
    if k * (s - p) < p {
      DivModUnique(k * s, k, p, k * (s - p));
    } else {
      QuotientPast(k * s, k, p);
    }
  }

  lemma QuotientPast(a: int, k: int, p: int)
    requires p > 0 && a >= k * p + p
    ensures a / p > k
  {
    DivModParts(a, p);
    if a / p <= k {
      MulMonotone(a / p, k, p);
    }
  }

  lemma Commuted(a: int, b: int)
    ensures a * b == b * a
  {
  }

  // ----- pages -----

  function Numbers(f: Format, refs: seq<nat>): (ns: seq<nat>)
    ensures |ns| == |refs| && forall i :: 0 <= i < |refs| ==> ns[i] == PageNumber(f, refs[i])
  {
    seq(|refs|, i requires 0 <= i < |refs| => PageNumber(f, refs[i]))
  }

  function PackAll(big: bool, vs: seq<nat>, w: nat): (s: seq<byte>)
    ensures |s| == |vs| * w
  {
    if vs == [] then []
    else
      Distribute(1, |vs| - 1, w);
      Pack(big, vs[0], w) + PackAll(big, vs[1..], w)
  }

  // What stands in front of the references of the first index page.
  function HeadFields(f: Format, size: nat, name: string): seq<byte>
  {
    Pack(f.big, size, 4) + ([TYPE_FILE] + NameField(f, name))
  }

  function IndexStart(f: Format, x: Item): seq<byte>
    requires x.Index? && Formed(f) && x.objId < Base(f.c.idLen)
  {
    Header(f, FlipTop(x.objId, f.c.idLen), x.span, FLAG_INDEX)
    + (Repeat(FREE, f.c.Padding()) + if x.span == 0 then HeadFields(f, x.size, x.name) else [])
  }

  function PageContent(f: Format, x: Item): seq<byte>
    requires Formed(f) && x.objId < Base(f.c.idLen)
  {
    if x.Index? then IndexStart(f, x) + PackAll(f.big, Numbers(f, x.refs), f.c.pageIxLen)
    else Header(f, x.objId, x.span, FLAG_DATA) + x.contents
  }

  // The builder goes on: every number fits its width, and the whole fits the page.
  predicate Writable(f: Format, x: Item)
  {
    && Formed(f) && x.objId < Base(f.c.idLen) && x.span < Base(f.c.spanLen)
    && (x.Index? && x.span == 0 ==> x.size < Base(4))
    && (x.Index? ==> AllBelow(Numbers(f, x.refs), Base(f.c.pageIxLen)))
    && |PageContent(f, x)| <= f.c.pageSize
  }

  // The bytes of a page, or that the builder stops.
  function PageBytes(f: Format, x: Item): (r: Option<seq<byte>>)
    ensures r.Some? ==> |r.value| == f.c.pageSize
  {
    if Writable(f, x) then Some(Padded(PageContent(f, x), f.c.pageSize)) else None
  }

  // ----- reading a page -----

  datatype Page =
    | IndexPage(objId: nat, span: nat, head: Option<(nat, seq<byte>)>, refs: seq<nat>)
    | DataPage(objId: nat, span: nat, area: seq<byte>)
    | NoPage

  // Up to the first zero.
  function UpToZero(s: seq<byte>): (r: seq<byte>)
    ensures r <= s
  {
    if s == [] || s[0] == 0 then [] else [s[0]] + UpToZero(s[1..])
  }

  // References up to the first free place.
  function ReadNumbers(big: bool, s: seq<byte>, w: nat): seq<nat>
    requires w > 0
    decreases |s|
  {
    if |s| < w || Unpack(big, s[..w]) == Base(w) - 1 then []
    else [Unpack(big, s[..w])] + ReadNumbers(big, s[w..], w)
  }

  function ReadPage(f: Format, s: seq<byte>): Page
    requires Formed(f)
  {
    var h := f.c.DataHeader();
    if |s| != f.c.pageSize || |s| < h then NoPage
    else
      var id, span := Unpack(f.big, s[..f.c.idLen]), Unpack(f.big, s[f.c.idLen..h - 1]);
      if s[h - 1] == FLAG_DATA then DataPage(id, span, s[h..])
      else if s[h - 1] == FLAG_INDEX && id < Base(f.c.idLen) && |s| >= h + f.c.Padding() then
        ReadIndex(f, FlipTop(id, f.c.idLen), span, s[h + f.c.Padding()..])
      else NoPage
  }

  function ReadIndex(f: Format, id: nat, span: nat, s: seq<byte>): Page
    requires Formed(f)
  {
    if span > 0 then IndexPage(id, span, None, ReadNumbers(f.big, s, f.c.pageIxLen))
    else
      var n := 5 + f.c.nameLen;
      if |s| < n + f.c.metaLen then NoPage
      else
        IndexPage(id, span, Some((Unpack(f.big, s[..4]), UpToZero(s[5..n]))),
                  ReadNumbers(f.big, s[n + f.c.metaLen..], f.c.pageIxLen))
  }

  lemma FieldsAt(a: seq<byte>, b: seq<byte>, c: seq<byte>, rest: seq<byte>)
    ensures var s := a + b + c + rest;
            && s[..|a|] == a && s[|a|..|a| + |b|] == b && s[|a| + |b|..|a| + |b| + |c|] == c
            && s[|a| + |b| + |c|..] == rest
  {
  }

  // The fields of the header.
  lemma HeaderReads(f: Format, id: nat, span: nat, flag: byte, rest: seq<byte>)
    requires Formed(f) && id < Base(f.c.idLen) && span < Base(f.c.spanLen)
    ensures var s, h := Header(f, id, span, flag) + rest, f.c.DataHeader();
            && Unpack(f.big, s[..f.c.idLen]) == id && Unpack(f.big, s[f.c.idLen..h - 1]) == span
            && s[h - 1] == flag && s[h..] == rest
  {
    hide Pack, Unpack;
    FieldsAt(Pack(f.big, id, f.c.idLen), Pack(f.big, span, f.c.spanLen), [flag], rest);
    var s, h := Header(f, id, span, flag) + rest, f.c.DataHeader();
    assert s[h - 1] == s[h - 1..h][0];
    UnpackOfPack(f.big, id, f.c.idLen);
    UnpackOfPack(f.big, span, f.c.spanLen);
  }

  // A data page reads back, with its contents in front of its area.
  lemma DataReads(f: Format, x: Item)
    requires x.Data? && PageBytes(f, x).Some?
    ensures var p := ReadPage(f, PageBytes(f, x).value);
            p.DataPage? && p.objId == x.objId && p.span == x.span && x.contents <= p.area && |p.area| == f.c.DataSize()
  {
    hide Header, Unpack, Base;
    var s := PageBytes(f, x).value;
    var free := s[|PageContent(f, x)|..];
    assert s == Header(f, x.objId, x.span, FLAG_DATA) + (x.contents + free);
    HeaderReads(f, x.objId, x.span, FLAG_DATA, x.contents + free);
  }

  lemma {:induction false} NumbersRead(big: bool, vs: seq<nat>, w: nat, n: nat)
    requires w > 0 && AllBelow(vs, Base(w) - 1)
    ensures ReadNumbers(big, PackAll(big, vs, w) + Repeat(FREE, n), w) == vs
    decreases |vs|
  {
    hide Pack, Unpack, Base;
    if vs == [] {
      assert PackAll(big, vs, w) + Repeat(FREE, n) == Repeat(FREE, n);
      if n >= w {
        RepeatSplit(FREE, w, n - w);
        assert Repeat(FREE, n)[..w] == Repeat(FREE, w);
        UnpackOfFree(big, w);
      }
    } else {
      var first, rest := Pack(big, vs[0], w), PackAll(big, vs[1..], w) + Repeat(FREE, n);
      var s := PackAll(big, vs, w) + Repeat(FREE, n);
      assert s == first + rest;
      assert s[..w] == first && s[w..] == rest;
      UnpackOfPack(big, vs[0], w);
      NumbersRead(big, vs[1..], w, n);
    }
  }

  predicate NoZero(name: string)
  {
    forall i :: 0 <= i < |name| ==> name[i] as int != 0
  }

  // The name field gives the name.
  lemma {:induction false} NameReads(name: string, n: nat)
    requires Ascii(name) && NoZero(name)
    ensures UpToZero(NameBytes(name) + Repeat<byte>(0, n)) == NameBytes(name)
  {
    var zeros := Repeat<byte>(0, n);
    if name == [] {
      assert NameBytes(name) + zeros == zeros;
    } else {
      NameReads(name[1..], n);
      assert NameBytes(name) + zeros == [name[0] as int] + (NameBytes(name[1..]) + zeros);
    }
  }

  lemma FlipTwice(v: nat, w: nat)
    requires w > 0 && v < Base(w)
    ensures FlipTop(FlipTop(v, w), w) == v
  {
    hide Half;
  }

  // What stands behind the padding of an index page.
  lemma IndexBody(f: Format, x: Item) returns (body: seq<byte>, free: nat)
    requires x.Index? && PageBytes(f, x).Some?
    ensures body == (if x.span == 0 then HeadFields(f, x.size, x.name) else [])
                    + (PackAll(f.big, Numbers(f, x.refs), f.c.pageIxLen) + Repeat(FREE, free))
    ensures ReadPage(f, PageBytes(f, x).value) == ReadIndex(f, x.objId, x.span, body)
  {
    hide Header, Unpack, Base, HeadFields, PackAll, Numbers, ReadIndex, FlipTop, Config.Padding;
    var s, h := PageBytes(f, x).value, f.c.DataHeader();
    free := f.c.pageSize - |PageContent(f, x)|;
    var pad, head := Repeat(FREE, f.c.Padding()), if x.span == 0 then HeadFields(f, x.size, x.name) else [];
    var refs := PackAll(f.big, Numbers(f, x.refs), f.c.pageIxLen);
    var id := FlipTop(x.objId, f.c.idLen);
    body := head + (refs + Repeat(FREE, free));
    assert s == Header(f, id, x.span, FLAG_INDEX) + (pad + body);
    HeaderReads(f, id, x.span, FLAG_INDEX, pad + body);
    assert s[h + f.c.Padding()..] == body by {
      assert s[h..] == pad + body;
    }
    FlipTwice(x.objId, f.c.idLen);
  }

  lemma HeadParts(a: seq<byte>, x: byte, field: seq<byte>, n: nat, rest: seq<byte>)
    requires |a| == 4 && n <= |field|
    ensures var s := a + ([x] + field) + rest;
            s[..4] == a && s[5..5 + n] == field[..n] && s[5 + |field|..] == rest
  {
    FieldsAt(a, [x], field, rest);
    assert a + ([x] + field) + rest == a + [x] + field + rest;
    var s := a + ([x] + field) + rest;
    assert s[5..5 + n] == s[5..5 + |field|][..n];
  }

  lemma NameFieldParts(f: Format, name: string)
    requires |name| <= f.c.nameLen && Ascii(name)
    ensures |NameField(f, name)| == f.c.nameLen + f.c.metaLen
    ensures NameField(f, name)[..f.c.nameLen] == NameBytes(name) + Repeat<byte>(0, f.c.nameLen - |name|)
  {
    hide NameBytes, Ascii;
    NameBytesExact(name);
    RepeatSplit<byte>(0, f.c.nameLen - |name|, f.c.metaLen);
  }

  // The fields of a head page.
  lemma HeadReads(f: Format, id: nat, size: nat, name: string, rest: seq<byte>)
    requires Formed(f) && size < Base(4) && |name| <= f.c.nameLen && Ascii(name) && NoZero(name)
    ensures ReadIndex(f, id, 0, HeadFields(f, size, name) + rest)
         == IndexPage(id, 0, Some((size, NameBytes(name))), ReadNumbers(f.big, rest, f.c.pageIxLen))
  {
    hide Pack, Unpack, Base, UpToZero, ReadNumbers, NameBytes, NameField, Ascii, NoZero;
    NameFieldParts(f, name);
    HeadParts(Pack(f.big, size, 4), TYPE_FILE, NameField(f, name), f.c.nameLen, rest);
    UnpackOfPack(f.big, size, 4);
    NameReads(name, f.c.nameLen - |name|);
  }

  // An index page reads back: object, span, size and name, and the numbers of its pages.
  lemma IndexReads(f: Format, x: Item)
    requires x.Index? && PageBytes(f, x).Some? && AllBelow(Numbers(f, x.refs), Base(f.c.pageIxLen) - 1)
    requires x.span == 0 ==> |x.name| <= f.c.nameLen && Ascii(x.name) && NoZero(x.name)
    ensures ReadPage(f, PageBytes(f, x).value)
         == IndexPage(x.objId, x.span, if x.span == 0 then Some((x.size, NameBytes(x.name))) else None,
                      Numbers(f, x.refs))
  {
    hide PageContent, ReadPage, Pack, PackAll, Numbers, ReadNumbers, HeadFields, Base, AllBelow;
    var body, free := IndexBody(f, x);
    var numbers := Numbers(f, x.refs);
    NumbersRead(f.big, numbers, f.c.pageIxLen, free);
    var rest := PackAll(f.big, numbers, f.c.pageIxLen) + Repeat(FREE, free);
    if x.span == 0 {
      HeadReads(f, x.objId, x.size, x.name, rest);
    } else {
      assert body == rest;
    }
  }

  // ----- lookup pages -----

  // Index pages have their top bit turned over.
  function RawId(f: Format, id: Id): (v: nat)
    requires Formed(f) && id.0 < Base(f.c.idLen)
    ensures v < Base(f.c.idLen)
  {
    if id.1 then FlipTop(id.0, f.c.idLen) else id.0
  }

  function IdOfRaw(f: Format, v: nat): Id
    requires Formed(f)
  {
    if v >= Half(f.c.idLen) then (v - Half(f.c.idLen), true) else (v, false)
  }

  // An id tells the kind of its page if and only if the top bit is not its own.
  lemma RawIdExact(f: Format, id: Id)
    requires Formed(f) && id.0 < Base(f.c.idLen)
    ensures IdOfRaw(f, RawId(f, id)) == id <==> id.0 < Half(f.c.idLen)
  {
    hide Half, Base;
    assert 2 * Half(f.c.idLen) == Base(f.c.idLen);
  }

  predicate IdsFit(f: Format, ids: seq<Id>)
  {
    Formed(f) && |ids| <= f.c.LookupIds() && forall i :: 0 <= i < |ids| ==> ids[i].0 < Base(f.c.idLen)
  }

  function RawIds(f: Format, ids: seq<Id>): (vs: seq<nat>)
    requires IdsFit(f, ids)
    ensures |vs| == |ids| && AllBelow(vs, Base(f.c.idLen))
    ensures forall i :: 0 <= i < |ids| ==> vs[i] == RawId(f, ids[i])
  {
    seq(|ids|, i requires 0 <= i < |ids| => RawId(f, ids[i]))
  }

  const MAGIC := 0x20140529

  // The mark of a block that has so many blocks from itself to the end of the image.
  function Magic(f: Format, left: nat): (m: nat)
    ensures m < Base(f.c.idLen)
  {
    var whole := N.Xor(N.Xor(MAGIC, f.c.pageSize), if f.useMagicLen then left else 0);
    whole % Base(f.c.idLen)
  }

  lemma {:induction false} BaseInBits(w: nat)
    ensures Base(w) == Pow2(8 * w)
  {
    if w > 0 {
      BaseInBits(w - 1);
      hide Pow2;
      Pow2Add(8, 8 * (w - 1));
      SmallPowers();
      Pow2Add(4, 4);
    }
  }

  // Bit by bit, the mark is the sum of a constant, the page size and the number of blocks,
  lemma MagicBit(f: Format, left: nat, i: nat)
    requires i < 8 * f.c.idLen
    ensures N.BitOf(Magic(f, left), i)
         == (N.BitOf(MAGIC, i) + N.BitOf(f.c.pageSize, i) + if f.useMagicLen then N.BitOf(left, i) else 0) % 2
  {
    hide N.BitOf, N.Xor, Base, Pow2;
    var far := if f.useMagicLen then left else 0;
    BaseInBits(f.c.idLen);
    N.XorBit(MAGIC, f.c.pageSize, i);
    N.XorBit(N.Xor(MAGIC, f.c.pageSize), far, i);
    N.BitOfZero(i);
    var whole, n := N.Xor(N.Xor(MAGIC, f.c.pageSize), far), 8 * f.c.idLen;
    RemainderAgain(whole, Pow2(n));
    N.RemainderBits(Magic(f, left), whole, n);
    assert N.BitOf(Magic(f, left), i) == N.BitOf(whole, i);
  }

  lemma RemainderAgain(x: nat, d: nat)
    requires d > 0
    ensures x % d % d == x % d
  {
  }

  // so that a reader who takes the other two parts off finds the number.
  function LeftOf(f: Format, magic: nat): nat
  {
    N.Xor(N.Xor(MAGIC, f.c.pageSize), magic) % Base(f.c.idLen)
  }

  lemma LeftOfMagic(f: Format, left: nat)
    requires f.useMagicLen
    ensures LeftOf(f, Magic(f, left)) == left % Base(f.c.idLen)
  {
    hide N.BitOf, N.Xor, Base, Pow2, Magic;
    var n, m, x := 8 * f.c.idLen, Magic(f, left), N.Xor(MAGIC, f.c.pageSize);
    BaseInBits(f.c.idLen);
    forall i | 0 <= i < n ensures N.BitOf(N.Xor(x, m), i) == N.BitOf(left, i) {
      MagicBit(f, left, i);
      N.XorBit(x, m, i);
      N.XorBit(MAGIC, f.c.pageSize, i);
    }
    N.RemainderBits(N.Xor(x, m), left, n);
  }

  // Without the number the mark is the same in every block, and with it two marks are the
  // same exactly when the numbers are, as far as the width of ids goes.
  lemma MagicTells(f: Format, left: nat, other: nat)
    ensures !f.useMagicLen ==> Magic(f, left) == Magic(f, other)
    ensures f.useMagicLen ==>
              (Magic(f, left) == Magic(f, other) <==> left % Base(f.c.idLen) == other % Base(f.c.idLen))
  {
    if f.useMagicLen {
      hide Magic, Base;
      LeftOfMagic(f, left);
      LeftOfMagic(f, other);
      if left % Base(f.c.idLen) == other % Base(f.c.idLen) {
        MagicOfSame(f, left, other);
      }
    }
  }

  lemma MagicOfSame(f: Format, left: nat, other: nat)
    requires left % Base(f.c.idLen) == other % Base(f.c.idLen)
    ensures Magic(f, left) == Magic(f, other)
  {
    hide N.BitOf, Base, Pow2, Magic;
    var n := 8 * f.c.idLen;
    BaseInBits(f.c.idLen);
    N.RemainderBits(left, other, n);
    forall i | 0 <= i < n ensures N.BitOf(Magic(f, left), i) == N.BitOf(Magic(f, other), i) {
      MagicBit(f, left, i);
      MagicBit(f, other, i);
      assert N.BitOf(left, i) == N.BitOf(other, i);
    }
    N.RemainderBits(Magic(f, left), Magic(f, other), n);
    SmallRemainder(Magic(f, left), Base(f.c.idLen));
    SmallRemainder(Magic(f, other), Base(f.c.idLen));
  }

  // The last lookup page has the mark in its last place but one, if two places are free.
  function WithMagic(f: Format, vs: seq<nat>, magic: nat): (r: seq<nat>)
    requires Formed(f) && AllBelow(vs, Base(f.c.idLen)) && magic < Base(f.c.idLen) && |vs| <= f.c.LookupIds()
    ensures |r| <= f.c.LookupIds() && AllBelow(r, Base(f.c.idLen)) && vs <= r
    ensures if |vs| + 2 <= f.c.LookupIds() then |r| == f.c.LookupIds() - 1 && r[|r| - 1] == magic else r == vs
    ensures forall i :: |vs| <= i < |r| - 1 ==> r[i] == Base(f.c.idLen) - 1
  {
    var free := f.c.LookupIds() - |vs|;
    if free < 2 then vs
    else
      RepeatAt((Base(f.c.idLen) - 1) as nat, free - 2);
      vs + Repeat((Base(f.c.idLen) - 1) as nat, free - 2) + [magic]
  }

  function LookupBytes(f: Format, vs: seq<nat>): (s: seq<byte>)
    requires Formed(f) && |vs| <= f.c.LookupIds()
    ensures |s| == f.c.pageSize
  {
    IdsInPage(f, |vs|);
    Padded(PackAll(f.big, vs, f.c.idLen), f.c.pageSize)
  }

  lemma IdsInPage(f: Format, n: nat)
    requires Formed(f) && n <= f.c.LookupIds()
    ensures n * f.c.idLen <= f.c.pageSize
  {
    DivModParts(f.c.pageSize, f.c.idLen);
    MulMonotone(n, f.c.LookupIds(), f.c.idLen);
  }

  // Place j of a lookup page.
  function Slot(f: Format, s: seq<byte>, j: nat): nat
    requires Formed(f) && j < f.c.LookupIds() && |s| == f.c.pageSize
  {
    IdsInPage(f, j + 1);
    Distribute(j, 1, f.c.idLen);
    Unpack(f.big, s[j * f.c.idLen..j * f.c.idLen + f.c.idLen])
  }

  lemma {:induction false} PackedAt(big: bool, vs: seq<nat>, w: nat, n: nat, j: nat)
    requires w > 0 && AllBelow(vs, Base(w)) && j * w + w <= |vs| * w + n
    ensures var s := PackAll(big, vs, w) + Repeat(FREE, n);
            0 <= j * w && Unpack(big, s[j * w..j * w + w]) == if j < |vs| then vs[j] else Base(w) - 1
    decreases |vs|
  {
    hide Pack, Unpack, Base;
    var s := PackAll(big, vs, w) + Repeat(FREE, n);
    if vs == [] {
      assert s == Repeat(FREE, n);
      Slice(n, j * w, w);
      UnpackOfFree(big, w);
    } else {
      var first, rest := Pack(big, vs[0], w), PackAll(big, vs[1..], w) + Repeat(FREE, n);
      assert s == first + rest;
      Distribute(1, |vs| - 1, w);
      Distribute(1, j - 1, w);
      if j == 0 {
        assert s[..w] == first;
        UnpackOfPack(big, vs[0], w);
      } else {
        PackedAt(big, vs[1..], w, n, j - 1);
        assert s[j * w..j * w + w] == rest[(j - 1) * w..(j - 1) * w + w];
      }
    }
  }

  lemma Slice(n: nat, a: nat, w: nat)
    requires a + w <= n
    ensures Repeat(FREE, n)[a..a + w] == Repeat(FREE, w)
  {
    RepeatSplit(FREE, a, n - a);
    RepeatSplit(FREE, w, n - a - w);
  }

  // A lookup page lists its ids, and its other places are free.
  lemma LookupReads(f: Format, vs: seq<nat>, j: nat)
    requires Formed(f) && |vs| <= f.c.LookupIds() && AllBelow(vs, Base(f.c.idLen)) && j < f.c.LookupIds()
    ensures Slot(f, LookupBytes(f, vs), j) == if j < |vs| then vs[j] else Base(f.c.idLen) - 1
  {
    hide PackAll, Base, Unpack;
    IdsInPage(f, |vs|);
    IdsInPage(f, j + 1);
    Distribute(j, 1, f.c.idLen);
    PackedAt(f.big, vs, f.c.idLen, f.c.pageSize - |vs| * f.c.idLen, j);
  }

  // ----- blocks and the image -----

  // Pieces one after the other.
  function Cat(ps: seq<seq<byte>>): seq<byte>
  {
    if ps == [] then [] else ps[0] + Cat(ps[1..])
  }

  predicate AllOf(ps: seq<seq<byte>>, size: nat)
  {
    forall i :: 0 <= i < |ps| ==> |ps[i]| == size
  }

  lemma {:induction false} CatLength(ps: seq<seq<byte>>, size: nat)
    requires AllOf(ps, size)
    ensures |Cat(ps)| == |ps| * size
  {
    if ps != [] {
      CatLength(ps[1..], size);
      Distribute(1, |ps| - 1, size);
    }
  }

  lemma {:induction false} CatAt(ps: seq<seq<byte>>, size: nat, k: nat)
    requires AllOf(ps, size) && k < |ps|
    ensures |Cat(ps)| == |ps| * size
    ensures 0 <= k * size && k * size + size <= |ps| * size && Cat(ps)[k * size..k * size + size] == ps[k]
    decreases k
  {
    CatLength(ps, size);
    CatLength(ps[1..], size);
    Distribute(1, |ps| - 1, size);
    if k == 0 {
      assert Cat(ps)[..size] == ps[0];
    } else {
      CatAt(ps[1..], size, k - 1);
      Distribute(1, k - 1, size);
      SliceBehind(ps[0], Cat(ps[1..]), (k - 1) * size, size);
    }
  }

  lemma SliceBehind(head: seq<byte>, s: seq<byte>, a: nat, n: nat)
    requires a + n <= |s|
    ensures (head + s)[|head| + a..|head| + a + n] == s[a..a + n]
  {
  }

  // What the bytes of a block need.
  predicate BlockWritable(f: Format, b: Block)
  {
    && Formed(f)
    && (forall i :: 0 <= i < |b.lookups| ==> IdsFit(f, b.lookups[i]))
    && (forall i :: 0 <= i < |b.items| ==> Writable(f, b.items[i]))
  }

  // The pages of a block: the last lookup page gets the mark.
  function LookupPage(f: Format, b: Block, left: nat, i: nat): (s: seq<byte>)
    requires BlockWritable(f, b) && i < |b.lookups|
    ensures |s| == f.c.pageSize
  {
    var vs := RawIds(f, b.lookups[i]);
    LookupBytes(f, if i == |b.lookups| - 1 then WithMagic(f, vs, Magic(f, left)) else vs)
  }

  function BlockPages(f: Format, b: Block, left: nat): (ps: seq<seq<byte>>)
    requires BlockWritable(f, b)
    ensures |ps| == |b.lookups| + |b.items| && AllOf(ps, f.c.pageSize)
    ensures forall i :: 0 <= i < |b.lookups| ==> ps[i] == LookupPage(f, b, left, i)
    ensures forall i :: 0 <= i < |b.items| ==> PageBytes(f, b.items[i]) == Some(ps[|b.lookups| + i])
  {
    seq(|b.lookups|, i requires 0 <= i < |b.lookups| => LookupPage(f, b, left, i))
    + seq(|b.items|, i requires 0 <= i < |b.items| => PageBytes(f, b.items[i]).value)
  }

  function BlockBytes(f: Format, b: Block, left: nat): seq<byte>
    requires BlockWritable(f, b)
  {
    Padded(Cat(BlockPages(f, b, left)), f.c.blockSize)
  }

  // The pages of a block are found in its bytes, which fill the block.
  lemma BlockReads(f: Format, b: Block, left: nat, k: nat)
    requires Sane(f.c) && BlockWritable(f, b) && |b.lookups| + |b.items| <= f.c.Pages()
    requires k < |b.lookups| + |b.items|
    ensures |BlockBytes(f, b, left)| == f.c.blockSize
    ensures 0 <= k * f.c.pageSize && k * f.c.pageSize + f.c.pageSize <= f.c.blockSize
    ensures BlockBytes(f, b, left)[k * f.c.pageSize..k * f.c.pageSize + f.c.pageSize] == BlockPages(f, b, left)[k]
  {
    hide BlockPages, BlockWritable, Sane, Config.Pages;
    WholeBlock(f.c, |BlockPages(f, b, left)|);
    PagesPadded(BlockPages(f, b, left), f.c.pageSize, f.c.blockSize, k);
  }

  lemma PagesPadded(ps: seq<seq<byte>>, size: nat, total: nat, k: nat)
    requires AllOf(ps, size) && |ps| * size <= total && k < |ps|
    ensures |Padded(Cat(ps), total)| == total
    ensures 0 <= k * size && k * size + size <= total
    ensures Padded(Cat(ps), total)[k * size..k * size + size] == ps[k]
  {
    CatAt(ps, size, k);
    hide Cat, AllOf;
    SliceKept(Cat(ps), Padded(Cat(ps), total), k * size, size);
  }

  lemma SliceKept(s: seq<byte>, t: seq<byte>, a: nat, n: nat)
    requires s <= t && a + n <= |s|
    ensures t[a..a + n] == s[a..a + n]
  {
  }

  lemma WholeBlock(c: Config, n: nat)
    requires Sane(c) && n <= c.Pages()
    ensures n * c.pageSize <= c.blockSize
  {
    DivModParts(c.blockSize, c.pageSize);
    MulMonotone(n, c.Pages(), c.pageSize);
  }

  // A block that no file has come to.
  function FreshBlock(c: Config): (b: Block)
    requires Sane(c)
    ensures b.items == [] && |b.lookups| == c.LookupPages() && forall i :: 0 <= i < |b.lookups| ==> b.lookups[i] == []
  {
    LookupRoom(c);
    RepeatAt<seq<Id>>([], c.LookupPages());
    Block(Repeat([], c.LookupPages()), 0, [], c.UsablePages(), NO_OBJECT)
  }

  // The image: its blocks, and fresh ones up to the limit.
  predicate ImageWritable(f: Format, blocks: seq<Block>, limit: nat)
  {
    && Sane(f.c) && Formed(f) && |blocks| <= limit
    && forall k :: 0 <= k < |blocks| ==> BlockWritable(f, blocks[k])
  }

  function ImageBlock(f: Format, blocks: seq<Block>, limit: nat, k: nat): (s: seq<byte>)
    requires ImageWritable(f, blocks, limit) && k < limit
  {
    BlockBytes(f, if k < |blocks| then blocks[k] else FreshBlock(f.c), limit - k)
  }

  function ImageBytes(f: Format, blocks: seq<Block>, limit: nat): seq<byte>
    requires ImageWritable(f, blocks, limit)
  {
    Cat(seq(limit, k requires 0 <= k < limit => ImageBlock(f, blocks, limit, k)))
  }

  // Lookup pages never take more than the block.
  lemma LookupsInBlock(c: Config)
    requires Sane(c)
    ensures 0 < c.LookupPages() <= c.Pages()
  {
    LookupRoom(c);
    WholePages(c.blockSize, c.pageSize);
    MulMonotone(c.idLen, c.pageSize, c.Pages());
    CeilBelow(c.Pages() * c.idLen, c.pageSize, c.Pages());
  }

  lemma CeilBelow(x: int, d: int, n: int)
    requires d > 0 && x <= n * d
    ensures -((-x) / d) <= n
  {
    DivModParts(-x, d);
    var q := (-x) / d;
    if -q > n {
      MulMonotone(n + 1, -q, d);
    }
  }

  lemma PagesInBlock(c: Config, b: Block, bix: nat)
    requires Sane(c) && WellKept(c, b, bix)
    ensures |b.lookups| == c.LookupPages() && |b.lookups| + |b.items| <= c.Pages()
  {
    LookupsInBlock(c);
    hide Config.LookupPages, Config.Pages;
  }

  lemma ImageBlockSize(f: Format, blocks: seq<Block>, limit: nat, k: nat)
    requires ImageWritable(f, blocks, limit) && AllKept(f.c, blocks) && k < limit
    ensures |ImageBlock(f, blocks, limit, k)| == f.c.blockSize
  {
    hide BlockBytes, WellKept, Config.LookupPages, Config.Pages;
    LookupsInBlock(f.c);
    var b := if k < |blocks| then blocks[k] else FreshBlock(f.c);
    if k < |blocks| {
      PagesInBlock(f.c, b, k);
    }
    BlockReads(f, b, limit - k, 0);
  }

  // The image has its size, and every block is in its place.
  lemma ImageAt(f: Format, blocks: seq<Block>, limit: nat, k: nat)
    requires ImageWritable(f, blocks, limit) && AllKept(f.c, blocks) && k < limit
    ensures var s, a := ImageBytes(f, blocks, limit), k * f.c.blockSize;
            && |s| == limit * f.c.blockSize && 0 <= a && a + f.c.blockSize <= |s|
            && s[a..a + f.c.blockSize] == ImageBlock(f, blocks, limit, k)
  {
    hide Cat, ImageBlock, ImageWritable, AllKept;
    var ps := seq(limit, k requires 0 <= k < limit => ImageBlock(f, blocks, limit, k));
    forall k | 0 <= k < limit ensures |ps[k]| == f.c.blockSize {
      ImageBlockSize(f, blocks, limit, k);
    }
    CatAt(ps, f.c.blockSize, k);
  }

  // The number of the last lookup page of a block.
  function LastLookup(c: Config): (n: nat)
    requires Sane(c)
    ensures n == c.LookupPages() - 1
  {
    LookupsInBlock(c);
    c.LookupPages() - 1
  }

  // Where it is in the image.
  function MarkedPage(c: Config, k: nat): nat
    requires Sane(c)
  {
    Product(k, c.blockSize) + Product(LastLookup(c), c.pageSize)
  }

  // The last place but one of the last lookup page tells how many blocks are left, if the
  // page has two free places and the mark has the number in it.
  lemma LeftInImage(f: Format, blocks: seq<Block>, limit: nat, k: nat)
    requires ImageWritable(f, blocks, limit) && AllKept(f.c, blocks) && k < limit && limit - k < Base(f.c.idLen)
    requires f.useMagicLen && 2 <= f.c.LookupIds()
    requires k < |blocks| ==> |blocks[k].lookups[LastLookup(f.c)]| + 2 <= f.c.LookupIds()
    ensures var s, a := ImageBytes(f, blocks, limit), MarkedPage(f.c, k);
            && a + f.c.pageSize <= |s|
            && LeftOf(f, Slot(f, s[a..a + f.c.pageSize], f.c.LookupIds() - 2)) == limit - k
  {
    hide ImageBytes, ImageWritable, AllKept, LeftOf, Slot, Base, Magic, BlockPages, MarkedPage, Config.LookupPages,
      Config.LookupIds;
    var b := LookupInImage(f, blocks, limit, k);
    MarkReads(f, b, limit - k);
    LeftOfMagic(f, limit - k);
    SmallRemainder(limit - k, Base(f.c.idLen));
  }

  // The last lookup page of a block of the image.
  lemma LookupInImage(f: Format, blocks: seq<Block>, limit: nat, k: nat) returns (b: Block)
    requires ImageWritable(f, blocks, limit) && AllKept(f.c, blocks) && k < limit
    ensures b == if k < |blocks| then blocks[k] else FreshBlock(f.c)
    ensures BlockWritable(f, b) && |b.lookups| == LastLookup(f.c) + 1
    ensures k >= |blocks| ==> b.lookups[|b.lookups| - 1] == []
    ensures var s, a := ImageBytes(f, blocks, limit), MarkedPage(f.c, k);
            && a + f.c.pageSize <= |s|
            && s[a..a + f.c.pageSize] == BlockPages(f, b, limit - k)[|b.lookups| - 1]
  {
    hide ImageBytes, ImageWritable, AllKept, BlockPages, BlockBytes, BlockWritable, Config.LookupPages, Config.Pages;
    var last := BlockOfImage(f, blocks, limit, k);
    b := if k < |blocks| then blocks[k] else FreshBlock(f.c);
    ImageAt(f, blocks, limit, k);
    BlockReads(f, b, limit - k, last);
    SliceOfSlice(ImageBytes(f, blocks, limit), k * f.c.blockSize, f.c.blockSize, last * f.c.pageSize, f.c.pageSize);
  }

  // What is known of a block of the image, and the number of its last lookup page.
  lemma BlockOfImage(f: Format, blocks: seq<Block>, limit: nat, k: nat) returns (last: nat)
    requires ImageWritable(f, blocks, limit) && AllKept(f.c, blocks) && k < limit
    ensures Sane(f.c) && Formed(f) && last == f.c.LookupPages() - 1
    ensures var b := if k < |blocks| then blocks[k] else FreshBlock(f.c);
            && BlockWritable(f, b) && |b.lookups| == last + 1 && |b.lookups| + |b.items| <= f.c.Pages()
            && ImageBlock(f, blocks, limit, k) == BlockBytes(f, b, limit - k)
            && (k >= |blocks| ==> b.lookups[last] == [])
  {
    hide BlockBytes, WellKept, Config.LookupPages, Config.Pages;
    LookupsInBlock(f.c);
    if k < |blocks| {
      PagesInBlock(f.c, blocks[k], k);
    }
    last := f.c.LookupPages() - 1;
  }

  // The mark in the pages of a block.
  lemma MarkReads(f: Format, b: Block, left: nat)
    requires BlockWritable(f, b) && b.lookups != [] && |b.lookups[|b.lookups| - 1]| + 2 <= f.c.LookupIds()
    ensures Slot(f, BlockPages(f, b, left)[|b.lookups| - 1], f.c.LookupIds() - 2) == Magic(f, left)
  {
    hide PageBytes, Slot, LookupBytes, Magic, Base;
    var last := |b.lookups| - 1;
    var vs := WithMagic(f, RawIds(f, b.lookups[last]), Magic(f, left));
    LookupReads(f, vs, f.c.LookupIds() - 2);
  }

  // The bytes of a page are where its offset says.
  lemma PageInImage(f: Format, blocks: seq<Block>, limit: nat, bix: nat, i: nat)
    requires ImageWritable(f, blocks, limit) && AllKept(f.c, blocks) && bix < |blocks| && i < |blocks[bix].items|
    ensures var s, a := ImageBytes(f, blocks, limit), Offset(f.c, bix, i);
            && a + f.c.pageSize <= |s| && PageBytes(f, blocks[bix].items[i]) == Some(s[a..a + f.c.pageSize])
  {
    hide WellKept, BlockBytes, BlockPages, ImageBytes, Config.LookupPages, Config.Pages, Offset, PageBytes,
      BlockWritable;
    var b := blocks[bix];
    ImageAt(f, blocks, limit, bix);
    assert WellKept(f.c, b, bix);
    PagesInBlock(f.c, b, bix);
    var k := |b.lookups| + i;
    BlockReads(f, b, limit - bix, k);
    PlaceIs(f.c, bix, i, k);
    SliceOfSlice(ImageBytes(f, blocks, limit), bix * f.c.blockSize, f.c.blockSize, k * f.c.pageSize, f.c.pageSize);
  }

  lemma SliceOfSlice(s: seq<byte>, a: nat, n: nat, b: nat, m: nat)
    requires a + n <= |s| && b + m <= n
    ensures s[a..a + n][b..b + m] == s[a + b..a + b + m]
  {
    var l, r := s[a..a + n][b..b + m], s[a + b..a + b + m];
    forall j | 0 <= j < m ensures l[j] == r[j] {
      assert l[j] == s[a..a + n][b + j] == s[a + b + j];
    }
  }

  lemma PlaceIs(c: Config, bix: nat, i: nat, k: nat)
    requires Sane(c) && k == c.LookupPages() + i
    ensures Offset(c, bix, i) == bix * c.blockSize + k * c.pageSize
  {
    hide Config.LookupPages;
  }

  // The page that a reader finds at an offset.
  function PageFrom(f: Format, image: seq<byte>, offset: nat): Page
    requires Formed(f)
  {
    if offset + f.c.pageSize <= |image| then ReadPage(f, image[offset..offset + f.c.pageSize]) else NoPage
  }

  // Every page of the image is read back from its bytes,
  lemma ImageReads(f: Format, blocks: seq<Block>, limit: nat, bix: nat, i: nat)
    requires ImageWritable(f, blocks, limit) && AllKept(f.c, blocks) && bix < |blocks| && i < |blocks[bix].items|
    ensures var p, x := PageFrom(f, ImageBytes(f, blocks, limit), Offset(f.c, bix, i)), blocks[bix].items[i];
            && (x.Data? ==> p.DataPage? && p.objId == x.objId && p.span == x.span && x.contents <= p.area)
            && (x.Index? && Plain(f, x) ==>
                  p == IndexPage(x.objId, x.span, if x.span == 0 then Some((x.size, NameBytes(x.name))) else None,
                                 Numbers(f, x.refs)))
  {
    hide ImageBytes, ReadPage, PageBytes, AllKept, ImageWritable, Offset;
    PageInImage(f, blocks, limit, bix, i);
    ImageFormed(f, blocks, limit);
    var x := blocks[bix].items[i];
    if x.Data? {
      DataReads(f, x);
    } else if Plain(f, x) {
      IndexReads(f, x);
    }
  }

  // No reference looks like a free place, and the name has no wide characters or zeros.
  predicate Plain(f: Format, x: Item)
    requires x.Index?
  {
    && AllBelow(Numbers(f, x.refs), Base(f.c.pageIxLen) - 1)
    && (x.span == 0 ==> |x.name| <= f.c.nameLen && Ascii(x.name) && NoZero(x.name))
  }

  lemma ImageFormed(f: Format, blocks: seq<Block>, limit: nat)
    requires ImageWritable(f, blocks, limit)
    ensures Formed(f) && Sane(f.c)
  {
  }

  predicate PowerOfTwo(n: nat)
  {
    Pow2(Log2(n)) == n
  }

  // The page that a reference leads to.
  function PageNumbered(f: Format, image: seq<byte>, number: nat): Page
    requires Formed(f)
  {
    PageFrom(f, image, Product(number, f.c.pageSize))
  }

  // and with pages of a power of two bytes the number stored for a data page leads to it.
  lemma NumberLeads(f: Format, blocks: seq<Block>, limit: nat, bix: nat, i: nat)
    requires ImageWritable(f, blocks, limit) && AllKept(f.c, blocks) && bix < |blocks| && i < |blocks[bix].items|
    requires blocks[bix].items[i].Data? && PowerOfTwo(f.c.pageSize)
    ensures var x := blocks[bix].items[i];
            var p := PageNumbered(f, ImageBytes(f, blocks, limit), PageNumber(f, x.offset));
            p.DataPage? && p.objId == x.objId && p.span == x.span && x.contents <= p.area
  {
    hide ImageBytes, PageFrom, ImageWritable, AllKept, PageNumber, PowerOfTwo, Offset, Product;
    ImageFormed(f, blocks, limit);
    ImageReads(f, blocks, limit, bix, i);
    OffsetKept(f.c, blocks, bix, i);
    var k := OffsetInPages(f.c, bix, i);
    NumberOfWhole(f, k);
  }

  lemma NumberOfWhole(f: Format, k: nat)
    requires Formed(f) && PowerOfTwo(f.c.pageSize)
    ensures PageNumber(f, Product(k, f.c.pageSize)) == k
  {
    hide Pow2, Log2;
    PageNumberExact(f, k);
    assert k * 0 == 0;
  }

  lemma OffsetKept(c: Config, blocks: seq<Block>, bix: nat, i: nat)
    requires Sane(c) && AllKept(c, blocks) && bix < |blocks| && i < |blocks[bix].items| && blocks[bix].items[i].Data?
    ensures blocks[bix].items[i].offset == Offset(c, bix, i)
  {
    assert WellKept(c, blocks[bix], bix);
    hide Offset;
  }

  lemma OffsetInPages(c: Config, bix: nat, i: nat) returns (k: nat)
    requires Sane(c)
    ensures Offset(c, bix, i) == Product(k, c.pageSize)
  {
    LookupRoom(c);
    DivModParts(c.blockSize, c.pageSize);
    var p, l: nat := c.Pages(), c.LookupPages();
    Triple(bix, p, c.pageSize);
    Distribute(bix * p, l + i, c.pageSize);
    k := bix * p + (l + i);
  }
}
