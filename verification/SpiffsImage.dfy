// The pages of a SPIFFS image and what they say: index pages that refer to data pages,
// data pages that hold pieces of files, and how a file is read back.
module SpiffsImage {
  import opened Bytes
  import opened Powers

  datatype Config = Config(
    pageSize: nat, blockSize: nat, pageIxLen: nat, blockIxLen: nat,
    metaLen: nat, nameLen: nat, idLen: nat, spanLen: nat)
  {
    function Pages(): nat
      requires pageSize > 0
    {
      blockSize / pageSize
    }

    // Pages at the start of a block that list the ids of the others.
    function LookupPages(): int
      requires pageSize > 0
    {
      -((-(Pages() * idLen)) / pageSize)
    }

    function UsablePages(): int
      requires pageSize > 0
    {
      Pages() - LookupPages()
    }

    function LookupIds(): nat
      requires idLen > 0
    {
      pageSize / idLen
    }

    function DataHeader(): nat
    {
      idLen + spanLen + 1
    }

    function Padding(): nat
    {
      (4 - DataHeader() % 4) % 4
    }

    function DataSize(): int
    {
      pageSize - DataHeader()
    }

    function HeadLimit(): int
      requires blockIxLen > 0
    {
      (pageSize - (DataHeader() + Padding() + 4 + 1 + nameLen + metaLen)) / blockIxLen
    }

    // The quotient is not rounded here.
    function IndexLimit(): real
      requires blockIxLen > 0
    {
      (pageSize - (DataHeader() + Padding())) as real / blockIxLen as real
    }
  }

  // Pages hold a whole number of ids and leave room for data; blocks are whole pages.
  predicate Sane(c: Config)
  {
    && c.pageSize > 0 && c.idLen > 0 && c.blockIxLen > 0
    && c.blockSize > 0 && c.blockSize % c.pageSize == 0 && c.pageSize % c.idLen == 0
    && c.DataSize() > 0
  }

  // Every page of a block that is not a lookup page finds room for its id.
  lemma LookupRoom(c: Config)
    requires Sane(c)
    ensures c.LookupPages() > 0 && c.LookupPages() * c.LookupIds() >= c.Pages()
  {
    WholePages(c.blockSize, c.pageSize);
    IdsFit(c.Pages(), c.idLen, c.pageSize);
  }

  lemma WholePages(block: nat, page: nat)
    requires block > 0 && page > 0 && block % page == 0
    ensures block / page > 0
  {
    PositiveFactor(block / page, page);
  }

  // Ids of p pages, on pages that hold a whole number of ids.
  lemma IdsFit(p: nat, id: nat, page: nat)
    requires p > 0 && id > 0 && page > 0 && page % id == 0
    ensures var l := -((-(p * id)) / page); l > 0 && l * (page / id) >= p
  {
    var n, x := page / id, p * id;
    MulAtLeast(p, id);
    CeilAbove(x, page);
    var l := -((-x) / page);
    assert page == n * id;
    Triple(l, n, id);
    MulCancel(p, l * n, id);
  }

  lemma PositiveFactor(p: int, d: int)
    requires p * d > 0 && d > 0
    ensures p > 0
  {
    if p <= 0 {
      MulMonotone(p, 0, d);
    }
  }

  lemma CeilAbove(x: int, d: int)
    requires d > 0 && x > 0
    ensures -((-x) / d) * d >= x && -((-x) / d) > 0
  {
    var q, r := (-x) / d, (-x) % d;
    assert -x == q * d + r;
    if q >= 0 {
      MulMonotone(0, q, d);
    }
  }

  // ----- pages -----

  datatype Item =
    | Index(objId: nat, span: nat, size: nat, name: string, refs: seq<nat>, lim: real)
    | Data(objId: nat, span: nat, contents: seq<byte>, offset: nat)

  type Id = (nat, bool)

  function IdOf(x: Item): Id
  {
    (x.objId, x.Index?)
  }

  function Ids(items: seq<Item>): (r: seq<Id>)
    ensures |r| == |items|
  {
    if items == [] then [] else Ids(items[..|items| - 1]) + [IdOf(items[|items| - 1])]
  }

  // ----- what the pages say about one object, in the order in which they were written -----

  function Indexes(items: seq<Item>, id: nat): seq<Item>
  {
    if items == [] then []
    else
      var x := items[|items| - 1];
      Indexes(items[..|items| - 1], id) + if x.Index? && x.objId == id then [x] else []
  }

  function Datas(items: seq<Item>, id: nat): seq<Item>
  {
    if items == [] then []
    else
      var x := items[|items| - 1];
      Datas(items[..|items| - 1], id) + if x.Data? && x.objId == id then [x] else []
  }

  // The references of a list of index pages, in order.
  function Refs(indexes: seq<Item>): seq<nat>
  {
    if indexes == [] then []
    else Refs(indexes[..|indexes| - 1]) + if indexes[|indexes| - 1].Index? then indexes[|indexes| - 1].refs else []
  }

  function Offsets(datas: seq<Item>): (r: seq<nat>)
    ensures |r| == |datas|
  {
    if datas == [] then []
    else Offsets(datas[..|datas| - 1]) + [if datas[|datas| - 1].Data? then datas[|datas| - 1].offset else 0]
  }

  function Contents(datas: seq<Item>): seq<byte>
  {
    if datas == [] then []
    else Contents(datas[..|datas| - 1]) + if datas[|datas| - 1].Data? then datas[|datas| - 1].contents else []
  }

  ghost predicate SpansFromZero(xs: seq<Item>)
  {
    forall j :: 0 <= j < |xs| ==> xs[j].span == j
  }

  // The object id has a file of this name and size, of which done is there: index pages
  // 0, 1, .. refer in order to data pages 0, 1, .., which hold done.
  ghost predicate Stored(items: seq<Item>, id: nat, name: string, size: nat, done: seq<byte>)
  {
    Holds(Indexes(items, id), Datas(items, id), name, size, done)
  }

  ghost predicate Holds(ixs: seq<Item>, ds: seq<Item>, name: string, size: nat, done: seq<byte>)
  {
    && ixs != [] && SpansFromZero(ixs) && SpansFromZero(ds)
    && (forall j :: 0 <= j < |ixs| ==> ixs[j].Index? && ixs[j].name == name && ixs[j].size == size)
    && Refs(ixs) == Offsets(ds) && Contents(ds) == done
  }

  // No page mentions the object.
  ghost predicate Absent(items: seq<Item>, id: nat)
  {
    Indexes(items, id) == [] && Datas(items, id) == []
  }

  // ----- writing a page, and writing a reference into an index page -----

  lemma AppendItem(items: seq<Item>, x: Item, id: nat)
    ensures Indexes(items + [x], id) == Indexes(items, id) + (if x.Index? && x.objId == id then [x] else [])
    ensures Datas(items + [x], id) == Datas(items, id) + (if x.Data? && x.objId == id then [x] else [])
    ensures Ids(items + [x]) == Ids(items) + [IdOf(x)]
  {
    assert (items + [x])[..|items|] == items;
  }

  lemma AppendPage(xs: seq<Item>, x: Item)
    ensures Refs(xs + [x]) == Refs(xs) + if x.Index? then x.refs else []
    ensures Offsets(xs + [x]) == Offsets(xs) + [if x.Data? then x.offset else 0]
    ensures Contents(xs + [x]) == Contents(xs) + if x.Data? then x.contents else []
  {
    assert (xs + [x])[..|xs|] == xs;
  }

  function WithRef(x: Item, r: nat): Item
    requires x.Index?
  {
    x.(refs := x.refs + [r], lim := x.lim - 1.0)
  }

  // Position p holds the last index page of the object.
  ghost predicate LastIndex(items: seq<Item>, p: nat, id: nat)
  {
    && p < |items| && items[p].Index? && items[p].objId == id
    && forall t :: p < t < |items| ==> !(items[t].Index? && items[t].objId == id)
  }

  lemma {:induction false} UpdateItem(items: seq<Item>, p: nat, r: nat, id: nat, other: nat)
    requires LastIndex(items, p, id)
    ensures var items', ixs := items[p := WithRef(items[p], r)], Indexes(items, id);
            && Datas(items', other) == Datas(items, other) && Ids(items') == Ids(items)
            && (other != id ==> Indexes(items', other) == Indexes(items, other))
            && ixs != [] && ixs[|ixs| - 1] == items[p]
            && Indexes(items', id) == ixs[|ixs| - 1 := WithRef(items[p], r)]
    decreases |items|
  {
    var items', n := items[p := WithRef(items[p], r)], |items| - 1;
    if p < n {
      UpdateItem(items[..n], p, r, id, other);
      assert items'[..n] == items[..n][p := WithRef(items[p], r)];
    } else {
      assert items'[..n] == items[..n];
    }
  }

  lemma RefsUpdated(ixs: seq<Item>, r: nat)
    requires ixs != [] && ixs[|ixs| - 1].Index?
    ensures Refs(ixs[|ixs| - 1 := WithRef(ixs[|ixs| - 1], r)]) == Refs(ixs) + [r]
  {
    var ixs' := ixs[|ixs| - 1 := WithRef(ixs[|ixs| - 1], r)];
    assert ixs'[..|ixs| - 1] == ixs[..|ixs| - 1];
  }

  lemma IndexAdded(ixs: seq<Item>, ds: seq<Item>, x: Item, name: string, size: nat, done: seq<byte>)
    requires x.Index? && x.name == name && x.size == size && x.refs == [] && x.span == |ixs|
    requires if ixs == [] then ds == [] && done == [] else Holds(ixs, ds, name, size, done)
    ensures Holds(ixs + [x], ds, name, size, done)
  {
    AppendPage(ixs, x);
  }

  lemma DataAdded(ixs: seq<Item>, ds: seq<Item>, x: Item, name: string, size: nat, done: seq<byte>)
    requires Holds(ixs, ds, name, size, done) && x.Data? && x.span == |ds|
    ensures Holds(ixs[|ixs| - 1 := WithRef(ixs[|ixs| - 1], x.offset)], ds + [x], name, size, done + x.contents)
  {
    RefsUpdated(ixs, x.offset);
    AppendPage(ds, x);
    hide Refs, Offsets, Contents;
  }

  function LimitOf(c: Config, span: nat): real
    requires c.blockIxLen > 0
  {
    if span == 0 then c.HeadLimit() as real else c.IndexLimit()
  }

  // The limit counts down, while it is positive, by one for each reference.
  ghost predicate Counted(c: Config, x: Item)
    requires c.blockIxLen > 0
  {
    x.Index? ==> x.lim == LimitOf(c, x.span) - |x.refs| as real && (x.refs == [] || x.lim > -1.0)
  }

  // Bytes before the references.
  function IndexHeader(c: Config, span: nat): nat
  {
    c.DataHeader() + c.Padding() + if span == 0 then 4 + 1 + c.nameLen + c.metaLen else 0
  }

  // Every index page of the span that the counting allows fits into a page.
  ghost predicate IndexesFit(c: Config, span: nat)
    requires c.blockIxLen > 0
  {
    forall x: Item :: x.Index? && x.span == span && Counted(c, x) ==> Fits(c, x)
  }

  // The header and the references do not exceed the page.
  predicate Fits(c: Config, x: Item)
    requires x.Index?
  {
    IndexHeader(c, x.span) + |x.refs| * c.pageIxLen <= c.pageSize
  }

  // The most references that the counting allows: a limit that is not whole is rounded up.
  function MostRefs(c: Config, span: nat): int
    requires c.blockIxLen > 0
  {
    var room := c.pageSize - IndexHeader(c, span);
    if span == 0 then room / c.blockIxLen else -((-room) / c.blockIxLen)
  }

  lemma MostRefsIs(c: Config, span: nat, n: nat)
    requires Sane(c) && IndexHeader(c, span) <= c.pageSize
    ensures LimitOf(c, span) - n as real > -1.0 <==> n <= MostRefs(c, span)
    ensures MostRefs(c, span) >= 0
  {
    var room, d := c.pageSize - IndexHeader(c, span), c.blockIxLen;
    if span > 0 {
      var q, r := (-room) / d, (-room) % d;
      assert -room == q * d + r;
      Above(room, d, q, r);
    }
    CountsUpTo(LimitOf(c, span), MostRefs(c, span), n);
  }

  lemma CountsUpTo(limit: real, most: int, n: nat)
    requires most as real - 1.0 < limit <= most as real
    ensures limit - n as real > -1.0 <==> n <= most
  {
  }

  lemma Above(room: int, d: int, q: int, r: int)
    requires 0 <= r < d && room >= 0 && -room == q * d + r
    ensures -q >= 0 && (-q - 1) as real < room as real / d as real <= (-q) as real
  {
    assert room == -q * d - r;
    if q > 0 {
      MulMonotone(1, q, d);
    }
    Scaled(-q, d);
    BetweenMultiples(room as real / d as real, (-q) as real, d as real, r as real);
  }

  lemma Scaled(k: int, d: int)
    ensures (k * d) as real == k as real * d as real
  {
  }

  lemma BetweenMultiples(x: real, k: real, y: real, r: real)
    requires 0.0 <= r < y && x * y == k * y - r
    ensures k - 1.0 < x <= k
  {
    assert (k - 1.0) * y == k * y - y;
    Cancel(x, k, y);
    Cancel(k - 1.0, x, y);
  }

  lemma Cancel(a: real, b: real, k: real)
    requires k > 0.0
    ensures a * k <= b * k <==> a <= b
    ensures a * k < b * k <==> a < b
  {
  }

  // Index pages fit exactly when the most references do.
  lemma IndexPagesExact(c: Config, span: nat)
    requires Sane(c) && IndexHeader(c, span) <= c.pageSize
    ensures IndexesFit(c, span) <==> IndexHeader(c, span) + MostRefs(c, span) * c.pageIxLen <= c.pageSize
  {
    hide MostRefs, LimitOf, IndexHeader;
    var most := MostRefs(c, span);
    MostRefsIs(c, span, 0);
    MostRefsIs(c, span, most);
    var full := Index(0, span, 0, "", Repeat(0, most), LimitOf(c, span) - most as real);
    assert Counted(c, full);
    if Fits(c, full) {
      forall x: Item | x.Index? && x.span == span && Counted(c, x) ensures Fits(c, x) {
        if x.refs == [] {
          assert |x.refs| * c.pageIxLen == 0;
        } else {
          MostRefsIs(c, span, |x.refs|);
          MulMonotone(|x.refs|, most, c.pageIxLen);
        }
      }
    }
  }

  // With references as long as the limit reckons them to be, head pages always fit. Other
  // pages do exactly when the room for references is a whole number of them.
  lemma IndexPagesFit(c: Config, span: nat)
    requires Sane(c) && IndexHeader(c, span) <= c.pageSize && c.pageIxLen == c.blockIxLen
    ensures IndexesFit(c, span) <==> span == 0 || (c.pageSize - IndexHeader(c, 1)) % c.blockIxLen == 0
  {
    hide IndexesFit;
    IndexPagesExact(c, span);
    var room, d := c.pageSize - IndexHeader(c, span), c.blockIxLen;
    if span == 0 {
      DownFits(room, d);
    } else {
      UpFits(room, d);
    }
  }

  lemma DownFits(room: int, d: int)
    requires d > 0
    ensures room / d * d <= room
  {
    assert room == room / d * d + room % d;
  }

  lemma UpFits(room: int, d: int)
    requires d > 0
    ensures -((-room) / d) * d <= room <==> room % d == 0
  {
    var q, r := (-room) / d, (-room) % d;
    assert -room == q * d + r && room == -q * d - r;
    if r == 0 {
      DivModUnique(room, -q, d, 0);
    } else {
      DivModUnique(room, -q - 1, d, d - r);
    }
  }

  // A new index page continues the object.
  lemma IndexWritten(items: seq<Item>, x: Item, id: nat, name: string, size: nat, done: seq<byte>)
    requires x.Index? && x.objId == id && x.name == name && x.size == size && x.refs == []
    requires if x.span == 0 then Absent(items, id) && done == []
             else Stored(items, id, name, size, done) && x.span == |Indexes(items, id)|
    ensures Stored(items + [x], id, name, size, done) && |Indexes(items + [x], id)| == x.span + 1
    ensures |Datas(items + [x], id)| == |Datas(items, id)|
    ensures LastIndex(items + [x], |items|, id)
  {
    AppendItem(items, x, id);
    assert Datas(items + [x], id) == Datas(items, id);
    IndexAdded(Indexes(items, id), Datas(items, id), x, name, size, done);
  }

  // A data page, and its reference in the index page at p, continue the object.
  lemma DataWritten(items: seq<Item>, p: nat, x: Item, id: nat, name: string, size: nat, done: seq<byte>)
    requires x.Data? && x.objId == id && LastIndex(items, p, id)
    requires Stored(items, id, name, size, done) && x.span == |Datas(items, id)|
    ensures var items' := items[p := WithRef(items[p], x.offset)] + [x];
            && Stored(items', id, name, size, done + x.contents)
            && |Datas(items', id)| == x.span + 1 && |Indexes(items', id)| == |Indexes(items, id)|
            && LastIndex(items', p, id)
  {
    UpdateItem(items, p, x.offset, id, id);
    var updated := items[p := WithRef(items[p], x.offset)];
    AppendItem(updated, x, id);
    assert Indexes(updated + [x], id) == Indexes(updated, id);
    DataAdded(Indexes(items, id), Datas(items, id), x, name, size, done);
  }

  // Other objects do not notice.
  lemma OthersKept(items: seq<Item>, p: nat, r: nat, x: Item, id: nat, other: nat)
    requires other != id && LastIndex(items, p, id) && x.objId == id
    ensures var items' := items[p := WithRef(items[p], r)] + [x];
            Indexes(items', other) == Indexes(items, other) && Datas(items', other) == Datas(items, other)
  {
    UpdateItem(items, p, r, id, other);
    AppendItem(items[p := WithRef(items[p], r)], x, other);
  }
}
