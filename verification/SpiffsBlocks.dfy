// The blocks of a SPIFFS image: their pages one after another, the ids in their lookup
// pages, and where a page lies in the image.
module SpiffsBlocks {
  import opened Bytes
  import opened Powers
  import opened SpiffsImage

  datatype Option<T> = None | Some(value: T)

  // The object being written: its id, its next span numbers, and the block and the place
  // in it of its current index page.
  datatype Cursor = Cursor(objId: nat, indexSpan: nat, dataSpan: nat, idx: Option<(nat, nat)>)

  const NO_OBJECT := Cursor(0, 0, 0, None)

  // lookups are the lookup pages, lu is the one in use; items are the other pages.
  datatype Block = Block(lookups: seq<seq<Id>>, lu: nat, items: seq<Item>, remaining: int, cur: Cursor)

  // ----- lookup pages -----

  function Joined(ls: seq<seq<Id>>): seq<Id>
  {
    if ls == [] then [] else Joined(ls[..|ls| - 1]) + ls[|ls| - 1]
  }

  lemma {:induction false} JoinedAdd(ls: seq<seq<Id>>, p: nat, id: Id)
    requires p < |ls| && forall i :: p < i < |ls| ==> ls[i] == []
    ensures Joined(ls[p := ls[p] + [id]]) == Joined(ls) + [id]
    decreases |ls|
  {
    var ls', n := ls[p := ls[p] + [id]], |ls| - 1;
    if p < n {
      JoinedAdd(ls[..n], p, id);
      assert ls'[..n] == ls[..n][p := ls[p] + [id]];
      assert ls'[n] == ls[n] == [];
    } else {
      assert ls'[..n] == ls[..n];
      Regroup(Joined(ls[..n]), ls[n], [id]);
    }
  }

  // Full pages, then the one in use, then empty ones.
  ghost predicate FilledUpTo(ls: seq<seq<Id>>, lu: nat, limit: nat)
  {
    && lu < |ls| && |ls[lu]| <= limit
    && (forall i :: 0 <= i < lu ==> |ls[i]| == limit) && (forall i :: lu < i < |ls| ==> ls[i] == [])
  }

  lemma {:induction false} JoinedLength(ls: seq<seq<Id>>, lu: nat, limit: nat)
    requires FilledUpTo(ls, lu, limit)
    ensures |Joined(ls)| == lu * limit + |ls[lu]|
    decreases |ls|
  {
    var n := |ls| - 1;
    if lu < n {
      JoinedLength(ls[..n], lu, limit);
    } else if n > 0 {
      JoinedLength(ls[..n], lu - 1, limit);
      Distribute(lu - 1, 1, limit);
    } else {
      assert ls[..0] == [];
    }
  }

  // ----- blocks -----

  function Offset(c: Config, bix: nat, i: nat): nat
    requires Sane(c)
  {
    LookupRoom(c);
    bix * c.blockSize + (c.LookupPages() + i) * c.pageSize
  }

  ghost predicate WellKept(c: Config, b: Block, bix: nat)
    requires Sane(c)
  {
    && |b.lookups| == c.LookupPages() && FilledUpTo(b.lookups, b.lu, c.LookupIds())
    && Joined(b.lookups) == Ids(b.items)
    && b.remaining == c.UsablePages() - |b.items| && (b.items != [] ==> b.remaining >= 0)
    && (forall i :: 0 <= i < |b.items| && b.items[i].Data? ==> b.items[i].offset == Offset(c, bix, i))
    && (forall i :: 0 <= i < |b.items| ==> Counted(c, b.items[i]))
  }

  ghost predicate AllKept(c: Config, blocks: seq<Block>)
    requires Sane(c)
  {
    forall k :: 0 <= k < |blocks| ==> WellKept(c, blocks[k], k)
  }

  lemma NewBlockKept(c: Config, bix: nat)
    requires Sane(c)
    ensures c.LookupPages() > 0
    ensures WellKept(c, Block(Repeat([], c.LookupPages()), 0, [], c.UsablePages(), NO_OBJECT), bix)
  {
    LookupRoom(c);
    JoinedEmpty(c.LookupPages());
    RepeatAt<seq<Id>>([], c.LookupPages());
  }

  lemma {:induction false} JoinedEmpty(n: nat)
    ensures Joined(Repeat([], n)) == []
  {
    if n > 0 {
      RepeatSplit<seq<Id>>([], n - 1, 1);
      JoinedEmpty(n - 1);
      var ls: seq<seq<Id>> := Repeat([], n);
      assert ls[..n - 1] == Repeat([], n - 1) && ls[n - 1] == [];
    }
  }

  // ----- all pages of the image that are not lookup pages, in order -----

  function Flat(blocks: seq<Block>): seq<Item>
  {
    if blocks == [] then [] else Flat(blocks[..|blocks| - 1]) + blocks[|blocks| - 1].items
  }

  function FlatIndex(blocks: seq<Block>, b: nat, i: nat): nat
    requires b < |blocks|
  {
    |Flat(blocks[..b])| + i
  }

  lemma {:induction false} FlatAt(blocks: seq<Block>, b: nat, i: nat)
    requires b < |blocks| && i < |blocks[b].items|
    ensures FlatIndex(blocks, b, i) < |Flat(blocks)| && Flat(blocks)[FlatIndex(blocks, b, i)] == blocks[b].items[i]
    decreases |blocks|
  {
    var n := |blocks| - 1;
    if b < n {
      FlatAt(blocks[..n], b, i);
      assert blocks[..n][..b] == blocks[..b];
    }
  }

  lemma {:induction false} FlatSet(blocks: seq<Block>, b: nat, i: nat, x: Item, block: Block)
    requires b < |blocks| && i < |blocks[b].items| && block.items == blocks[b].items[i := x]
    ensures FlatIndex(blocks, b, i) < |Flat(blocks)|
    ensures Flat(blocks[b := block]) == Flat(blocks)[FlatIndex(blocks, b, i) := x]
    decreases |blocks|
  {
    var n, changed := |blocks| - 1, blocks[b := block];
    FlatAt(blocks, b, i);
    if b < n {
      FlatSet(blocks[..n], b, i, x, block);
      FlatAt(blocks[..n], b, i);
      assert changed[..n] == blocks[..n][b := block] && changed[n] == blocks[n];
      assert blocks[..n][..b] == blocks[..b];
    } else {
      assert changed[..n] == blocks[..n];
    }
  }

  // A page goes to the end of the last block.
  lemma FlatAppend(blocks: seq<Block>, x: Item, block: Block)
    requires blocks != [] && block.items == blocks[|blocks| - 1].items + [x]
    ensures Flat(blocks[|blocks| - 1 := block]) == Flat(blocks) + [x]
    ensures FlatIndex(blocks[|blocks| - 1 := block], |blocks| - 1, |block.items| - 1) == |Flat(blocks)|
    ensures forall b, i: nat :: 0 <= b < |blocks| ==>
              FlatIndex(blocks[|blocks| - 1 := block], b, i) == FlatIndex(blocks, b, i)
  {
    hide Flat;
    var n := |blocks| - 1;
    FlatLast(blocks);
    FlatLast(blocks[n := block]);
    assert blocks[n := block][..n] == blocks[..n];
    Regroup(Flat(blocks[..n]), blocks[n].items, [x]);
    forall b, i: nat | 0 <= b < |blocks| ensures FlatIndex(blocks[n := block], b, i) == FlatIndex(blocks, b, i) {
      assert blocks[n := block][..b] == blocks[..b];
    }
  }

  lemma FlatLast(blocks: seq<Block>)
    requires blocks != []
    ensures Flat(blocks) == Flat(blocks[..|blocks| - 1]) + blocks[|blocks| - 1].items
  {
  }

  // Changing how a block is kept, but not its pages, changes nothing.
  lemma FlatSame(blocks: seq<Block>, block: Block)
    requires blocks != [] && block.items == blocks[|blocks| - 1].items
    ensures Flat(blocks[|blocks| - 1 := block]) == Flat(blocks)
    ensures forall b, i: nat :: 0 <= b < |blocks| ==>
              FlatIndex(blocks[|blocks| - 1 := block], b, i) == FlatIndex(blocks, b, i)
  {
    var n := |blocks| - 1;
    assert blocks[n := block][..n] == blocks[..n];
    forall b, i: nat | 0 <= b < |blocks| ensures FlatIndex(blocks[n := block], b, i) == FlatIndex(blocks, b, i) {
      assert blocks[n := block][..b] == blocks[..b];
    }
  }

  lemma FlatNew(blocks: seq<Block>, block: Block)
    requires block.items == []
    ensures Flat(blocks + [block]) == Flat(blocks)
    ensures forall b, i: nat :: 0 <= b < |blocks| ==> FlatIndex(blocks + [block], b, i) == FlatIndex(blocks, b, i)
  {
    assert (blocks + [block])[..|blocks|] == blocks;
    forall b, i: nat | 0 <= b < |blocks| ensures FlatIndex(blocks + [block], b, i) == FlatIndex(blocks, b, i) {
      assert (blocks + [block])[..b] == blocks[..b];
    }
  }

  // An update in some block does not move pages.
  lemma {:induction false} FlatIndexSame(blocks: seq<Block>, b: nat, block: Block, b': nat, i: nat)
    requires b < |blocks| && |block.items| == |blocks[b].items| && b' < |blocks|
    ensures FlatIndex(blocks[b := block], b', i) == FlatIndex(blocks, b', i)
  {
    FlatLengthSame(blocks, b, block, b');
  }

  lemma {:induction false} FlatLengthSame(blocks: seq<Block>, b: nat, block: Block, n: nat)
    requires b < |blocks| && |block.items| == |blocks[b].items| && n <= |blocks|
    ensures |Flat(blocks[b := block][..n])| == |Flat(blocks[..n])|
  {
    if n > 0 {
      FlatLengthSame(blocks, b, block, n - 1);
      assert blocks[b := block][..n][..n - 1] == blocks[b := block][..n - 1];
      assert blocks[..n][..n - 1] == blocks[..n - 1];
    }
  }

  // ----- reading -----

  // The page at a byte offset into the image.
  function PageAt(c: Config, blocks: seq<Block>, offset: nat): Option<Item>
    requires Sane(c)
  {
    var page := Quotient(offset, c.pageSize);
    if c.Pages() == 0 then None
    else
      var bix, i := Quotient(page, c.Pages()), Remainder(page, c.Pages()) - c.LookupPages();
      if bix < |blocks| && 0 <= i < |blocks[bix].items| then Some(blocks[bix].items[i]) else None
  }

  // A data page is found where its offset says.
  lemma PageFound(c: Config, blocks: seq<Block>, bix: nat, i: nat)
    requires Sane(c) && AllKept(c, blocks) && bix < |blocks| && i < |blocks[bix].items|
    ensures PageAt(c, blocks, Offset(c, bix, i)) == Some(blocks[bix].items[i])
  {
    hide Offset, Product, Quotient, Remainder, Config.Pages, Config.LookupPages;
    OffsetIs(c, bix, i);
    PageInBlock(c, blocks[bix], bix, i);
    Located(bix, c.blockSize, c.LookupPages() + i, c.pageSize);
    BlockPages(c);
  }

  lemma OffsetIs(c: Config, bix: nat, i: nat)
    requires Sane(c)
    ensures c.LookupPages() > 0
            && Offset(c, bix, i) == Product(bix, c.blockSize) + Product(c.LookupPages() + i, c.pageSize)
  {
    LookupRoom(c);
    hide Config.LookupPages;
  }

  lemma BlockPages(c: Config)
    requires Sane(c)
    ensures c.Pages() == Quotient(c.blockSize, c.pageSize)
  {
  }

  lemma PageInBlock(c: Config, b: Block, bix: nat, i: nat)
    requires Sane(c) && WellKept(c, b, bix) && i < |b.items|
    ensures c.LookupPages() + i < Quotient(c.blockSize, c.pageSize)
  {
  }

  // Page j of block bix, in pages and in blocks.
  lemma Located(bix: nat, block: nat, j: nat, size: nat)
    requires size > 0 && block % size == 0 && j < Quotient(block, size)
    ensures var offset, p := Product(bix, block) + Product(j, size), Quotient(block, size);
            Quotient(Quotient(offset, size), p) == bix && Remainder(Quotient(offset, size), p) == j
  {
    var p := block / size;
    assert block == p * size;
    Triple(bix, p, size);
    Distribute(bix * p, j, size);
    DivModUnique(bix * block + j * size, bix * p + j, size, 0);
    DivModUnique(bix * p + j, bix, p, j);
  }

  // What following references yields.
  function ReadRefs(c: Config, blocks: seq<Block>, refs: seq<nat>): seq<byte>
    requires Sane(c)
  {
    if refs == [] then []
    else
      var page := PageAt(c, blocks, refs[|refs| - 1]);
      ReadRefs(c, blocks, refs[..|refs| - 1]) + if page.Some? && page.value.Data? then page.value.contents else []
  }

  // Reading an object: its index pages in order, and their references in order.
  function ReadObject(c: Config, blocks: seq<Block>, id: nat): seq<byte>
    requires Sane(c)
  {
    ReadRefs(c, blocks, Refs(Indexes(Flat(blocks), id)))
  }

  lemma {:induction false} RefsRead(c: Config, blocks: seq<Block>, ds: seq<Item>)
    requires Sane(c) && forall j :: 0 <= j < |ds| ==> ds[j].Data? && PageAt(c, blocks, ds[j].offset) == Some(ds[j])
    ensures ReadRefs(c, blocks, Offsets(ds)) == Contents(ds)
    decreases |ds|
  {
    if ds != [] {
      var n := |ds| - 1;
      RefsRead(c, blocks, ds[..n]);
      assert Offsets(ds)[..n] == Offsets(ds[..n]);
    }
  }

  lemma {:induction false} FlatFind(blocks: seq<Block>, t: nat) returns (b: nat, i: nat)
    requires t < |Flat(blocks)|
    ensures b < |blocks| && i < |blocks[b].items| && blocks[b].items[i] == Flat(blocks)[t]
    decreases |blocks|
  {
    var n := |blocks| - 1;
    var before := Flat(blocks[..n]);
    if t < |before| {
      b, i := FlatFind(blocks[..n], t);
    } else {
      b, i := n, t - |before|;
    }
  }

  lemma {:induction false} DatasIn(items: seq<Item>, id: nat, j: nat) returns (t: nat)
    requires j < |Datas(items, id)|
    ensures t < |items| && items[t] == Datas(items, id)[j] && items[t].Data?
    decreases |items|
  {
    var n := |items| - 1;
    if j < |Datas(items[..n], id)| {
      t := DatasIn(items[..n], id, j);
    } else {
      t := n;
    }
  }

  // A stored object reads back as what was stored.
  lemma StoredReads(c: Config, blocks: seq<Block>, id: nat, name: string, size: nat, done: seq<byte>)
    requires Sane(c) && AllKept(c, blocks) && Stored(Flat(blocks), id, name, size, done)
    ensures ReadObject(c, blocks, id) == done
  {
    var ds := Datas(Flat(blocks), id);
    forall j | 0 <= j < |ds| ensures ds[j].Data? && PageAt(c, blocks, ds[j].offset) == Some(ds[j]) {
      var t := DatasIn(Flat(blocks), id, j);
      var b, i := FlatFind(blocks, t);
      assert WellKept(c, blocks[b], b);
      PageFound(c, blocks, b, i);
    }
    hide PageAt, AllKept;
    RefsRead(c, blocks, ds);
  }

  // Every page's id is in the lookup pages of its block.
  lemma LookupsComplete(c: Config, blocks: seq<Block>, b: nat)
    requires Sane(c) && AllKept(c, blocks) && b < |blocks|
    ensures |Joined(blocks[b].lookups)| == |blocks[b].items|
    ensures forall i :: 0 <= i < |blocks[b].items| ==> Joined(blocks[b].lookups)[i] == IdOf(blocks[b].items[i])
  {
    assert WellKept(c, blocks[b], b);
    IdsAt(blocks[b].items);
  }

  lemma {:induction false} IdsAt(items: seq<Item>)
    ensures forall i :: 0 <= i < |items| ==> Ids(items)[i] == IdOf(items[i])
  {
    if items != [] {
      IdsAt(items[..|items| - 1]);
    }
  }
}
