// The SPIFFS image builder: files are written page by page into blocks, with a new index
// page when the current one is full and a new block when the current one is.
module Spiffs {
  import opened Bytes
  import opened Powers
  import opened SpiffsImage
  import opened SpiffsBlocks

  datatype File = File(name: string, contents: seq<byte>)

  datatype Result = Created | NameTooLong | Full

  ghost predicate FilesIn(flat: seq<Item>, files: seq<File>, from: nat)
  {
    && (forall k :: 0 <= k < |files| ==> Stored(flat, k + 1, files[k].name, |files[k].contents|, files[k].contents))
    && (forall id :: id >= from ==> Absent(flat, id))
  }

  // Only the last block has room.
  ghost predicate Packed(blocks: seq<Block>)
  {
    forall k :: 0 <= k < |blocks| - 1 ==> blocks[k].remaining <= 0
  }

  // No page of the image is left: the limit is reached and every block is full. (Blocks of
  // lookup pages only have no room to begin with.)
  ghost predicate ImageFull(c: Config, blocks: seq<Block>, limit: nat)
    requires Sane(c)
  {
    c.UsablePages() <= 0 || (|blocks| == limit && forall k :: 0 <= k < |blocks| ==> blocks[k].remaining <= 0)
  }

  function Room(blocks: seq<Block>): nat
  {
    if blocks == [] || blocks[|blocks| - 1].remaining < 0 then 0 else blocks[|blocks| - 1].remaining
  }

  // The cursor counts the object's pages and points to its last index page.
  ghost predicate CursorAt(blocks: seq<Block>, cur: Cursor, id: nat)
  {
    && cur.objId == id && cur.indexSpan == |Indexes(Flat(blocks), id)| && cur.dataSpan == |Datas(Flat(blocks), id)|
    && cur.idx.Some? && cur.idx.value.0 < |blocks| && cur.idx.value.1 < |blocks[cur.idx.value.0].items|
    && LastIndex(Flat(blocks), FlatIndex(blocks, cur.idx.value.0, cur.idx.value.1), id)
  }

  ghost predicate SameFor(flat: seq<Item>, flat': seq<Item>, id: nat)
  {
    Indexes(flat', id) == Indexes(flat, id) && Datas(flat', id) == Datas(flat, id)
  }

  lemma FilesSame(flat: seq<Item>, flat': seq<Item>, files: seq<File>, from: nat)
    requires FilesIn(flat, files, from) && from <= |files| + 2
    requires forall id: nat :: id != |files| + 1 ==> SameFor(flat, flat', id)
    ensures FilesIn(flat', files, |files| + 2)
  {
    forall k | 0 <= k < |files|
      ensures Stored(flat', k + 1, files[k].name, |files[k].contents|, files[k].contents)
    {
      assert SameFor(flat, flat', k + 1);
    }
    forall id: nat | id >= |files| + 2 ensures Absent(flat', id) {
      assert SameFor(flat, flat', id) && Absent(flat, id);
    }
  }

  lemma OthersAppend(flat: seq<Item>, files: seq<File>, from: nat, x: Item)
    requires FilesIn(flat, files, from) && from <= |files| + 2 && x.objId == |files| + 1
    ensures FilesIn(flat + [x], files, |files| + 2)
  {
    forall id: nat | id != |files| + 1 ensures SameFor(flat, flat + [x], id) {
      AppendItem(flat, x, id);
    }
    FilesSame(flat, flat + [x], files, from);
  }

  lemma OthersData(flat: seq<Item>, files: seq<File>, p: nat, x: Item)
    requires FilesIn(flat, files, |files| + 2) && x.Data? && x.objId == |files| + 1 && LastIndex(flat, p, |files| + 1)
    ensures FilesIn(flat[p := WithRef(flat[p], x.offset)] + [x], files, |files| + 2)
  {
    var flat' := flat[p := WithRef(flat[p], x.offset)] + [x];
    forall id: nat | id != |files| + 1 ensures SameFor(flat, flat', id) {
      OthersKept(flat, p, x.offset, x, |files| + 1, id);
    }
    FilesSame(flat, flat', files, |files| + 2);
  }

  // Writing a reference into an index page keeps its block in order.
  lemma RefKept(c: Config, b: Block, bix: nat, i: nat, r: nat)
    requires Sane(c) && WellKept(c, b, bix) && i < |b.items| && b.items[i].Index? && b.items[i].lim > 0.0
    ensures WellKept(c, b.(items := b.items[i := WithRef(b.items[i], r)]), bix)
  {
    IdsSame(b.items, i, WithRef(b.items[i], r));
  }

  lemma {:induction false} IdsSame(items: seq<Item>, i: nat, x: Item)
    requires i < |items| && IdOf(x) == IdOf(items[i])
    ensures Ids(items[i := x]) == Ids(items)
    decreases |items|
  {
    var n := |items| - 1;
    if i < n {
      IdsSame(items[..n], i, x);
      assert items[i := x][..n] == items[..n][i := x];
    } else {
      assert items[i := x][..n] == items[..n];
    }
  }

  class SpiffsFS {
    const c: Config
    const blocksLim: nat
    var blocks: seq<Block>
    var remainingBlocks: int
    var curObjId: nat
    ghost var files: seq<File>     // object k + 1 is files[k]

    // The blocks are well formed and their number is within the limit.
    ghost predicate Kept()
      reads this
    {
      Sane(c) && AllKept(c, blocks) && Packed(blocks) && remainingBlocks == blocksLim - |blocks| >= 0
    }

    // The files written so far can be read, and nothing is there for the ids to come.
    ghost predicate FilesStored(from: nat)
      reads this
    {
      curObjId == |files| + 1 && FilesIn(Flat(blocks), files, from)
    }

    // The part of a file that is written so far can be read, and the last block's cursor
    // tells how to go on.
    ghost predicate Writing(name: string, size: nat, done: seq<byte>)
      reads this
    {
      && Kept() && blocks != [] && FilesStored(curObjId + 1) && Stored(Flat(blocks), curObjId, name, size, done)
      && CursorAt(blocks, blocks[|blocks| - 1].cur, curObjId)
    }

    ghost predicate Valid()
      reads this
    {
      Kept() && FilesStored(curObjId)
    }

    constructor (c: Config, imgSize: nat)
      requires Sane(c) && imgSize % c.blockSize == 0
      ensures Valid() && files == [] && blocks == [] && this.c == c && blocksLim == imgSize / c.blockSize
    {
      this.c := c;
      var lim: nat := Quotient(imgSize, c.blockSize);
      blocksLim := lim;
      blocks, remainingBlocks, curObjId, files := [], lim, 1, [];
    }

    // Only a block beyond the size of the image is refused.
    method CreateBlock() returns (ok: bool)
      requires Kept() && (blocks != [] ==> blocks[|blocks| - 1].remaining <= 0)
      modifies `blocks, `remainingBlocks
      ensures Kept() && ok == (old(remainingBlocks) > 0)
      ensures !ok ==> blocks == old(blocks) && remainingBlocks == old(remainingBlocks)
      ensures ok ==>
                && remainingBlocks == old(remainingBlocks) - 1 && |blocks| == |old(blocks)| + 1
                && blocks[..|blocks| - 1] == old(blocks)
                && blocks[|blocks| - 1].items == [] && blocks[|blocks| - 1].remaining == c.UsablePages()
      ensures Flat(blocks) == Flat(old(blocks))
      ensures forall b, i: nat :: 0 <= b < |old(blocks)| ==> FlatIndex(blocks, b, i) == FlatIndex(old(blocks), b, i)
    {
      if remainingBlocks <= 0 {
        return false;
      }
      LookupRoom(c);
      NewBlockKept(c, |blocks|);
      var block := Block(Repeat([], c.LookupPages()), 0, [], c.UsablePages(), NO_OBJECT);
      FlatNew(blocks, block);
      blocks := blocks + [block];
      remainingBlocks := remainingBlocks - 1;
      ok := true;
    }

    // Starts an object, or a further index page of it, in the last block.
    method BeginObj(objId: nat, size: nat, name: string, indexSpan: nat, dataSpan: nat) returns (ok: bool)
      requires Kept() && blocks != []
      modifies `blocks
      ensures Kept() && ok == (old(blocks)[|old(blocks)| - 1].remaining > 0) && |blocks| == |old(blocks)|
      ensures !ok ==> blocks == old(blocks)
      ensures ok ==> Begun(c, old(blocks), blocks, objId, size, name, indexSpan, dataSpan)
    {
      hide WellKept, Sane;
      var n := |blocks| - 1;
      var last := blocks[n];
      if !(last.remaining > 0) {
        return false;
      }
      IxLen(c);
      var lim := if indexSpan == 0 then c.HeadLimit() as real else c.IndexLimit();
      var page := Index(objId, indexSpan, size, name, [], lim);
      var block := RegisterId(c, n, last, page);
      block := block.(cur := Cursor(objId, indexSpan + 1, dataSpan, Some((n, |last.items|))));
      FlatAppend(blocks, page, block);
      CursorFree(c, block, n);
      blocks := blocks[n := block];
      ok := true;
    }

    // Writes a data page to the last block and its offset into the current index page. It
    // fails when the block is full or when the index page is.
    method UpdateObj(contents: seq<byte>) returns (ok: bool)
      requires Kept() && blocks != [] && Pointed(blocks)
      modifies `blocks
      ensures Kept() && |blocks| == |old(blocks)|
      ensures ok == (old(blocks)[|old(blocks)| - 1].remaining > 0 && CurrentIndex(old(blocks)).lim > 0.0)
      ensures !ok ==> blocks == old(blocks)
      ensures ok ==> Updated(c, old(blocks), blocks, contents)
    {
      hide WellKept, Sane, Flat;
      var n := |blocks| - 1;
      var last := blocks[n];
      if !(last.remaining > 0) {
        return false;
      }
      LookupCount(c, last, n);
      var offset: nat := n * c.blockSize + (|last.lookups| + |last.items|) * c.pageSize;
      var page := Data(last.cur.objId, last.cur.dataSpan, contents, offset);
      var b, i := last.cur.idx.value.0, last.cur.idx.value.1;
      var index := blocks[b].items[i];
      if !(index.lim > 0.0) {
        return false;
      }
      var updated := blocks[b].(items := blocks[b].items[i := WithRef(index, offset)]);
      FlatSet(blocks, b, i, WithRef(index, offset), updated);
      FlatAt(blocks, b, i);
      FlatIndexSame(blocks, b, updated, b, i);
      RefKept(c, blocks[b], b, i, offset);
      ghost var before := blocks;
      blocks := blocks[b := updated];
      IxLen(c);
      var block := RegisterId(c, n, blocks[n], page);
      block := block.(cur := last.cur.(dataSpan := last.cur.dataSpan + 1));
      CursorFree(c, block, n);
      FlatAppend(blocks, page, block);
      blocks := blocks[n := block];
      ok := true;
    }

    // Goes on in a new block, with the same index page.
    method ContinueInNewBlock(ghost name: string, ghost size: nat, ghost done: seq<byte>) returns (ok: bool)
      requires Writing(name, size, done) && blocks[|blocks| - 1].remaining <= 0
      modifies `blocks, `remainingBlocks
      ensures ok == (old(remainingBlocks) > 0) && (!ok ==> ImageFull(c, blocks, blocksLim))
      ensures ok ==> Writing(name, size, done) && remainingBlocks == old(remainingBlocks) - 1
    {
      hide WellKept, Sane, Flat, Stored, FilesIn, LastIndex;
      var prev := blocks[|blocks| - 1];
      ghost var before := blocks;
      ok := CreateBlock();
      if !ok {
        return;
      }
      var n := |blocks| - 1;
      var block := blocks[n].(cur := prev.cur);
      CursorFree(c, blocks[n], n);
      FlatSame(blocks, block);
      assert blocks[..n][prev.cur.idx.value.0] == before[prev.cur.idx.value.0];
      blocks := blocks[n := block];
    }

    // Goes on with a new index page in the same block.
    method ContinueIndex(name: string, size: nat, ghost done: seq<byte>)
      requires Writing(name, size, done) && blocks[|blocks| - 1].remaining > 0
      modifies `blocks
      ensures Writing(name, size, done) && |blocks| == |old(blocks)|
      ensures blocks[|blocks| - 1].remaining == old(blocks)[|old(blocks)| - 1].remaining - 1
    {
      hide WellKept, Sane, Flat, FilesIn, LastIndex, FlatIndex, Indexes, Datas, Holds;
      var cur := blocks[|blocks| - 1].cur;
      ghost var before := blocks;
      StoredHasIndex(Flat(blocks), curObjId, name, size, done);
      var ok := BeginObj(curObjId, size, name, cur.indexSpan, cur.dataSpan);
      ghost var lim: real :| Flat(blocks) == Flat(before) + [Index(curObjId, cur.indexSpan, size, name, [], lim)];
      ghost var page := Index(curObjId, cur.indexSpan, size, name, [], lim);
      IndexWritten(Flat(before), page, curObjId, name, size, done);
      OthersAppend(Flat(before), files, curObjId + 1, page);
    }

    // Writes a piece of the file.
    method WriteChunk(contents: seq<byte>, ghost name: string, ghost size: nat, ghost done: seq<byte>)
      returns (ok: bool)
      requires Writing(name, size, done)
      modifies `blocks
      ensures |blocks| == |old(blocks)| && (!ok ==> blocks == old(blocks))
      ensures ok ==> Writing(name, size, done + contents)
      ensures ok ==> blocks[|blocks| - 1].remaining == old(blocks)[|old(blocks)| - 1].remaining - 1 >= 0
    {
      hide WellKept, Sane, Flat, FilesIn, FlatIndex, Indexes, Datas, Holds, Stored;
      ghost var before, cur := blocks, blocks[|blocks| - 1].cur;
      CursorPoints(blocks, cur, curObjId);
      ok := UpdateObj(contents);
      if ok {
        ghost var p := FlatIndex(before, cur.idx.value.0, cur.idx.value.1);
        ghost var offset: nat :|
          Flat(blocks)
            == Flat(before)[p := WithRef(Flat(before)[p], offset)] + [Data(curObjId, cur.dataSpan, contents, offset)];
        ghost var page := Data(curObjId, cur.dataSpan, contents, offset);
        DataWritten(Flat(before), p, page, curObjId, name, size, done);
        OthersData(Flat(before), files, p, page);
      }
    }

    // Starts a file.
    method BeginFile(name: string, size: nat) returns (ok: bool)
      requires Valid()
      modifies `blocks, `remainingBlocks
      ensures Sane(c) && (ok ==> Writing(name, size, [])) && (!ok ==> ImageFull(c, blocks, blocksLim))
    {
      hide WellKept, Sane, Flat, LastIndex, FlatIndex, Indexes, Datas, Holds, FilesIn, Absent;
      ghost var before := blocks;
      AbsentNow(Flat(blocks), files, curObjId);
      ok := false;
      if |blocks| > 0 {
        ok := BeginObj(curObjId, size, name, 0, 0);
      }
      if !ok {
        ok := CreateBlock();
        if !ok {
          return;
        }
        before := blocks;
        ok := BeginObj(curObjId, size, name, 0, 0);
        if !ok {
          return;
        }
      }
      ghost var lim: real :| Flat(blocks) == Flat(before) + [Index(curObjId, 0, size, name, [], lim)];
      ghost var page := Index(curObjId, 0, size, name, [], lim);
      AbsentCounts(Flat(before), curObjId);
      IndexWritten(Flat(before), page, curObjId, name, size, []);
      OthersAppend(Flat(before), files, curObjId, page);
    }

    // Writes a file. Each round of the loop takes a page of the last block, or a block of
    // the image.
    method CreateFile(name: string, contents: seq<byte>) returns (r: Result)
      requires Valid()
      modifies this
      ensures r == NameTooLong <==> |name| > c.nameLen
      ensures r == NameTooLong ==> unchanged(this)
      ensures r == Full ==> Sane(c) && ImageFull(c, blocks, blocksLim)
      ensures r == Created ==> Valid() && files == old(files) + [File(name, contents)]
    {
      hide WellKept, AllKept, Flat, LastIndex, FlatIndex, Indexes, Datas, Holds, FilesIn, Absent, CursorAt;
      if |name| > c.nameLen {
        return NameTooLong;
      }
      var began := BeginFile(name, |contents|);
      if !began {
        return Full;
      }
      var pos: nat := 0;
      var chunk := contents[pos..if pos + c.DataSize() < |contents| then pos + c.DataSize() else |contents|];
      assert contents[..0] == [];
      while chunk != []
        invariant pos <= |contents|
        invariant chunk == contents[pos..if pos + c.DataSize() < |contents| then pos + c.DataSize() else |contents|]
        invariant Writing(name, |contents|, contents[..pos]) && files == old(files)
        decreases remainingBlocks, Room(blocks)
      {
        var written := WriteChunk(chunk, name, |contents|, contents[..pos]);
        if !written {
          if blocks[|blocks| - 1].remaining <= 0 {
            var more := ContinueInNewBlock(name, |contents|, contents[..pos]);
            if !more {
              return Full;
            }
          } else {
            ContinueIndex(name, |contents|, contents[..pos]);
          }
        } else {
          assert contents[..pos] + chunk == contents[..pos + |chunk|];
          pos := pos + |chunk|;
          chunk := contents[pos..if pos + c.DataSize() < |contents| then pos + c.DataSize() else |contents|];
        }
      }
      assert contents[..pos] == contents;
      EndObj(name, contents);
      r := Created;
    }

    method EndObj(ghost name: string, ghost contents: seq<byte>)
      requires Writing(name, |contents|, contents)
      modifies this
      ensures Valid() && files == old(files) + [File(name, contents)]
      ensures |blocks| == |old(blocks)| && curObjId == old(curObjId) + 1
      ensures old(blocks) != [] && blocks[..|blocks| - 1] == old(blocks)[..|old(blocks)| - 1]
      ensures blocks[|blocks| - 1] == old(blocks)[|old(blocks)| - 1].(cur := NO_OBJECT)
    {
      var n := |blocks| - 1;
      hide WellKept, Sane, Flat, Indexes, Datas, Holds;
      CursorFree(c, blocks[n], n);
      FlatSame(blocks, blocks[n].(cur := NO_OBJECT));
      blocks := blocks[n := blocks[n].(cur := NO_OBJECT)];
      curObjId := curObjId + 1;
      files := files + [File(name, contents)];
    }
  }

  lemma StoredHasIndex(flat: seq<Item>, id: nat, name: string, size: nat, done: seq<byte>)
    requires Stored(flat, id, name, size, done)
    ensures |Indexes(flat, id)| > 0
  {
  }

  lemma AbsentNow(flat: seq<Item>, files: seq<File>, id: nat)
    requires FilesIn(flat, files, id)
    ensures Absent(flat, id)
  {
  }

  lemma AbsentCounts(flat: seq<Item>, id: nat)
    requires Absent(flat, id)
    ensures |Indexes(flat, id)| == 0 && |Datas(flat, id)| == 0
  {
  }

  lemma CursorPoints(blocks: seq<Block>, cur: Cursor, id: nat)
    requires blocks != [] && CursorAt(blocks, cur, id) && cur == blocks[|blocks| - 1].cur
    ensures Pointed(blocks)
  {
    FlatAt(blocks, cur.idx.value.0, cur.idx.value.1);
  }

  ghost predicate Begun(c: Config, blocks: seq<Block>, blocks': seq<Block>, objId: nat, size: nat, name: string,
                        indexSpan: nat, dataSpan: nat)
    requires blocks != [] && |blocks'| == |blocks|
  {
    var n := |blocks| - 1;
    && blocks'[n].remaining == blocks[n].remaining - 1
    && blocks'[n].cur == Cursor(objId, indexSpan + 1, dataSpan, Some((n, |blocks[n].items|)))
    && |blocks'[n].items| == |blocks[n].items| + 1
    && FlatIndex(blocks', n, |blocks[n].items|) == |Flat(blocks)|
    && exists lim: real :: Flat(blocks') == Flat(blocks) + [Index(objId, indexSpan, size, name, [], lim)]
  }

  // The cursor points to an index page.
  ghost predicate Pointed(blocks: seq<Block>)
    requires blocks != []
  {
    var idx := blocks[|blocks| - 1].cur.idx;
    idx.Some? && idx.value.0 < |blocks| && idx.value.1 < |blocks[idx.value.0].items|
    && blocks[idx.value.0].items[idx.value.1].Index?
  }

  ghost function CurrentIndex(blocks: seq<Block>): (x: Item)
    requires blocks != [] && Pointed(blocks)
    ensures x.Index?
  {
    var idx := blocks[|blocks| - 1].cur.idx.value;
    blocks[idx.0].items[idx.1]
  }

  ghost predicate Updated(c: Config, blocks: seq<Block>, blocks': seq<Block>, contents: seq<byte>)
    requires blocks != [] && |blocks'| == |blocks| && Pointed(blocks)
  {
    var n := |blocks| - 1;
    var cur, idx := blocks[n].cur, blocks[n].cur.idx.value;
    var p := FlatIndex(blocks, idx.0, idx.1);
    && blocks'[n].remaining == blocks[n].remaining - 1
    && blocks'[n].cur == cur.(dataSpan := cur.dataSpan + 1)
    && idx.1 < |blocks'[idx.0].items| && FlatIndex(blocks', idx.0, idx.1) == p
    && p < |Flat(blocks)| && Flat(blocks)[p].Index?
    && exists offset: nat :: Flat(blocks')
         == Flat(blocks)[p := WithRef(Flat(blocks)[p], offset)] + [Data(cur.objId, cur.dataSpan, contents, offset)]
  }

  // Every file reads back, from the index pages that start with its name and size.
  lemma FilesReadBack(c: Config, blocks: seq<Block>, files: seq<File>, from: nat, k: nat)
    requires Sane(c) && AllKept(c, blocks) && FilesIn(Flat(blocks), files, from) && k < |files|
    ensures ReadObject(c, blocks, k + 1) == files[k].contents
    ensures var ixs := Indexes(Flat(blocks), k + 1);
            ixs != [] && SpansFromZero(ixs) && ixs[0].Index? && ixs[0].name == files[k].name
            && ixs[0].size == |files[k].contents|
    ensures SpansFromZero(Datas(Flat(blocks), k + 1))
  {
    StoredReads(c, blocks, k + 1, files[k].name, |files[k].contents|, files[k].contents);
  }

  // The pages fit the image.
  lemma PagesFit(c: Config, blocks: seq<Block>, b: nat)
    requires Sane(c) && AllKept(c, blocks) && b < |blocks| && c.UsablePages() >= 0
    ensures |blocks[b].lookups| + |blocks[b].items| <= c.Pages()
  {
    assert WellKept(c, blocks[b], b);
  }

  lemma IxLen(c: Config)
    requires Sane(c)
    ensures c.blockIxLen > 0
  {
  }

  lemma CursorFree(c: Config, b: Block, bix: nat)
    requires Sane(c)
    ensures forall cur :: WellKept(c, b.(cur := cur), bix) <==> WellKept(c, b, bix)
  {
  }

  lemma LookupCount(c: Config, b: Block, bix: nat)
    requires Sane(c) && WellKept(c, b, bix)
    ensures bix * c.blockSize + (|b.lookups| + |b.items|) * c.pageSize == Offset(c, bix, |b.items|)
  {
  }

  // The id of a page goes to the lookup page in use, or to the next one.
  method RegisterId(c: Config, ghost bix: nat, b: Block, x: Item) returns (r: Block)
    requires Sane(c) && WellKept(c, b, bix) && b.remaining > 0
    requires c.blockIxLen > 0 && Counted(c, x) && (x.Data? ==> x.offset == Offset(c, bix, |b.items|))
    ensures r.items == b.items + [x] && r.remaining == b.remaining - 1 && r.cur == b.cur && WellKept(c, r, bix)
  {
    hide Config.LookupPages, Config.LookupIds, Config.Pages, Config.UsablePages, Offset, Joined, Ids, IdOf, Sane,
      WellKept, FilledUpTo, Counted;
    LookupRoom(c);
    Usable(c);
    KeptLookups(c, b, bix);
    var lu := b.lu;
    if |b.lookups[lu]| >= c.LookupIds() {
      lu := lu + 1;
      NextLookup(lu, c.LookupIds(), c.LookupPages(), c.Pages(), |b.items|);
    }
    r := Block(b.lookups[lu := b.lookups[lu] + [IdOf(x)]], lu, b.items + [x], b.remaining - 1, b.cur);
    RegisteredKept(c, b, bix, x, lu, r);
  }

  lemma KeptLookups(c: Config, b: Block, bix: nat)
    requires Sane(c) && WellKept(c, b, bix)
    ensures |b.lookups| == c.LookupPages() && b.lu < |b.lookups| && |b.lookups[b.lu]| <= c.LookupIds()
    ensures |b.items| == b.lu * c.LookupIds() + |b.lookups[b.lu]| && b.remaining == c.UsablePages() - |b.items|
  {
    JoinedLength(b.lookups, b.lu, c.LookupIds());
  }

  lemma RegisteredKept(c: Config, b: Block, bix: nat, x: Item, lu: nat, r: Block)
    requires Sane(c) && WellKept(c, b, bix) && b.remaining > 0 && c.LookupIds() > 0
    requires c.blockIxLen > 0 && Counted(c, x) && (x.Data? ==> x.offset == Offset(c, bix, |b.items|))
    requires if |b.lookups[b.lu]| >= c.LookupIds() then lu == b.lu + 1 else lu == b.lu
    requires lu < |b.lookups|
    requires r == Block(b.lookups[lu := b.lookups[lu] + [IdOf(x)]], lu, b.items + [x], b.remaining - 1, b.cur)
    ensures WellKept(c, r, bix)
  {
    hide Config.LookupPages, Config.LookupIds, Config.Pages, Config.UsablePages, Offset, Joined, Ids, IdOf, Sane,
      Counted;
    JoinedAdd(b.lookups, lu, IdOf(x));
    AppendItem(b.items, x, 0);
  }

  lemma Usable(c: Config)
    requires Sane(c)
    ensures c.idLen > 0 && c.pageSize > 0 && c.LookupIds() > 0
    ensures c.UsablePages() == c.Pages() - c.LookupPages()
  {
    assert c.pageSize == c.LookupIds() * c.idLen;
    PositiveFactor(c.LookupIds(), c.idLen);
  }

  // With fewer pages than ids there is always another lookup page.
  lemma NextLookup(lu: nat, limit: nat, lookups: nat, pages: nat, used: nat)
    requires used == lu * limit && used < pages <= lookups * limit
    ensures lu < lookups
  {
    if lu >= lookups {
      MulMonotone(lookups, lu, limit);
    }
  }
}
