// The memheap allocator: block headers in memory, threaded on a circle of all blocks and
// on a circle of the free ones. Each field of the headers is a map from addresses.
module MemHeap {
  import opened MemHeapLayout
  import opened MemHeapLists
  import opened Powers

  const ALIGN_SIZE := 4
  const ADDRESS_SIZE := 4

  function AlignUp(size: nat, align: nat): nat
    requires align > 0
  {
    var x := (size + align - 1) % WORD;
    x - x % align
  }

  // The payload a request is served with: whole words, and at least 12 bytes.
  function Request(size: nat): (n: nat)
    ensures n >= MINIALLOC && n % 4 == 0
  {
    var aligned := AlignUp(size, ALIGN_SIZE);
    if aligned < MINIALLOC then MINIALLOC else aligned
  }

  // The free block, if any, that is split off when n bytes are taken at ptr from a block of the
  // given size.
  function Leftover(size: int, ptr: int, n: nat): seq<int>
  {
    if size >= n + HEADER + MINIALLOC then [ptr + n] else []
  }

  // A request is given at least what it asks for unless rounding it up passes 2^32.
  lemma RequestExact(size: nat)
    requires size < WORD
    ensures Request(size) >= size <==> size <= WORD - 4
  {
    if size <= WORD - 4 {
      assert (size + 3) % WORD == size + 3;
    } else {
      assert (size + 3) % WORD == size + 3 - WORD;
    }
  }

  // The largest number so far.
  function Peak(usage: seq<int>): int
    requires usage != []
  {
    if |usage| == 1 then usage[0]
    else
      var before := Peak(usage[..|usage| - 1]);
      if usage[|usage| - 1] > before then usage[|usage| - 1] else before
  }

  lemma {:induction false} PeakIsMax(usage: seq<int>)
    requires usage != []
    ensures Peak(usage) in usage && forall i :: 0 <= i < |usage| ==> usage[i] <= Peak(usage)
  {
    if |usage| > 1 {
      PeakIsMax(usage[..|usage| - 1]);
    }
  }

  lemma PeakPush(usage: seq<int>, x: int)
    requires usage != []
    ensures Peak(usage + [x]) == if x > Peak(usage) then x else Peak(usage)
  {
    assert (usage + [x])[..|usage|] == usage;
  }

  lemma FreshLayout(start: int, pool: nat)
    requires pool >= 2 * HEADER && pool % 4 == 0
    ensures var l := [Block(start, pool - 2 * HEADER, false), Block(start + pool - HEADER, 0, true)];
            && Tiled(l, start, pool) && Settled(l) && Words(l) && FreeSize(l) == pool - 2 * HEADER && Listed([start], l)
            && Flagged(map[start := MAGIC, start + pool - HEADER := MAGIC + 1], l)
  {
    hide FreeSize, Heads;
    var b, c := Block(start, pool - 2 * HEADER, false), Block(start + pool - HEADER, 0, true);
    FreeSizeTwo(b, c);
    HeadsTwo(b, c, false);
  }

  lemma FreshAddrs(l: seq<Block>)
    requires |l| == 2
    ensures Addrs(l) == [l[0].addr, l[1].addr]
  {
  }

  lemma FreshCircles(head: int, start: int, tail: int)
    requires head != start && start != tail
    ensures Circle(map[start := tail, tail := start], map[start := tail, tail := start], [start, tail])
    ensures Circle(map[head := start, start := head], map[head := start, start := head], [head, start])
  {
  }

  lemma PeakLast(usage: seq<int>)
    requires usage != []
    ensures usage[|usage| - 1] <= Peak(usage)
  {
  }

  class Memheap {
    const head: int                    // the address of the free list's own header
    var startAddr: int
    var poolSize: nat
    var availableSize: nat
    var maxUsedSize: nat
    var magic: map<int, nat>
    var next: map<int, int>
    var prev: map<int, int>
    var nextFree: map<int, int>
    var prevFree: map<int, int>
    var words: map<int, int>           // the words that aligned allocation stores
    ghost var layout: seq<Block>
    ghost var free: seq<int>
    ghost var usage: seq<int>          // bytes not available, after each operation

    ghost predicate Grounded()
      reads this
    {
      0 < startAddr && startAddr + poolSize <= WORD && (head < startAddr || startAddr + poolSize <= head)
    }

    // The part of the invariant that each single change of the block list keeps.
    ghost predicate Sound()
      reads this
    {
      && Grounded() && Tiled(layout, startAddr, poolSize)
      && Flagged(magic, layout)
      && Circle(next, prev, Addrs(layout))
      && availableSize == FreeSize(layout)
    }

    ghost predicate Valid()
      reads this
    {
      && Sound() && Settled(layout) && Words(layout)
      && Circle(nextFree, prevFree, [head] + free)
      && Listed(free, layout)
      && usage != [] && maxUsedSize == Peak(usage) && usage[|usage| - 1] == poolSize - availableSize
    }

    // The pool is cut to whole words. It becomes one free block and a used tail that no
    // block is ever joined with.
    constructor (head: int, startAddr: int, size: nat)
      requires 0 < startAddr && startAddr + size <= WORD && size >= 2 * HEADER
      requires head < startAddr || startAddr + size <= head
      ensures Valid() && this.head == head && this.startAddr == startAddr && poolSize == size - size % 4
      ensures layout == [Block(startAddr, poolSize - 2 * HEADER, false), Block(startAddr + poolSize - HEADER, 0, true)]
      ensures free == [startAddr] && usage == [2 * HEADER]
    {
      this.head := head;
      this.startAddr := startAddr;
      var pool: nat := size - size % 4;
      poolSize := pool;
      availableSize := pool - 2 * HEADER;
      maxUsedSize := pool - (pool - 2 * HEADER);
      var tail := startAddr + (pool - 2 * HEADER) + HEADER;
      magic := map[startAddr := MAGIC, tail := MAGIC + 1];
      next := map[startAddr := tail, tail := startAddr];
      prev := map[startAddr := tail, tail := startAddr];
      nextFree := map[head := startAddr, startAddr := head];
      prevFree := map[head := startAddr, startAddr := head];
      words := map[];
      layout := [Block(startAddr, pool - 2 * HEADER, false), Block(tail, 0, true)];
      free := [startAddr];
      usage := [2 * HEADER];
      new;
      hide Tiled, Flagged, Circle, FreeSize, Settled, Words, Listed, Addrs;
      FreshLayout(startAddr, pool);
      FreshCircles(head, startAddr, tail);
      assert Addrs(layout) == [startAddr, tail] by { FreshAddrs(layout); }
      assert [head] + free == [head, startAddr];
    }

    // The first block on the free list that is large enough.
    method Search(n: nat) returns (h: int, freeSize: nat, ghost j: nat, ghost k: nat)
      requires Valid() && n > 0
      ensures freeSize >= n ==> j < |free| && h == free[j] && k + 1 < |layout| && layout[k] == Block(h, freeSize, false)
      ensures freeSize < n ==> j == |free|
      ensures forall i :: 0 <= i < j ==> !Holds(layout, free[i], n)
    {
      hide Tiled, Circle, Listed, Holds, Settled, Words, Flagged, Heads, FreeSize;
      freeSize, j, k := 0, 0, 0;
      ghost var c := [head] + free;
      CircleNeighbours(nextFree, prevFree, c, 0);
      CircleOfFree(nextFree, prevFree, head, free);
      h := nextFree[head];
      while h != head && freeSize < n
        invariant j <= |free| && h == (if j < |free| then free[j] else head)
        invariant freeSize >= n ==> j < |free| && k + 1 < |layout| && layout[k] == Block(h, freeSize, false)
        invariant forall i :: 0 <= i < j ==> !Holds(layout, free[i], n)
        decreases |free| - j, n - freeSize
      {
        assert h in free;
        OnList(free, layout, h);
        k := FreeBlock(layout, startAddr, poolSize, next, prev, h);
        freeSize := next[h] - h - HEADER;
        if freeSize < n {
          CircleNeighbours(nextFree, prevFree, c, j + 1);
          h := nextFree[h];
          j := j + 1;
        }
      }
    }

    method UnlinkFree(h: int, ghost j: nat)
      requires Circle(nextFree, prevFree, [head] + free) && j < |free| && h == free[j]
      modifies `nextFree, `prevFree, `free
      ensures free == Removed(old(free), j) && Circle(nextFree, prevFree, [head] + free) && h !in [head] + free
    {
      ghost var c := [head] + free;
      CircleRemove(nextFree, prevFree, c, j + 1);
      CircleNeighbours(nextFree, prevFree, c, j + 1);
      prevFree := prevFree[nextFree[h] := prevFree[h]];
      nextFree := nextFree[prevFree[h] := nextFree[h]];
      free := Removed(free, j);
      assert Removed(c, j + 1) == [head] + free;
      RemovedGone(c, j + 1);
    }

    method PushFree(h: int)
      requires Circle(nextFree, prevFree, [head] + free) && h !in [head] + free
      modifies `nextFree, `prevFree, `free
      ensures free == [h] + old(free) && Circle(nextFree, prevFree, [head] + free)
    {
      ghost var c := [head] + free;
      CircleInsert(nextFree, prevFree, c, 0, h);
      CircleNeighbours(nextFree, prevFree, c, 0);
      nextFree := nextFree[h := nextFree[head]];
      prevFree := prevFree[h := head];
      prevFree := prevFree[nextFree[head] := h];
      nextFree := nextFree[head := h];
      free := [h] + free;
      assert Inserted(c, 0, h) == [head] + free;
    }

    // A block that is taken leaves the free list.
    method Retire(h: int, ghost j: nat)
      requires Circle(nextFree, prevFree, [head] + free) && j < |free| && h == free[j]
      modifies `nextFree, `prevFree, `free
      ensures free == Removed(old(free), j) && Circle(nextFree, prevFree, [head] + free)
    {
      hide Circle;
      UnlinkFree(h, j);
      CircleOutside(nextFree, prevFree, [head] + free, h, 0, 0);
      nextFree, prevFree := nextFree[h := 0], prevFree[h := 0];
    }

    // The rest of a split block takes the place of the block on the free list, at the front.
    method SwapFree(h: int, newPtr: int, ghost j: nat)
      requires Circle(nextFree, prevFree, [head] + free) && j < |free| && h == free[j] && newPtr !in [head] + free
      modifies `nextFree, `prevFree, `free
      ensures free == [newPtr] + Removed(old(free), j) && Circle(nextFree, prevFree, [head] + free)
    {
      hide Circle;
      NotInFree(newPtr, head, free, j);
      Retire(h, j);
      PushFree(newPtr);
    }

    // A new header goes behind h on the block list.
    method LinkBlock(h: int, newPtr: int, ghost k: nat)
      requires Circle(next, prev, Addrs(layout)) && k < |layout| && layout[k].addr == h && newPtr !in Addrs(layout)
      modifies `next, `prev
      ensures Circle(next, prev, Inserted(Addrs(layout), k, newPtr))
    {
      CircleInsert(next, prev, Addrs(layout), k, newPtr);
      CircleNeighbours(next, prev, Addrs(layout), k);
      prev := prev[newPtr := h];
      next := next[newPtr := next[h]];
      prev := prev[next[h] := newPtr];
      next := next[h := newPtr];
    }

    // The high-water mark follows the usage.
    method NoteUsage()
      requires usage != [] && maxUsedSize == Peak(usage) && availableSize <= poolSize
      modifies `maxUsedSize, `usage
      ensures usage == old(usage) + [poolSize - availableSize] && maxUsedSize == Peak(usage)
    {
      if poolSize - availableSize > maxUsedSize {
        maxUsedSize := poolSize - availableSize;
      }
      PeakPush(usage, poolSize - availableSize);
      usage := usage + [poolSize - availableSize];
    }

    // The free list of a layout whose block at k is split.
    method SplitFree(h: int, newPtr: int, n: nat, ghost j: nat, ghost k: nat)
      requires Circle(nextFree, prevFree, [head] + free) && Listed(free, layout) && j < |free| && h == free[j]
      requires k < |layout| && layout[k].addr == h && layout[k].size >= n + HEADER && newPtr !in [head] + free
      requires Heads(Split(layout, k, n), false) == Heads(layout, false) - {h} + {newPtr}
      modifies `nextFree, `prevFree, `free
      ensures free == [newPtr] + Removed(old(free), j) && Listed(free, Split(layout, k, n))
      ensures Circle(nextFree, prevFree, [head] + free)
    {
      hide Circle, Listed, Heads, Removed, Split, Splice;
      CircleOfFree(nextFree, prevFree, head, free);
      ListedSwapped(free, j, newPtr, layout, Split(layout, k, n));
      SwapFree(h, newPtr, j);
    }

    // Both lists take up the header of the rest.
    method SplitHeaders(h: int, newPtr: int, n: nat, ghost j: nat, ghost k: nat)
      requires Circle(next, prev, Addrs(layout)) && newPtr !in Addrs(layout)
      requires Circle(nextFree, prevFree, [head] + free) && Listed(free, layout) && j < |free| && h == free[j]
      requires k < |layout| && layout[k].addr == h && layout[k].size >= n + HEADER && newPtr !in [head] + free
      requires Heads(Split(layout, k, n), false) == Heads(layout, false) - {h} + {newPtr}
      modifies `next, `prev, `nextFree, `prevFree, `free
      ensures Circle(next, prev, Inserted(Addrs(layout), k, newPtr))
      ensures free == [newPtr] + Removed(old(free), j) && Listed(free, Split(layout, k, n))
      ensures Circle(nextFree, prevFree, [head] + free)
    {
      hide Circle, Listed, Heads, Removed, Split, Inserted, Addrs;
      LinkBlock(h, newPtr, k);
      SplitFree(h, newPtr, n, j, k);
    }

    // The front of a split block and a header are no longer available.
    method TakeBytes(n: nat)
      requires usage != [] && maxUsedSize == Peak(usage) && n + HEADER <= availableSize <= poolSize + n + HEADER
      modifies `availableSize, `maxUsedSize, `usage
      ensures availableSize == old(availableSize) - n - HEADER
      ensures usage == old(usage) + [poolSize - availableSize] && maxUsedSize == Peak(usage)
    {
      availableSize := availableSize - n - HEADER;
      NoteUsage();
    }

    // Cuts a free block in two: the front is taken into use, the rest goes to the front of
    // the free list.
    method SplitBlock(h: int, n: nat, ghost j: nat, ghost k: nat)
      requires Valid() && j < |free| && h == free[j] && k + 1 < |layout| && layout[k] == Block(h, layout[k].size, false)
      requires layout[k].size >= n + HEADER + MINIALLOC && n % 4 == 0
      modifies this
      ensures Valid() && startAddr == old(startAddr) && poolSize == old(poolSize) && words == old(words)
      ensures layout == Allocated(old(layout), k, n) && free == [h + HEADER + n] + Removed(old(free), j)
      ensures usage == old(usage) + [poolSize - availableSize]
    {
      hide Tiled, Circle, Listed, Settled, Words, Flagged, Heads, FreeSize, Addrs, Adjoining, Inserted, Removed, Peak,
        Splice, Split, Allocated;
      ghost var l := layout;
      var newPtr := h + n + HEADER;
      SplitAllocated(l, k, n);
      SplitFacts(magic, l, k, n, startAddr, poolSize, head, free, j);

      magic := magic[newPtr := MAGIC];
      SplitHeaders(h, newPtr, n, j, k);
      TakeBytes(n);
      magic := magic[h := magic[h] + 1];
      layout := Split(l, k, n);
    }

    // Takes a free block whole.
    method TakeBlock(h: int, freeSize: nat, ghost j: nat, ghost k: nat)
      requires Valid() && j < |free| && h == free[j] && k + 1 < |layout| && layout[k] == Block(h, freeSize, false)
      modifies this
      ensures Valid() && startAddr == old(startAddr) && poolSize == old(poolSize) && words == old(words)
      ensures layout == Marked(old(layout), k, true) && free == Removed(old(free), j)
      ensures usage == old(usage) + [poolSize - availableSize]
    {
      hide Tiled, Circle, Listed, Settled, Words, Flagged, Heads, FreeSize, Addrs, Adjoining, Removed, Peak, Splice;
      ghost var l := layout;
      TakeFacts(magic, l, k, startAddr, poolSize);
      CircleOfFree(nextFree, prevFree, head, free);
      ListedRemoved(free, j, l, Marked(l, k, true));

      availableSize := availableSize - freeSize;
      NoteUsage();
      Retire(h, j);
      magic := magic[h := magic[h] + 1];
      layout := Marked(l, k, true);
    }

    // The block is the first on the free list that is large enough; its payload's address
    // is returned, or 0 when there is none. Nothing is tried unless more than the request
    // is available in all.
    method Alloc(size: nat) returns (ptr: int, ghost j: nat, ghost k: nat)
      requires Valid() && size < WORD
      modifies this
      ensures Valid() && startAddr == old(startAddr) && poolSize == old(poolSize) && words == old(words)
      ensures ptr == 0 <==> Request(size) >= old(availableSize) || NoneHolds(old(layout), Request(size))
      ensures ptr == 0 ==> unchanged(this)
      ensures ptr != 0 ==>
                && j < |old(free)| && k + 1 < |old(layout)|
                && old(layout)[k] == Block(ptr - HEADER, old(layout)[k].size, false) && old(free)[j] == ptr - HEADER
                && old(layout)[k].size >= Request(size)
                && (forall i :: 0 <= i < j ==> !Holds(old(layout), old(free)[i], Request(size)))
                && layout == Allocated(old(layout), k, Request(size))
                && free == Leftover(old(layout)[k].size, ptr, Request(size)) + Removed(old(free), j)
                && Heads(layout, true) == old(Heads(layout, true)) + {ptr - HEADER}
                && usage == old(usage) + [poolSize - availableSize]
    {
      hide Tiled, Circle, Listed, Settled, Words, Flagged, Heads, FreeSize, Addrs, Adjoining, Removed, Peak, Holds,
        NoneHolds, AlignUp, Splice;
      j, k := 0, 0;
      var n: nat := AlignUp(size, ALIGN_SIZE);
      if n < MINIALLOC {
        n := MINIALLOC;
      }
      assert n == Request(size);
      if n < availableSize {
        var h, freeSize;
        h, freeSize, j, k := Search(n);
        if freeSize >= n {
          FoundHolds(layout, k, n);
          InPool(layout, startAddr, poolSize, k);
          TiledAdjoining(layout, startAddr, poolSize);
          AllocatedHeads(layout, k, n);
          if freeSize >= n + HEADER + MINIALLOC {
            SplitBlock(h, n, j, k);
          } else {
            TakeBlock(h, freeSize, j, k);
          }
          ptr := h + HEADER;
          return;
        }
        ListedNone(free, layout, n);
      }
      ptr := 0;
    }

    // Takes the block x out of the block list; the block before it grows by it.
    method Absorb(x: int, ghost k: nat, ghost at: nat)
      requires Sound() && SettledBut(layout, at) && Words(layout) && (at == k || at == k + 1)
      requires k + 2 < |layout| && !layout[k].used && !layout[k + 1].used && x == layout[k + 1].addr
      modifies `next, `prev, `availableSize, `layout
      ensures Sound() && SettledBut(layout, k) && Words(layout) && layout == Joined(old(layout), k)
      ensures Heads(layout, false) == Heads(old(layout), false) - {x} && availableSize == old(availableSize) + HEADER
    {
      hide Tiled, Circle, SettledBut, Words, Flagged, Heads, FreeSize, Addrs, Removed, Splice;
      ghost var l := layout;
      JoinFacts(magic, l, k, at, startAddr, poolSize);
      AddrAt(l, k + 1);
      CircleRemove(next, prev, Addrs(l), k + 1);
      CircleNeighbours(next, prev, Addrs(l), k + 1);
      availableSize := availableSize + HEADER;
      next := next[prev[x] := next[x]];
      prev := prev[next[x] := prev[x]];
      layout := Joined(l, k);
    }

    // In the middle of Free: the block at is free, and on the free list unless it is pending.
    ghost predicate Freeing(at: nat, pending: set<int>)
      reads this
    {
      && Sound() && SettledBut(layout, at) && Words(layout) && at + 1 < |layout| && !layout[at].used
      && Circle(nextFree, prevFree, [head] + free) && ListedBut(free, layout, pending)
      && pending <= {layout[at].addr} && (forall a :: a in pending ==> a !in [head] + free)
    }

    // Clears the used mark.
    method Release(h: int, ghost k: nat)
      requires Valid() && k + 1 < |layout| && layout[k].used && layout[k].addr == h
      modifies `magic, `availableSize, `layout
      ensures Freeing(k, {h}) && layout == Marked(old(layout), k, false) && availableSize >= old(availableSize)
    {
      hide Tiled, Settled, SettledBut, Circle, Words, Flagged, Heads, FreeSize, Addrs, Splice, Listed, ListedBut;
      ghost var l := layout;
      FreeFacts(magic, l, k, startAddr, poolSize);
      FlagsBeside(magic, next, prev, l, k, startAddr, poolSize);
      ListedButSame(free, l, Marked(l, k, false), h);
      OnList(free, l, h);
      InPool(l, startAddr, poolSize, k);
      magic := magic[h := magic[h] - 1];
      availableSize := availableSize + (next[h] - h - HEADER);
      layout := Marked(l, k, false);
      MarkedAt(l, k);
    }

    // Joins the block with the one before it if that is free, too.
    method JoinPrevious(h: int, ghost k: nat) returns (h': int, inserted: bool, ghost at: nat)
      requires Freeing(k, {h}) && layout[k].addr == h
      modifies `next, `prev, `availableSize, `layout
      ensures Freeing(at, if inserted then {} else {h}) && layout[at].addr == h' && (!inserted ==> h' == h)
      ensures availableSize >= old(availableSize)
      ensures inserted == (k > 0 && !old(layout)[k - 1].used)
      ensures at == if inserted then k - 1 else k
      ensures layout == if inserted then Joined(old(layout), k - 1) else old(layout)
    {
      hide Tiled, Settled, SettledBut, Circle, Words, Flagged, Heads, FreeSize, Addrs, Splice, Listed, ListedBut;
      ghost var l := layout;
      FlagsBeside(magic, next, prev, l, k, startAddr, poolSize);
      h', inserted, at := h, false, k;
      if magic[prev[h]] % 2 == 0 {
        h' := prev[h];
        Absorb(h, k - 1, k);
        JoinedAt(l, k - 1);
        ListedButAbsorbed(free, l, layout, h);
        inserted, at := true, k - 1;
      }
    }

    // Joins the block with the one after it if that is free, too.
    method JoinNext(h: int, ghost at: nat, ghost pending: set<int>)
      requires Freeing(at, pending) && layout[at].addr == h
      modifies `next, `prev, `availableSize, `layout, `nextFree, `prevFree, `free
      ensures Freeing(at, pending) && layout[at].addr == h && layout[at + 1].used
      ensures availableSize >= old(availableSize)
      ensures layout == JoinedIfFree(old(layout), at)
      ensures forall i :: 0 <= i < at ==> layout[i] == old(layout)[i]
      ensures free == if old(layout)[at + 1].used then old(free) else Dropped(old(free), old(layout)[at + 1].addr)
    {
      hide Tiled, Settled, SettledBut, Circle, Words, Flagged, Heads, FreeSize, Addrs, Splice, Listed, ListedBut;
      ghost var l := layout;
      FlagsBeside(magic, next, prev, l, at, startAddr, poolSize);
      var n := next[h];
      if magic[n] % 2 == 0 {
        TailUsed(l, at, startAddr, poolSize);
        NextButUsed(l, at);
        DistinctAddrs(l, at, startAddr, poolSize);
        ghost var j := OnListBut(free, l, at + 1, pending);
        Absorb(n, at, at);
        JoinedAt(l, at);
        CircleOfFree(nextFree, prevFree, head, free);
        ListedButDropped(free, j, l, layout, pending);
        DroppedIs(free, j);
        UnlinkFree(n, j);
      }
    }

    // Joins a released block with its free neighbours and puts it on the free list.
    method Coalesce(start: int, ghost l: seq<Block>, ghost k: nat)
      requires k + 1 < |l| && Settled(l) && l[k].used && l[k].addr == start && layout == Marked(l, k, false)
               && Freeing(k, {start})
      modifies `next, `prev, `availableSize, `layout, `nextFree, `prevFree, `free
      ensures Sound() && Settled(layout) && Words(layout) && Circle(nextFree, prevFree, [head] + free)
              && Listed(free, layout)
      ensures layout == Freed(l, k) && free == FreedList(old(free), l, k) && availableSize >= old(availableSize)
    {
      hide Tiled, Settled, SettledBut, Circle, Words, Flagged, Heads, FreeSize, Addrs, Splice, Listed, ListedBut, Peak,
        Dropped;
      MarkedAt(l, k);
      BeforeFreeUsed(l, k);
      var h, inserted;
      ghost var at;
      h, inserted, at := JoinPrevious(start, k);
      if inserted {
        JoinedAt(Marked(l, k, false), k - 1);
      }
      JoinNext(h, at, if inserted then {} else {start});
      SettledWhen(layout, at);
      ListedButDone(free, layout, start);
      if !inserted {
        PushFree(h);
      }
    }

    // Usage that goes down leaves the high-water mark alone.
    ghost method NoteRelease()
      requires usage != [] && maxUsedSize == Peak(usage) && poolSize - availableSize <= usage[|usage| - 1]
      modifies `usage
      ensures usage == old(usage) + [poolSize - availableSize] && maxUsedSize == Peak(usage)
    {
      PeakLast(usage);
      PeakPush(usage, poolSize - availableSize);
      usage := usage + [poolSize - availableSize];
    }

    // Gives a block back and joins it with the free blocks beside it; a block that was not
    // joined with the one before it goes to the front of the free list.
    method Free(ptr: int, ghost k: nat)
      requires Valid() && (ptr == 0 || Live(layout, ptr, k))
      modifies this
      ensures Valid() && startAddr == old(startAddr) && poolSize == old(poolSize) && words == old(words)
      ensures ptr == 0 ==> unchanged(this)
      ensures ptr != 0 ==>
                && layout == Freed(old(layout), k) && free == FreedList(old(free), old(layout), k)
                && Heads(layout, true) == old(Heads(layout, true)) - {ptr - HEADER}
                && maxUsedSize == old(maxUsedSize) && usage == old(usage) + [poolSize - availableSize]
    {
      hide Tiled, Settled, SettledBut, Circle, Words, Flagged, Heads, FreeSize, Addrs, Splice, Listed, ListedBut, Peak,
        Dropped;
      if ptr == 0 {
        return;
      }
      hide Freed, FreedList, Marked;
      ghost var l := layout;
      FreedHeads(l, k, startAddr, poolSize);
      Release(ptr - HEADER, k);
      Coalesce(ptr - HEADER, l, k);
      NoteRelease();
    }

    // The payload is large enough to move its start up to a multiple of align and to leave
    // a word in front of it for the address to give back.
    method AllocAlign(size: nat, align: nat, ghost e: nat) returns (ptr: int, ghost payload: int, ghost k: nat)
      requires Valid() && size < WORD && align == Pow2(e) < WORD
      modifies this
      ensures Valid() && startAddr == old(startAddr) && poolSize == old(poolSize)
      ensures payload == 0 ==> unchanged(this) && ptr == 0
      ensures payload != 0 ==> Heads(layout, true) == old(Heads(layout, true)) + {payload - HEADER}
      ensures payload != 0 && startAddr % ADDRESS_SIZE == 0 && size + 3 + Grain(align) < WORD ==>
                AlignedIn(layout, words, ptr, size, align, payload, k)
    {
      hide Heads, Allocated, Holds, NoneHolds, AlignUp, Request, Listed, Circle, Flagged, Settled, Tiled, Removed,
        Words, Pow2, NextMultiple, Wrapped, Grain;
      GrainIs(align, e);
      var a := AlignUp(align, ADDRESS_SIZE);
      var alignSize := (AlignUp(size, ADDRESS_SIZE) + a) % WORD;
      ghost var l := layout;
      ghost var j;
      ptr, j, k := Alloc(alignSize);
      payload := ptr;
      if ptr != 0 {
        AllocatedLive(l, layout, k, Request(alignSize), startAddr, poolSize);
        var alignPtr := NextMultiple(ptr, a);
        if startAddr % ADDRESS_SIZE == 0 && size + 3 + a < WORD {
          AlignedFits(ptr, size, align, alignPtr, layout[k].size);
          InPool(layout, startAddr, poolSize, k);
        }
        WrapsNot(alignPtr);
        words := words[Wrapped(alignPtr - ADDRESS_SIZE) := ptr];
        ptr := Wrapped(alignPtr);
      }
    }

    method FreeAlign(ptr: int, ghost k: nat)
      requires Valid() && ptr - ADDRESS_SIZE in words && Live(layout, words[ptr - ADDRESS_SIZE], k)
      modifies this
      ensures Valid() && layout == Freed(old(layout), k)
      ensures Heads(layout, true) == old(Heads(layout, true)) - {old(words[ptr - ADDRESS_SIZE]) - HEADER}
    {
      hide Heads, Freed;
      var payload := words[ptr - ADDRESS_SIZE];
      InPool(layout, startAddr, poolSize, k);
      Free(payload, k);
    }
  }

  // ----- aligned allocation -----

  // Alignments below the size of a pointer are raised to it.
  function Grain(align: nat): nat
  {
    if align < ADDRESS_SIZE then ADDRESS_SIZE else align
  }

  lemma GrainIs(align: nat, e: nat)
    requires align == Pow2(e) < WORD
    ensures AlignUp(align, ADDRESS_SIZE) == Grain(align) >= ADDRESS_SIZE && Grain(align) % ADDRESS_SIZE == 0
    ensures align == 1 || align == 2 || align == Grain(align)
  {
    if e < 2 {
      assert Pow2(0) == 1 && Pow2(1) == 2;
    } else {
      var m := Pow2(e - 2);
      assert align == 4 * m;
      hide Pow2;
      DivModUnique(align + 3, m, 4, 3);
      assert (align + 3) % WORD == align + 3;
    }
  }

  // ptr starts size bytes inside the payload of the live block at k, is a multiple of
  // align, and has the payload's address in the word before it, which is also inside.
  ghost predicate AlignedIn(l: seq<Block>, words: map<int, int>, ptr: int, size: nat, align: nat, payload: int, k: nat)
    requires align > 0
  {
    && ptr % align == 0 && ptr - ADDRESS_SIZE in words && words[ptr - ADDRESS_SIZE] == payload
    && Live(l, payload, k) && payload + ADDRESS_SIZE <= ptr && ptr + size <= payload + l[k].size
  }

  lemma AllocatedLive(l: seq<Block>, l': seq<Block>, k: nat, n: nat, start: int, pool: nat)
    requires Tiled(l, start, pool) && Words(l) && k + 1 < |l| && l[k].size >= n && l' == Allocated(l, k, n)
    ensures k + 1 < |l'| && l'[k].used && l'[k].addr == l[k].addr && l'[k].size >= n
    ensures start % 4 == 0 ==> l'[k].addr % 4 == 0
  {
    AddrWords(l, k);
  }

  lemma {:induction false} AddrWords(l: seq<Block>, k: nat)
    requires Adjoining(l) && Words(l) && k < |l|
    ensures l[k].addr % 4 == l[0].addr % 4
  {
    if k > 0 {
      AddrWords(l, k - 1);
      assert Meets(l[k - 1], l[k - 1 + 1]);
    }
  }

  // The first multiple of a past ptr.
  function NextMultiple(ptr: int, a: nat): int
    requires a > 0
  {
    if ptr % a == 0 then ptr + a else ptr + (a - 1) - (ptr + (a - 1)) % a
  }

  function Wrapped(x: int): int
  {
    x % WORD
  }

  lemma WrapsNot(x: int)
    ensures ADDRESS_SIZE <= x < WORD ==> Wrapped(x) == x && Wrapped(x - ADDRESS_SIZE) == x - ADDRESS_SIZE
  {
  }

  // The next multiple of a after ptr is at least a word away, and at most a.
  lemma NextMultipleNear(ptr: int, a: nat)
    requires a > 0 && a % 4 == 0 && ptr % 4 == 0
    ensures NextMultiple(ptr, a) % a == 0 && ptr + ADDRESS_SIZE <= NextMultiple(ptr, a) <= ptr + a
  {
    hide NextMultiple;
    var q, r := ptr / a, ptr % a;
    var whole := q * a;
    DivModParts(ptr, a);
    MultipleOfFour(q, a, a / 4);
    NextMultipleIs(ptr, a, q, whole, r);
    FourApart(ptr, whole, r, a);
  }

  lemma FourApart(ptr: int, whole: int, r: int, a: int)
    requires ptr == whole + r && ptr % 4 == 0 && whole % 4 == 0 && a % 4 == 0 && 0 <= r < a
    ensures a - r >= 4
  {
  }

  lemma NextMultipleIs(ptr: int, a: nat, q: int, whole: int, r: int)
    requires 0 <= r < a && whole == q * a && ptr == whole + r
    ensures NextMultiple(ptr, a) == ptr + a - r && NextMultiple(ptr, a) % a == 0
  {
    Distribute(q, 1, a);
    DivModUnique(ptr, q, a, r);
    DivModUnique(whole + a, q + 1, a, 0);
    if r > 0 {
      DivModUnique(whole + a + (r - 1), q + 1, a, r - 1);
      assert ptr + (a - 1) == whole + a + (r - 1);
    }
  }

  lemma MultipleOfFour(q: int, a: int, m: int)
    requires a == 4 * m
    ensures q * a % 4 == 0
  {
    assert q * a == 4 * (q * m);
  }

  // The request for an aligned block has room for both exactly when it does not pass 2^32.
  lemma RequestOfAligned(size: nat, a: nat)
    requires size < WORD && ADDRESS_SIZE <= a < WORD && a % 4 == 0
    ensures Request((AlignUp(size, ADDRESS_SIZE) + a) % WORD) >= size + a <==> size + 3 + a < WORD
  {
    hide AlignUp, Request;
    var up := AlignUp(size, ADDRESS_SIZE);
    AlignUpIs(size);
    SumWraps(up, a);
    FoursAdd(up, a);
    RequestOfFours(if up + a < WORD then up + a else up + a - WORD);
  }

  // Rounding up to words, as far as it does not wrap around.
  lemma AlignUpIs(size: nat)
    requires size < WORD
    ensures AlignUp(size, ADDRESS_SIZE) % 4 == 0
    ensures if size + 3 < WORD then size <= AlignUp(size, ADDRESS_SIZE) <= size + 3
            else AlignUp(size, ADDRESS_SIZE) == 0
  {
    SumWraps(size, 3);
  }

  lemma RequestOfFours(n: nat)
    requires n % 4 == 0 && n < WORD
    ensures Request(n) == if n < MINIALLOC then MINIALLOC else n
  {
    hide AlignUp;
    AlignUpIs(n);
  }

  // Two words added, with wrap-around.
  lemma SumWraps(up: nat, a: nat)
    requires up < WORD && a < WORD
    ensures (up + a) % WORD == if up + a < WORD then up + a else up + a - WORD
  {
    if up + a < WORD {
      DivModUnique(up + a, 0, WORD, up + a);
    } else {
      DivModUnique(up + a, 1, WORD, up + a - WORD);
    }
  }

  // Whole words stay whole.
  lemma FoursAdd(up: nat, a: nat)
    requires up % 4 == 0 && a % 4 == 0
    ensures (up + a) % 4 == 0 && (up + a - WORD) % 4 == 0
  {
  }

  // Whatever the alignment, a word fits in front of the aligned place exactly when the
  // payload starts at a multiple of four.
  lemma WordInFront(ptr: nat)
    ensures (forall e: nat :: NextMultiple(ptr, Grain(Pow2(e))) >= ptr + ADDRESS_SIZE) <==> ptr % 4 == 0
  {
    if ptr % 4 == 0 {
      forall e: nat ensures NextMultiple(ptr, Grain(Pow2(e))) >= ptr + ADDRESS_SIZE {
        GrainOfPower(e);
        hide NextMultiple, Grain, Pow2;
        NextMultipleNear(ptr, Grain(Pow2(e)));
      }
    } else {
      assert Grain(Pow2(0)) == 4;
      assert NextMultiple(ptr, 4) < ptr + ADDRESS_SIZE;
    }
  }

  lemma GrainOfPower(e: nat)
    ensures Grain(Pow2(e)) > 0 && Grain(Pow2(e)) % 4 == 0
  {
    if e >= 2 {
      assert Pow2(e) == 4 * Pow2(e - 2);
    } else {
      assert Pow2(0) == 1 && Pow2(1) == 2;
    }
  }

  lemma AlignedFits(ptr: int, size: nat, align: nat, alignPtr: int, payload: nat)
    requires ptr % 4 == 0 && Grain(align) % 4 == 0 && (align == 1 || align == 2 || align == Grain(align))
             && size + 3 + Grain(align) < WORD
    requires payload >= Request((AlignUp(size, ADDRESS_SIZE) + Grain(align)) % WORD)
    requires alignPtr == NextMultiple(ptr, Grain(align))
    ensures alignPtr % align == 0 && ptr + ADDRESS_SIZE <= alignPtr && alignPtr + size <= ptr + payload
  {
    hide Request, AlignUp, NextMultiple;
    NextMultipleNear(ptr, Grain(align));
    RequestOfAligned(size, Grain(align));
    SmallAlign(alignPtr);
  }

  lemma SmallAlign(x: int)
    ensures x % 4 == 0 ==> x % 2 == 0 && x % 1 == 0
  {
    DivModUnique(x, x, 1, 0);
    if x % 4 == 0 {
      DivModUnique(x, 2 * (x / 4), 2, 0);
    }
  }

  // A payload address that Alloc has returned and Free has not taken back.
  ghost predicate Live(l: seq<Block>, ptr: int, k: nat)
  {
    k + 1 < |l| && l[k].used && l[k].addr == ptr - HEADER
  }

  // No free block has n bytes.
  ghost predicate NoneHolds(l: seq<Block>, n: nat)
  {
    forall i :: 0 <= i < |l| && !l[i].used ==> l[i].size < n
  }

  lemma FoundHolds(l: seq<Block>, k: nat, n: nat)
    requires k < |l| && !l[k].used && l[k].size >= n
    ensures !NoneHolds(l, n)
  {
  }

  lemma ListedNone(free: seq<int>, l: seq<Block>, n: nat)
    requires Listed(free, l) && forall i :: 0 <= i < |free| ==> !Holds(l, free[i], n)
    ensures NoneHolds(l, n)
  {
    forall i | 0 <= i < |l| && !l[i].used ensures l[i].size < n {
      HeadIn(l, i);
      assert l[i] == Block(l[i].addr, l[i].size, false);
    }
  }

  lemma RemovedGone(a: seq<int>, j: nat)
    requires j < |a| && Distinct(a)
    ensures a[j] !in Removed(a, j)
  {
  }
}
