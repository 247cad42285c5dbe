// The memheap allocator's lists against the tiling of its pool: how links, flags, free
// list and accounting follow a split, a change of flag and a join.
module MemHeapLists {
  import opened MemHeapLayout

  const MAGIC := 0x1ea01ea0

  // ----- the lists against the tiling -----

  function Addrs(l: seq<Block>): (a: seq<int>)
    ensures |a| == |l| && forall i :: 0 <= i < |l| ==> a[i] == l[i].addr
  {
    seq(|l|, i requires 0 <= i < |l| => l[i].addr)
  }

  function Flag(used: bool): nat
  {
    if used then MAGIC + 1 else MAGIC
  }

  ghost predicate Flagged(magic: map<int, nat>, l: seq<Block>)
  {
    forall i :: 0 <= i < |l| ==> l[i].addr in magic && magic[l[i].addr] == Flag(l[i].used)
  }

  // The free list holds the free blocks, each once.
  ghost predicate Listed(free: seq<int>, l: seq<Block>)
  {
    forall a :: a in free <==> a in Heads(l, false)
  }

  ghost predicate Words(l: seq<Block>)
  {
    forall i :: 0 <= i < |l| ==> l[i].size % 4 == 0
  }

  lemma AddrsDistinct(l: seq<Block>)
    requires Adjoining(l)
    ensures Distinct(Addrs(l))
  {
    forall i, j | 0 <= i < j < |l| ensures Addrs(l)[i] != Addrs(l)[j] {
      Ordered(l, i, j);
    }
  }

  lemma SplitShape(l: seq<Block>, k: nat, n: nat, start: int, pool: nat)
    requires Tiled(l, start, pool) && k + 1 < |l| && !l[k].used && l[k].size >= n + HEADER
    ensures Tiled(Split(l, k, n), start, pool)
    ensures FreeSize(Split(l, k, n)) == FreeSize(l) - n - HEADER
  {
    hide Tiled, Adjoining, Splice, FreeSize;
    var b, c := Block(l[k].addr, n, true), Block(l[k].addr + HEADER + n, l[k].size - HEADER - n, false);
    TiledAdjoining(l, start, pool);
    MeetsAt(l, k);
    AdjoiningTwo(b, c);
    SpliceTiled(l, k, 1, [b, c], start, pool);
    SpliceFreeSize(l, k, 1, [b, c]);
    assert l[k..k + 1] == [l[k]];
    FreeSizeOne(l[k]);
    FreeSizeTwo(b, c);
  }

  lemma SplitAddrs(l: seq<Block>, k: nat, n: nat)
    requires Adjoining(l) && k + 1 < |l| && l[k].size >= n + HEADER
    ensures Addrs(Split(l, k, n)) == Inserted(Addrs(l), k, l[k].addr + HEADER + n)
    ensures l[k].addr + HEADER + n !in Addrs(l)
  {
    forall i | 0 <= i < |l| ensures l[i].addr != l[k].addr + HEADER + n {
      if i < k {
        Ordered(l, i, k);
      } else if i > k {
        Ordered(l, k, i);
      }
    }
  }

  lemma MarkedShape(l: seq<Block>, k: nat, used: bool, start: int, pool: nat)
    requires Tiled(l, start, pool) && k + 1 < |l|
    ensures Tiled(Marked(l, k, used), start, pool)
    ensures FreeSize(Marked(l, k, used)) == FreeSize(l) - Share(l[k]) + (if used then 0 else l[k].size)
  {
    hide Tiled, Adjoining, Splice, FreeSize;
    var b := l[k].(used := used);
    TiledAdjoining(l, start, pool);
    MeetsAt(l, k);
    AdjoiningOne(b);
    SpliceTiled(l, k, 1, [b], start, pool);
    SpliceFreeSize(l, k, 1, [b]);
    assert l[k..k + 1] == [l[k]];
    FreeSizeOne(l[k]);
    FreeSizeOne(b);
  }

  lemma MarkedAddrs(l: seq<Block>, k: nat, used: bool)
    requires k < |l|
    ensures Addrs(Marked(l, k, used)) == Addrs(l)
  {
  }

  lemma JoinedShape(l: seq<Block>, k: nat, start: int, pool: nat)
    requires Tiled(l, start, pool) && k + 2 < |l| && !l[k].used && !l[k + 1].used
    ensures Tiled(Joined(l, k), start, pool)
    ensures FreeSize(Joined(l, k)) == FreeSize(l) + HEADER
  {
    hide Tiled, Adjoining, Splice, FreeSize;
    var b := Block(l[k].addr, l[k].size + HEADER + l[k + 1].size, false);
    TiledAdjoining(l, start, pool);
    MeetsAt(l, k);
    MeetsAt(l, k + 1);
    AdjoiningOne(b);
    SpliceTiled(l, k, 2, [b], start, pool);
    SpliceFreeSize(l, k, 2, [b]);
    assert l[k..k + 2] == [l[k], l[k + 1]];
    FreeSizeTwo(l[k], l[k + 1]);
    FreeSizeOne(b);
  }

  lemma JoinedAddrs(l: seq<Block>, k: nat)
    requires k + 1 < |l|
    ensures Addrs(Joined(l, k)) == Removed(Addrs(l), k + 1)
  {
  }

  // Free payloads, and one header for each block, fit in the pool.
  lemma {:induction false} FreeSizeBelow(l: seq<Block>)
    requires Adjoining(l) && l != []
    ensures l[0].addr + FreeSize(l) + HEADER * |l| <= l[|l| - 1].addr + l[|l| - 1].size + HEADER
  {
    if |l| > 1 {
      assert Meets(l[0], l[1]);
      var m := l[1..];
      forall i | 0 <= i < |m| - 1 ensures Meets(m[i], m[i + 1]) {
        assert Meets(l[i + 1], l[i + 1 + 1]);
      }
      FreeSizeBelow(m);
    } else {
      assert l[1..] == [];
    }
  }

  lemma FreeSizeFits(l: seq<Block>, start: int, pool: nat)
    requires Tiled(l, start, pool)
    ensures FreeSize(l) + 2 * HEADER <= pool
  {
    FreeSizeBelow(l);
  }

  // ----- flags, word sizes and neighbours under the three changes -----

  lemma SplitFlags(magic: map<int, nat>, l: seq<Block>, k: nat, n: nat)
    requires Adjoining(l) && k + 1 < |l| && l[k].size >= n + HEADER && Flagged(magic, l)
    ensures Flagged(magic[l[k].addr + HEADER + n := MAGIC][l[k].addr := MAGIC + 1], Split(l, k, n))
  {
    SplitAddrs(l, k, n);
    AddrsDistinct(l);
    var s, a := Split(l, k, n), Addrs(l);
    forall i | 0 <= i < |s| && i != k && i != k + 1
      ensures s[i].addr != l[k].addr && s[i].addr in magic && magic[s[i].addr] == Flag(s[i].used)
              && s[i].addr != l[k].addr + HEADER + n
    {
      var j := if i < k then i else i - 1;
      assert s[i] == l[j] && a[j] != a[k] && a[j] in a;
    }
  }

  lemma MarkedFlags(magic: map<int, nat>, l: seq<Block>, k: nat, used: bool)
    requires Adjoining(l) && k < |l| && Flagged(magic, l)
    ensures Flagged(magic[l[k].addr := Flag(used)], Marked(l, k, used))
  {
    AddrsDistinct(l);
    var s, a := Marked(l, k, used), Addrs(l);
    forall i | 0 <= i < |s| && i != k ensures s[i] == l[i] && s[i].addr != l[k].addr {
      assert a[i] != a[k];
    }
  }

  lemma JoinedFlags(magic: map<int, nat>, l: seq<Block>, k: nat)
    requires k + 1 < |l| && Flagged(magic, l)
    ensures Flagged(magic, Joined(l, k))
  {
    var s := Joined(l, k);
    forall i | 0 <= i < |s| ensures s[i].addr in magic && magic[s[i].addr] == Flag(s[i].used) {
      assert s[i].addr == l[if i <= k then i else i + 1].addr;
    }
  }

  lemma AllocatedSound(l: seq<Block>, k: nat, n: nat)
    requires k + 1 < |l| && !l[k].used && Settled(l) && Words(l) && n % 4 == 0
    ensures Settled(Allocated(l, k, n)) && Words(Allocated(l, k, n))
  {
    var s := Allocated(l, k, n);
    if l[k].size >= n + HEADER + MINIALLOC {
      NeighbourUsed(l, k);
      forall i | 0 <= i < |s| - 1 ensures Apart(s[i], s[i + 1]) {
        if i < k - 1 {
          assert Apart(l[i], l[i + 1]);
        } else if i > k + 1 {
          assert Apart(l[i - 1], l[i - 1 + 1]);
        }
      }
    } else {
      forall i | 0 <= i < |s| - 1 ensures Apart(s[i], s[i + 1]) {
        assert Apart(l[i], l[i + 1]);
      }
    }
  }

  // Only the neighbours of the block at k may be free beside a free block.
  ghost predicate SettledBut(l: seq<Block>, k: nat)
  {
    forall i :: 0 <= i < |l| - 1 && i != k && i + 1 != k ==> Apart(l[i], l[i + 1])
  }

  lemma MarkedSound(l: seq<Block>, k: nat)
    requires k + 1 < |l| && Settled(l) && Words(l)
    ensures SettledBut(Marked(l, k, false), k) && Words(Marked(l, k, false))
  {
    var s := Marked(l, k, false);
    forall i | 0 <= i < |s| - 1 && i != k && i + 1 != k ensures Apart(s[i], s[i + 1]) {
      assert Apart(l[i], l[i + 1]);
    }
  }

  lemma JoinedSound(l: seq<Block>, k: nat, at: nat)
    requires k + 1 < |l| && SettledBut(l, at) && Words(l) && (at == k || at == k + 1)
    ensures SettledBut(Joined(l, k), k) && Words(Joined(l, k))
  {
    hide Joined, Apart;
    var s := Joined(l, k);
    JoinedSizes(l, k);
    forall i | 0 <= i < |s| - 1 && i != k && i + 1 != k ensures Apart(s[i], s[i + 1]) {
      var j := if i < k then i else i + 1;
      JoinedElsewhere(l, k, i);
      JoinedElsewhere(l, k, i + 1);
      assert Apart(l[j], l[j + 1]);
    }
    forall i | 0 <= i < |s| ensures s[i].size % 4 == 0 {
      if i != k {
        JoinedElsewhere(l, k, i);
      }
    }
  }

  lemma JoinedElsewhere(l: seq<Block>, k: nat, i: nat)
    requires k + 1 < |l| && i < |l| - 1 && i != k
    ensures |Joined(l, k)| == |l| - 1 && Joined(l, k)[i] == l[if i < k then i else i + 1]
  {
  }

  lemma JoinedSizes(l: seq<Block>, k: nat)
    requires k + 1 < |l| && Words(l)
    ensures |Joined(l, k)| == |l| - 1 && Joined(l, k)[k].size % 4 == 0
  {
    hide Joined, Words;
    WordsAt(l, k);
    WordsAt(l, k + 1);
    JoinedHere(l, k);
    SumOfFours(l[k].size, l[k + 1].size);
  }

  lemma WordsAt(l: seq<Block>, i: nat)
    requires Words(l) && i < |l|
    ensures l[i].size % 4 == 0
  {
  }

  lemma JoinedHere(l: seq<Block>, k: nat)
    requires k + 1 < |l|
    ensures |Joined(l, k)| == |l| - 1 && Joined(l, k)[k].size == l[k].size + HEADER + l[k + 1].size
  {
  }

  lemma SumOfFours(a: int, b: int)
    requires a % 4 == 0 && b % 4 == 0
    ensures (a + HEADER + b) % 4 == 0
  {
  }

  lemma SettledWhen(l: seq<Block>, k: nat)
    requires SettledBut(l, k) && k + 1 < |l| && l[k + 1].used && (k > 0 ==> l[k - 1].used)
    ensures Settled(l)
  {
    forall i | 0 <= i < |l| - 1 ensures Apart(l[i], l[i + 1]) {
    }
  }

  // ----- the free list -----

  ghost predicate Holds(l: seq<Block>, a: int, n: nat)
  {
    exists i :: 0 <= i < |l| && l[i] == Block(a, l[i].size, false) && l[i].size >= n
  }

  lemma FreeBlock(l: seq<Block>, start: int, pool: nat, next: map<int, int>, prev: map<int, int>, a: int)
    returns (k: nat)
    requires Tiled(l, start, pool) && Circle(next, prev, Addrs(l)) && a in Heads(l, false)
    ensures k + 1 < |l| && a in next && l[k] == Block(a, l[k].size, false)
    ensures next[a] - a - HEADER == l[k].size
    ensures forall n: nat :: Holds(l, a, n) <==> l[k].size >= n
  {
    HeadsIn(l, false, a);
    k :| 0 <= k < |l| && l[k] == Block(a, l[k].size, false);
    CircleNeighbours(next, prev, Addrs(l), k);
    MeetsAt(l, k);
    AddrsDistinct(l);
    forall n: nat ensures Holds(l, a, n) <==> l[k].size >= n {
      if i :| 0 <= i < |l| && l[i] == Block(a, l[i].size, false) && l[i].size >= n {
        var s := Addrs(l);
        assert s[i] == s[k];
      }
    }
  }

  lemma ListedRemoved(free: seq<int>, j: nat, l: seq<Block>, l': seq<Block>)
    requires j < |free| && Distinct(free) && Listed(free, l)
    requires Heads(l', false) == Heads(l, false) - {free[j]}
    ensures Listed(Removed(free, j), l')
  {
    var r := Removed(free, j);
    forall a ensures a in r <==> a in Heads(l', false) {
      if a in free && a != free[j] {
        var i :| 0 <= i < |free| && free[i] == a;
        assert r[if i < j then i else i - 1] == a;
      }
      if a in r {
        var i :| 0 <= i < |r| && r[i] == a;
        assert a == free[if i < j then i else i + 1];
      }
    }
  }

  lemma CircleOutside(next: map<int, int>, prev: map<int, int>, a: seq<int>, x: int, y: int, z: int)
    requires Circle(next, prev, a) && x !in a
    ensures Circle(next[x := y], prev[x := z], a)
  {
  }

  lemma CircleOfFree(next: map<int, int>, prev: map<int, int>, head: int, free: seq<int>)
    requires Circle(next, prev, [head] + free)
    ensures Distinct(free) && head !in free
  {
    var a := [head] + free;
    forall i, j | 0 <= i < j < |free| ensures free[i] != free[j] {
      assert a[i + 1] != a[j + 1];
    }
    forall i | 0 <= i < |free| ensures free[i] != head {
      assert a[0] != a[i + 1];
    }
  }

  lemma ListedSwapped(free: seq<int>, j: nat, x: int, l: seq<Block>, l': seq<Block>)
    requires j < |free| && Distinct(free) && Listed(free, l)
    requires Heads(l', false) == Heads(l, false) - {free[j]} + {x}
    ensures Listed([x] + Removed(free, j), l')
  {
    hide Removed, Heads, Distinct;
    var r := Removed(free, j);
    forall a ensures a in [x] + r <==> a in Heads(l', false) {
      RemovedIn(free, j, a);
      assert a in [x] + r <==> a == x || a in r;
    }
  }

  lemma RemovedIn(free: seq<int>, j: nat, a: int)
    requires j < |free| && Distinct(free)
    ensures a in Removed(free, j) <==> a in free && a != free[j]
  {
    var r := Removed(free, j);
    if a in free && a != free[j] {
      var i :| 0 <= i < |free| && free[i] == a;
      assert r[if i < j then i else i - 1] == a;
    }
    if a in r {
      var i :| 0 <= i < |r| && r[i] == a;
      assert a == free[if i < j then i else i + 1];
    }
  }

  lemma OnList(free: seq<int>, l: seq<Block>, a: int)
    requires Listed(free, l)
    ensures a in free <==> a in Heads(l, false)
  {
  }

  // Headers lie inside the pool.
  lemma InPool(l: seq<Block>, start: int, pool: nat, k: nat)
    requires Tiled(l, start, pool) && k + 1 < |l|
    ensures start <= l[k].addr && l[k].addr + 2 * HEADER + l[k].size <= start + pool
  {
    if k > 0 {
      Ordered(l, 0, k);
    }
    Ordered(l, k, |l| - 1);
  }

  // The header that a split creates is new to both lists.
  lemma SplitNew(l: seq<Block>, k: nat, n: nat, start: int, pool: nat, head: int, free: seq<int>)
    requires Tiled(l, start, pool) && k + 1 < |l| && !l[k].used && l[k].size >= n + HEADER && Listed(free, l)
    requires head < start || start + pool <= head
    ensures l[k].addr + HEADER + n !in Addrs(l)
    ensures l[k].addr + HEADER + n !in [head] + free
  {
    var x := l[k].addr + HEADER + n;
    SplitAddrs(l, k, n);
    InPool(l, start, pool, k);
    HeadsIn(l, false, x);
    forall i | 0 <= i < |l| ensures l[i].addr != x {
      assert Addrs(l)[i] == l[i].addr;
    }
  }

  lemma AddrAt(l: seq<Block>, k: nat)
    requires k < |l|
    ensures Addrs(l)[k] == l[k].addr
  {
  }

  lemma FlagAt(magic: map<int, nat>, l: seq<Block>, k: nat)
    requires k < |l| && Flagged(magic, l)
    ensures l[k].addr in magic && magic[l[k].addr] == Flag(l[k].used)
  {
  }

  lemma TakenSound(l: seq<Block>, k: nat)
    requires k + 1 < |l| && !l[k].used && Settled(l) && Words(l)
    ensures Settled(Marked(l, k, true)) && Words(Marked(l, k, true))
  {
    var s := Marked(l, k, true);
    forall i | 0 <= i < |s| - 1 ensures Apart(s[i], s[i + 1]) {
      assert Apart(l[i], l[i + 1]);
    }
  }

  lemma NotInFree(x: int, head: int, free: seq<int>, j: nat)
    requires x !in [head] + free && j < |free|
    ensures x !in [head] + Removed(free, j)
  {
  }

  // All that a split leaves behind.
  lemma SplitFacts(magic: map<int, nat>, l: seq<Block>, k: nat, n: nat, start: int, pool: nat, head: int,
                   free: seq<int>, j: nat)
    requires Tiled(l, start, pool) && Settled(l) && Words(l) && Flagged(magic, l) && Listed(free, l)
    requires k + 1 < |l| && !l[k].used && l[k].size >= n + HEADER + MINIALLOC && n % 4 == 0
    requires head < start || start + pool <= head
    ensures var split, x := Split(l, k, n), l[k].addr + HEADER + n;
            && Tiled(split, start, pool) && Settled(split) && Words(split)
            && l[k].addr in magic && magic[l[k].addr] == MAGIC
            && Flagged(magic[x := MAGIC][l[k].addr := MAGIC + 1], split)
            && Addrs(split) == Inserted(Addrs(l), k, x) && x !in Addrs(l) && x !in [head] + free
            && FreeSize(split) == FreeSize(l) - n - HEADER && FreeSize(split) + 2 * HEADER <= pool
            && Heads(split, false) == Heads(l, false) - {l[k].addr} + {x}
  {
    TiledAdjoining(l, start, pool);
    hide Tiled, Circle, Listed, Settled, Words, Flagged, Heads, FreeSize, Addrs, Adjoining, Inserted, Splice;
    SplitNew(l, k, n, start, pool, head, free);
    SplitShape(l, k, n, start, pool);
    SplitAddrs(l, k, n);
    SplitFlags(magic, l, k, n);
    SplitHeads(l, k, n);
    AllocatedSound(l, k, n);
    FreeSizeFits(Split(l, k, n), start, pool);
    FlagAt(magic, l, k);
  }

  // All that taking a block whole leaves behind.
  lemma TakeFacts(magic: map<int, nat>, l: seq<Block>, k: nat, start: int, pool: nat)
    requires Tiled(l, start, pool) && Settled(l) && Words(l) && Flagged(magic, l)
    requires k + 1 < |l| && !l[k].used
    ensures var marked := Marked(l, k, true);
            && Tiled(marked, start, pool) && Settled(marked) && Words(marked)
            && l[k].addr in magic && magic[l[k].addr] == MAGIC
            && Flagged(magic[l[k].addr := MAGIC + 1], marked)
            && Addrs(marked) == Addrs(l)
            && FreeSize(marked) == FreeSize(l) - l[k].size && FreeSize(marked) + 2 * HEADER <= pool
            && Heads(marked, false) == Heads(l, false) - {l[k].addr}
  {
    TiledAdjoining(l, start, pool);
    hide Tiled, Settled, Words, Flagged, Heads, FreeSize, Addrs, Adjoining, Splice;
    MarkedShape(l, k, true, start, pool);
    MarkedAddrs(l, k, true);
    MarkedFlags(magic, l, k, true);
    MarkedHeads(l, k, true);
    TakenSound(l, k);
    FreeSizeFits(Marked(l, k, true), start, pool);
    FlagAt(magic, l, k);
  }

  // ----- giving a block back -----

  // The free list, without one address.
  function Dropped(free: seq<int>, a: int): seq<int>
  {
    if free == [] then [] else if free[0] == a then free[1..] else [free[0]] + Dropped(free[1..], a)
  }

  lemma {:induction false} DroppedIs(free: seq<int>, j: nat)
    requires j < |free| && Distinct(free)
    ensures Dropped(free, free[j]) == Removed(free, j)
  {
    if j > 0 {
      assert free[0] != free[j];
      assert Distinct(free[1..]) by {
        forall x, y | 0 <= x < y < |free| - 1 ensures free[1..][x] != free[1..][y] {
          assert free[x + 1] != free[y + 1];
        }
      }
      DroppedIs(free[1..], j - 1);
      assert Removed(free, j) == [free[0]] + Removed(free[1..], j - 1);
    }
  }

  // What freeing the block at k makes of the free list.
  function FreedList(free: seq<int>, l: seq<Block>, k: nat): seq<int>
    requires k + 1 < |l|
  {
    var rest := if l[k + 1].used then free else Dropped(free, l[k + 1].addr);
    if k > 0 && !l[k - 1].used then rest else [l[k].addr] + rest
  }

  lemma FreeFacts(magic: map<int, nat>, l: seq<Block>, k: nat, start: int, pool: nat)
    requires Tiled(l, start, pool) && Settled(l) && Words(l) && Flagged(magic, l) && k + 1 < |l| && l[k].used
    ensures var marked := Marked(l, k, false);
            && Tiled(marked, start, pool) && SettledBut(marked, k) && Words(marked)
            && l[k].addr in magic && magic[l[k].addr] == MAGIC + 1
            && Flagged(magic[l[k].addr := MAGIC], marked)
            && Addrs(marked) == Addrs(l)
            && FreeSize(marked) == FreeSize(l) + l[k].size
            && Heads(marked, false) == Heads(l, false) + {l[k].addr}
            && l[k].addr !in Heads(l, false)
  {
    TiledAdjoining(l, start, pool);
    hide Tiled, Settled, SettledBut, Words, Flagged, Heads, FreeSize, Addrs, Adjoining, Splice;
    MarkedShape(l, k, false, start, pool);
    MarkedAddrs(l, k, false);
    MarkedFlags(magic, l, k, false);
    MarkedHeads(l, k, false);
    MarkedSound(l, k);
    FlagAt(magic, l, k);
    UsedNotFree(l, k);
  }

  lemma UsedNotFree(l: seq<Block>, k: nat)
    requires Adjoining(l) && k < |l| && l[k].used
    ensures l[k].addr !in Heads(l, false)
  {
    var a := l[k].addr;
    HeadsIn(l, false, a);
    AddrsDistinct(l);
    forall i | 0 <= i < |l| ensures l[i] != Block(a, l[i].size, false) {
      if i != k {
        assert Addrs(l)[i] != Addrs(l)[k];
      }
    }
  }

  lemma JoinFacts(magic: map<int, nat>, l: seq<Block>, k: nat, at: nat, start: int, pool: nat)
    requires Tiled(l, start, pool) && SettledBut(l, at) && Words(l) && Flagged(magic, l) && (at == k || at == k + 1)
    requires k + 2 < |l| && !l[k].used && !l[k + 1].used
    ensures var joined := Joined(l, k);
            && Tiled(joined, start, pool) && SettledBut(joined, k) && Words(joined)
            && Flagged(magic, joined)
            && Addrs(joined) == Removed(Addrs(l), k + 1)
            && FreeSize(joined) == FreeSize(l) + HEADER
            && Heads(joined, false) == Heads(l, false) - {l[k + 1].addr}
  {
    TiledAdjoining(l, start, pool);
    hide Tiled, SettledBut, Words, Flagged, Heads, FreeSize, Addrs, Adjoining, Splice, Removed;
    JoinedShape(l, k, start, pool);
    JoinedAddrs(l, k);
    JoinedFlags(magic, l, k);
    JoinedHeads(l, k);
    JoinedSound(l, k, at);
  }

  // The block before the first is the tail, which is used.
  lemma FlagsBeside(magic: map<int, nat>, next: map<int, int>, prev: map<int, int>, l: seq<Block>, k: nat, start: int,
                    pool: nat)
    requires Tiled(l, start, pool) && Flagged(magic, l) && Circle(next, prev, Addrs(l)) && k + 1 < |l|
    ensures var h := l[k].addr;
            && h in next && h in prev && next[h] in magic && prev[h] in magic && next[h] in prev && prev[h] in next
            && next[h] == l[k + 1].addr && magic[next[h]] == Flag(l[k + 1].used)
            && next[h] - h - HEADER == l[k].size
            && magic[prev[h]] == Flag(k == 0 || l[k - 1].used)
            && (k > 0 ==> prev[h] == l[k - 1].addr)
  {
    CircleNeighbours(next, prev, Addrs(l), k);
    MeetsAt(l, k);
  }

  // The free blocks are the listed ones and, until it is pushed, the block being freed.
  ghost predicate ListedBut(free: seq<int>, l: seq<Block>, pending: set<int>)
  {
    forall a :: a in Heads(l, false) <==> a in free || a in pending
  }

  lemma ListedButSame(free: seq<int>, l: seq<Block>, l': seq<Block>, a: int)
    requires Listed(free, l) && Heads(l', false) == Heads(l, false) + {a}
    ensures ListedBut(free, l', {a})
  {
  }

  // The pending block melts into the one before it, which is listed already.
  lemma ListedButAbsorbed(free: seq<int>, l: seq<Block>, l': seq<Block>, a: int)
    requires ListedBut(free, l, {a}) && a !in free && Heads(l', false) == Heads(l, false) - {a}
    ensures ListedBut(free, l', {})
  {
  }

  // A listed block melts into the one before it.
  lemma ListedButDropped(free: seq<int>, j: nat, l: seq<Block>, l': seq<Block>, pending: set<int>)
    requires ListedBut(free, l, pending) && Distinct(free) && j < |free| && free[j] !in pending
    requires Heads(l', false) == Heads(l, false) - {free[j]}
    ensures ListedBut(Removed(free, j), l', pending)
  {
    var r := Removed(free, j);
    forall a ensures a in r <==> a in free && a != free[j] {
      if a in free && a != free[j] {
        var i :| 0 <= i < |free| && free[i] == a;
        assert r[if i < j then i else i - 1] == a;
      }
      if a in r {
        var i :| 0 <= i < |r| && r[i] == a;
        assert a == free[if i < j then i else i + 1];
      }
    }
  }

  lemma ListedButDone(free: seq<int>, l: seq<Block>, a: int)
    ensures ListedBut(free, l, {}) ==> Listed(free, l)
    ensures ListedBut(free, l, {a}) ==> Listed([a] + free, l)
  {
  }

  // Every free block other than the pending one is on the list.
  lemma OnListBut(free: seq<int>, l: seq<Block>, k: nat, pending: set<int>) returns (j: nat)
    requires ListedBut(free, l, pending) && k < |l| && !l[k].used && l[k].addr !in pending
    ensures j < |free| && free[j] == l[k].addr
  {
    HeadIn(l, k);
    assert l[k].addr in free;
    j :| 0 <= j < |free| && free[j] == l[k].addr;
  }

  lemma MarkedAt(l: seq<Block>, k: nat)
    requires k < |l|
    ensures |Marked(l, k, false)| == |l| && Marked(l, k, false)[k] == l[k].(used := false)
    ensures forall i :: 0 <= i < |l| && i != k ==> Marked(l, k, false)[i] == l[i]
  {
  }

  lemma JoinedAt(l: seq<Block>, k: nat)
    requires k + 1 < |l|
    ensures |Joined(l, k)| == |l| - 1
    ensures Joined(l, k)[k] == Block(l[k].addr, l[k].size + HEADER + l[k + 1].size, l[k].used)
    ensures forall i :: 0 <= i < k ==> Joined(l, k)[i] == l[i]
    ensures forall i :: k < i < |l| - 1 ==> Joined(l, k)[i] == l[i + 1]
  {
  }

  lemma TailUsed(l: seq<Block>, k: nat, start: int, pool: nat)
    requires Tiled(l, start, pool) && k + 1 < |l|
    ensures !l[k + 1].used ==> k + 2 < |l|
  {
  }

  lemma DistinctAddrs(l: seq<Block>, k: nat, start: int, pool: nat)
    requires Tiled(l, start, pool) && k + 1 < |l|
    ensures l[k].addr != l[k + 1].addr
  {
    MeetsAt(l, k);
  }

  lemma NextButUsed(l: seq<Block>, at: nat)
    requires SettledBut(l, at) && at + 2 < |l| && !l[at + 1].used
    ensures l[at + 2].used
  {
    assert Apart(l[at + 1], l[at + 1 + 1]);
  }

  lemma BeforeFreeUsed(l: seq<Block>, k: nat)
    requires Settled(l) && k < |l|
    ensures k > 1 && !l[k - 1].used ==> l[k - 2].used
  {
    if k > 1 {
      assert Apart(l[k - 2], l[k - 2 + 1]);
    }
  }
}
