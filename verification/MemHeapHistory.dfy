// Whole histories of allocations and frees: the tiling they leave, and that it is one free
// block again when everything has been given back.
module MemHeapHistory {
  import opened MemHeapLayout
  import opened MemHeapLists
  import opened MemHeap

  // The block at k is allocated for a request of n bytes, or is given back.
  datatype Move = Take(k: nat, n: nat) | Give(k: nat)

  predicate Fits(l: seq<Block>, m: Move)
  {
    m.k + 1 < |l| && if m.Take? then !l[m.k].used && l[m.k].size >= m.n && m.n % 4 == 0 else l[m.k].used
  }

  function Moved(l: seq<Block>, m: Move): seq<Block>
    requires Fits(l, m)
  {
    if m.Take? then Allocated(l, m.k, m.n) else Freed(l, m.k)
  }

  predicate Possible(l: seq<Block>, moves: seq<Move>)
    decreases |moves|
  {
    moves == [] || (Fits(l, moves[0]) && Possible(Moved(l, moves[0]), moves[1..]))
  }

  function After(l: seq<Block>, moves: seq<Move>): seq<Block>
    requires Possible(l, moves)
    decreases |moves|
  {
    if moves == [] then l else After(Moved(l, moves[0]), moves[1..])
  }

  // The blocks taken and not yet given back.
  function Owed(l: seq<Block>, moves: seq<Move>, owed: set<int>): set<int>
    requires Possible(l, moves)
    decreases |moves|
  {
    if moves == [] then owed
    else
      var a := {l[moves[0].k].addr};
      Owed(Moved(l, moves[0]), moves[1..], if moves[0].Take? then owed + a else owed - a)
  }

  // The moves are those of the calls: some block can be taken for a request exactly when a
  // free one holds it, and those that can be given back are those with a live payload.
  lemma MovesAreCalls(l: seq<Block>, start: int, pool: nat, size: nat, k: nat)
    requires Tiled(l, start, pool)
    ensures (exists i: nat :: Fits(l, Take(i, Request(size)))) <==> !NoneHolds(l, Request(size))
    ensures Fits(l, Give(k)) <==> exists ptr :: Live(l, ptr, k)
  {
    var n := Request(size);
    if !NoneHolds(l, n) {
      var i: nat :| i < |l| && !l[i].used && l[i].size >= n;
      assert Fits(l, Take(i, n));
    }
    if Fits(l, Give(k)) {
      assert Live(l, l[k].addr + HEADER, k);
    }
  }

  // What the allocator's invariant says of the tiling, with the blocks that are owed.
  ghost predicate Kept(l: seq<Block>, start: int, pool: nat, owed: set<int>)
  {
    && Tiled(l, start, pool) && Settled(l) && Words(l)
    && Heads(l, true) == owed + {start + pool - HEADER} && start + pool - HEADER !in owed
  }

  lemma AllocatedShape(l: seq<Block>, k: nat, n: nat, start: int, pool: nat)
    requires Tiled(l, start, pool) && k + 1 < |l| && !l[k].used
    ensures Tiled(Allocated(l, k, n), start, pool)
  {
    hide Tiled, Split, Marked;
    if l[k].size >= n + HEADER + MINIALLOC {
      SplitShape(l, k, n, start, pool);
    } else {
      MarkedShape(l, k, true, start, pool);
    }
  }

  lemma FreedSound(l: seq<Block>, k: nat, start: int, pool: nat)
    requires Tiled(l, start, pool) && Settled(l) && Words(l) && k + 1 < |l| && l[k].used
    ensures Tiled(Freed(l, k), start, pool) && Settled(Freed(l, k)) && Words(Freed(l, k))
  {
    hide Tiled, Settled, SettledBut, Words, Marked, Joined;
    var m := Marked(l, k, false);
    MarkedShape(l, k, false, start, pool);
    MarkedSound(l, k);
    MarkedAt(l, k);
    BeforeFreeUsed(l, k);
    if k > 0 && !l[k - 1].used {
      JoinedShape(m, k - 1, start, pool);
      JoinedSound(m, k - 1, k);
      JoinedAt(m, k - 1);
      JoinedAhead(Joined(m, k - 1), k - 1, start, pool);
    } else {
      JoinedAhead(m, k, start, pool);
    }
  }

  // Joining a free block with what comes after it settles the tiling.
  lemma JoinedAhead(l: seq<Block>, k: nat, start: int, pool: nat)
    requires Tiled(l, start, pool) && SettledBut(l, k) && Words(l) && k + 1 < |l| && !l[k].used
             && (k > 0 ==> l[k - 1].used)
    ensures var j := JoinedIfFree(l, k); Tiled(j, start, pool) && Settled(j) && Words(j)
  {
    hide Tiled, Settled, SettledBut, Words, Joined;
    if !l[k + 1].used {
      TailUsed(l, k, start, pool);
      NextButUsed(l, k);
      JoinedShape(l, k, start, pool);
      JoinedSound(l, k, k);
      JoinedAt(l, k);
    }
    SettledWhen(JoinedIfFree(l, k), k);
  }

  lemma TailApart(l: seq<Block>, k: nat, start: int, pool: nat)
    requires Tiled(l, start, pool) && k + 1 < |l|
    ensures l[k].addr != start + pool - HEADER
  {
    Ordered(l, k, |l| - 1);
  }

  lemma MoveKeeps(l: seq<Block>, m: Move, start: int, pool: nat, owed: set<int>)
    requires Kept(l, start, pool, owed) && Fits(l, m)
    ensures Kept(Moved(l, m), start, pool, if m.Take? then owed + {l[m.k].addr} else owed - {l[m.k].addr})
  {
    hide Tiled, Settled, Words, Heads, Allocated, Freed;
    TiledAdjoining(l, start, pool);
    TailApart(l, m.k, start, pool);
    if m.Take? {
      AllocatedShape(l, m.k, m.n, start, pool);
      AllocatedSound(l, m.k, m.n);
      AllocatedHeads(l, m.k, m.n);
    } else {
      FreedSound(l, m.k, start, pool);
      FreedHeads(l, m.k, start, pool);
    }
  }

  // Every history keeps the tiling, and exactly the blocks owed are in use.
  lemma {:induction false} HistoryKeeps(l: seq<Block>, moves: seq<Move>, start: int, pool: nat, owed: set<int>)
    requires Kept(l, start, pool, owed) && Possible(l, moves)
    ensures Kept(After(l, moves), start, pool, Owed(l, moves, owed))
    decreases |moves|
  {
    if moves != [] {
      hide Kept, Fits, Moved;
      MoveKeeps(l, moves[0], start, pool, owed);
      var a := {l[moves[0].k].addr};
      HistoryKeeps(Moved(l, moves[0]), moves[1..], start, pool, if moves[0].Take? then owed + a else owed - a);
    }
  }

  // From a fresh heap, whatever is taken and given back in whatever order: once nothing is
  // owed, the heap is as it was.
  lemma AllGivenBack(start: int, pool: nat, moves: seq<Move>)
    requires pool >= 2 * HEADER && pool % 4 == 0
    requires var whole := [Block(start, pool - 2 * HEADER, false), Block(start + pool - HEADER, 0, true)];
             Possible(whole, moves) && Owed(whole, moves, {}) == {}
    ensures var whole := [Block(start, pool - 2 * HEADER, false), Block(start + pool - HEADER, 0, true)];
            After(whole, moves) == whole && FreeSize(After(whole, moves)) == pool - 2 * HEADER
  {
    var l := [Block(start, pool - 2 * HEADER, false), Block(start + pool - HEADER, 0, true)];
    FreshKept(l, start, pool);
    HistoryKeeps(l, moves, start, pool, {});
    NothingInUse(After(l, moves), start, pool);
  }

  lemma FreshKept(l: seq<Block>, start: int, pool: nat)
    requires pool >= 2 * HEADER && pool % 4 == 0
    requires l == [Block(start, pool - 2 * HEADER, false), Block(start + pool - HEADER, 0, true)]
    ensures Kept(l, start, pool, {})
  {
    HeadsTwo(l[0], l[1], true);
  }
}
