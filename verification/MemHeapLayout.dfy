// What the memheap allocator's pool looks like: blocks that tile it, the free ones among
// them, and how allocating and freeing change the tiling. The doubly linked circles that
// represent both lists are here too.
module MemHeapLayout {
  const HEADER := 24       // a block header's size
  const MINIALLOC := 12
  const WORD := 0x100000000

  // A block: the address of its header, the size of its payload, whether it is in use.
  datatype Block = Block(addr: int, size: nat, used: bool)

  // ----- tilings -----

  // The blocks cover the pool from start on without gaps; the last one is only a header,
  // marked as used.
  ghost predicate Tiled(l: seq<Block>, start: int, pool: nat)
  {
    && |l| >= 2 && l[0].addr == start
    && Adjoining(l)
    && l[|l| - 1] == Block(start + pool - HEADER, 0, true)
  }

  ghost predicate Adjoining(l: seq<Block>)
  {
    forall i :: 0 <= i < |l| - 1 ==> Meets(l[i], l[i + 1])
  }

  predicate Meets(b: Block, c: Block)
  {
    c.addr == b.addr + HEADER + b.size
  }

  // Two free blocks are never neighbours.
  ghost predicate Settled(l: seq<Block>)
  {
    forall i :: 0 <= i < |l| - 1 ==> Apart(l[i], l[i + 1])
  }

  predicate Apart(b: Block, c: Block)
  {
    b.used || c.used
  }

  // Blocks follow each other in the order of their addresses, without overlap.
  lemma {:induction false} Ordered(l: seq<Block>, i: nat, j: nat)
    requires Adjoining(l) && i < j < |l|
    ensures l[i].addr + HEADER + l[i].size <= l[j].addr
  {
    assert Meets(l[j - 1], l[j]);
    if i < j - 1 {
      Ordered(l, i, j - 1);
    }
  }

  function FreeSize(l: seq<Block>): nat
  {
    if l == [] then 0 else (if l[0].used then 0 else l[0].size) + FreeSize(l[1..])
  }

  lemma {:induction false} FreeSizeAdd(l: seq<Block>, m: seq<Block>)
    ensures FreeSize(l + m) == FreeSize(l) + FreeSize(m)
  {
    if l == [] {
      assert l + m == m;
    } else {
      assert (l + m)[1..] == l[1..] + m;
      FreeSizeAdd(l[1..], m);
    }
  }

  // ----- changing a tiling -----

  // The block before, the blocks replaced, the blocks after.
  function Splice(l: seq<Block>, k: nat, n: nat, mid: seq<Block>): seq<Block>
    requires k + n <= |l|
  {
    l[..k] + mid + l[k + n..]
  }

  // The front of a free block is taken into use.
  function Split(l: seq<Block>, k: nat, n: nat): seq<Block>
    requires k < |l| && l[k].size >= n + HEADER
  {
    Splice(l, k, 1, [Block(l[k].addr, n, true), Block(l[k].addr + HEADER + n, l[k].size - HEADER - n, false)])
  }

  function Marked(l: seq<Block>, k: nat, used: bool): seq<Block>
    requires k < |l|
  {
    Splice(l, k, 1, [l[k].(used := used)])
  }

  function Joined(l: seq<Block>, k: nat): seq<Block>
    requires k + 1 < |l|
  {
    Splice(l, k, 2, [Block(l[k].addr, l[k].size + HEADER + l[k + 1].size, l[k].used)])
  }

  function JoinedIfFree(l: seq<Block>, k: nat): seq<Block>
    requires k + 1 < |l|
  {
    if l[k].used || l[k + 1].used then l else Joined(l, k)
  }

  lemma SplitAllocated(l: seq<Block>, k: nat, n: nat)
    requires k < |l| && l[k].size >= n + HEADER + MINIALLOC
    ensures Allocated(l, k, n) == Split(l, k, n)
  {
  }

  // A block is given back, and melts into the free blocks on either side of it.
  function Freed(l: seq<Block>, k: nat): seq<Block>
    requires k + 1 < |l|
  {
    var m := Marked(l, k, false);
    if k > 0 && !l[k - 1].used then JoinedIfFree(Joined(m, k - 1), k - 1) else JoinedIfFree(m, k)
  }

  // An allocation cuts off what it needs, or takes the block whole when the rest would be
  // too small to use.
  function Allocated(l: seq<Block>, k: nat, n: nat): seq<Block>
    requires k < |l|
  {
    if l[k].size >= n + HEADER + MINIALLOC then Split(l, k, n) else Marked(l, k, true)
  }

  lemma SpliceTiled(l: seq<Block>, k: nat, n: nat, mid: seq<Block>, start: int, pool: nat)
    requires Tiled(l, start, pool) && n >= 1 && k + n < |l| && mid != [] && Adjoining(mid)
    requires mid[0].addr == l[k].addr && Meets(mid[|mid| - 1], l[k + n])
    ensures Tiled(Splice(l, k, n, mid), start, pool)
  {
    var r := Splice(l, k, n, mid);
    forall i | 0 <= i < |r| - 1 ensures Meets(r[i], r[i + 1]) {
      if i < k - 1 {
        assert Meets(l[i], l[i + 1]);
      } else if i == k - 1 {
        assert Meets(l[k - 1], l[k]);
      } else if i < k + |mid| - 1 {
        assert Meets(mid[i - k], mid[i - k + 1]);
      } else if i >= k + |mid| {
        var j := i - |mid| + n;
        assert r[i] == l[j] && r[i + 1] == l[j + 1];
        assert Meets(l[j], l[j + 1]);
      }
    }
  }

  lemma SpliceFreeSize(l: seq<Block>, k: nat, n: nat, mid: seq<Block>)
    requires k + n <= |l|
    ensures FreeSize(Splice(l, k, n, mid)) == FreeSize(l) - FreeSize(l[k..k + n]) + FreeSize(mid)
  {
    assert l == l[..k] + l[k..k + n] + l[k + n..];
    FreeSizeAdd(l[..k] + l[k..k + n], l[k + n..]);
    FreeSizeAdd(l[..k], l[k..k + n]);
    FreeSizeAdd(l[..k] + mid, l[k + n..]);
    FreeSizeAdd(l[..k], mid);
  }

  function Share(b: Block): nat
  {
    if b.used then 0 else b.size
  }

  lemma FreeSizeOne(b: Block)
    ensures FreeSize([b]) == Share(b)
  {
    assert [b][1..] == [];
  }

  lemma FreeSizeTwo(b: Block, c: Block)
    ensures FreeSize([b, c]) == Share(b) + Share(c)
  {
    assert [b, c][1..] == [c];
    FreeSizeOne(c);
  }

  lemma MeetsAt(l: seq<Block>, k: nat)
    requires Adjoining(l) && k + 1 < |l|
    ensures Meets(l[k], l[k + 1])
  {
  }

  lemma AdjoiningOne(b: Block)
    ensures Adjoining([b])
  {
  }

  lemma AdjoiningTwo(b: Block, c: Block)
    requires Meets(b, c)
    ensures Adjoining([b, c])
  {
  }

  lemma TiledAdjoining(l: seq<Block>, start: int, pool: nat)
    requires Tiled(l, start, pool)
    ensures Adjoining(l)
  {
  }

  // ----- which blocks are used and which are free -----

  // The header addresses of the blocks in one of the two states.
  function Heads(l: seq<Block>, used: bool): set<int>
  {
    if l == [] then {} else (if l[0].used == used then {l[0].addr} else {}) + Heads(l[1..], used)
  }

  lemma {:induction false} HeadsAdd(l: seq<Block>, m: seq<Block>, used: bool)
    ensures Heads(l + m, used) == Heads(l, used) + Heads(m, used)
  {
    if l == [] {
      assert l + m == m;
    } else {
      assert (l + m)[1..] == l[1..] + m;
      HeadsAdd(l[1..], m, used);
    }
  }

  lemma {:induction false} HeadsIn(l: seq<Block>, used: bool, a: int)
    ensures a in Heads(l, used) <==> exists i :: 0 <= i < |l| && l[i] == Block(a, l[i].size, used)
  {
    if l != [] {
      HeadsIn(l[1..], used, a);
      if l[0].used == used && l[0].addr == a {
        assert l[0] == Block(a, l[0].size, used);
      }
      if i :| 0 <= i < |l[1..]| && l[1..][i] == Block(a, l[1..][i].size, used) {
        assert l[i + 1] == Block(a, l[i + 1].size, used);
      }
    }
  }

  lemma HeadIn(l: seq<Block>, k: nat)
    requires k < |l|
    ensures l[k].addr in Heads(l, l[k].used)
  {
    HeadsIn(l, l[k].used, l[k].addr);
    assert l[k] == Block(l[k].addr, l[k].size, l[k].used);
  }

  lemma HeadsSplice(l: seq<Block>, k: nat, n: nat, mid: seq<Block>, used: bool)
    requires k + n <= |l|
    ensures Heads(l, used) == Heads(l[..k], used) + Heads(l[k..k + n], used) + Heads(l[k + n..], used)
    ensures Heads(Splice(l, k, n, mid), used) == Heads(l[..k], used) + Heads(mid, used) + Heads(l[k + n..], used)
  {
    assert l == l[..k] + l[k..k + n] + l[k + n..];
    HeadsAdd(l[..k] + l[k..k + n], l[k + n..], used);
    HeadsAdd(l[..k], l[k..k + n], used);
    HeadsAdd(l[..k] + mid, l[k + n..], used);
    HeadsAdd(l[..k], mid, used);
  }

  // No block in another part of a tiling has the same header address.
  lemma HeadsApart(l: seq<Block>, k: nat, n: nat, used: bool, other: bool)
    requires Adjoining(l) && k + n <= |l|
    ensures Heads(l[k..k + n], used) !! Heads(l[..k], other) + Heads(l[k + n..], other)
  {
    hide Heads;
    var here, before, after := Heads(l[k..k + n], used), Heads(l[..k], other), Heads(l[k + n..], other);
    forall a | a in here ensures a !in before && a !in after {
      HeadsIn(l[k..k + n], used, a);
      HeadsIn(l[..k], other, a);
      HeadsIn(l[k + n..], other, a);
      var i :| 0 <= i < n && l[k..k + n][i] == Block(a, l[k..k + n][i].size, used);
      if j :| 0 <= j < k && l[..k][j] == Block(a, l[..k][j].size, other) {
        Ordered(l, j, k + i);
      }
      var tail := l[k + n..];
      if j :| 0 <= j < |tail| && tail[j] == Block(a, tail[j].size, other) {
        Ordered(l, k + i, k + n + j);
      }
    }
  }

  lemma HeadsSwap(l: seq<Block>, k: nat, n: nat, mid: seq<Block>, used: bool)
    requires Adjoining(l) && k + n <= |l|
    ensures Heads(Splice(l, k, n, mid), used) == Heads(l, used) - Heads(l[k..k + n], used) + Heads(mid, used)
  {
    HeadsSplice(l, k, n, mid, used);
    HeadsApart(l, k, n, used, used);
    hide Heads, Adjoining, Splice;
  }

  function One(b: Block, used: bool): set<int>
  {
    if b.used == used then {b.addr} else {}
  }

  lemma HeadsOne(b: Block, used: bool)
    ensures Heads([b], used) == One(b, used)
  {
    assert [b][1..] == [];
  }

  lemma HeadsTwo(b: Block, c: Block, used: bool)
    ensures Heads([b, c], used) == One(b, used) + One(c, used)
  {
    assert [b, c][1..] == [c];
    HeadsOne(c, used);
  }

  lemma MarkedHeads(l: seq<Block>, k: nat, used: bool)
    requires Adjoining(l) && k < |l| && l[k].used != used
    ensures Heads(Marked(l, k, used), used) == Heads(l, used) + {l[k].addr}
    ensures Heads(Marked(l, k, used), !used) == Heads(l, !used) - {l[k].addr}
  {
    hide Heads, Adjoining, Splice;
    assert l[k..k + 1] == [l[k]];
    HeadsSwap(l, k, 1, [l[k].(used := used)], used);
    HeadsSwap(l, k, 1, [l[k].(used := used)], !used);
    HeadsOne(l[k], used);
    HeadsOne(l[k], !used);
    HeadsOne(l[k].(used := used), used);
    HeadsOne(l[k].(used := used), !used);
  }

  lemma SplitHeads(l: seq<Block>, k: nat, n: nat)
    requires Adjoining(l) && k < |l| && !l[k].used && l[k].size >= n + HEADER
    ensures Heads(Split(l, k, n), true) == Heads(l, true) + {l[k].addr}
    ensures Heads(Split(l, k, n), false) == Heads(l, false) - {l[k].addr} + {l[k].addr + HEADER + n}
  {
    hide Heads, Adjoining, Splice;
    assert l[k..k + 1] == [l[k]];
    var b, c := Block(l[k].addr, n, true), Block(l[k].addr + HEADER + n, l[k].size - HEADER - n, false);
    HeadsSwap(l, k, 1, [b, c], true);
    HeadsSwap(l, k, 1, [b, c], false);
    HeadsOne(l[k], true);
    HeadsOne(l[k], false);
    HeadsTwo(b, c, true);
    HeadsTwo(b, c, false);
  }

  lemma JoinedHeads(l: seq<Block>, k: nat)
    requires Adjoining(l) && k + 1 < |l| && !l[k].used && !l[k + 1].used
    ensures Heads(Joined(l, k), true) == Heads(l, true)
    ensures Heads(Joined(l, k), false) == Heads(l, false) - {l[k + 1].addr}
  {
    hide Heads, Adjoining, Splice;
    Ordered(l, k, k + 1);
    HeadIn(l, k);
    assert l[k..k + 2] == [l[k], l[k + 1]];
    var b := Block(l[k].addr, l[k].size + HEADER + l[k + 1].size, false);
    HeadsSwap(l, k, 2, [b], true);
    HeadsSwap(l, k, 2, [b], false);
    HeadsOne(b, true);
    HeadsOne(b, false);
    HeadsTwo(l[k], l[k + 1], true);
    HeadsTwo(l[k], l[k + 1], false);
  }

  // ----- freeing undoes allocating -----

  lemma MarkedBack(l: seq<Block>, k: nat)
    requires k < |l| && !l[k].used
    ensures Marked(Marked(l, k, true), k, false) == l
  {
    var m := Marked(l, k, true);
    assert m[..k] == l[..k] && m[k + 1..] == l[k + 1..];
  }

  lemma NeighbourUsed(l: seq<Block>, i: nat)
    requires Settled(l) && i + 1 < |l| && !l[i].used
    ensures l[i + 1].used
  {
    assert Apart(l[i], l[i + 1]);
  }

  lemma FreeUndoesAlloc(l: seq<Block>, k: nat, n: nat)
    requires k + 1 < |l| && !l[k].used && Settled(l) && Adjoining(l)
    ensures k + 1 < |Allocated(l, k, n)| && Freed(Allocated(l, k, n), k) == l
  {
    assert Apart(l[k], l[k + 1]);
    if k > 0 {
      assert Apart(l[k - 1], l[k]);
    }
    if l[k].size >= n + HEADER + MINIALLOC {
      var a := Split(l, k, n);
      assert a[k] == Block(l[k].addr, n, true);
      var m := Marked(a, k, false);
      assert m[k] == Block(l[k].addr, n, false) && m[k + 1] == a[k + 1];
      assert Joined(m, k) == l;
    } else {
      MarkedBack(l, k);
    }
  }

  // When nothing but the tail is in use, the free neighbours have all melted into one.
  lemma AllFreeIsOne(l: seq<Block>, start: int, pool: nat)
    requires Tiled(l, start, pool) && Settled(l) && forall i :: 0 <= i < |l| - 1 ==> !l[i].used
    ensures pool >= 2 * HEADER
    ensures l == [Block(start, pool - 2 * HEADER, false), Block(start + pool - HEADER, 0, true)]
  {
    NeighbourUsed(l, 0);
    assert Meets(l[0], l[1]);
  }

  // ----- what is in use -----

  lemma AllocatedHeads(l: seq<Block>, k: nat, n: nat)
    requires Adjoining(l) && k < |l| && !l[k].used
    ensures Heads(Allocated(l, k, n), true) == Heads(l, true) + {l[k].addr}
  {
    if l[k].size >= n + HEADER + MINIALLOC {
      SplitHeads(l, k, n);
    } else {
      MarkedHeads(l, k, true);
    }
  }

  lemma FreedHeads(l: seq<Block>, k: nat, start: int, pool: nat)
    requires Tiled(l, start, pool) && k + 1 < |l| && l[k].used
    ensures Heads(Freed(l, k), true) == Heads(l, true) - {l[k].addr}
  {
    hide Heads, Tiled, Adjoining, Splice;
    TiledAdjoining(l, start, pool);
    MarkedHeads(l, k, false);
    var m := Marked(l, k, false);
    FreedParts(l, k, start, pool);
    if k > 0 && !l[k - 1].used {
      JoinedHeads(m, k - 1);
      JoinedIfFreeHeads(Joined(m, k - 1), k - 1);
    } else {
      JoinedIfFreeHeads(m, k);
    }
  }

  lemma JoinedIfFreeHeads(l: seq<Block>, k: nat)
    requires Adjoining(l) && k + 1 < |l|
    ensures Heads(JoinedIfFree(l, k), true) == Heads(l, true)
  {
    if !l[k].used && !l[k + 1].used {
      JoinedHeads(l, k);
    }
  }

  lemma FreedParts(l: seq<Block>, k: nat, start: int, pool: nat)
    requires Tiled(l, start, pool) && k + 1 < |l| && l[k].used
    ensures var m := Marked(l, k, false);
            && |m| == |l| && !m[k].used && (k > 0 ==> m[k - 1] == l[k - 1]) && Adjoining(m)
            && (k > 0 && !l[k - 1].used ==> Adjoining(Joined(m, k - 1)) && |Joined(m, k - 1)| == |l| - 1)
  {
    MeetsAt(l, k);
    AdjoiningOne(l[k].(used := false));
    var m := Marked(l, k, false);
    SpliceTiled(l, k, 1, [l[k].(used := false)], start, pool);
    if k > 0 && !l[k - 1].used {
      MeetsAt(m, k - 1);
      MeetsAt(m, k);
      var b := Block(m[k - 1].addr, m[k - 1].size + HEADER + m[k].size, m[k - 1].used);
      AdjoiningOne(b);
      SpliceTiled(m, k - 1, 2, [b], start, pool);
    }
  }

  // When everything that was allocated has been freed, whatever the order, one free block
  // is left.
  lemma NothingInUse(l: seq<Block>, start: int, pool: nat)
    requires Tiled(l, start, pool) && Settled(l) && Heads(l, true) == {start + pool - HEADER}
    ensures pool >= 2 * HEADER && FreeSize(l) == pool - 2 * HEADER
    ensures l == [Block(start, pool - 2 * HEADER, false), Block(start + pool - HEADER, 0, true)]
  {
    forall i | 0 <= i < |l| - 1 ensures !l[i].used {
      Ordered(l, i, |l| - 1);
      HeadIn(l, i);
    }
    AllFreeIsOne(l, start, pool);
    FreeSizeTwo(l[0], l[1]);
  }

  // The payloads of two blocks do not meet each other or a header.
  lemma PayloadsApart(l: seq<Block>, i: nat, j: nat)
    requires Adjoining(l) && i < |l| && j < |l| && i != j
    ensures l[i].addr + HEADER + l[i].size <= l[j].addr || l[j].addr + HEADER + l[j].size <= l[i].addr
  {
    if i < j {
      Ordered(l, i, j);
    } else {
      Ordered(l, j, i);
    }
  }

  // ----- circles -----

  // next and prev link the nodes in a, both ways, and close the circle.
  ghost predicate Circle(next: map<int, int>, prev: map<int, int>, a: seq<int>)
  {
    && a != [] && Distinct(a)
    && (forall i :: 0 <= i < |a| ==> a[i] in next && a[i] in prev)
    && (forall i :: 0 <= i < |a| - 1 ==> next[a[i]] == a[i + 1] && prev[a[i + 1]] == a[i])
    && next[a[|a| - 1]] == a[0] && prev[a[0]] == a[|a| - 1]
  }

  ghost predicate Distinct(a: seq<int>)
  {
    forall i, j :: 0 <= i < j < |a| ==> a[i] != a[j]
  }

  function Inserted(a: seq<int>, j: nat, x: int): seq<int>
    requires j < |a|
  {
    a[..j + 1] + [x] + a[j + 1..]
  }

  function Removed(a: seq<int>, j: nat): seq<int>
    requires j < |a|
  {
    a[..j] + a[j + 1..]
  }

  lemma CircleNeighbours(next: map<int, int>, prev: map<int, int>, a: seq<int>, j: nat)
    requires Circle(next, prev, a) && j < |a|
    ensures a[j] in next && a[j] in prev
    ensures next[a[j]] == a[if j + 1 < |a| then j + 1 else 0]
    ensures prev[a[j]] == a[if j > 0 then j - 1 else |a| - 1]
    ensures next[a[j]] in prev && next[a[j]] in next && prev[a[j]] in next && prev[a[j]] in prev
  {
    if j > 0 {
      assert prev[a[j - 1 + 1]] == a[j - 1];
    }
  }

  lemma CircleInsert(next: map<int, int>, prev: map<int, int>, a: seq<int>, j: nat, x: int)
    requires Circle(next, prev, a) && j < |a| && x !in a
    ensures a[j] in next
    ensures Circle(next[x := next[a[j]]][a[j] := x], prev[x := a[j]][next[a[j]] := x], Inserted(a, j, x))
  {
    var b := Inserted(a, j, x);
    CircleNeighbours(next, prev, a, j);
    var next', prev' := next[x := next[a[j]]][a[j] := x], prev[x := a[j]][next[a[j]] := x];
    forall i | 0 <= i < |b| - 1 ensures next'[b[i]] == b[i + 1] && prev'[b[i + 1]] == b[i] {
      if i < j {
        assert b[i] == a[i] && b[i + 1] == a[i + 1];
      } else if i > j + 1 {
        assert b[i] == a[i - 1] && b[i + 1] == a[i];
        assert next[a[i - 1]] == a[i - 1 + 1];
      }
    }
  }

  lemma CircleRemove(next: map<int, int>, prev: map<int, int>, a: seq<int>, j: nat)
    requires Circle(next, prev, a) && j < |a| && |a| >= 2
    ensures a[j] in next && a[j] in prev
    ensures Circle(next[prev[a[j]] := next[a[j]]], prev[next[a[j]] := prev[a[j]]], Removed(a, j))
  {
    var b := Removed(a, j);
    CircleNeighbours(next, prev, a, j);
    var next', prev' := next[prev[a[j]] := next[a[j]]], prev[next[a[j]] := prev[a[j]]];
    forall i | 0 <= i < |b| - 1 ensures next'[b[i]] == b[i + 1] && prev'[b[i + 1]] == b[i] {
      if i < j - 1 {
        assert b[i] == a[i] && b[i + 1] == a[i + 1];
      } else if i >= j {
        assert b[i] == a[i + 1] && b[i + 1] == a[i + 1 + 1];
      }
    }
  }
}
