// Counting sort, as specified: the positions of a byte string in the order of a stable
// sort by byte. The bzip2 decoder sorts this way twice: for the pointers of the inverse
// Burrows-Wheeler transform, and for the symbols of a Huffman table.
module CountingSort {
  import opened Bytes

  // The positions of byte c in L, in increasing order.
  function Positions(L: seq<byte>, c: byte): (p: seq<nat>)
  {
    if L == [] then []
    else
      var n := |L| - 1;
      if L[n] == c then Positions(L[..n], c) + [n] else Positions(L[..n], c)
  }

  // The positions of all bytes below c: first those of byte 0, then those of byte 1, ..
  function PositionsBelow(L: seq<byte>, c: nat): seq<nat>
    requires c <= 256
  {
    if c == 0 then [] else PositionsBelow(L, c - 1) + Positions(L, c - 1)
  }

  lemma PositionsSorted(L: seq<byte>, c: byte)
    ensures forall j :: 0 <= j < |Positions(L, c)| ==> Positions(L, c)[j] < |L| && L[Positions(L, c)[j]] == c
    ensures forall j, k :: 0 <= j < k < |Positions(L, c)| ==> Positions(L, c)[j] < Positions(L, c)[k]
  {
  }

  // Before comes first by byte, then by position: the order of a stable sort.
  predicate Before(L: seq<byte>, i: nat, j: nat)
    requires i < |L| && j < |L|
  {
    L[i] < L[j] || (L[i] == L[j] && i < j)
  }

  predicate StablyOrdered(L: seq<byte>, T: seq<nat>)
  {
    && (forall j :: 0 <= j < |T| ==> T[j] < |L|)
    && (forall j, k :: 0 <= j < k < |T| ==> Before(L, T[j], T[k]))
  }

  lemma {:induction false} PositionsBelowOrdered(L: seq<byte>, c: nat)
    requires c <= 256
    ensures StablyOrdered(L, PositionsBelow(L, c))
    ensures forall j :: 0 <= j < |PositionsBelow(L, c)| ==> L[PositionsBelow(L, c)[j]] < c
  {
    if c > 0 {
      PositionsBelowOrdered(L, c - 1);
      PositionsSorted(L, c - 1);
      var lower, p := PositionsBelow(L, c - 1), Positions(L, c - 1);
      forall j | 0 <= j < |lower + p|
        ensures (lower + p)[j] < |L| && L[(lower + p)[j]] < c
      {
        assert j >= |lower| ==> (lower + p)[j] == p[j - |lower|];
      }
    }
  }

  lemma {:induction false} PositionsBelowExtend(L: seq<byte>, x: byte, c: nat)
    requires c <= 256
    ensures multiset(PositionsBelow(L + [x], c))
         == multiset(PositionsBelow(L, c) + if x < c then [|L|] else [])
  {
    if c > 0 {
      PositionsBelowExtend(L, x, c - 1);
      assert (L + [x])[..|L|] == L;
    }
  }

  lemma {:induction false} PositionsBelowPrefix(L: seq<byte>, c: nat, d: nat)
    requires c <= d <= 256
    ensures PositionsBelow(L, c) <= PositionsBelow(L, d)
    decreases d - c
  {
    if c < d {
      PositionsBelowPrefix(L, c, d - 1);
    }
  }

  lemma {:induction false} PositionsAt(L: seq<byte>, i: nat)
    requires i < |L|
    ensures |Positions(L[..i], L[i])| < |Positions(L, L[i])|
    ensures Positions(L, L[i])[|Positions(L[..i], L[i])|] == i
  {
    var n := |L| - 1;
    if i < n {
      assert L[..n][..i] == L[..i];
      PositionsAt(L[..n], i);
    }
  }

  // A sort has as many entries as there are positions below the bound.
  lemma {:induction false} AllPlaced(L: seq<byte>, d: nat)
    requires d <= 256 && forall i :: 0 <= i < |L| ==> L[i] < d
    ensures |PositionsBelow(L, d)| == |L|
  {
    if L == [] {
      NothingPlaced(d);
    } else {
      var n := |L| - 1;
      AllPlaced(L[..n], d);
      PositionsBelowExtend(L[..n], L[n], d);
      assert L == L[..n] + [L[n]];
      assert |multiset(PositionsBelow(L, d))| == |multiset(PositionsBelow(L[..n], d) + [n])|;
    }
  }

  lemma NothingPlaced(d: nat)
    requires d <= 256
    ensures PositionsBelow([], d) == []
  {
  }

  lemma {:induction false} PositionsPrefix(L: seq<byte>, c: byte, i: nat)
    requires i <= |L|
    ensures Positions(L[..i], c) <= Positions(L, c)
  {
    if i < |L| {
      assert L[..|L| - 1][..i] == L[..i];
      PositionsPrefix(L[..|L| - 1], c, i);
    } else {
      assert L[..i] == L;
    }
  }

  lemma NoPositions(L: seq<byte>, c: byte)
    requires c !in L
    ensures Positions(L, c) == []
  {
  }

  // The k-th position of c has k positions of c before it.
  lemma {:induction false} PositionsRank(L: seq<byte>, c: byte, k: nat)
    requires k < |Positions(L, c)|
    ensures Positions(L, c)[k] < |L| && L[Positions(L, c)[k]] == c
    ensures |Positions(L[..Positions(L, c)[k]], c)| == k
  {
    var n := |L| - 1;
    if k < |Positions(L[..n], c)| {
      PositionsRank(L[..n], c, k);
      assert L[..n][..Positions(L, c)[k]] == L[..Positions(L, c)[k]];
    }
  }

  // Where the counting sort puts position i.
  function Slot(L: seq<byte>, i: nat): nat
    requires i < |L|
  {
    |PositionsBelow(L, L[i])| + |Positions(L[..i], L[i])|
  }

  lemma SlotHolds(L: seq<byte>, i: nat, d: nat)
    requires i < |L| && L[i] < d <= 256
    ensures Slot(L, i) < |PositionsBelow(L, d)| && PositionsBelow(L, d)[Slot(L, i)] == i
  {
    var c: nat := L[i];
    var lower, here := PositionsBelow(L, c), Positions(L, c);
    PositionsAt(L, i);
    PositionsBelowPrefix(L, c + 1, d);
    assert lower + here == PositionsBelow(L, c + 1) <= PositionsBelow(L, d);
    assert (lower + here)[Slot(L, i)] == i;
  }

  lemma PositionsStep(L: seq<byte>, i: nat, c: byte)
    requires i < |L|
    ensures |Positions(L[..i + 1], c)| == |Positions(L[..i], c)| + if c == L[i] then 1 else 0
  {
    assert L[..i + 1][..i] == L[..i];
  }

  // How often each byte occurs.
  predicate Tallies(counts: seq<int>, out: seq<byte>)
  {
    |counts| == 256 && forall c: byte :: counts[c] == |Positions(out, c)|
  }
}
