// The Burrows-Wheeler stage of the bzip2 decoder: the transform as it is specified
// (the last column of the sorted rotations), the in-place counting sort that builds the
// pointers, and the proof that walking those pointers gives the original text back.
module BurrowsWheeler {
  import opened Bytes
  import opened CountingSort

  // ----- the transform, as specified -----

  // Alphabetic order: a is a prefix of b, or is smaller at the first difference.
  predicate LexLeq(a: seq<byte>, b: seq<byte>)
  {
    a == [] || (b != [] && (a[0] < b[0] || (a[0] == b[0] && LexLeq(a[1..], b[1..]))))
  }

  function Rotation(s: seq<byte>, i: nat): seq<byte>
    requires i <= |s|
  {
    s[i..] + s[..i]
  }

  function Rotations(s: seq<byte>): (rows: seq<seq<byte>>)
    ensures |rows| == |s|
    ensures forall i :: 0 <= i < |s| ==> rows[i] == Rotation(s, i) && |rows[i]| == |s|
  {
    seq(|s|, i requires 0 <= i < |s| => Rotation(s, i))
  }

  // rows is the table the encoder sorts: all rotations of s, each as often as it occurs.
  predicate IsSortedTable(s: seq<byte>, rows: seq<seq<byte>>)
  {
    multiset(rows) == multiset(Rotations(s)) && SortedBy(LexLeq, rows)
  }

  // L is the last column of the sorted table, and row o of the table is s itself.
  predicate Transforms(s: seq<byte>, rows: seq<seq<byte>>, L: seq<byte>, o: nat)
  {
    && IsSortedTable(s, rows)
    && |L| == |rows|
    && (forall j :: 0 <= j < |rows| ==> |rows[j]| > 0 && L[j] == rows[j][|rows[j]| - 1])
    && o < |rows| && rows[o] == s
  }

  // ----- the decoder's pointers, as specified -----

  // The stable sort of L, as a list of positions.
  function Pointers(L: seq<byte>): seq<nat>
  {
    PositionsBelow(L, 256)
  }

  // ----- facts about the pointers -----

  // Every position of L occurs exactly once among the pointers.
  lemma {:induction false} PointersPermute(L: seq<byte>)
    ensures multiset(Pointers(L)) == multiset(Iota(|L|))
  {
    if L == [] {
      NothingPlaced(256);
    } else {
      var n := |L| - 1;
      PointersPermute(L[..n]);
      PositionsBelowExtend(L[..n], L[n], 256);
      assert L == L[..n] + [L[n]];
      assert Iota(|L|) == Iota(n) + [n];
    }
  }

  // What the proofs below use of the pointers.
  lemma PointersFacts(L: seq<byte>)
    ensures |Pointers(L)| == |L|
    ensures StablyOrdered(L, Pointers(L))
  {
    PointersPermute(L);
    assert |multiset(Pointers(L))| == |multiset(Iota(|L|))|;
    PositionsBelowOrdered(L, 256);
  }

  // The pointer of row pos.
  function Next(L: seq<byte>, pos: nat): (p: nat)
    requires pos < |L|
    ensures p < |L|
  {
    PointersFacts(L);
    Pointers(L)[pos]
  }

  // Following the pointers from pos, emitting the byte found at each stop.
  function Walk(L: seq<byte>, pos: nat, count: nat): (out: seq<byte>)
    requires count > 0 ==> pos < |L|
    ensures |out| == count
    decreases count
  {
    if count == 0 then [] else [L[pos]] + Walk(L, Next(L, pos), count - 1)
  }

  // ----- the inverse transform is the inverse -----

  lemma LexReflexive(a: seq<byte>)
    ensures LexLeq(a, a)
  {
  }

  lemma {:induction false} LexAntisymmetric(a: seq<byte>, b: seq<byte>)
    requires LexLeq(a, b) && LexLeq(b, a)
    ensures a == b
  {
    if a != [] {
      LexAntisymmetric(a[1..], b[1..]);
      assert a == [a[0]] + a[1..] && b == [b[0]] + b[1..];
    }
  }

  lemma {:induction false} LexPrefix(a: seq<byte>, b: seq<byte>)
    requires |a| == |b| > 0 && LexLeq(a, b)
    ensures LexLeq(a[..|a| - 1], b[..|a| - 1])
  {
    var n := |a| - 1;
    if n > 0 && a[0] == b[0] {
      LexPrefix(a[1..], b[1..]);
      assert a[..n][1..] == a[1..][..n - 1];
      assert b[..n][1..] == b[1..][..n - 1];
    }
  }

  // Moving the last byte of a row to its front.
  function ShiftRight(r: seq<byte>): seq<byte>
  {
    if r == [] then [] else [r[|r| - 1]] + r[..|r| - 1]
  }

  // Shifting every rotation only renumbers the rotations.
  lemma ShiftedRotation(s: seq<byte>, i: nat)
    requires i < |s|
    ensures ShiftRight(Rotation(s, i)) == Rotation(s, if i == 0 then |s| - 1 else i - 1)
  {
    hide Rotation;
    var n := |s| - 1;
    RotationIs(s, i);
    RotationIs(s, if i == 0 then n else i - 1);
    if i > 0 {
      LastMoved(s[i..], s[..i - 1], s[i - 1]);
      assert s[..i] == s[..i - 1] + [s[i - 1]] && s[i - 1..] == [s[i - 1]] + s[i..];
    } else {
      LastMoved([], s[..n], s[n]);
      assert s == s[..n] + [s[n]] && s[n..] == [s[n]] && s[..0] == [] && s[0..] == s;
    }
  }

  lemma RotationIs(s: seq<byte>, i: nat)
    requires i <= |s|
    ensures Rotation(s, i) == s[i..] + s[..i]
  {
  }

  lemma LastMoved(a: seq<byte>, b: seq<byte>, x: byte)
    ensures ShiftRight(a + (b + [x])) == [x] + a + b
  {
    var r := a + (b + [x]);
    assert r[|r| - 1] == x && r[..|r| - 1] == a + b;
    Regroup([x], a, b);
  }

  lemma ShiftedRotations(s: seq<byte>)
    ensures multiset(Map(ShiftRight, Rotations(s))) == multiset(Rotations(s))
  {
    if s != [] {
      var rows, n := Rotations(s), |s| - 1;
      var shifted := Map(ShiftRight, rows);
      forall i | 0 <= i <= n
        ensures shifted[i] == rows[if i == 0 then n else i - 1]
      {
        ShiftedRotation(s, i);
      }
      CycledPermutes(shifted, rows);
    } else {
      assert Map(ShiftRight, Rotations(s)) == Rotations(s);
    }
  }

  lemma CycledPermutes<X>(a: seq<X>, b: seq<X>)
    requires |a| == |b| > 0
    requires forall i :: 0 <= i < |a| ==> a[i] == b[if i == 0 then |b| - 1 else i - 1]
    ensures multiset(a) == multiset(b)
  {
    var n := |b| - 1;
    assert a == [b[n]] + b[..n];
    assert b == b[..n] + [b[n]];
  }

  lemma RowLengths(s: seq<byte>, rows: seq<seq<byte>>)
    requires multiset(rows) == multiset(Rotations(s))
    ensures |rows| == |s|
    ensures forall j :: 0 <= j < |rows| ==> |rows[j]| == |s|
  {
    assert |multiset(rows)| == |multiset(Rotations(s))|;
    forall j | 0 <= j < |rows|
      ensures |rows[j]| == |s|
    {
      assert rows[j] in multiset(Rotations(s));
    }
  }

  // The rows in pointer order, each with its last byte moved to the front.
  function PointedRows(rows: seq<seq<byte>>, L: seq<byte>): seq<seq<byte>>
  {
    var row := (j: nat) => if j < |rows| then rows[j] else [];
    Map(ShiftRight, Map(row, Pointers(L)))
  }

  // They are the same rows ..
  lemma PointedRowsPermute(s: seq<byte>, rows: seq<seq<byte>>, L: seq<byte>)
    requires IsSortedTable(s, rows) && |L| == |rows|
    ensures multiset(PointedRows(rows, L)) == multiset(rows)
  {
    var row := (j: nat) => if j < |rows| then rows[j] else [];
    PointersPermute(L);
    MapPermuted(row, Pointers(L), Iota(|L|));
    assert Map(row, Iota(|L|)) == rows;
    MapPermuted(ShiftRight, Map(row, Pointers(L)), Rotations(s));
    ShiftedRotations(s);
  }

  // .. and they are in order,
  lemma PointedRowsSorted(s: seq<byte>, rows: seq<seq<byte>>, L: seq<byte>, o: nat)
    requires Transforms(s, rows, L, o)
    ensures SortedBy(LexLeq, PointedRows(rows, L))
  {
    var T := Pointers(L);
    PointersFacts(L);
    RowLengths(s, rows);
    forall j, k | 0 <= j < k < |L|
      ensures LexLeq(ShiftRight(rows[T[j]]), ShiftRight(rows[T[k]]))
    {
      assert Before(L, T[j], T[k]);
      ShiftKeepsOrder(rows[T[j]], rows[T[k]]);
    }
  }

  lemma ShiftKeepsOrder(a: seq<byte>, b: seq<byte>)
    requires |a| == |b| > 0
    requires a[|a| - 1] < b[|b| - 1] || (a[|a| - 1] == b[|b| - 1] && LexLeq(a, b))
    ensures LexLeq(ShiftRight(a), ShiftRight(b))
  {
    assert ShiftRight(a)[1..] == a[..|a| - 1] && ShiftRight(b)[1..] == b[..|b| - 1];
    if a[|a| - 1] == b[|b| - 1] {
      LexPrefix(a, b);
    }
  }

  // Row Next(j), its last byte moved to the front, is row j.
  predicate Linked(rows: seq<seq<byte>>, L: seq<byte>, j: nat)
    requires j < |L| == |rows|
  {
    ShiftRight(rows[Next(L, j)]) == rows[j]
  }

  // so they are the table.
  lemma ShiftedTable(s: seq<byte>, rows: seq<seq<byte>>, L: seq<byte>, o: nat)
    requires Transforms(s, rows, L, o)
    ensures forall j :: 0 <= j < |L| ==> Linked(rows, L, j)
  {
    PointersFacts(L);
    PointedRowsPermute(s, rows, L);
    PointedRowsSorted(s, rows, L, o);
    LexOrder();
    SortedUnique(LexLeq, PointedRows(rows, L), rows);
    forall j | 0 <= j < |L|
      ensures Linked(rows, L, j)
    {
      assert PointedRows(rows, L)[j] == ShiftRight(rows[Next(L, j)]);
    }
  }

  lemma LexOrder()
    ensures forall a :: LexLeq(a, a)
    ensures forall a, b :: LexLeq(a, b) && LexLeq(b, a) ==> a == b
  {
    forall a ensures LexLeq(a, a) { LexReflexive(a); }
    forall a, b | LexLeq(a, b) && LexLeq(b, a) ensures a == b { LexAntisymmetric(a, b); }
  }

  // A row that is s rotated by k points to the row that is s rotated by k + 1.
  lemma NextRow(s: seq<byte>, r: seq<byte>, k: nat)
    requires k < |s| == |r| && ShiftRight(r) == Rotation(s, k)
    ensures r == Rotation(s, k + 1) && r[|r| - 1] == s[k]
  {
    var q := Rotation(s, k);
    assert q[0] == s[k] && q[1..] == s[k + 1..] + s[..k];
    assert r == ShiftRight(r)[1..] + [ShiftRight(r)[0]];
    assert s[..k + 1] == s[..k] + [s[k]];
  }

  // Walking on from a row that is s rotated by k emits the rest of s.
  lemma {:induction false} WalkFrom(s: seq<byte>, rows: seq<seq<byte>>, L: seq<byte>, j: nat, k: nat)
    requires |rows| == |L| == |s|
    requires forall i :: 0 <= i < |L| ==> Linked(rows, L, i)
    requires forall i :: 0 <= i < |L| ==> |rows[i]| == |s| && L[i] == rows[i][|s| - 1]
    requires j < |L| && k <= |s| && rows[j] == Rotation(s, k)
    ensures Walk(L, Next(L, j), |s| - k) == s[k..]
    decreases |s| - k
  {
    if k < |s| {
      assert Linked(rows, L, j);
      NextRow(s, rows[Next(L, j)], k);
      WalkFrom(s, rows, L, Next(L, j), k + 1);
      assert s[k..] == [s[k]] + s[k + 1..];
    }
  }

  // The inverse transform: from the last column and the row of s alone, the pointers
  // of the counting sort lead through s, for every s, periodic strings included.
  lemma InverseTransform(s: seq<byte>, rows: seq<seq<byte>>, L: seq<byte>, o: nat)
    requires Transforms(s, rows, L, o)
    ensures |L| == |s| && Walk(L, Next(L, o), |L|) == s
  {
    RowLengths(s, rows);
    ShiftedTable(s, rows, L, o);
    assert s == Rotation(s, 0);
    WalkFrom(s, rows, L, o, 0);
    assert s[0..] == s;
  }

  // ----- every text has a transform -----

  lemma LexTotal(a: seq<byte>, b: seq<byte>)
    ensures LexLeq(a, b) || LexLeq(b, a)
  {
  }

  lemma LexTransitive(a: seq<byte>, b: seq<byte>, c: seq<byte>)
    requires LexLeq(a, b) && LexLeq(b, c)
    ensures LexLeq(a, c)
  {
  }

  function Insert(r: seq<byte>, rows: seq<seq<byte>>): (out: seq<seq<byte>>)
  {
    if rows == [] || LexLeq(r, rows[0]) then [r] + rows else [rows[0]] + Insert(r, rows[1..])
  }

  function Sort(rows: seq<seq<byte>>): seq<seq<byte>>
  {
    if rows == [] then [] else Insert(rows[0], Sort(rows[1..]))
  }

  lemma {:induction false} InsertPermutes(r: seq<byte>, rows: seq<seq<byte>>)
    ensures multiset(Insert(r, rows)) == multiset(rows) + multiset{r}
  {
    if rows != [] && !LexLeq(r, rows[0]) {
      InsertPermutes(r, rows[1..]);
      WithoutAt(rows, 0);
      assert Without(rows, 0) == rows[1..];
    }
  }

  lemma {:induction false} InsertSorts(r: seq<byte>, rows: seq<seq<byte>>)
    requires SortedBy(LexLeq, rows)
    ensures SortedBy(LexLeq, Insert(r, rows))
  {
    if rows == [] {
    } else if LexLeq(r, rows[0]) {
      forall j | 0 <= j < |rows| ensures LexLeq(r, rows[j]) {
        if j > 0 { LexTransitive(r, rows[0], rows[j]); }
      }
    } else {
      var rest := Insert(r, rows[1..]);
      InsertSorts(r, rows[1..]);
      forall j | 0 <= j < |rest| ensures LexLeq(rows[0], rest[j]) {
        InsertPermutes(r, rows[1..]);
        assert rest[j] in multiset(rest);
        if rest[j] == r {
          LexTotal(r, rows[0]);
        } else {
          var k :| 0 <= k < |rows[1..]| && rows[1..][k] == rest[j];
        }
      }
    }
  }

  lemma {:induction false} SortSorts(rows: seq<seq<byte>>)
    ensures SortedBy(LexLeq, Sort(rows)) && multiset(Sort(rows)) == multiset(rows)
  {
    if rows != [] {
      SortSorts(rows[1..]);
      InsertSorts(rows[0], Sort(rows[1..]));
      InsertPermutes(rows[0], Sort(rows[1..]));
      WithoutAt(rows, 0);
      assert Without(rows, 0) == rows[1..];
    }
  }

  function LastColumn(rows: seq<seq<byte>>): (L: seq<byte>)
    ensures |L| == |rows|
    ensures forall j :: 0 <= j < |rows| && |rows[j]| > 0 ==> L[j] == rows[j][|rows[j]| - 1]
  {
    seq(|rows|, j requires 0 <= j < |rows| => if rows[j] == [] then 0 else rows[j][|rows[j]| - 1])
  }

  lemma TransformExists(s: seq<byte>) returns (rows: seq<seq<byte>>, o: nat)
    requires s != []
    ensures Transforms(s, rows, LastColumn(rows), o)
  {
    rows := Sort(Rotations(s));
    SortSorts(Rotations(s));
    RowLengths(s, rows);
    assert Rotations(s)[0] == Rotation(s, 0) == s;
    assert s in multiset(Rotations(s));
    o :| 0 <= o < |rows| && rows[o] == s;
  }

  // ----- the decoder's two loops -----

  lemma SlotUnique(L: seq<byte>, i: nat, j: nat)
    requires i < |L| && j < |L|
    ensures |Pointers(L)| == |L| && Slot(L, i) < |L|
    ensures Pointers(L)[j] == i <==> j == Slot(L, i)
  {
    SlotHolds(L, i, 256);
    PointersFacts(L);
    var T, k := Pointers(L), Slot(L, i);
    if j < k {
      assert Before(L, T[j], T[k]);
    } else if k < j {
      assert Before(L, T[k], T[j]);
    }
  }

  // Word k of dbuf after the first i positions have been linked.
  function WordAt(L: seq<byte>, i: nat, k: nat): nat
    requires k < |L| == |Pointers(L)|
  {
    L[k] + 256 * if Pointers(L)[k] < i then Pointers(L)[k] else 0
  }

  function WordsAt(L: seq<byte>, i: nat): seq<nat>
    requires |L| == |Pointers(L)|
  {
    seq(|L|, k requires 0 <= k < |L| => WordAt(L, i, k))
  }

  // The counters after the first i positions have been linked.
  function Counts(L: seq<byte>, i: nat): seq<int>
    requires i <= |L|
  {
    seq(256, c requires 0 <= c < 256 => |PositionsBelow(L, c)| + |Positions(L[..i], c)|)
  }

  // The state of the counting sort after the first i positions have been linked.
  predicate Linking(words: seq<nat>, counts: seq<int>, L: seq<byte>, i: nat)
  {
    |L| == |Pointers(L)| && i <= |L| && words == WordsAt(L, i) && counts == Counts(L, i)
  }

  // One step of the counting sort: position i goes to word k.
  lemma LinkStep(words: seq<nat>, counts: seq<int>, L: seq<byte>, i: nat) returns (k: nat)
    requires Linking(words, counts, L, i) && i < |L|
    ensures |words| == |L| && |counts| == 256 && words[i] % 256 == L[i]
    ensures counts[L[i]] == k < |words| && words[k] < 256
    ensures Linking(words[k := words[k] + 256 * i], counts[L[i] := k + 1], L, i + 1)
  {
    k := Slot(L, i);
    SlotUnique(L, i, i);
    forall j | 0 <= j < |L|
      ensures WordAt(L, i + 1, j) == WordAt(L, i, j) + if j == k then 256 * i else 0
      ensures j == k ==> WordAt(L, i, j) < 256
    {
      SlotUnique(L, i, j);
    }
    assert L[..i + 1][..i] == L[..i];
    assert WordsAt(L, i + 1) == words[k := words[k] + 256 * i];
    assert Counts(L, i + 1) == counts[L[i] := k + 1];
  }

  // Turns the number of occurrences of each byte into the number of smaller bytes.
  method CumulateCounts(byteCount: array<int>, ghost L: seq<byte>)
    requires byteCount.Length == 256 && Tallies(byteCount[..], L)
    modifies byteCount
    ensures byteCount[..] == Counts(L, 0)
  {
    hide PositionsBelow, Positions, Counts;
    var j, i := 0, 0;
    NoneBelow(L);
    while i < 256
      invariant 0 <= i <= 256 && j == |PositionsBelow(L, i)|
      invariant forall c: byte :: byteCount[c] == if c < i then |PositionsBelow(L, c)| else |Positions(L, c)|
    {
      BelowNext(L, i);
      var k := j + byteCount[i];
      byteCount[i] := j;
      j := k;
      i := i + 1;
    }
    CountsAtStart(L, byteCount[..]);
  }

  lemma NoneBelow(L: seq<byte>)
    ensures PositionsBelow(L, 0) == []
  {
  }

  lemma BelowNext(L: seq<byte>, i: nat)
    requires i < 256
    ensures |PositionsBelow(L, i + 1)| == |PositionsBelow(L, i)| + |Positions(L, i)|
  {
  }

  lemma CountsAtStart(L: seq<byte>, counts: seq<int>)
    requires |counts| == 256 && forall c: byte :: counts[c] == |PositionsBelow(L, c)|
    ensures counts == Counts(L, 0)
  {
    hide PositionsBelow;
    assert L[..0] == [];
  }

  lemma LinkStart(L: seq<byte>)
    ensures Linking(L, Counts(L, 0), L, 0)
  {
    PointersFacts(L);
    assert WordsAt(L, 0) == L;
  }

  // Sorts the positions of the low bytes of dbuf in place: each word keeps its byte and
  // receives, in its high bits, the pointer that the stable sort puts there. A word's
  // high bits are clear when the pointer is or-ed in, so or-ing adds.
  method LinkPointers(dbuf: array<nat>, dbufCount: nat, byteCount: array<int>, ghost L: seq<byte>)
    requires dbufCount <= dbuf.Length && byteCount.Length == 256
    requires dbuf[..dbufCount] == L
    requires byteCount[..] == Counts(L, 0)
    modifies dbuf, byteCount
    ensures Linking(dbuf[..dbufCount], byteCount[..], L, dbufCount)
    ensures dbuf[dbufCount..] == old(dbuf[dbufCount..])
  {
    LinkStart(L);
    var i := 0;
    while i < dbufCount
      invariant 0 <= i <= dbufCount
      invariant Linking(dbuf[..dbufCount], byteCount[..], L, i)
      invariant dbuf[dbufCount..] == old(dbuf[dbufCount..])
    {
      ghost var words, counts := dbuf[..dbufCount], byteCount[..];
      ghost var k' := LinkStep(words, counts, L, i);
      var uc := dbuf[i] % 256;
      var k := byteCount[uc];
      dbuf[k] := dbuf[k] + 256 * i;
      byteCount[uc] := byteCount[uc] + 1;
      assert dbuf[..dbufCount] == words[k := words[k] + 256 * i];
      assert byteCount[..] == counts[uc := k + 1];
      i := i + 1;
    }
  }
}
