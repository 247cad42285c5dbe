// The symbols of an LZMA stream, decoded bit by bit: trees, literals, lengths and
// distances. Each method gives back what the specification's encoder put in.
module LzmaSymbols {
  import opened Bytes
  import opened Powers
  import opened RangeCoder
  import opened LzmaCode

  // ----- building a number from its bits -----

  function Node(m: nat, i: nat, w: nat): nat
  {
    m * Pow2(i) + w
  }

  // One bit moves from the part still to come into the part already there.
  lemma NodeStep(m: nat, i: nat, w: nat)
    requires i > 0 && w < Pow2(i)
    ensures Node(2 * m + High(w, i - 1), i - 1, Low(w, i - 1)) == Node(m, i, w)
    ensures Low(w, i - 1) < Pow2(i - 1)
  {
    var half, b := Pow2(i - 1), High(w, i - 1);
    Distribute(2 * m, b, half);
    Triple(m, 2, half);
    Triple(2, m, half);
  }

  lemma NodeDone(m: nat, w: nat)
    requires w < Pow2(0)
    ensures Node(m, 0, w) == m
  {
  }

  // A node at depth j lies between 2^j and 2^(j+1).
  predicate AtDepth(m: nat, j: nat)
  {
    Pow2(j) <= m < 2 * Pow2(j)
  }

  lemma DepthStep(m: nat, j: nat, b: nat)
    requires AtDepth(m, j) && b <= 1
    ensures AtDepth(2 * m + b, j + 1)
  {
  }

  lemma DepthFits(m: nat, j: nat, n: nat)
    requires AtDepth(m, j) && j < n
    ensures 1 <= m < Pow2(n)
  {
    Pow2Monotone(j + 1, n);
  }

  lemma DepthOf256(m: nat, j: nat)
    requires AtDepth(m, j) && j <= 8
    ensures m < 256 <==> j < 8
    ensures j == 8 ==> m < 512
  {
    assert Pow2(8) == 256;
    if j < 8 {
      DepthFits(m, j, 8);
    }
  }

  // Decodes one bit of a symbol, and shifts it into the number built so far.
  method GetBit(rc: Rc, p: array<nat>, ctx: nat, symbol: nat, ghost b: nat, ghost rest: seq<Op>)
    returns (bit: nat, symbol': nat)
    requires rc.Valid() && InBounds(p[..]) && ctx < p.Length
    modifies rc, p
    ensures rc.Valid() && InBounds(p[..])
    ensures bit <= 1 && symbol' == 2 * symbol + bit
    ensures old(rc.OnScript(p, [Bit(ctx, b)] + rest)) ==> bit == b && rc.OnScript(p, rest)
  {
    bit := rc.GetBit(p, ctx, b, rest);
    symbol' := if bit == 0 then symbol * 2 else symbol * 2 + 1;
  }

  method TreeDecode(rc: Rc, p: array<nat>, base: nat, levels: nat, ghost v: nat, ghost rest: seq<Op>)
    returns (symbol: nat)
    requires rc.Valid() && InBounds(p[..]) && base + Pow2(levels) <= p.Length
    modifies rc, p
    ensures rc.Valid() && InBounds(p[..]) && symbol < Pow2(levels)
    ensures old(rc.OnScript(p, TreeOps(base, 1, levels, v, rest))) && v < Pow2(levels) ==>
              symbol == v && rc.OnScript(p, rest)
  {
    hide InBounds, Node, Rc.OnScript, Rc.Valid, AtDepth, High, Low, Pow2;
    var m: nat := 1;
    var i: nat := levels;
    ghost var w: nat, on := v, rc.OnScript(p, TreeOps(base, 1, levels, v, rest)) && v < Pow2(levels);
    DepthStart();
    while i != 0
      invariant rc.Valid() && InBounds(p[..])
      invariant i <= levels && AtDepth(m, levels - i)
      invariant on ==> rc.OnScript(p, TreeOps(base, m, i, w, rest))
      invariant on ==> w < Pow2(i) && Node(m, i, w) == Node(1, levels, v)
    {
      DepthFits(m, levels - i, levels);
      if on {
        NodeStep(m, i, w);
      }
      i := i - 1;
      ghost var b, m0: nat := High(w, i), m;
      var bit;
      bit, m := GetBit(rc, p, base + m, m, b, TreeOps(base, 2 * m + b, i, Low(w, i), rest));
      DepthStep(m0, levels - i - 1, bit);
      w := Low(w, i);
    }
    symbol := LeafOf(m, levels);
    if on {
      NodeDone(m, w);
      NodeOfOne(levels, v);
    }
  }

  lemma DepthStart()
    ensures AtDepth(1, 0)
  {
  }

  // Dropping the leading 1 of a leaf's number.
  function LeafOf(m: nat, levels: nat): (leaf: nat)
    requires AtDepth(m, levels)
    ensures leaf < Pow2(levels) && leaf == m - Pow2(levels)
  {
    m - Pow2(levels)
  }

  lemma NodeOfOne(levels: nat, v: nat)
    ensures Node(1, levels, v) == Pow2(levels) + v
  {
  }

  // ----- bits sent from the low end, and bits sent plainly -----

  // sum holds the bits below weight i, w is the part still to come.
  function Weighed(sum: nat, w: nat, i: nat): nat
  {
    sum + w * i
  }

  lemma WeighedStep(sum: nat, w: nat, i: nat)
    ensures Weighed(if w % 2 == 1 then sum + i else sum, w / 2, 2 * i) == Weighed(sum, w, i)
  {
    Distribute(2 * (w / 2), w % 2, i);
    Triple(w / 2, 2, i);
  }

  lemma HalfFits(w: nat, k: nat)
    requires k > 0 && w < Pow2(k)
    ensures w / 2 < Pow2(k - 1)
  {
  }

  lemma WeighedStart(v: nat)
    ensures Weighed(0, v, 1) == v && Pow2(0) == 1
  {
  }

  lemma WeighedDone(sum: nat, w: nat, i: nat)
    requires w < Pow2(0)
    ensures Weighed(sum, w, i) == sum
  {
  }

  lemma Doubled(k: nat)
    ensures Pow2(k + 1) == 2 * Pow2(k)
  {
  }

  // The value of n bits that arrive lowest first.
  method ReverseDecode(rc: Rc, p: array<nat>, base: nat, n: nat, ghost v: nat, ghost rest: seq<Op>) returns (sum: nat)
    requires rc.Valid() && InBounds(p[..]) && base + Pow2(n) <= p.Length
    modifies rc, p
    ensures rc.Valid() && InBounds(p[..]) && sum < Pow2(n)
    ensures old(rc.OnScript(p, ReverseOps(base, 1, n, v, rest))) && v < Pow2(n) ==> sum == v && rc.OnScript(p, rest)
  {
    hide InBounds, Weighed, Rc.OnScript, Rc.Valid, AtDepth, Pow2;
    var i: nat, mi: nat, k: nat := 1, 1, n;
    sum := 0;
    ghost var w: nat, on := v, rc.OnScript(p, ReverseOps(base, 1, n, v, rest)) && v < Pow2(n);
    DepthStart();
    WeighedStart(v);
    while k != 0
      invariant rc.Valid() && InBounds(p[..])
      invariant k <= n && AtDepth(mi, n - k) && i == Pow2(n - k) && sum < i
      invariant on ==> rc.OnScript(p, ReverseOps(base, mi, k, w, rest))
      invariant on ==> w < Pow2(k) && Weighed(sum, w, i) == v
    {
      DepthFits(mi, n - k, n);
      Doubled(n - k);
      WeighedStep(sum, w, i);
      if on {
        HalfFits(w, k);
      }
      k := k - 1;
      ghost var m0: nat := mi;
      var bit;
      bit, mi := GetBit(rc, p, base + mi, mi, w % 2, ReverseOps(base, 2 * mi + w % 2, k, w / 2, rest));
      DepthStep(m0, n - k - 1, bit);
      if bit == 1 {
        sum := sum + i;
      }
      i := 2 * i;
      w := w / 2;
    }
    WeighedDone(sum, if on then w else 0, i);
  }

  // n plain bits, appended to the number start.
  method DirectDecode(rc: Rc, p: array<nat>, start: nat, n: nat, ghost v: nat, ghost rest: seq<Op>) returns (r: nat)
    requires rc.Valid() && InBounds(p[..])
    modifies rc
    ensures rc.Valid() && exists x :: 0 <= x < Pow2(n) && r == Node(start, n, x)
    ensures old(rc.OnScript(p, DirectOps(n, v, rest))) && v < Pow2(n) ==> r == Node(start, n, v) && rc.OnScript(p, rest)
  {
    hide InBounds, Node, Rc.OnScript, Rc.Valid, High, Low, Pow2;
    r := start;
    var k: nat := n;
    ghost var w: nat, x: nat, on := v, 0, rc.OnScript(p, DirectOps(n, v, rest)) && v < Pow2(n);
    NodeStart(start);
    while k != 0
      invariant rc.Valid() && InBounds(p[..]) && k <= n
      invariant 0 <= x < Pow2(n - k) && r == Node(start, n - k, x)
      invariant on ==> rc.OnScript(p, DirectOps(k, w, rest))
      invariant on ==> w < Pow2(k) && Node(r, k, w) == Node(start, n, v)
    {
      if on {
        NodeStep(r, k, w);
      }
      k := k - 1;
      ghost var b := High(w, k);
      var bit := rc.DirectBit(p, b, DirectOps(k, Low(w, k), rest));
      NodeGrow(start, n - k - 1, x, bit);
      r := 2 * r + bit;
      x := 2 * x + bit;
      w := Low(w, k);
    }
    if on {
      NodeDone(r, w);
    }
  }

  lemma NodeStart(start: nat)
    ensures Node(start, 0, 0) == start && 0 < Pow2(0)
  {
  }

  lemma NodeGrow(m: nat, j: nat, x: nat, bit: nat)
    requires x < Pow2(j) && bit <= 1
    ensures Node(m, j + 1, 2 * x + bit) == 2 * Node(m, j, x) + bit
    ensures 2 * x + bit < Pow2(j + 1)
  {
    Triple(m, 2, Pow2(j));
    Triple(2, m, Pow2(j));
  }

  // ----- literals -----

  // After j doublings the bits of the guess that are still to come sit below bit 8,
  // and garbage above it.
  ghost predicate Guessing(matchByte: nat, g: nat, j: nat)
  {
    j <= 8 && g < Pow2(8 - j) && exists q: nat :: matchByte == Aligned(q, g, j)
  }

  function Aligned(q: nat, g: nat, j: nat): nat
  {
    256 * q + g * Pow2(j)
  }

  lemma GuessStart(guess: byte)
    ensures Guessing(guess, guess, 0)
  {
    assert Pow2(8) == 256;
    assert guess == Aligned(0, guess, 0);
  }

  lemma GuessStep(matchByte: nat, g: nat, j: nat)
    requires Guessing(matchByte, g, j) && j < 8
    ensures 2 * matchByte / 256 % 2 == High(g, 7 - j)
    ensures Guessing(2 * matchByte, Low(g, 7 - j), j + 1)
  {
    hide Pow2, High, Low, Aligned;
    var q: nat :| matchByte == Aligned(q, g, j);
    AlignedStep(q, g, j);
    assert 2 * matchByte == Aligned(2 * q + High(g, 7 - j), Low(g, 7 - j), j + 1);
  }

  lemma AlignedStep(q: nat, g: nat, j: nat)
    requires j < 8 && g < Pow2(8 - j)
    ensures 2 * Aligned(q, g, j) == Aligned(2 * q + High(g, 7 - j), Low(g, 7 - j), j + 1)
    ensures 2 * Aligned(q, g, j) / 256 % 2 == High(g, 7 - j) && Low(g, 7 - j) < Pow2(7 - j)
  {
    hide Pow2, High, Low, Aligned;
    Pow2Add(7 - j, j + 1);
    ByteFits(0);
    Doubled(7 - j);
    GuessSplit(q, g, j, Pow2(j + 1));
  }

  lemma GuessSplit(q: nat, g: nat, j: nat, unit: nat)
    requires j < 8 && g < 2 * Pow2(7 - j) && unit == Pow2(j + 1) && Pow2(7 - j) * unit == 256
    ensures 2 * Aligned(q, g, j) == Aligned(2 * q + High(g, 7 - j), Low(g, 7 - j), j + 1)
    ensures 2 * Aligned(q, g, j) / 256 % 2 == High(g, 7 - j) && Low(g, 7 - j) < Pow2(7 - j)
  {
    hide Pow2, High, Low, Aligned;
    GuessBits(g, 7 - j, unit);
    AlignedTwice(q, g, j, High(g, 7 - j), Low(g, 7 - j));
    GuessQuotient(2 * Aligned(q, g, j), 2 * q + High(g, 7 - j), Low(g, 7 - j) * unit);
  }

  lemma GuessQuotient(a: nat, q: nat, r: nat)
    requires a == 256 * q + r && r < 256
    ensures a / 256 % 2 == q % 2
  {
  }

  lemma AlignedTwice(q: nat, g: nat, j: nat, e: nat, low: nat)
    requires g * Pow2(j + 1) == 256 * e + low * Pow2(j + 1)
    ensures 2 * Aligned(q, g, j) == Aligned(2 * q + e, low, j + 1) == 256 * (2 * q + e) + low * Pow2(j + 1)
  {
    Triple(g, 2, Pow2(j));
    Triple(2, g, Pow2(j));
  }

  lemma GuessBits(g: nat, n: nat, unit: nat)
    requires g < 2 * Pow2(n) && Pow2(n) * unit == 256 && unit > 0
    ensures g * unit == 256 * High(g, n) + Low(g, n) * unit
    ensures Low(g, n) < Pow2(n) && Low(g, n) * unit < 256
  {
    var half, low := Pow2(n), Low(g, n);
    if g >= half {
      Distribute(half, low, unit);
    }
    MulMonotone(low + 1, half, unit);
    Distribute(low, 1, unit);
  }

  // What is still to come after j bits of a literal, w in value: coded under the guess's
  // remaining bits g, or plainly.
  ghost predicate Pending(rc: Rc, p: array<nat>, guessed: bool, base: nat, mi: nat, j: nat, g: nat, v: byte, w: nat,
                          rest: seq<Op>)
    reads rc, p
    requires j <= 8
  {
    && w < Pow2(8 - j) && Node(mi, 8 - j, w) == Node(1, 8, v)
    && rc.OnScript(p, if guessed then MatchedOps(base, mi, 8 - j, g, w, rest) else TreeOps(base, mi, 8 - j, w, rest))
  }

  lemma NoOps(base: nat, m: nat, g: nat, v: nat, rest: seq<Op>)
    ensures MatchedOps(base, m, 0, g, v, rest) == rest == TreeOps(base, m, 0, v, rest)
  {
  }

  lemma MatchedStep(base: nat, mi: nat, n: nat, g: nat, w: nat, rest: seq<Op>)
    ensures var e, b := High(g, n), High(w, n);
            MatchedOps(base, mi, n + 1, g, w, rest)
            == [Bit(base + 256 + 256 * e + mi, b)]
               + if b == e then MatchedOps(base, 2 * mi + b, n, Low(g, n), Low(w, n), rest)
                 else TreeOps(base, 2 * mi + b, n, Low(w, n), rest)
  {
    hide High, Low, TreeOps;
  }

  // One bit under a guess; the guess goes on being used while it is right.
  method GuessedBit(rc: Rc, p: array<nat>, base: nat, mi: nat, bit: nat, ghost j: nat, ghost g: nat, ghost v: byte,
                    ghost w: nat, ghost rest: seq<Op>)
    returns (mi': nat, going: bool)
    requires rc.Valid() && InBounds(p[..]) && base + 768 <= p.Length && j < 8 && AtDepth(mi, j)
    requires bit == 256 * High(g, 7 - j)
    modifies rc, p
    ensures rc.Valid() && InBounds(p[..]) && AtDepth(mi', j + 1) && (going ==> j + 1 < 8)
    ensures old(Pending(rc, p, true, base, mi, j, g, v, w, rest)) ==>
              Pending(rc, p, going, base, mi', j + 1, Low(g, 7 - j), v, Low(w, 7 - j), rest)
  {
    hide InBounds, Node, Rc.OnScript, Rc.Valid, AtDepth, High, Low, Pow2, MatchedOps, TreeOps;
    DepthOf256(mi, j);
    ghost var n: nat := 7 - j;
    MatchedStep(base, mi, n, g, w, rest);
    ghost var e, b, low := High(g, n), High(w, n), Low(w, n);
    NoOps(base, 2 * mi + b, Low(g, n), low, rest);
    ghost var on := Pending(rc, p, true, base, mi, j, g, v, w, rest);
    if on {
      NodeStep(mi, 8 - j, w);
    }
    var coded;
    coded, mi' := GetBit(rc, p, base + 256 + bit + mi, mi, b,
                         if b == e then MatchedOps(base, 2 * mi + b, n, Low(g, n), low, rest)
                         else TreeOps(base, 2 * mi + b, n, low, rest));
    DepthStep(mi, j, coded);
    DepthOf256(mi', j + 1);
    if coded == 1 {
      going := bit != 0 && mi' < 256;
    } else {
      going := bit == 0 && mi' < 256;
    }
  }

  method PlainBit(rc: Rc, p: array<nat>, base: nat, mi: nat, ghost j: nat, ghost v: byte, ghost w: nat,
                  ghost rest: seq<Op>)
    returns (mi': nat)
    requires rc.Valid() && InBounds(p[..]) && base + 768 <= p.Length && j < 8 && AtDepth(mi, j)
    modifies rc, p
    ensures rc.Valid() && InBounds(p[..]) && AtDepth(mi', j + 1)
    ensures old(Pending(rc, p, false, base, mi, j, 0, v, w, rest)) ==>
              Pending(rc, p, false, base, mi', j + 1, 0, v, Low(w, 7 - j), rest)
  {
    hide InBounds, Node, Rc.OnScript, Rc.Valid, AtDepth, High, Low, Pow2;
    DepthOf256(mi, j);
    if Pending(rc, p, false, base, mi, j, 0, v, w, rest) {
      NodeStep(mi, 8 - j, w);
    }
    ghost var n: nat := 7 - j;
    ghost var b, low := High(w, n), Low(w, n);
    var coded;
    coded, mi' := GetBit(rc, p, base + mi, mi, b, TreeOps(base, 2 * mi + b, n, low, rest));
    DepthStep(mi, j, coded);
  }

  // The bits of a literal under the guess, up to the first wrong one.
  method GuessedBits(rc: Rc, p: array<nat>, base: nat, guess: byte, ghost v: byte, ghost rest: seq<Op>)
    returns (mi: nat, ghost j: nat, ghost w: nat)
    requires rc.Valid() && InBounds(p[..]) && base + 768 <= p.Length
    modifies rc, p
    ensures rc.Valid() && InBounds(p[..]) && j <= 8 && AtDepth(mi, j)
    ensures old(Pending(rc, p, true, base, 1, 0, guess, v, v, rest)) ==>
              Pending(rc, p, false, base, mi, j, 0, v, w, rest)
  {
    hide InBounds, Rc.OnScript, Rc.Valid, AtDepth, High, Low, Pow2, Guessing, Pending;
    ghost var on := Pending(rc, p, true, base, 1, 0, guess, v, v, rest);
    mi, j, w := 1, 0, v;
    ghost var g: nat := guess;
    var matchByte: nat := guess;
    DepthStart();
    GuessStart(guess);
    var going := true;
    while going
      invariant rc.Valid() && InBounds(p[..])
      invariant j <= 8 && AtDepth(mi, j) && Guessing(matchByte, g, j)
      invariant going ==> j < 8
      invariant on ==> Pending(rc, p, going, base, mi, j, g, v, w, rest)
      decreases 8 - j, going
    {
      GuessStep(matchByte, g, j);
      matchByte := matchByte * 2;
      var bit := if matchByte / 256 % 2 == 1 then 256 else 0;
      mi, going := GuessedBit(rc, p, base, mi, bit, j, g, v, w, rest);
      j, w, g := j + 1, Low(w, 7 - j), Low(g, 7 - j);
    }
    PendingPlain(rc, p, base, mi, j, g, v, w, rest);
  }

  // A literal's bits, most significant first. After a match the byte at the last distance
  // serves as a guess, and its bits choose the contexts until the first wrong one.
  method LiteralDecode(rc: Rc, p: array<nat>, base: nat, matched: bool, guess: byte, ghost v: byte, ghost rest: seq<Op>)
    returns (mi: nat)
    requires rc.Valid() && InBounds(p[..]) && base + 768 <= p.Length
    modifies rc, p
    ensures rc.Valid() && InBounds(p[..]) && 256 <= mi < 512
    ensures old(rc.OnScript(p,
                            if matched then MatchedOps(base, 1, 8, guess, v, rest)
                            else TreeOps(base, 1, 8, v, rest))) ==>
              mi == 256 + v && rc.OnScript(p, rest)
  {
    hide InBounds, Rc.OnScript, Rc.Valid, AtDepth, High, Low, Pow2, Pending, MatchedOps, TreeOps;
    mi := 1;
    ghost var j: nat, w: nat := 0, v;
    ghost var on := rc.OnScript(p,
                                if matched then MatchedOps(base, 1, 8, guess, v, rest)
                                else TreeOps(base, 1, 8, v, rest));
    DepthStart();
    PendingStart(rc, p, matched, base, guess, v, rest);
    if matched {
      mi, j, w := GuessedBits(rc, p, base, guess, v, rest);
    }
    while mi < 256
      invariant rc.Valid() && InBounds(p[..])
      invariant j <= 8 && AtDepth(mi, j)
      invariant on ==> Pending(rc, p, false, base, mi, j, 0, v, w, rest)
      decreases 8 - j
    {
      DepthOf256(mi, j);
      mi := PlainBit(rc, p, base, mi, j, v, w, rest);
      j, w := j + 1, Low(w, 7 - j);
    }
    DepthOf256(mi, j);
    if on {
      PendingDone(rc, p, base, mi, v, w, rest);
    }
  }

  lemma PendingStart(rc: Rc, p: array<nat>, guessed: bool, base: nat, guess: byte, v: byte, rest: seq<Op>)
    ensures rc.OnScript(p, if guessed then MatchedOps(base, 1, 8, guess, v, rest) else TreeOps(base, 1, 8, v, rest))
       ==> Pending(rc, p, guessed, base, 1, 0, guess, v, v, rest)
    ensures Pending(rc, p, false, base, 1, 0, guess, v, v, rest) == Pending(rc, p, false, base, 1, 0, 0, v, v, rest)
  {
    hide Rc.OnScript;
    ByteFits(v);
  }

  lemma PendingPlain(rc: Rc, p: array<nat>, base: nat, mi: nat, j: nat, g: nat, v: byte, w: nat, rest: seq<Op>)
    requires j <= 8
    ensures Pending(rc, p, false, base, mi, j, g, v, w, rest) ==> Pending(rc, p, false, base, mi, j, 0, v, w, rest)
  {
    hide Rc.OnScript;
  }

  lemma PendingDone(rc: Rc, p: array<nat>, base: nat, mi: nat, v: byte, w: nat, rest: seq<Op>)
    requires Pending(rc, p, false, base, mi, 8, 0, v, w, rest)
    ensures mi == 256 + v && rc.OnScript(p, rest)
  {
    hide Rc.OnScript;
    NodeDone(mi, w);
    NodeOfOne(8, v);
    ByteFits(v);
  }

  lemma ByteFits(v: byte)
    ensures v < Pow2(8) == 256
  {
  }

  // ----- lengths -----

  method LengthDecode(rc: Rc, p: array<nat>, base: nat, posState: nat, ghost extra: nat, ghost rest: seq<Op>)
    returns (len: nat)
    requires rc.Valid() && InBounds(p[..]) && posState < 16 && base + 514 <= p.Length
    modifies rc, p
    ensures rc.Valid() && InBounds(p[..]) && len < 272
    ensures old(rc.OnScript(p, LengthOps(base, posState, extra, rest))) && extra < 272 ==>
              len == extra && rc.OnScript(p, rest)
  {
    hide InBounds, Rc.OnScript, Rc.Valid, TreeOps;
    assert Pow2(3) == 8 && Pow2(8) == 256;
    var choice := rc.GetBit(p, base, if extra < 8 then 0 else 1,
                            if extra < 8 then TreeOps(base + LEN_LOW + 8 * posState, 1, 3, extra, rest)
                            else if extra < 16
                            then [Bit(base + 1, 0)] + TreeOps(base + LEN_MID + 8 * posState, 1, 3, extra - 8, rest)
                            else [Bit(base + 1, 1)] + TreeOps(base + LEN_HIGH, 1, 8, extra - 16, rest));
    var from: nat, bits: nat, offset: nat;
    if choice == 0 {
      from, offset, bits := base + LEN_LOW + 8 * posState, 0, 3;
    } else {
      choice := rc.GetBit(p, base + 1, if extra < 16 then 0 else 1,
                          if extra < 16 then TreeOps(base + LEN_MID + 8 * posState, 1, 3, Less(extra, 8), rest)
                          else TreeOps(base + LEN_HIGH, 1, 8, extra - 16, rest));
      if choice == 0 {
        from, offset, bits := base + LEN_MID + 8 * posState, 8, 3;
      } else {
        from, offset, bits := base + LEN_HIGH, 16, 8;
      }
    }
    len := TreeDecode(rc, p, from, bits, Less(extra, offset), rest);
    len := len + offset;
  }

  // ----- distances -----

  lemma SpecialFits(slot: nat)
    requires 4 <= slot < 14
    ensures SPEC_POS + SlotBase(slot) >= slot + 1
    ensures Less(SPEC_POS + SlotBase(slot), slot + 1) + Pow2(SlotBits(slot)) <= ALIGN
    ensures SlotBase(slot) + Pow2(SlotBits(slot)) <= 128
  {
    assert Pow2(1) == 2 && Pow2(2) == 4 && Pow2(3) == 8 && Pow2(4) == 16 && Pow2(5) == 32;
    var bits, high := SlotBits(slot), 2 + slot % 2;
    assert bits == 1 || bits == 2 || bits == 3 || bits == 4 || bits == 5;
    assert high == 2 || high == 3;
    assert SlotBase(slot) == high * Pow2(bits);
  }

  // The largest distance fits 32 bits.
  lemma DirectFits(slot: nat, x: nat, low: nat)
    requires 14 <= slot < 64 && x < Pow2(SlotBits(slot) - 4) && low < 16
    ensures 16 * Node(2 + slot % 2, SlotBits(slot) - 4, x) + low < WORD
  {
    var n := SlotBits(slot) - 4;
    Pow2Monotone(n, 26);
    Pow2Add(13, 13);
    assert Pow2(13) == 8192;
    MulMonotone(2 + slot % 2, 3, Pow2(n));
  }

  // A distance from its slot and the bits below.
  lemma JoinDistance(d: nat, slot: nat)
    requires slot == Slot(d) && slot >= 14
    ensures d >= SlotBase(slot) && SlotBits(slot) >= 4
    ensures (d - SlotBase(slot)) / 16 < Pow2(SlotBits(slot) - 4)
    ensures 16 * Node(2 + slot % 2, SlotBits(slot) - 4, (d - SlotBase(slot)) / 16) + (d - SlotBase(slot)) % 16 == d
  {
    SlotHolds(d);
    var n, high, low := SlotBits(slot) - 4, 2 + slot % 2, d - SlotBase(slot);
    Pow2Add(4, n);
    assert Pow2(4) == 16;
    hide Slot;
    assert low == 16 * (low / 16) + low % 16;
    Triple(high, 16, Pow2(n));
    Triple(16, high, Pow2(n));
    assert SlotBase(slot) == high * Pow2(4 + n);
  }

  lemma WordSize()
    ensures Pow2(32) == WORD
  {
    assert Pow2(8) == 256;
    Pow2Add(8, 8);
    hide Pow2;
    Pow2Add(16, 16);
  }

  lemma SlotFits(d: nat)
    requires d < WORD
    ensures Slot(d) < 64 == Pow2(6)
  {
    WordSize();
    SlotBelow(d, 32);
    assert Pow2(6) == 64;
  }

  // The bits of a distance below its slot.
  method FooterDecode(rc: Rc, p: array<nat>, slot: nat, ghost d: nat, ghost rest: seq<Op>) returns (r: nat)
    requires rc.Valid() && InBounds(p[..]) && p.Length >= LITERAL && slot < 64
    modifies rc, p
    ensures rc.Valid() && InBounds(p[..]) && r < WORD
    ensures old(rc.OnScript(p, FooterOps(slot, Less(d, SlotBase(slot)), rest))) && slot == Slot(d) ==>
              r == d && rc.OnScript(p, rest)
  {
    hide InBounds, Rc.OnScript, Rc.Valid, ReverseOps, DirectOps, Slot, SlotBase, SlotBits, Pow2, Node;
    SlotHolds(d);
    ghost var low := Less(d, SlotBase(slot));
    if slot >= 4 {
      BitsOfSlot(slot);
      var bits: nat := slot / 2 - 1;
      r := 2 + slot % 2;
      if slot < 14 {
        SpecialFits(slot);
        BaseOfSlot(slot);
        r := r * Pow2(bits);
        var x := ReverseDecode(rc, p, SPEC_POS + r - slot - 1, bits, low, rest);
        r := r + x;
      } else {
        bits := bits - 4;
        ghost var start := r;
        ghost var on := rc.OnScript(p, FooterOps(slot, low, rest)) && slot == Slot(d);
        if slot == Slot(d) {
          JoinDistance(d, slot);
        }
        r := DirectDecode(rc, p, r, bits, low / 16, ReverseOps(ALIGN, 1, 4, low % 16, rest));
        SixteenFits();
        ghost var y: nat :| y < Pow2(bits) && r == Node(start, bits, y);
        var x := ReverseDecode(rc, p, ALIGN, 4, low % 16, rest);
        DirectFits(slot, y, x);
        r := r * 16 + x;
      }
    } else {
      r := slot;
      SmallSlot(slot, d);
    }
  }

  lemma SixteenFits()
    ensures Pow2(4) == 16
  {
  }

  lemma BitsOfSlot(slot: nat)
    requires slot >= 4
    ensures SlotBits(slot) == slot / 2 - 1
  {
  }

  lemma BaseOfSlot(slot: nat)
    requires slot >= 4
    ensures SlotBase(slot) == (2 + slot % 2) * Pow2(SlotBits(slot))
  {
  }

  lemma SmallSlot(slot: nat, d: nat)
    requires slot < 4
    ensures slot == Slot(d) ==> d == slot
  {
    SlotHolds(d);
  }

  // Lengths of 2, 3, 4 and more have their own slot trees.
  method DistanceDecode(rc: Rc, p: array<nat>, len: nat, ghost d: nat, ghost rest: seq<Op>) returns (r: nat)
    requires rc.Valid() && InBounds(p[..]) && p.Length >= LITERAL
    modifies rc, p
    ensures rc.Valid() && InBounds(p[..]) && r < WORD
    ensures old(rc.OnScript(p, DistanceOps(len, d, rest))) && d < WORD ==> r == d && rc.OnScript(p, rest)
  {
    hide InBounds, Rc.OnScript, Rc.Valid, TreeOps, FooterOps, Slot, SlotBase;
    SixtyFour();
    if d < WORD {
      SlotFits(d);
    }
    var slot := TreeDecode(rc, p, POS_SLOT + 64 * (if len < 4 then len else 3), 6, Slot(d),
                           FooterOps(Slot(d), Less(d, SlotBase(Slot(d))), rest));
    r := FooterDecode(rc, p, slot, d, rest);
  }

  lemma SixtyFour()
    ensures Pow2(6) == 64
  {
  }

  // ----- repeated distances -----

  method ChoiceDecode(rc: Rc, p: array<nat>, state: nat, posState: nat, ghost isShort: bool, ghost index: nat,
                      ghost rest: seq<Op>)
    returns (short: bool, i: nat)
    requires rc.Valid() && InBounds(p[..]) && p.Length >= LITERAL && state < 12 && posState < 16
    modifies rc, p
    ensures rc.Valid() && InBounds(p[..]) && i < 4
    ensures old(rc.OnScript(p, ChoiceOps(state, posState, isShort, index, rest))) && index < 4 ==>
              short == isShort && (short || i == index) && rc.OnScript(p, rest)
  {
    hide InBounds, Rc.OnScript, Rc.Valid;
    ghost var near := isShort || index == 0;
    ghost var long, far := if isShort then 0 else 1, if index == 2 then 0 else 1;
    ghost var afterSecond := if index == 1 then rest else [Bit(IS_REP_G2 + state, far)] + rest;
    ghost var afterFirst := if near then [Bit(IS_REP_0_LONG + 16 * state + posState, long)] + rest
                            else [Bit(IS_REP_G1 + state, if index == 1 then 0 else 1)] + afterSecond;
    short, i := false, 0;
    var bit := rc.GetBit(p, IS_REP_G0 + state, if near then 0 else 1, afterFirst);
    if bit == 0 {
      bit := rc.GetBit(p, IS_REP_0_LONG + 16 * state + posState, long, rest);
      short := bit == 0;
    } else {
      bit := rc.GetBit(p, IS_REP_G1 + state, if index == 1 then 0 else 1, afterSecond);
      if bit == 0 {
        i := 1;
      } else {
        bit := rc.GetBit(p, IS_REP_G2 + state, far, rest);
        i := if bit == 0 then 2 else 3;
      }
    }
  }
}
