// The output window of the LZMA decoder: a plain buffer that receives everything, or, when
// a flush callback is given, a dictionary-sized ring that is handed over each time it fills.
// Both are proved to show the same unbounded history to the copy operations.
module LzmaWindow {
  import opened Bytes
  import opened Powers

  const WORD := 0x100000000
  const HALF := 0x80000000

  // ----- the history, and copying from it, as specified -----

  // n bytes are appended, each equal to the byte d positions before it.
  function LzCopy(h: seq<byte>, d: nat, n: nat): (r: seq<byte>)
    requires 1 <= d <= |h|
    ensures |r| == |h| + n && h <= r
  {
    if n == 0 then h
    else
      var before := LzCopy(h, d, n - 1);
      before + [before[|before| - d]]
  }

  // The copy may overlap its own output: what it reads is only written on the way.
  lemma {:induction false} LzCopyAt(h: seq<byte>, d: nat, n: nat, i: nat)
    requires 1 <= d <= |h| <= i < |h| + n
    ensures LzCopy(h, d, n)[i] == LzCopy(h, d, n)[i - d]
  {
    if i < |h| + n - 1 {
      LzCopyAt(h, d, n - 1, i);
    }
  }

  // From a distance that divides it, a copy repeats one period: byte i equals the byte
  // (i - |h|) % d of the last d bytes of the history.
  lemma {:induction false} LzCopyPeriodic(h: seq<byte>, d: nat, n: nat, i: nat)
    requires 1 <= d <= |h| && i < n
    ensures LzCopy(h, d, n)[|h| + i] == h[|h| - d + i % d]
  {
    hide LzCopy;
    LzCopyAt(h, d, n, |h| + i);
    if i >= d {
      LzCopyPeriodic(h, d, n, i - d);
      DivModUnique(i, (i - d) / d + 1, d, (i - d) % d);
    } else {
      DivModUnique(i, 0, d, i);
    }
  }

  lemma {:induction false} LzCopyAdd(h: seq<byte>, d: nat, m: nat, n: nat)
    requires 1 <= d <= |h|
    ensures LzCopy(LzCopy(h, d, m), d, n) == LzCopy(h, d, m + n)
  {
    if n > 0 {
      LzCopyAdd(h, d, m, n - 1);
    }
  }

  // ----- where an old byte is found -----

  // Positions are computed in 32 bits: below the start of the ring they wrap around to
  // just under 2^32, and adding the ring's size once brings them back.
  function RingIndex(pos: nat, offs: nat, dict: nat): nat
    requires pos < dict < WORD && 1 <= offs <= dict
  {
    var p := (pos + WORD - offs) % WORD;
    if p >= dict then (p + dict) % WORD else p
  }

  // The ring index is right unless a position before the start of the ring is mistaken for
  // one inside it, which only a ring of more than 2^31 bytes allows.
  lemma RingIndexExact(pos: nat, offs: nat, dict: nat)
    requires pos < dict < WORD && 1 <= offs <= dict
    ensures RingIndex(pos, offs, dict) == (if offs <= pos then pos - offs else pos + dict - offs)
       <==> offs <= pos || pos + WORD - offs >= dict
  {
    if offs <= pos {
      assert pos + WORD - offs == WORD + (pos - offs);
      assert (pos + WORD - offs) % WORD == pos - offs;
    } else {
      assert (pos + WORD - offs) % WORD == pos + WORD - offs;
    }
  }

  // A distance taken modulo the dictionary size, with dict itself standing for 0.
  function Reduced(offs: nat, dict: nat): (r: nat)
    requires offs >= 1 && dict >= 1
    ensures 1 <= r <= dict
  {
    (offs - 1) % dict + 1
  }

  lemma ReducedAgain(offs: nat, dict: nat)
    requires offs > dict >= 1
    ensures Reduced(offs - dict, dict) == Reduced(offs, dict)
  {
    var o := offs - 1 - dict;
    DivModUnique(offs - 1, o / dict + 1, dict, o % dict);
  }

  lemma ReducedWithin(offs: nat, dict: nat)
    requires 1 <= offs <= dict
    ensures Reduced(offs, dict) == offs
  {
    DivModUnique(offs - 1, 0, dict, offs - 1);
  }

  lemma SignedDifference(pos: nat, o: nat)
    requires 1 <= o <= pos <= HALF
    ensures Signed((pos + WORD - o) % WORD) == pos - o
  {
    DivModUnique(pos + WORD - o, 1, WORD, pos - o);
  }

  // Every position is found in a ring exactly when the ring has at most 2^31 bytes.
  lemma RingIndexSmall(dict: nat)
    requires 1 <= dict < WORD
    ensures dict <= HALF <==> (forall pos, offs :: 0 <= pos < dict && 1 <= offs <= dict ==>
              RingIndex(pos, offs, dict) == if offs <= pos then pos - offs else pos + dict - offs)
  {
    if dict <= HALF {
      forall pos: int, offs: int | 0 <= pos < dict && 1 <= offs <= dict
        ensures RingIndex(pos, offs, dict) == if offs <= pos then pos - offs else pos + dict - offs
      {
        RingIndexExact(pos, offs, dict);
      }
    } else {
      RingIndexExact(0, dict, dict);
      assert RingIndex(0, dict, dict) != 0;
    }
  }

  // The ring holds the end of the history, wherever the write position is.
  lemma RingHolds(sink: seq<byte>, ring: seq<byte>, pos: nat, offs: nat, dict: nat)
    requires pos < dict <= HALF && pos <= |ring| && 1 <= offs <= dict && offs <= |sink| + pos
    requires sink != [] ==> dict <= |sink| && dict <= |ring| && KeepsTail(sink, ring, pos, dict)
    ensures RingIndex(pos, offs, dict) < |ring|
    ensures ring[RingIndex(pos, offs, dict)] == (sink + ring[..pos])[|sink| + pos - offs]
  {
    RingIndexExact(pos, offs, dict);
    hide RingIndex;
    if offs > pos {
      assert ring[pos + dict - offs] == sink[|sink| - dict + (pos + dict - offs)];
    }
  }

  method FindInRing(bufferPos: nat, offs: nat, dict: nat) returns (pos: nat)
    requires bufferPos < dict < WORD && 1 <= offs <= dict
    ensures pos == RingIndex(bufferPos, offs, dict)
  {
    pos := (bufferPos + WORD - offs) % WORD;
    ghost var start := pos;
    while pos >= dict
      invariant pos < WORD && (pos == start || pos == (start + dict) % WORD < dict <= start)
      decreases if pos >= dict then WORD - pos else 0
    {
      pos := (pos + dict) % WORD;
    }
  }

  // ----- the writer -----

  class Writer {
    const flush: bool
    const dictSize: nat
    const dstSize: nat
    const buffer: array<byte>
    var bufferPos: nat
    var globalPos: nat
    var previousByte: byte
    var sink: seq<byte>      // what the flush callback has been given

    // Everything written so far.
    ghost function History(): (h: seq<byte>)
      reads this, buffer
    {
      sink + buffer[..if bufferPos <= buffer.Length then bufferPos else 0]
    }

    ghost predicate Valid()
      reads this, buffer
    {
      && 1 <= dictSize
      && (flush ==> dictSize <= HALF && (dictSize <= buffer.Length || dstSize <= buffer.Length))
      && (!flush ==> (dstSize <= HALF || buffer.Length <= HALF) && dictSize < WORD)
      && bufferPos <= buffer.Length && bufferPos <= dstSize
      && globalPos == |sink|
      && (flush ==> bufferPos < dictSize)
      && (StopsAtEnd() ==> sink == [])
      && (sink != [] ==>
            dictSize <= |sink| && dictSize <= buffer.Length && KeepsTail(sink, buffer[..], bufferPos, dictSize))
      && previousByte == Last(History())
    }

    // Whether copying stops at the announced size: it does unless the ring can wrap first.
    predicate StopsAtEnd()
    {
      !flush || dstSize < dictSize
    }

    // There is room for n more bytes, however many are still announced: without a flush
    // callback nothing looks at the end of the buffer.
    ghost predicate HasRoom(n: nat)
      reads this, buffer
    {
      flush || dstSize <= buffer.Length || |History()| + n <= buffer.Length
    }

    constructor (flush: bool, dictSize: nat, dstSize: nat, buffer: array<byte>)
      requires 1 <= dictSize
      requires flush ==> dictSize <= HALF && (dictSize <= buffer.Length || dstSize <= buffer.Length)
      requires !flush ==> (dstSize <= HALF || buffer.Length <= HALF) && dictSize < WORD
      ensures Valid() && History() == []
      ensures this.flush == flush && this.dictSize == dictSize && this.dstSize == dstSize && this.buffer == buffer
    {
      this.flush, this.dictSize, this.dstSize, this.buffer := flush, dictSize, dstSize, buffer;
      bufferPos, globalPos, previousByte, sink := 0, 0, 0, [];
    }

    lemma Facts()
      requires Valid()
      ensures previousByte == Last(History()) && 1 <= dictSize < WORD && bufferPos <= |History()|
    {
    }

    lemma Bound()
      requires Valid()
      ensures StopsAtEnd() ==> |History()| <= dstSize
    {
    }

    lemma LessRoom(m: nat, n: nat)
      requires HasRoom(m) && n <= m
      ensures HasRoom(n)
    {
    }

    method GetPos() returns (pos: nat)
      requires Valid()
      ensures pos == |History()|
    {
      pos := globalPos + bufferPos;
    }

    // The byte offs positions back, in either mode. Without a flush callback a distance
    // beyond the dictionary is first brought back into it.
    method PeekOldByte(offs: nat) returns (b: byte)
      requires Valid() && 1 <= offs < WORD && Reduced(offs, dictSize) <= |History()| && (flush ==> offs <= dictSize)
      ensures b == History()[|History()| - Reduced(offs, dictSize)]
    {
      hide KeepsTail, RingIndex, Reduced, Signed;
      if !flush {
        var o: nat := offs;
        while o > dictSize
          invariant o >= 1 && Reduced(o, dictSize) == Reduced(offs, dictSize)
        {
          ReducedAgain(o, dictSize);
          o := o - dictSize;
        }
        ReducedWithin(o, dictSize);
        SignedDifference(bufferPos, o);
        var pos := Signed((bufferPos + WORD - o) % WORD);
        b := buffer[pos];
      } else {
        ReducedWithin(offs, dictSize);
        RingHolds(sink, buffer[..], bufferPos, offs, dictSize);
        var pos := FindInRing(bufferPos, offs, dictSize);
        b := buffer[pos];
      }
    }

    method WriteByte(b: byte)
      requires Valid() && bufferPos < dstSize && HasRoom(1)
      modifies this, buffer
      ensures Valid() && History() == old(History()) + [b]
    {
      hide KeepsTail, Last;
      ghost var before, old_h := buffer[..], History();
      LastOfMore(old_h, b);
      if sink != [] {
        KeepsTailNext(sink, before, bufferPos, dictSize, b);
      }
      buffer[bufferPos] := b;
      assert buffer[..] == before[bufferPos := b];
      previousByte := b;
      bufferPos := bufferPos + 1;
      assert buffer[..bufferPos] == before[..bufferPos - 1] + [b];
      Regroup(sink, before[..bufferPos - 1], [b]);
      if flush && bufferPos == dictSize {
        KeepsAll(sink, buffer[..], dictSize);
        sink := sink + buffer[..dictSize];
        bufferPos := 0;
        globalPos := globalPos + dictSize;
        assert History() == sink;
      }
    }

    method CopyByte(offs: nat)
      requires Valid() && 1 <= offs <= |History()| && offs <= dictSize && bufferPos < dstSize && HasRoom(1)
      modifies this, buffer
      ensures Valid() && History() == LzCopy(old(History()), offs, 1)
    {
      ReducedWithin(offs, dictSize);
      var b := PeekOldByte(offs);
      WriteByte(b);
      ghost var h := old(History());
      assert LzCopy(h, offs, 0) == h;
    }

    // Copies up to len bytes and returns how many are missing.
    method CopyBytes(rep0: nat, len: nat) returns (missing: nat)
      requires Valid() && 1 <= rep0 <= |History()| && rep0 <= dictSize && len >= 1 && bufferPos < dstSize
               && HasRoom(len)
      modifies this, buffer
      ensures Valid()
      ensures missing == if StopsAtEnd() && old(|History()|) + len > dstSize
                         then old(|History()|) + len - dstSize
                         else 0
      ensures missing < len && History() == LzCopy(old(History()), rep0, len - missing)
    {
      hide LzCopy, KeepsTail;
      ghost var h := History();
      CopyByte(rep0);
      missing := len - 1;
      while missing != 0 && bufferPos < dstSize
        invariant Valid() && missing < len && HasRoom(missing)
        invariant History() == LzCopy(h, rep0, len - missing)
      {
        LzCopyAdd(h, rep0, len - missing, 1);
        CopyByte(rep0);
        missing := missing - 1;
      }
    }

    // At the end what is left in the ring is handed over too.
    method Finish() returns (out: seq<byte>)
      requires Valid()
      modifies this
      ensures out == old(History())
    {
      if flush {
        sink := sink + buffer[..bufferPos];
        out := sink;
      } else {
        out := buffer[..bufferPos];
      }
    }
  }

  function Last(h: seq<byte>): byte
  {
    if h == [] then 0 else h[|h| - 1]
  }

  lemma LastOfMore(h: seq<byte>, b: byte)
    ensures Last(h + [b]) == b
  {
  }

  // The part of the ring that is not overwritten yet holds the end of what was flushed.
  ghost predicate KeepsTail(sink: seq<byte>, ring: seq<byte>, pos: nat, dict: nat)
    requires dict <= |sink| && dict <= |ring|
  {
    forall k :: pos <= k < dict ==> ring[k] == sink[|sink| - dict + k]
  }

  lemma KeepsTailNext(sink: seq<byte>, ring: seq<byte>, pos: nat, dict: nat, b: byte)
    requires dict <= |sink| && dict <= |ring| && pos < |ring| && KeepsTail(sink, ring, pos, dict)
    ensures KeepsTail(sink, ring[pos := b], pos + 1, dict)
  {
  }

  lemma KeepsAll(sink: seq<byte>, ring: seq<byte>, dict: nat)
    requires dict <= |ring|
    ensures KeepsTail(sink + ring[..dict], ring, 0, dict)
  {
  }
}
