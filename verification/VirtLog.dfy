// The log kept in a ring, and the flush that prints what was logged since the last flush.
module VirtLog {
  import opened Bytes
  import opened RingBuffer

  const TURNS: nat := 0x1_0000_0000

  // The place k characters before offset.
  function Back(offset: nat, k: nat, size: nat): (place: nat)
    requires offset < size && k <= size
    ensures place < size
  {
    if k <= offset then offset - k else offset + size - k
  }

  // The ring holds the last characters logged, as many as it has room for, up to offset.
  ghost predicate Held(b: seq<byte>, offset: nat, logged: seq<byte>)
    requires offset < |b|
  {
    Ring(b, Back(offset, Min(|logged|, |b|), |b|), Min(|logged|, |b|)) == Last(logged, |b|)
  }

  // Laps and places tell how much was logged, unless that is more than the ring holds.
  ghost predicate Counted(laps: nat, size: nat, dirty: nat, offset: nat, logged: nat)
  {
    var walked := laps * size + offset - dirty;
    walked >= 0 && (walked == logged || (walked >= size && logged >= size))
  }

  lemma NextLap(laps: nat, size: nat)
    ensures (laps + 1) * size == laps * size + size
  {
  }

  lemma CountedStep(laps: nat, size: nat, dirty: nat, offset: nat, logged: nat, len: nat, extra: nat)
    requires offset < size && dirty < size && len <= size && Counted(laps, size, dirty, offset, logged)
    requires extra == len || (len == size && extra >= size)
    ensures Counted(if offset + len >= size then laps + 1 else laps, size, dirty, Wrap(offset + len, size),
                    logged + extra)
  {
    NextLap(laps, size);
  }

  lemma LastOfLast<X>(s: seq<X>, n: nat, k: nat)
    requires k <= Min(|s|, n)
    ensures Last(s, n)[Min(|s|, n) - k..] == Last(s, k)
  {
  }

  lemma LastEnough<X>(s: seq<X>, n: nat)
    ensures Last(s, Min(|s|, n)) == Last(s, n)
  {
  }

  lemma LastOfTwo<X>(s: seq<X>, t: seq<X>, n: nat)
    requires |t| <= n
    ensures Last(s + t, n) == Last(s, n - |t|) + t
  {
  }

  // Writing moves the ring along: what it held is kept as far as there is room beside the new.
  lemma HeldStep(b: seq<byte>, offset: nat, logged: seq<byte>, s: seq<byte>)
    requires offset < |b| && |s| <= |b| && Held(b, offset, logged)
    ensures Wrap(offset + |s|, |b|) < |b| && Held(Written(b, offset, s), Wrap(offset + |s|, |b|), logged + s)
  {
    hide Ring, Written, Last;
    if s == [] {
      WrittenNothing(b, offset);
      assert logged + s == logged;
      return;
    }
    var size := |b|;
    var held := Min(|logged|, size);
    var kept := Min(|logged|, size - |s|);
    var from := Back(offset, held, size);
    var start := Back(offset, kept, size);
    RingCut(b, from, held, held - kept);
    LastOfLast(logged, size, kept);
    assert Wrap(from + (held - kept), size) == start;
    RingWritten(b, start, kept, s);
    LastOfTwo(logged, s, size);
    LastEnough(logged, size - |s|);
  }

  lemma HeldEnd(b: seq<byte>, offset: nat, logged: seq<byte>, s: seq<byte>)
    requires offset < |b| && Held(b, offset, logged + if |s| > |b| then s[|s| - |b|..] else s)
    ensures Held(b, offset, logged + s)
  {
    hide Ring, Last;
    if |s| > |b| {
      LastOnly(logged, s, |b|);
      LastOnly(logged, s[|s| - |b|..], |b|);
    }
  }

  lemma HeldNothing(b: seq<byte>, offset: nat)
    requires offset < |b|
    ensures Held(b, offset, []) && Counted(0, |b|, offset, offset, 0)
  {
  }

  function Part(b: seq<byte>, from: nat, to: nat): seq<byte>
    requires to <= |b|
  {
    if from < to then b[from..to] else []
  }

  // What a flush prints, by the number of laps its counters show.
  function Shown(b: seq<byte>, dirty: nat, offset: nat, laps: nat): seq<byte>
    requires dirty < |b| && offset < |b|
  {
    if laps == 0 then Part(b, dirty, offset)
    else if laps == 1 && dirty >= offset then Part(b, dirty, |b|) + Part(b, 0, offset)
    else Part(b, offset, |b|) + Part(b, 0, offset)
  }

  // The counters are of 32 bits: after so many laps they look as if there had been fewer.
  predicate TooManyLaps(laps: nat, dirty: nat, offset: nat)
  {
    laps >= TURNS && (laps % TURNS == 0 || (laps % TURNS == 1 && dirty > offset))
  }

  lemma WholeRing(b: seq<byte>, offset: nat)
    requires offset < |b|
    ensures Ring(b, offset, |b|) == b[offset..] + b[..offset]
  {
    hide Ring;
    RingSlices(b, offset, |b|);
    assert b[offset..] == b[offset..] + b[..0];
  }

  // A long walk fills the ring.
  lemma LongWalk(laps: nat, size: nat, dirty: nat, offset: nat, logged: nat)
    requires offset < size && dirty < size && Counted(laps, size, dirty, offset, logged) && laps > 0
    ensures laps > 1 || dirty <= offset ==> logged >= size
    ensures laps == 1 ==> Min(logged, size) == if dirty < offset then size else size + offset - dirty
  {
    if laps > 1 {
      NextLap(laps - 1, size);
      assert (laps - 1) * size >= size;
    }
  }

  lemma ShownSize(b: seq<byte>, dirty: nat, offset: nat, laps: nat)
    requires dirty < |b| && offset < |b|
    ensures laps == 0 ==> |Shown(b, dirty, offset, laps)| < |b|
    ensures laps == 1 && dirty > offset ==> |Shown(b, dirty, offset, laps)| < |b|
    ensures laps > 1 || (laps == 1 && dirty <= offset) ==> Shown(b, dirty, offset, laps) == b[offset..] + b[..offset]
  {
  }

  lemma FullRing(b: seq<byte>, offset: nat, logged: seq<byte>)
    requires offset < |b| && Held(b, offset, logged) && |logged| >= |b|
    ensures Last(logged, |b|) == b[offset..] + b[..offset]
  {
    hide Ring, Last;
    WholeRing(b, offset);
  }

  lemma ShortWalk(b: seq<byte>, dirty: nat, offset: nat, laps: nat, logged: seq<byte>)
    requires dirty < |b| && offset < |b| && (laps == 0 || (laps == 1 && dirty > offset))
    requires Held(b, offset, logged) && Counted(laps, |b|, dirty, offset, |logged|)
    ensures Shown(b, dirty, offset, laps) == Last(logged, |b|)
  {
    hide Ring, Last;
    assert Back(offset, |logged|, |b|) == dirty;
    RingSlices(b, dirty, |logged|);
  }

  // The flush prints exactly what survives of the characters logged since the flush before,
  // if and only if the lap counters have not come round.
  lemma FlushExact(b: seq<byte>, dirty: nat, offset: nat, laps: nat, logged: seq<byte>)
    requires dirty < |b| && offset < |b|
    requires Held(b, offset, logged) && Counted(laps, |b|, dirty, offset, |logged|)
    ensures Shown(b, dirty, offset, laps % TURNS) == Last(logged, |b|) <==> !TooManyLaps(laps, dirty, offset)
  {
    hide Ring, Last, Held, Counted, Shown;
    if laps == 0 || (laps == 1 && dirty > offset) {
      ShortWalk(b, dirty, offset, laps, logged);
    } else {
      LongWalk(laps, |b|, dirty, offset, |logged|);
      FullRing(b, offset, logged);
      ShownSize(b, dirty, offset, laps % TURNS);
    }
  }

  // The counter of laps, and its value at the last flush.
  predicate LapsShown(cnt: nat, save: nat, laps: nat)
  {
    cnt < TURNS && save < TURNS && cnt == (save + laps) % TURNS
  }

  lemma LapsBetween(cnt: nat, save: nat, laps: nat)
    requires LapsShown(cnt, save, laps)
    ensures (cnt - save) % TURNS == laps % TURNS && (cnt == save <==> laps % TURNS == 0)
  {
  }

  // ----- the log -----

  class VirtLog {
    const buffer: array<byte>
    var logOffset: nat
    var outputDirtyOffset: nat
    var bufferFullCnt: nat
    var bufferFullCntSave: nat
    // What was logged since the last flush and how often the ring came round meanwhile.
    ghost var logged: seq<byte>
    ghost var laps: nat

    ghost predicate Valid()
      reads this, buffer
    {
      && logOffset < buffer.Length && outputDirtyOffset < buffer.Length
      && LapsShown(bufferFullCnt, bufferFullCntSave, laps)
      && Held(buffer[..], logOffset, logged)
      && Counted(laps, buffer.Length, outputDirtyOffset, logOffset, |logged|)
    }

    constructor (size: nat)
      requires size > 0
      ensures Valid() && fresh(buffer) && buffer.Length == size && logged == [] && laps == 0
    {
      buffer := new byte[size];
      logOffset, outputDirtyOffset, bufferFullCnt, bufferFullCntSave := 0, 0, 0, 0;
      logged, laps := [], 0;
    }

    // Moves the end of the log on, round the ring at its end.
    method Advance(len: nat)
      requires logOffset < buffer.Length && len <= buffer.Length - logOffset
               && LapsShown(bufferFullCnt, bufferFullCntSave, laps)
      modifies `logOffset, `bufferFullCnt, `laps
      ensures logOffset == Wrap(old(logOffset) + len, buffer.Length) < buffer.Length
      ensures laps == if old(logOffset) + len >= buffer.Length then old(laps) + 1 else old(laps)
      ensures LapsShown(bufferFullCnt, bufferFullCntSave, laps)
    {
      logOffset := logOffset + len;
      if logOffset >= buffer.Length {
        logOffset := 0;
        bufferFullCnt := (bufferFullCnt + 1) % TURNS;
        laps := laps + 1;
      }
    }

    // Adds one character to the log.
    method Put(ch: byte)
      requires Valid()
      modifies this, buffer
      ensures Valid() && logged == old(logged) + [ch]
      ensures outputDirtyOffset == old(outputDirtyOffset) && bufferFullCntSave == old(bufferFullCntSave)
    {
      hide Held, Counted, Written, LapsShown;
      ghost var b := buffer[..];
      HeldStep(b, logOffset, logged, [ch]);
      CountedStep(laps, buffer.Length, outputDirtyOffset, logOffset, |logged|, 1, 1);
      WrittenOnce(b, logOffset, [ch]);
      Copy(buffer, logOffset, [ch]);
      Advance(1);
      logged := logged + [ch];
    }

    // Writes a piece no longer than the ring in one copy or two.
    method Store(s: seq<byte>)
      requires logOffset < buffer.Length && |s| <= buffer.Length && LapsShown(bufferFullCnt, bufferFullCntSave, laps)
      modifies `logOffset, `bufferFullCnt, `laps, buffer
      ensures buffer[..] == Written(old(buffer[..]), old(logOffset), s)
      ensures logOffset == Wrap(old(logOffset) + |s|, buffer.Length) < buffer.Length
      ensures laps == if old(logOffset) + |s| >= buffer.Length then old(laps) + 1 else old(laps)
      ensures LapsShown(bufferFullCnt, bufferFullCntSave, laps)
    {
      hide Written, LapsShown;
      ghost var b := buffer[..];
      var remain := buffer.Length - logOffset;
      if |s| > remain {
        WrittenTwice(b, logOffset, s);
        Copy(buffer, logOffset, s[..remain]);
        Advance(remain);
        Copy(buffer, 0, s[remain..]);
        Advance(|s| - remain);
      } else {
        WrittenOnce(b, logOffset, s);
        Copy(buffer, logOffset, s);
        Advance(|s|);
      }
    }

    // Adds a string of characters to the log; of one longer than the ring only the end is kept.
    method PutBufLen(buf: seq<byte>) returns (writed: nat)
      requires Valid()
      modifies this, buffer
      ensures Valid() && writed == Min(|buf|, buffer.Length) && logged == old(logged) + buf
      ensures outputDirtyOffset == old(outputDirtyOffset) && bufferFullCntSave == old(bufferFullCntSave)
    {
      hide Held, Counted, Written, Last, LapsShown;
      var s := if |buf| > buffer.Length then buf[|buf| - buffer.Length..] else buf;
      writed := |s|;
      HeldStep(buffer[..], logOffset, logged, s);
      CountedStep(laps, buffer.Length, outputDirtyOffset, logOffset, |logged|, |s|, |buf|);
      Store(s);
      HeldEnd(buffer[..], logOffset, logged, buf);
      logged := logged + buf;
    }

    method PutChars(from: nat, to: nat, before: seq<byte>) returns (out: seq<byte>)
      requires to <= buffer.Length
      ensures out == before + Part(buffer[..], from, to)
    {
      out := before;
      var i := from;
      while i < to
        invariant from <= i && (i <= to || i == from)
        invariant out == before + Part(buffer[..], from, Min(i, to))
      {
        out := out + [buffer[i]];
        i := i + 1;
      }
    }

    // Prints the characters that the places and counters point to.
    method Show() returns (out: seq<byte>)
      requires logOffset < buffer.Length && outputDirtyOffset < buffer.Length
      requires LapsShown(bufferFullCnt, bufferFullCntSave, laps)
      ensures out == Shown(buffer[..], outputDirtyOffset, logOffset, laps % TURNS)
    {
      hide Part, LapsShown;
      var offset := logOffset;
      LapsBetween(bufferFullCnt, bufferFullCntSave, laps);
      if bufferFullCnt == bufferFullCntSave {
        out := PutChars(outputDirtyOffset, offset, []);
      } else if (bufferFullCnt - bufferFullCntSave) % TURNS > 1 {
        out := PutChars(offset, buffer.Length, []);
        out := PutChars(0, offset, out);
      } else if outputDirtyOffset >= offset {
        out := PutChars(outputDirtyOffset, buffer.Length, []);
        out := PutChars(0, offset, out);
      } else {
        out := PutChars(offset, buffer.Length, []);
        out := PutChars(0, offset, out);
      }
    }

    // Prints what was logged since the flush before, as much of it as the ring still holds.
    method Flush() returns (out: seq<byte>)
      requires Valid()
      modifies this
      ensures out == Last(old(logged), buffer.Length) <==>
                !TooManyLaps(old(laps), old(outputDirtyOffset), old(logOffset))
      ensures Valid() && logged == [] && laps == 0 && logOffset == old(logOffset) && bufferFullCnt == old(bufferFullCnt)
    {
      hide Held, Counted, Last, TooManyLaps, Shown;
      FlushExact(buffer[..], outputDirtyOffset, logOffset, laps, logged);
      out := Show();
      outputDirtyOffset := logOffset;
      bufferFullCntSave := bufferFullCnt;
      logged, laps := [], 0;
      HeldNothing(buffer[..], logOffset);
    }
  }
}
