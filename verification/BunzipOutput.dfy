// The output side of the bzip2 decoder: blocks are read from the bits one by one, and the
// loop that writes their bytes can stop at any byte when the caller's buffer is full and
// carry on at the next call.
module BunzipOutput {
  import opened Bytes
  import opened BunzipStatus
  import opened CountingSort
  import opened BurrowsWheeler
  import opened BunzipRuns
  import opened Powers
  import opened BitReader
  import opened BunzipHeader
  import opened BunzipInput
  import opened BunzipStream
  import opened Words
  import opened BunzipCrc

  // The block's words are in dbuf: bytes low, pointers high.
  predicate Loaded(words: seq<nat>, L: seq<byte>)
  {
    |L| == |Pointers(L)| && |L| <= |words| && words[..|L|] == WordsAt(L, |L|)
  }

  lemma LoadedEmpty(words: seq<nat>)
    ensures Loaded(words, [])
  {
    PointersFacts([]);
  }

  lemma LoadedNow(words: seq<nat>, counts: seq<int>, L: seq<byte>)
    requires |L| <= |words| && Linking(words[..|L|], counts, L, |L|)
    ensures Loaded(words, L)
  {
  }

  lemma LoadedWord(words: seq<nat>, L: seq<byte>, pos: nat)
    requires Loaded(words, L) && pos < |L|
    ensures pos < |words| && words[pos] % 256 == L[pos] && words[pos] / 256 == Next(L, pos)
  {
    assert words[pos] == words[..|L|][pos] == WordAt(L, |L|, pos);
    assert Next(L, pos) < |L|;
  }

  // The reader is at the bits of these blocks, and of what ends them.
  ghost predicate Ready(bd: Reader, dbufSize: nat, queue: seq<Block>, last: Last)
    reads bd
  {
    bd.Valid() && !bd.ioError && ContentsOf(bd.inbuf, bd.Position(), dbufSize) == Contents(queue, last)
  }

  lemma ReadyStep(input: seq<byte>, p: nat, dbufSize: nat, queue: seq<Block>, last: Last)
    requires ContentsOf(input, p, dbufSize) == Contents(queue, last)
    ensures var r := NextBlock(input, p, dbufSize);
            && !r.Undefined?
            && (r.Refused? ==> queue == [] && r.status < 0 && last == LastFor(r.status, StoredCrc(input, p)))
            && (r.Got? ==> queue != [] && queue[0] == r.value && Usable(r.value)
                           && ContentsOf(input, r.next, dbufSize) == Contents(queue[1..], last))
  {
    hide NextBlock, StoredCrc;
  }

  lemma FitsRest(queue: seq<Block>, dbufSize: nat)
    requires Fits(queue, dbufSize) && queue != []
    ensures Fits(queue[1..], dbufSize)
  {
  }

  // The decoder's state. The queue holds the blocks that the bits to come define while the
  // reader is open, and last is what ends them.
  class Bunzip {
    var writeCopies: nat
    var writePos: nat
    var writeRunCountdown: nat
    var writeCount: int
    var writeCurrent: byte
    var writeCRC: Word
    var headerCRC: Word
    var totalCRC: Word
    const crc32Table: seq<Word>
    const source: BlockReader
    const dbuf: array<nat>
    const byteCount: array<int>
    ghost var open: bool
    ghost var queue: seq<Block>
    ghost var last: Last
    ghost var L: seq<byte>

    ghost predicate Built()
    {
      && source.Built() && byteCount.Length == 256 && IsTable(crc32Table)
      && dbuf !in source.parts && byteCount !in source.parts && this !in source.parts
    }

    ghost predicate Valid()
      reads this, source.bd, dbuf
    {
      && Built() && (last.Broken? ==> last.status < 0) && Fits(queue, dbuf.Length)
      && Loaded(dbuf[..], L)
      && (writeCount > 0 ==> writePos < |L| && writeRunCountdown > 0)
      && (open ==> Ready(source.bd, dbuf.Length, queue, last))
    }

    // Between calls, copies of the current byte are owed unless the block is used up.
    ghost predicate Paused()
      reads this
    {
      (writeCopies == 0 ==> writeCount <= 0) && (writeCount >= 0 ==> open)
    }

    // What is still to come, seen from inside the output loop.
    ghost function Now(phase: Phase, pos: nat, xcurrent: byte): (f: Future)
      requires phase != Fetch && writeCount > 0 ==> pos < |L| && writeRunCountdown > 0
      requires phase != Fetch ==> writeCount >= 0
      reads this
      ensures (last.Broken? ==> last.status < 0) ==> StatusOf(f.end) < 0
    {
      if phase == Fetch then Ahead(queue, last, totalCRC)
      else
        Onward(Rest(phase, L, pos, writeCount, writeRunCountdown, xcurrent, writeCopies), writeCRC, headerCRC, queue,
               last, totalCRC)
    }

    // Between calls: the output still to come, and how it ends.
    ghost function Coming(): (f: Future)
      requires Valid() && writeCount >= 0
      reads this, source.bd, dbuf
      ensures StatusOf(f.end) < 0
    {
      if writeCopies == 0 then Ahead(queue, last, totalCRC)
      else
        Onward(Rest(Copy, L, writePos, writeCount, writeRunCountdown, writeCurrent, writeCopies - 1), writeCRC,
               headerCRC, queue, last, totalCRC)
    }

    // The fields tell how the stream has ended.
    ghost predicate Settled(end: End)
      reads this
    {
      writeCount == StatusOf(end) && Tells(end)
    }

    // The checksums agree if the stream is complete and intact.
    ghost predicate Tells(end: End)
      reads this
    {
      StatusOf(end) == RETVAL_LAST_BLOCK ==> (headerCRC == totalCRC <==> end == Complete(true))
    }

    constructor (bd: Reader, dbufSize: nat)
      requires bd.Valid() && !bd.ioError
      ensures Valid() && writeCount == 0 == writeCopies && source.bd == bd && dbuf.Length == dbufSize
      ensures fresh(source) && fresh(source.parts - {bd}) && fresh(dbuf) && fresh(byteCount)
      ensures var c := ContentsOf(bd.inbuf, bd.Position(), dbufSize);
              c.Contents? ==> Paused() && Coming() == Ahead(c.blocks, c.last, ZERO)
    {
      hide ContentsOf, BlockReader.Built, Loaded, Ahead, Rest, Reader.Valid, IsTable;
      source := new BlockReader(bd);
      writeCopies, writePos, writeRunCountdown, writeCount, writeCurrent := 0, 0, 0, 0, 0;
      writeCRC, headerCRC, totalCRC := ZERO, ZERO, ZERO;
      var table := MakeTable();
      crc32Table := table;
      dbuf := new nat[dbufSize];
      byteCount := new int[256];
      ghost var c := ContentsOf(bd.inbuf, bd.Position(), dbufSize);
      queue, last := if c.Contents? then c.blocks else [], if c.Contents? then c.last else Mark(ZERO);
      open, L := c.Contents?, [];
      new;
      LoadedEmpty(dbuf[..]);
    }

    // Takes the next block from the bits, sorts its pointers, and starts the walk.
    method GetNextBlock(ghost pos: nat, ghost xcurrent: byte) returns (status: int)
      requires Valid() && open
      modifies this, source.parts, dbuf, byteCount
      ensures Valid() && (status == 0 ==> open) && writeCopies == old(writeCopies)
      ensures status == 0 ==>
                writeCount >= 0 && |queue| < |old(queue)|
                && (writeCount > 0 ==> writePos < |L| && writeRunCountdown > 0)
      ensures status == 0 && writeCopies == 0 ==> Now(Decode, writePos, writeCurrent) == old(Now(Fetch, pos, xcurrent))
      ensures status != 0 ==>
                var f := old(Now(Fetch, pos, xcurrent));
                && f.out == [] && status == StatusOf(f.end) < 0 && Tells(f.end)
                && (f.end.Complete? <==> status == RETVAL_LAST_BLOCK)
    {
      hide Pending, Loaded, Rest, Onward, Ahead, Ready, NextBlock, ContentsOf, BlockReader.Built, Fits, IsTable;
      AheadNothing(last, totalCRC);
      var dbufCount, origPtr;
      status, dbufCount, origPtr := FetchBlock();
      if status != RETVAL_OK {
        return;
      }
      StartWalk(dbufCount, origPtr);
      RestStart(queue, writePos, writeRunCountdown, writeCurrent, last, totalCRC);
      FitsRest(queue, dbuf.Length);
      queue, open := queue[1..], true;
      writeCRC := ALL;
    }

    // Reads the next block and sorts its pointers.
    method FetchBlock() returns (status: int, dbufCount: nat, origPtr: nat)
      requires Valid() && open
      modifies `writeCount, `headerCRC, `open, `L, source.parts, dbuf, byteCount
      ensures Loaded(dbuf[..], L) && writeCount == 0 && !open
      ensures status == RETVAL_OK ==>
                && queue != [] && Usable(queue[0]) && queue[0] == Block(L, origPtr, headerCRC) && dbufCount == |L|
                && Ready(source.bd, dbuf.Length, queue[1..], last)
      ensures status != RETVAL_OK ==>
                queue == [] && status < 0 && last == LastFor(status, headerCRC)
    {
      hide Loaded, Tallies, NextBlock, ContentsOf, BlockReader.Built, Fits, StoredCrc, IsTable;
      ghost var p := source.bd.Position();
      ReadyStep(source.bd.inbuf, p, dbuf.Length, queue, last);
      writeCount, open, L := 0, false, [];
      ghost var out, next;
      status, headerCRC, dbufCount, origPtr, out, next := source.ReadBlock(byteCount, dbuf, p);
      if status != RETVAL_OK {
        LoadedEmpty(dbuf[..]);
        return;
      }
      LinkBlock(dbufCount, out);
      L := out;
      if dbufCount > 0 && origPtr >= dbufCount {
        return RETVAL_DATA_ERROR, dbufCount, origPtr;
      }
    }

    // The block's pointers.
    method LinkBlock(dbufCount: nat, ghost out: seq<byte>)
      requires byteCount.Length == 256 && dbufCount <= dbuf.Length && dbuf[..dbufCount] == out
               && Tallies(byteCount[..], out)
      modifies dbuf, byteCount
      ensures Loaded(dbuf[..], out)
    {
      hide Loaded, Pointers, WordsAt, BurrowsWheeler.Counts, Tallies;
      CumulateCounts(byteCount, out);
      LinkPointers(dbuf, dbufCount, byteCount, out);
      assert dbuf[..][..dbufCount] == dbuf[..dbufCount];
      LoadedNow(dbuf[..], byteCount[..], out);
    }

    // The first byte and the state in front of it.
    method StartWalk(dbufCount: nat, origPtr: nat)
      requires Loaded(dbuf[..], L) && dbufCount == |L| && (dbufCount > 0 ==> origPtr < dbufCount)
      modifies `writePos, `writeCurrent, `writeRunCountdown, `writeCount
      ensures writeCount == dbufCount
      ensures dbufCount > 0 ==> writePos == Next(L, origPtr) && writeCurrent == L[origPtr] && writeRunCountdown == 5
    {
      hide Loaded;
      if dbufCount > 0 {
        LoadedWord(dbuf[..], L, origPtr);
        writePos := dbuf[origPtr];
        writeCurrent := writePos % 256;
        writePos := writePos / 256;
        writeRunCountdown := 5;
      }
      writeCount := dbufCount;
    }

    // Follows the pointer to the next raw byte, which either is to be written or says how
    // many more copies of the previous byte are.
    method DecodeNextByte(pos: nat, previous: byte) returns (pos': nat, xcurrent: byte, phase: Phase)
      requires Valid() && writeCount > 0 && pos < |L| && writeCopies == 0
      modifies `writeCount, `writeRunCountdown, `writeCopies
      ensures Valid() && writeCount == old(writeCount) - 1
      ensures phase == Copy || (phase == Decode && writeCopies == 0)
      ensures pos' < |L| && (writeCount > 0 ==> writeRunCountdown > 0)
      ensures Now(phase, pos', xcurrent) == old(Now(Decode, pos, previous))
    {
      hide Pending, Loaded, Built, Onward, Fits, Ready, StatusOf;
      PendingStep(L, pos, writeCount, writeRunCountdown, previous);
      LoadedWord(dbuf[..], L, pos);
      writeCount := writeCount - 1;
      pos' := dbuf[pos];
      xcurrent := pos' % 256;
      pos' := pos' / 256;
      writeRunCountdown := writeRunCountdown - 1;
      phase := Copy;
      if writeRunCountdown > 0 {
        if xcurrent != previous {
          writeRunCountdown := 4;
        }
      } else {
        writeCopies := xcurrent;
        xcurrent := previous;
        writeRunCountdown := 5;
        if writeCopies == 0 {
          phase := Decode;
        } else {
          writeCopies := writeCopies - 1;
        }
      }
    }

    // Writes one copy of the current byte, adds it to the checksum, and counts off one of
    // those owed.
    method EmitByte(outbuf: array<byte>, gotcount: nat, pos: nat, xcurrent: byte) returns (phase: Phase)
      requires gotcount < outbuf.Length && Valid() && outbuf as object != dbuf
      requires writeCount >= 0 && (writeCount > 0 ==> pos < |L| && writeRunCountdown > 0)
      modifies outbuf, `writeCopies, `writeCRC
      ensures Valid() && outbuf[..gotcount + 1] == old(outbuf[..gotcount]) + [xcurrent]
      ensures if old(writeCopies) > 0 then phase == Copy && writeCopies == old(writeCopies) - 1
              else phase == Decode && writeCopies == 0
      ensures old(Now(Copy, pos, xcurrent)) == Following(xcurrent, Now(phase, pos, xcurrent))
    {
      hide Pending, Rest, Onward, IsTable, BlockReader.Built, TableStep, LookUpStep, Fits, Loaded, Ready;
      RestCopy(L, pos, writeCount, writeRunCountdown, xcurrent, writeCopies);
      ghost var register := writeCRC;
      outbuf[gotcount] := xcurrent;
      writeCRC := LookUpStep(crc32Table, writeCRC, xcurrent);
      if writeCopies > 0 {
        writeCopies := writeCopies - 1;
        phase := Copy;
      } else {
        phase := Decode;
      }
      OnwardByte(xcurrent, Rest(phase, L, pos, writeCount, writeRunCountdown, xcurrent, writeCopies), register,
                 headerCRC, queue, last, totalCRC);
    }

    // The end of a block: the checksums are compared, and combined.
    method EndBlock(ghost pos: nat, ghost xcurrent: byte) returns (right: bool)
      requires Valid() && writeCount == 0 == writeCopies
      modifies `writeCount, `writeCRC, `totalCRC
      ensures Valid() && writeCount == -1
      ensures old(Now(Decode, pos, xcurrent))
                == if right then Now(Fetch, pos, xcurrent) else Future([], Failed(RETVAL_LAST_BLOCK))
      ensures !right ==> Settled(Failed(RETVAL_LAST_BLOCK))
    {
      hide Onward, Ahead, Combined, Not, Fits, Loaded, Built, Ready;
      RestEnd(L, pos, writeRunCountdown, xcurrent);
      OnwardNothing(writeCRC, headerCRC, queue, last, totalCRC);
      writeCount := -1;
      writeCRC := Not(writeCRC);
      totalCRC := Combined(totalCRC, writeCRC);
      if writeCRC != headerCRC {
        totalCRC := PlusOne(headerCRC);
        return false;
      }
      return true;
    }

    // Goes on where the last call has stopped.
    method Resume() returns (phase: Phase)
      requires Valid() && Paused() && writeCount >= 0
      modifies `writeCopies
      ensures Valid() && open && (phase == Fetch || phase == Copy) && (phase != Copy ==> writeCopies == 0)
      ensures phase != Fetch && writeCount > 0 ==> writePos < |L| && writeRunCountdown > 0
      ensures Now(phase, writePos, writeCurrent) == old(Coming())
    {
      hide Loaded, Rest, Fits, Ready, Built, Onward, Ahead;
      phase := Fetch;
      if writeCopies > 0 {
        writeCopies := writeCopies - 1;
        phase := Copy;
      }
    }

    // The status that all further calls give.
    method Stop(status: int, ghost end: End)
      requires Valid() && status == StatusOf(end) < 0 && Tells(end)
      modifies `writeCount
      ensures Valid() && writeCount == status && Settled(end)
    {
      hide Loaded, Fits, Ready, Built;
      writeCount := status;
    }

    // Keeps the place of a byte that is still to be written.
    method Pause(pos: nat, xcurrent: byte)
      requires Valid() && open && writeCount >= 0 && (writeCount > 0 ==> pos < |L|)
      modifies `writePos, `writeCurrent, `writeCopies
      ensures Valid() && Paused() && writeCopies > 0 && Coming() == old(Now(Copy, pos, xcurrent)) && Coming().out != []
    {
      hide Loaded, Rest, Fits, Ready, Built, Onward;
      writePos := pos;
      writeCurrent := xcurrent;
      writeCopies := writeCopies + 1;
      MoreToCome(L, pos, writeCount, writeRunCountdown, xcurrent, writeCopies - 1, writeCRC, headerCRC, queue, last,
                 totalCRC);
    }

    // Writes up to len bytes of what remains. The phase says where the original's jumps
    // have led: to writing xcurrent, to decoding the next byte, or to the next block.
    method Read(outbuf: array<byte>, len: nat) returns (r: int)
      requires Valid() && Paused()
      requires len <= outbuf.Length && outbuf !in source.parts && outbuf as object != dbuf
               && outbuf as object != byteCount
      modifies this, source.parts, dbuf, byteCount, outbuf
      ensures Valid() && Paused()
      ensures r <= len
      ensures old(writeCount) < 0 ==>
                r == old(writeCount) == writeCount && headerCRC == old(headerCRC) && totalCRC == old(totalCRC)
      ensures old(writeCount) >= 0 ==>
                var f := old(Coming());
                && Delivered(f.out, f.end, len, r, if r >= 0 then outbuf[..r] else [])
                && if |f.out| > len then writeCount >= 0 && f == Future(outbuf[..len] + Coming().out, Coming().end)
                   else writeCount < 0 && Settled(f.end)
    {
      hide Pending, Loaded, Rest, Splits, Delivered, Fits, Usable, Ready, Built, Onward, Ahead, Now, Coming, Valid,
        Settled, Tells;
      if writeCount < 0 {
        return writeCount;
      }
      ghost var full, end := Coming().out, Coming().end;
      var gotcount: nat := 0;
      var pos: nat, xcurrent: byte := writePos, writeCurrent;
      var phase := Resume();
      ghost var out, rest := [], full;
      SplitsStart(full);
      while true
        invariant Valid() && open && gotcount <= len && outbuf[..gotcount] == out
        invariant phase != Copy ==> writeCopies == 0
        invariant phase != Fetch ==> writeCount >= 0 && (writeCount > 0 ==> pos < |L| && writeRunCountdown > 0)
        invariant Splits(full, out, rest)
        invariant Future(rest, end) == Now(phase, pos, xcurrent)
        decreases |queue|, phase != Fetch, if writeCount > 0 then writeCount else 0, writeCopies, phase == Copy
      {
        match phase
        case Copy =>
          if gotcount >= len {
            Pause(pos, xcurrent);
            DeliveredSome(full, end, out, rest);
            SplitsIs(full, out, rest);
            return len;
          }
          phase := EmitByte(outbuf, gotcount, pos, xcurrent);
          gotcount := gotcount + 1;
          rest := Now(phase, pos, xcurrent).out;
          SplitsOneOn(full, out, xcurrent, rest);
          out := out + [xcurrent];
        case Decode =>
          if writeCount == 0 {
            phase := Fetch;
            var right := EndBlock(pos, xcurrent);
            if !right {
              DeliveredAll(full, end, len, out);
              return RETVAL_LAST_BLOCK;
            }
          } else {
            pos, xcurrent, phase := DecodeNextByte(pos, xcurrent);
          }
        case Fetch =>
          var previous := GetNextBlock(pos, xcurrent);
          if previous != 0 {
            Stop(previous, end);
            DeliveredAll(full, end, len, out);
            return if previous != RETVAL_LAST_BLOCK then previous else gotcount;
          }
          pos := writePos;
          xcurrent := writeCurrent;
          phase := Decode;
      }
    }
  }

  lemma MoreToCome(L: seq<byte>, pos: nat, count: nat, countdown: nat, current: byte, copies: nat, register: Word,
                   crc: Word, queue: seq<Block>, last: Last, total: Word)
    requires count > 0 ==> pos < |L| && countdown > 0
    ensures Onward(Rest(Copy, L, pos, count, countdown, current, copies), register, crc, queue, last, total).out != []
  {
    hide Pending, Matches, Ahead;
    RestCopy(L, pos, count, countdown, current, copies);
  }

  lemma SplitsIs(full: seq<byte>, out: seq<byte>, rest: seq<byte>)
    requires Splits(full, out, rest)
    ensures full == out + rest
  {
  }

  // The number of bytes asked for.
  function Sum(lens: seq<nat>): nat
  {
    if lens == [] then 0 else lens[0] + Sum(lens[1..])
  }

  // The caller's loop, with a buffer of its own size at every call: it stops at the first
  // call that yields nothing.
  method Drain(bd: Bunzip, lens: seq<nat>) returns (out: seq<byte>)
    requires bd.Valid() && bd.Paused() && bd.writeCount >= 0
    requires forall i :: 0 <= i < |lens| ==> lens[i] > 0
    modifies bd, bd.source.parts, bd.dbuf, bd.byteCount
    ensures out <= old(bd.Coming().out)
    ensures old(bd.Coming().end).Complete? ==>
              |out| == if Sum(lens) < |old(bd.Coming().out)| then Sum(lens) else |old(bd.Coming().out)|
  {
    hide Pending, Rest, Loaded, Ahead, Usable, Fits, Ready, BlockReader.Built, Onward, IsTable, Bunzip.Coming,
      Bunzip.Valid, Bunzip.Paused;
    ghost var full, end := bd.Coming().out, bd.Coming().end;
    out := [];
    var i := 0;
    while i < |lens|
      invariant 0 <= i <= |lens|
      invariant bd.Valid() && bd.Paused()
      invariant if bd.writeCount >= 0
                then Splits(full, out, bd.Coming().out) && bd.Coming().end == end && |out| + Sum(lens[i..]) == Sum(lens)
                else out <= full && (end.Complete? ==> out == full && |out| <= Sum(lens))
    {
      var outbuf := new byte[lens[i]];
      ghost var rest := if bd.writeCount >= 0 then bd.Coming().out else [];
      assert lens[i..][1..] == lens[i + 1..];
      var r := bd.Read(outbuf, lens[i]);
      if r <= 0 {
        return;
      }
      SplitsOn(full, out, outbuf[..r], rest);
      out := out + outbuf[..r];
      i := i + 1;
    }
  }

  lemma SplitsOn(full: seq<byte>, out: seq<byte>, more: seq<byte>, rest: seq<byte>)
    requires Splits(full, out, rest) && more <= rest
    ensures Splits(full, out + more, rest[|more|..]) && out + more <= full && (more == rest ==> out + more == full)
    ensures |full| == |out| + |rest|
  {
  }

  // ----- a whole file -----

  // A file starts with "BZh" and a digit that is not zero, which gives the buffer's size.
  function LevelOf(input: seq<byte>): nat
  {
    if |input| >= 4 && BZH0 < Field(input, 0, 32) <= BZH0 + 9 then Field(input, 0, 32) - BZH0 else 0
  }

  const BZH0 := 0x425A6830

  // What the file is, if it is one and its bits are all there.
  function FileOf(input: seq<byte>): Contents
  {
    if LevelOf(input) == 0 then NoContents else ContentsOf(input, 32, 100000 * LevelOf(input))
  }

  // All the bytes of a file, and how it ends.
  function MeaningOf(c: Contents): (f: Future)
    requires c.Contents?
    ensures (c.last.Broken? ==> c.last.status < 0) ==> StatusOf(f.end) < 0
  {
    Ahead(c.blocks, c.last, ZERO)
  }

  method StartBunzip(input: seq<byte>) returns (status: int, bd: Bunzip?)
    ensures status == if LevelOf(input) == 0 then RETVAL_NOT_BZIP_DATA else RETVAL_OK
    ensures bd == null <==> status != RETVAL_OK
    ensures bd != null ==>
              && fresh(bd) && fresh(bd.source.parts) && fresh(bd.dbuf) && fresh(bd.byteCount)
              && bd.Valid() && bd.writeCount == 0 == bd.writeCopies
              && bd.dbuf.Length == 100000 * LevelOf(input)
              && (FileOf(input).Contents? ==> bd.Paused() && bd.Coming() == MeaningOf(FileOf(input)))
  {
    hide Field, ContentsOf, Pow2, Ahead, BlockReader.Built, Loaded, Ready, Fits, Onward, IsTable;
    var reader := new Reader(input);
    var i := reader.GetBits(32);
    if i <= BZH0 || i > BZH0 + 9 {
      return RETVAL_NOT_BZIP_DATA, null;
    }
    bd := new Bunzip(reader, 100000 * (i - BZH0));
    status := RETVAL_OK;
  }

  // Decompresses a file, a buffer's length at a time. It succeeds exactly when the file ends
  // with its mark, all blocks are intact, and so is the file's own checksum or there are no
  // bytes: the last is looked at only after some bytes have come.
  method Bunzip2(input: seq<byte>) returns (status: int, out: seq<byte>)
    requires LevelOf(input) > 0 ==> FileOf(input).Contents?
    ensures LevelOf(input) == 0 ==> status == RETVAL_NOT_BZIP_DATA && out == []
    ensures LevelOf(input) > 0 ==>
              var f := MeaningOf(FileOf(input));
              && out <= f.out && (f.end.Complete? ==> out == f.out)
              && (status == RETVAL_OK <==> f.end.Complete? && (f.end.intact || f.out == []))
              && (status != RETVAL_OK ==> status == StatusOf(f.end))
  {
    hide Pending, Rest, Loaded, Ahead, Usable, Fits, Ready, BlockReader.Built, FileOf, LevelOf, MeaningOf, Onward,
      IsTable, Splits;
    out := [];
    var bd;
    status, bd := StartBunzip(input);
    if bd == null {
      return;
    }
    ghost var full, end := bd.Coming().out, bd.Coming().end;
    SplitsStart(full);
    while true
      invariant bd.Valid() && bd.Paused() && fresh(bd.source.parts) && fresh(bd.dbuf) && fresh(bd.byteCount)
      invariant if bd.writeCount >= 0
                then && Splits(full, out, bd.Coming().out) && bd.Coming().end == end
                     && (out == [] || bd.Coming().out != [])
                else out <= full && out != [] && bd.Settled(end) && (end.Complete? ==> out == full)
      decreases |full| - |out|, bd.writeCount >= 0
    {
      var outbuf := new byte[4096];
      ghost var rest := if bd.writeCount >= 0 then bd.Coming().out else [];
      ghost var going := bd.writeCount >= 0;
      status := bd.Read(outbuf, 4096);
      if status <= 0 {
        if going {
          SplitsOn(full, out, [], rest);
          assert out + [] == out;
        }
        break;
      }
      SplitsOn(full, out, outbuf[..status], rest);
      out := out + outbuf[..status];
    }
    if status == RETVAL_LAST_BLOCK && bd.headerCRC == bd.totalCRC {
      status := RETVAL_OK;
    }
  }
}
