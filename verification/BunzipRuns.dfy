// The output of bzip2 blocks, as specified: the walk along the pointers and the expansion of
// runs of four equal bytes plus a count, and what is still to come in the middle of it.
module BunzipRuns {
  import opened Bytes
  import opened BunzipStatus
  import opened BurrowsWheeler
  import opened Words
  import opened BunzipCrc

  // ----- the expansion of runs, as specified -----

  // countdown says how many more equal bytes make the next byte a repeat count;
  // current is the byte before raw.
  function Expand(raw: seq<byte>, countdown: nat, current: byte): (out: seq<byte>)
    requires countdown > 0
  {
    if raw == [] then []
    else if countdown > 1 then
      [raw[0]] + Expand(raw[1..], if raw[0] != current then 4 else countdown - 1, raw[0])
    else
      Repeat(current, raw[0]) + Expand(raw[1..], 5, current)
  }

  // The number of leading bytes equal to the first one, up to 255 + 4.
  function LeadingRun(s: seq<byte>, x: byte, limit: nat): (n: nat)
    ensures n <= |s| && n <= limit
    ensures forall i :: 0 <= i < n ==> s[i] == x
    ensures n == limit || n == |s| || s[n] != x
    ensures n > 0 || limit == 0 || s == [] || s[0] != x
  {
    if limit == 0 || s == [] || s[0] != x then 0 else 1 + LeadingRun(s[1..], x, limit - 1)
  }

  // One run of n bytes, encoded: four or more equal bytes become four of them and a
  // count of the rest.
  function EncodedRun(s: seq<byte>, n: nat): seq<byte>
    requires 0 < n <= |s| && n <= 259
  {
    if n < 4 then s[..n] else Repeat(s[0], 4) + [n - 4]
  }

  // The encoder.
  function RunEncode(s: seq<byte>): seq<byte>
    decreases |s|
  {
    if s == [] then []
    else
      var n := LeadingRun(s, s[0], 259);
      EncodedRun(s, n) + RunEncode(s[n..])
  }

  // Up to three equal bytes stand for themselves, up to 259 are four and a count.
  lemma EqualBytes(s: seq<byte>, x: byte)
    requires 0 < |s| <= 259 && forall i :: 0 <= i < |s| ==> s[i] == x
    ensures RunEncode(s) == if |s| < 4 then s else s[..4] + [|s| - 4]
  {
    hide RunEncode, LeadingRun, Repeat;
    OneRun(s);
    if |s| >= 4 {
      RepeatAt<int>(s[0], 4);
      assert RunEncode(s)[..4] == s[..4];
    } else {
      assert s[..|s|] == s;
    }
  }

  lemma OneRun(s: seq<byte>)
    requires 0 < |s| <= 259 && forall i :: 0 <= i < |s| ==> s[i] == s[0]
    ensures RunEncode(s) == EncodedRun(s, |s|)
  {
    hide EncodedRun, LeadingRun;
    assert LeadingRun(s, s[0], 259) == |s|;
    assert s[|s|..] == [];
  }

  lemma ExpandByte(x: byte, rest: seq<byte>, countdown: nat, current: byte)
    requires countdown > 1
    ensures Expand([x] + rest, countdown, current)
         == [x] + Expand(rest, if x != current then 4 else countdown - 1, x)
  {
    assert ([x] + rest)[1..] == rest;
  }

  lemma ExpandCount(x: byte, rest: seq<byte>, current: byte)
    ensures Expand([x] + rest, 1, current) == Repeat(current, x) + Expand(rest, 5, current)
  {
    assert ([x] + rest)[1..] == rest;
  }

  // Up to four equal bytes are copied, and lower the countdown.
  lemma {:induction false} ExpandMore(x: byte, n: nat, rest: seq<byte>, countdown: nat)
    requires n < countdown
    ensures Expand(Repeat(x, n) + rest, countdown, x) == Repeat(x, n) + Expand(rest, countdown - n, x)
  {
    if n == 0 {
      assert Repeat(x, 0) + rest == rest;
    } else {
      var more, tail := Repeat(x, n - 1), Expand(rest, countdown - n, x);
      Regroup([x], more, rest);
      ExpandByte(x, more + rest, countdown, x);
      ExpandMore(x, n - 1, rest, countdown - 1);
      Regroup([x], more, tail);
    }
  }

  // When no run is open, a run of up to four equal bytes leaves the countdown at 5 less
  // its length.
  lemma ExpandRun(x: byte, n: nat, rest: seq<byte>, countdown: nat, current: byte)
    requires 1 <= n <= 4 && 2 <= countdown <= 5 && (x == current ==> countdown == 5)
    ensures Expand(Repeat(x, n) + rest, countdown, current) == Repeat(x, n) + Expand(rest, 5 - n, x)
  {
    var more, tail := Repeat(x, n - 1), Expand(rest, 5 - n, x);
    Regroup([x], more, rest);
    ExpandByte(x, more + rest, countdown, current);
    ExpandMore(x, n - 1, rest, 4);
    Regroup([x], more, tail);
  }

  // A longer run is four bytes and a count, and leaves no run open.
  lemma ExpandLongRun(x: byte, n: nat, rest: seq<byte>, countdown: nat, current: byte)
    requires 4 <= n <= 259 && 2 <= countdown <= 5 && (x == current ==> countdown == 5)
    ensures Expand(Repeat(x, 4) + [n - 4] + rest, countdown, current) == Repeat(x, n) + Expand(rest, 5, x)
  {
    var c: byte := n - 4;
    var tail := Expand(rest, 5, x);
    Regroup(Repeat(x, 4), [c], rest);
    ExpandRun(x, 4, [c] + rest, countdown, current);
    ExpandCount(c, rest, x);
    RepeatSplit(x, 4, n - 4);
    Regroup(Repeat(x, 4), Repeat(x, n - 4), tail);
  }

  // One run of the encoder, expanded.
  lemma ExpandEncodedRun(s: seq<byte>, n: nat, rest: seq<byte>, countdown: nat, current: byte)
    requires s != [] && n == LeadingRun(s, s[0], 259) > 0
    requires 2 <= countdown <= 5 && (s[0] == current ==> countdown == 5)
    ensures Expand(EncodedRun(s, n) + rest, countdown, current)
         == s[..n] + Expand(rest, if n < 4 then 5 - n else 5, s[0])
  {
    RepeatAll(s[0], s[..n]);
    if n < 4 {
      ExpandRun(s[0], n, rest, countdown, current);
    } else {
      ExpandLongRun(s[0], n, rest, countdown, current);
    }
  }

  // The first run of a text, expanded, and the state it leaves.
  lemma FirstRun(s: seq<byte>, countdown: nat, current: byte) returns (n: nat, left: nat)
    requires s != [] && 2 <= countdown <= 5 && (s[0] == current ==> countdown == 5)
    ensures 0 < n <= |s| && 2 <= left <= 5 && (n < |s| && s[n] == s[0] ==> left == 5)
    ensures Expand(RunEncode(s), countdown, current) == s[..n] + Expand(RunEncode(s[n..]), left, s[0])
  {
    hide Expand, EncodedRun, LeadingRun;
    n := LeadingRun(s, s[0], 259);
    left := if n < 4 then 5 - n else 5;
    ExpandEncodedRun(s, n, RunEncode(s[n..]), countdown, current);
  }

  // Expanding undoes the run encoding, from any state in which no run is open.
  lemma {:induction false} ExpandUndoesRunEncode(s: seq<byte>, countdown: nat, current: byte)
    requires 2 <= countdown <= 5 && (s != [] && s[0] == current ==> countdown == 5)
    ensures Expand(RunEncode(s), countdown, current) == s
    decreases |s|
  {
    if s != [] {
      hide Expand, RunEncode;
      var n, left := FirstRun(s, countdown, current);
      ExpandUndoesRunEncode(s[n..], left, s[0]);
      assert s == s[..n] + s[n..];
    }
  }

  // ----- a stream of decoded blocks -----

  // What the Huffman stage leaves for one block: the transformed bytes and the row number,
  // and the checksum that is stored with it.
  datatype Block = Block(L: seq<byte>, origPtr: nat, crc: Word)

  predicate Usable(b: Block)
  {
    b.L == [] || b.origPtr < |b.L|
  }

  // All the bytes of one block.
  function BlockOutput(b: Block): seq<byte>
    requires Usable(b)
  {
    if b.L == [] then []
    else Expand(Walk(b.L, Next(b.L, b.origPtr), |b.L|), 5, b.L[b.origPtr])
  }

  // Every block fits in the decoder's buffer.
  predicate Fits(blocks: seq<Block>, dbufSize: nat)
  {
    forall b :: b in blocks ==> |b.L| <= dbufSize
  }

  // A block made from any text decodes to that text.
  lemma BlockRoundTrip(s: seq<byte>, rows: seq<seq<byte>>, b: Block)
    requires s != [] && Transforms(RunEncode(s), rows, b.L, b.origPtr)
    ensures Usable(b) && BlockOutput(b) == s
  {
    InverseTransform(RunEncode(s), rows, b.L, b.origPtr);
    ExpandUndoesRunEncode(s, 5, b.L[b.origPtr]);
  }

  // The bytes take the register from there to the stored checksum.
  predicate Matches(register: Word, bytes: seq<byte>, crc: Word)
  {
    Not(CrcFrom(register, bytes)) == crc
  }

  // The block's bytes have the checksum that is stored with it.
  predicate Intact(b: Block)
    requires Usable(b)
  {
    Matches(ALL, BlockOutput(b), b.crc)
  }

  // All the bytes of the stream, up to its end or its first block that is unusable or the
  // end of its first block that is not intact.
  function StreamOutput(blocks: seq<Block>): seq<byte>
  {
    if blocks == [] || !Usable(blocks[0]) then []
    else BlockOutput(blocks[0]) + if Intact(blocks[0]) then StreamOutput(blocks[1..]) else []
  }

  // What stands behind the blocks: the mark that ends a file, with a checksum, or something
  // that is no block.
  datatype Last = Mark(crc: Word) | Broken(status: int)

  // What a status instead of a block means, where crc is the checksum there.
  function LastFor(status: int, crc: Word): Last
  {
    if status == RETVAL_LAST_BLOCK then Mark(crc) else Broken(status)
  }

  // How a stream ends: with the mark, and the file's checksum right or wrong, or else.
  datatype End = Complete(intact: bool) | Failed(status: int)

  function StatusOf(end: End): int
  {
    if end.Complete? then RETVAL_LAST_BLOCK else end.status
  }

  function Closing(last: Last, total: Word): End
  {
    match last
    case Mark(crc) => Complete(crc == total)
    case Broken(status) => Failed(status)
  }

  // The end of a stream, where total combines the checksums of the blocks before.
  function StreamEnd(blocks: seq<Block>, last: Last, total: Word): (end: End)
    ensures (last.Broken? ==> last.status < 0) ==> StatusOf(end) < 0
  {
    if blocks == [] then Closing(last, total)
    else if !Usable(blocks[0]) then Failed(RETVAL_DATA_ERROR)
    else if !Intact(blocks[0]) then Failed(RETVAL_LAST_BLOCK)
    else StreamEnd(blocks[1..], last, Combined(total, blocks[0].crc))
  }

  // What is still to come, and how it ends.
  datatype Future = Future(out: seq<byte>, end: End)

  // Between blocks,
  function Ahead(queue: seq<Block>, last: Last, total: Word): (f: Future)
    ensures (last.Broken? ==> last.status < 0) ==> StatusOf(f.end) < 0
  {
    Future(StreamOutput(queue), StreamEnd(queue, last, total))
  }

  // and in the middle of a block, when these bytes of it are, with the register, and the
  // stored checksum crc.
  function Onward(bytes: seq<byte>, register: Word, crc: Word, queue: seq<Block>, last: Last, total: Word): (f: Future)
    ensures (last.Broken? ==> last.status < 0) ==> StatusOf(f.end) < 0
  {
    if Matches(register, bytes, crc) then
      var f := Ahead(queue, last, Combined(total, crc));
      Future(bytes + f.out, f.end)
    else Future(bytes, Failed(RETVAL_LAST_BLOCK))
  }

  function Following(x: byte, f: Future): Future
  {
    Future([x] + f.out, f.end)
  }

  lemma OnwardByte(x: byte, bytes: seq<byte>, register: Word, crc: Word, queue: seq<Block>, last: Last, total: Word)
    ensures Onward([x] + bytes, register, crc, queue, last, total)
         == Following(x, Onward(bytes, TableStep(register, x), crc, queue, last, total))
  {
    hide Ahead, TableStep, CrcByte, Not, Combined;
    TableStepIs(register, x);
    assert ([x] + bytes)[1..] == bytes;
    Regroup([x], bytes, Ahead(queue, last, Combined(total, crc)).out);
  }

  lemma OnwardNothing(register: Word, crc: Word, queue: seq<Block>, last: Last, total: Word)
    ensures Onward([], register, crc, queue, last, total)
         == if Not(register) == crc then Ahead(queue, last, Combined(total, crc))
         else Future([], Failed(RETVAL_LAST_BLOCK))
  {
    hide Ahead, Not, Combined;
    var f := Ahead(queue, last, Combined(total, crc));
    assert [] + f.out == f.out;
  }

  lemma AheadNothing(last: Last, total: Word)
    ensures Ahead([], last, total) == Future([], Closing(last, total))
  {
  }

  // ----- the resumable output loop -----

  // What is still to come from the current block: the copies owed of the current byte,
  // then count more bytes along the pointers from pos.
  function Pending(L: seq<byte>, pos: nat, count: nat, countdown: nat, current: byte, copies: nat): seq<byte>
    requires count > 0 ==> pos < |L| && countdown > 0
  {
    Repeat(current, copies) + if count == 0 then [] else Expand(Walk(L, pos, count), countdown, current)
  }

  // Taking one raw byte from the walk: either the byte itself is next, or it is a count.
  lemma PendingStep(L: seq<byte>, pos: nat, count: nat, countdown: nat, current: byte)
    requires count > 0 && pos < |L| && countdown > 0
    ensures Pending(L, pos, count, countdown, current, 0)
         == if countdown > 1
            then Pending(L, Next(L, pos), count - 1, if L[pos] != current then 4 else countdown - 1, L[pos], 1)
            else Pending(L, Next(L, pos), count - 1, 5, current, L[pos])
  {
    var x := L[pos];
    var rest := Walk(L, Next(L, pos), count - 1);
    if countdown > 1 {
      ExpandByte(x, rest, countdown, current);
    } else {
      ExpandCount(x, rest, current);
    }
  }

  lemma PendingCopy(L: seq<byte>, pos: nat, count: nat, countdown: nat, current: byte, copies: nat)
    requires count > 0 ==> pos < |L| && countdown > 0
    requires copies > 0
    ensures Pending(L, pos, count, countdown, current, copies)
         == [current] + Pending(L, pos, count, countdown, current, copies - 1)
  {
    Regroup([current], Repeat(current, copies - 1),
            if count == 0 then [] else Expand(Walk(L, pos, count), countdown, current));
  }

  datatype Phase = Copy | Decode | Fetch

  // What is still to come from the block, seen from inside the output loop.
  function Rest(phase: Phase, L: seq<byte>, pos: nat, count: nat, countdown: nat, current: byte, copies: nat): seq<byte>
    requires phase != Fetch && count > 0 ==> pos < |L| && countdown > 0
  {
    if phase == Fetch then [] else Pending(L, pos, count, countdown, current, copies + if phase == Copy then 1 else 0)
  }

  lemma RestCopy(L: seq<byte>, pos: nat, count: nat, countdown: nat, current: byte, copies: nat)
    requires count > 0 ==> pos < |L| && countdown > 0
    ensures Rest(Copy, L, pos, count, countdown, current, copies)
         == [current] + if copies > 0 then Rest(Copy, L, pos, count, countdown, current, copies - 1)
                        else Rest(Decode, L, pos, count, countdown, current, 0)
  {
    PendingCopy(L, pos, count, countdown, current, copies + 1);
  }

  lemma RestEnd(L: seq<byte>, pos: nat, countdown: nat, current: byte)
    ensures Rest(Decode, L, pos, 0, countdown, current, 0) == []
  {
  }

  lemma RestStart(queue: seq<Block>, pos: nat, countdown: nat, current: byte, last: Last, total: Word)
    requires queue != [] && Usable(queue[0])
    requires queue[0].L != [] ==> pos == Next(queue[0].L, queue[0].origPtr) && countdown == 5
                                  && current == queue[0].L[queue[0].origPtr]
    ensures Onward(Rest(Decode, queue[0].L, pos, |queue[0].L|, countdown, current, 0), ALL, queue[0].crc, queue[1..],
                   last, total)
         == Ahead(queue, last, total)
  {
    hide Matches, Combined;
    assert Rest(Decode, queue[0].L, pos, |queue[0].L|, countdown, current, 0) == BlockOutput(queue[0]);
    assert StreamOutput(queue) == BlockOutput(queue[0]) + if Intact(queue[0]) then StreamOutput(queue[1..]) else [];
  }

  // What has been written and what is still to come make up the whole output.
  predicate Splits(full: seq<byte>, out: seq<byte>, rest: seq<byte>)
  {
    full == out + rest
  }

  lemma SplitsStart(full: seq<byte>)
    ensures Splits(full, [], full)
  {
  }

  lemma SplitsOneOn(full: seq<byte>, out: seq<byte>, x: byte, rest: seq<byte>)
    requires Splits(full, out, [x] + rest)
    ensures Splits(full, out + [x], rest) && |full| > |out|
  {
  }

  // What a call that had full still to deliver, ending in end, promises: r bytes are in out.
  predicate Delivered(full: seq<byte>, end: End, len: nat, r: int, out: seq<byte>)
  {
    if |full| > len then r == len && out == full[..len]
    else if end.Complete? then r == |full| && out == full
    else r == end.status
  }

  lemma DeliveredSome(full: seq<byte>, end: End, out: seq<byte>, rest: seq<byte>)
    requires Splits(full, out, rest) && rest != []
    ensures Delivered(full, end, |out|, |out|, out) && |full| > |out|
  {
  }

  lemma DeliveredAll(full: seq<byte>, end: End, len: nat, out: seq<byte>)
    requires Splits(full, out, []) && |out| <= len
    ensures |full| == |out|
    ensures Delivered(full, end, len, if end.Complete? then |out| else end.status, if end.Complete? then out else [])
    ensures end.Failed? ==> forall written :: Delivered(full, end, len, end.status, written)
  {
  }
}
