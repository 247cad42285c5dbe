// The input side of the bzip2 decoder: what it needs besides the block's buffer to read one
// block after the other from the bits.
module BunzipInput {
  import opened Bytes
  import opened BunzipStatus
  import opened CountingSort
  import opened BitReader
  import opened Huffman
  import opened BunzipHeader
  import opened BunzipStream
  import opened Words
  import B = BunzipBlock
  import R = BunzipRuns

  class BlockReader {
    const bd: Reader
    const groups: seq<HufGroup>
    const symToByte: array<byte>
    const mtfSymbol: array<byte>
    ghost const tables: set<object>
    ghost const parts: set<object>

    // The parts have their sizes and share nothing.
    ghost predicate Built()
    {
      && |groups| == MAX_GROUPS && Separate(groups) && Within(groups, tables)
      && symToByte.Length == 256 == mtfSymbol.Length && symToByte != mtfSymbol
      && bd !in tables && symToByte !in tables && mtfSymbol !in tables
      && parts == {bd, symToByte, mtfSymbol} + tables
    }

    constructor (bd: Reader)
      ensures Built() && this.bd == bd && fresh(parts - {bd})
    {
      this.bd := bd;
      var six;
      ghost var parts0;
      six, parts0 := NewGroups();
      groups, tables := six, parts0;
      var names := new byte[256];
      var list := new byte[256];
      symToByte, mtfSymbol := names, list;
      parts := {bd, names, list} + parts0;
    }

    // Reads the header and the data of the next block.
    method ReadBlock(byteCount: array<int>, dbuf: array<nat>, ghost p: nat)
      returns (status: int, headerCRC: Word, dbufCount: nat, origPtr: nat, ghost out: seq<byte>, ghost next: nat)
      requires Built() && byteCount.Length == 256 && dbuf !in parts && byteCount !in parts
      requires bd.At(p) && !NextBlock(bd.inbuf, p, dbuf.Length).Undefined?
      modifies parts, byteCount, dbuf
      ensures dbufCount <= dbuf.Length && headerCRC == StoredCrc(bd.inbuf, p)
      ensures status == RETVAL_OK ==>
                && dbuf[..dbufCount] == out && Tallies(byteCount[..], out) && bd.At(next)
                && NextBlock(bd.inbuf, p, dbuf.Length)
                   == if out != [] && origPtr >= |out| then Refused(RETVAL_DATA_ERROR)
                      else Got(R.Block(out, origPtr, headerCRC), next)
      ensures status != RETVAL_OK ==> NextBlock(bd.inbuf, p, dbuf.Length) == Refused(status)
    {
      hide StoredCrc, HeaderOf, B.ReadFrom, Separate, Within, B.GroupsFor, B.Names, Tallies, B.Usable;
      GroupsElsewhere(groups, tables, byteCount, dbuf);
      var h;
      dbufCount, out := 0, [];
      status, headerCRC, h, origPtr, next := ReadHeader(bd, groups, mtfSymbol, symToByte, dbuf.Length, p, tables);
      if status != RETVAL_OK {
        return;
      }
      var outside;
      status, outside, dbufCount, out := B.DecodeData(bd, h, groups, symToByte, mtfSymbol, byteCount, dbuf);
      if status == RETVAL_OK {
        next := bd.Position();
      }
    }
  }

  lemma GroupsElsewhere(groups: seq<HufGroup>, parts: set<object>, byteCount: array<int>, dbuf: array<nat>)
    requires Within(groups, parts) && byteCount !in parts && dbuf !in parts
    ensures forall g :: g in groups ==> g.limit != byteCount && g.base != byteCount && g.permute != dbuf
  {
  }
}
