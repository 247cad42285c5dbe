// A bzip2 file, as specified: its bits are a list of blocks and the status that ends it.
module BunzipStream {
  import opened Bytes
  import opened BunzipStatus
  import opened Huffman
  import opened BunzipHeader
  import opened MoveToFront
  import B = BunzipBlock
  import R = BunzipRuns

  lemma StepFits(alphabet: seq<byte>, used: nat, dbufSize: nat, s: State, x: nat)
    requires |alphabet| == 256 == |s.list| && used <= 256 && |s.out| <= dbufSize
    ensures match Step(alphabet, used, dbufSize, s, x)
            case Done(out) => |out| <= dbufSize
            case More(s') => |s'.out| <= dbufSize && |s'.list| == 256
            case Bad => true
            case Overrun => true
  {
    hide ToFront;
  }

  // A block that is read fits in the buffer, and has some bits.
  lemma {:induction false} DataFits(h: B.Header, input: seq<byte>, p: nat, k: nat, s: State)
    requires B.Usable(h) && |s.list| == 256 && |s.out| <= h.dbufSize
    ensures var r := B.ReadFrom(h, input, p, k, s);
            r.Decoded? ==> |r.out| <= h.dbufSize && p < r.next <= 8 * |input|
    decreases if p <= 8 * |input| then 8 * |input| - p else 0
  {
    hide Step, ReadSymbol;
    if k / B.GROUP_SIZE < |h.selectors| && p + MaxLen(B.TableFor(h, k)) <= 8 * |input| {
      var d := ReadSymbol(B.TableFor(h, k), input, p);
      if d.Symbol? {
        StepFits(h.alphabet, h.used, h.dbufSize, s, d.symbol);
        var o := Step(h.alphabet, h.used, h.dbufSize, s, d.symbol);
        if o.More? {
          DataFits(h, input, p + d.length, k + 1, o.state);
        }
      }
    }
  }

  // The next block from bit position p on.
  function NextBlock(input: seq<byte>, p: nat, dbufSize: nat): (r: Parse<R.Block>)
    ensures r.Got? ==> R.Usable(r.value) && |r.value.L| <= dbufSize && p < r.next <= 8 * |input|
    ensures r.Refused? ==> r.status < 0
  {
    var ((h, origPtr), q) :- HeaderOf(input, p, dbufSize);
    DataFits(h, input, q, 0, B.Start());
    match B.ReadFrom(h, input, q, 0, B.Start())
    case InputEnds => Undefined
    case OutsideBuffer => Undefined
    case Malformed => Refused(RETVAL_DATA_ERROR)
    case Decoded(L, next) =>
      if L != [] && origPtr >= |L| then Refused(RETVAL_DATA_ERROR)
      else Got(R.Block(L, origPtr, StoredCrc(input, p)), next)
  }

  // The blocks and what ends them, if the bits define both.
  datatype Contents = Contents(blocks: seq<R.Block>, last: R.Last) | NoContents

  function ContentsOf(input: seq<byte>, p: nat, dbufSize: nat): (r: Contents)
    ensures r.Contents? ==> R.Fits(r.blocks, dbufSize) && forall b :: b in r.blocks ==> R.Usable(b)
    ensures r.Contents? && r.last.Broken? ==> r.last.status < 0
    decreases if p <= 8 * |input| then 8 * |input| - p else 0
  {
    hide NextBlock, StoredCrc, R.Usable;
    match NextBlock(input, p, dbufSize)
    case Undefined => NoContents
    case Refused(status) => Contents([], R.LastFor(status, StoredCrc(input, p)))
    case Got(b, next) =>
      var rest := ContentsOf(input, next, dbufSize);
      if rest.Contents? then Contents([b] + rest.blocks, rest.last) else NoContents
  }
}
