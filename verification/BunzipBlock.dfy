// The data part of one bzip2 block: Huffman symbols are read from the bit stream, fifty
// with each selected table, and turned into the block's bytes.
module BunzipBlock {
  import opened Bytes
  import opened BunzipStatus
  import opened CountingSort
  import opened Powers
  import opened RunCounters
  import opened BitReader
  import opened Huffman
  import opened MoveToFront

  const GROUP_SIZE := 50

  // What a block needs besides its data: the code lengths of each table, the table for
  // each fifty symbols, and the byte of each symbol number.
  datatype Header = Header(tables: seq<seq<byte>>, selectors: seq<nat>, alphabet: seq<byte>, used: nat, dbufSize: nat)

  predicate Usable(h: Header)
  {
    && (forall g :: 0 <= g < |h.tables| ==> CodeLengths(h.tables[g]) && |h.tables[g]| == h.used + 2)
    && (forall i :: 0 <= i < |h.selectors| ==> h.selectors[i] < |h.tables|)
    && |h.alphabet| == 256 && h.used <= 256
  }

  predicate NoneWraps(h: Header)
  {
    forall g :: 0 <= g < |h.tables| ==> NoCounterWraps(h.tables[g])
  }

  // The table for symbol number k.
  function TableFor(h: Header, k: nat): (lengths: seq<byte>)
    requires Usable(h) && k / GROUP_SIZE < |h.selectors|
    ensures CodeLengths(lengths) && |lengths| == h.used + 2
  {
    h.tables[h.selectors[k / GROUP_SIZE]]
  }

  // Each selector serves fifty symbols, in order.
  lemma FiftyEach(h: Header, g: nat, k: nat)
    requires Usable(h) && k / GROUP_SIZE < |h.selectors|
    ensures k / 50 == g <==> 50 * g <= k < 50 * g + 50
    ensures 50 * g <= k < 50 * g + 50 ==> g < |h.selectors| && TableFor(h, k) == h.tables[h.selectors[g]]
  {
  }

  // The block's bytes and the bit position behind it, or why there are none.
  datatype Result = Decoded(out: seq<byte>, next: nat) | Malformed | InputEnds | OutsideBuffer

  // How the outcome of a list of symbols that ends at next is reported.
  function Verdict(o: Outcome, next: nat): Result
  {
    match o
    case Done(out) => Decoded(out, next)
    case Bad => Malformed
    case Overrun => OutsideBuffer
    case More(_) => InputEnds
  }

  // Decoding from bit position p on, where symbol number k is next.
  function ReadFrom(h: Header, input: seq<byte>, p: nat, k: nat, s: State): Result
    requires Usable(h) && |s.list| == 256
    decreases if p <= 8 * |input| then 8 * |input| - p else 0
  {
    if k / GROUP_SIZE >= |h.selectors| then Malformed
    else if p + MaxLen(TableFor(h, k)) > 8 * |input| then InputEnds
    else
      match ReadSymbol(TableFor(h, k), input, p)
      case Invalid => Malformed
      case Symbol(x, length) =>
        var o := Step(h.alphabet, h.used, h.dbufSize, s, x);
        if o.More? then ReadFrom(h, input, p + length, k + 1, o.state) else Verdict(o, p + length)
  }

  // symbols is what an encoder has written from bit position p on.
  predicate Coded(h: Header, input: seq<byte>, p: nat, k: nat, symbols: seq<nat>)
    requires Usable(h)
    decreases |symbols|
  {
    symbols == [] ||
    (&& k / GROUP_SIZE < |h.selectors|
     && var lengths := TableFor(h, k);
        && symbols[0] < |lengths|
        && p + MaxLen(lengths) <= 8 * |input|
        && CodeAt(lengths, input, p, symbols[0])
        && Coded(h, input, p + lengths[symbols[0]], k + 1, symbols[1..]))
  }

  // The position behind symbols that start at p.
  function CodedEnd(h: Header, p: nat, k: nat, symbols: seq<nat>): nat
    requires Usable(h)
    decreases |symbols|
  {
    if symbols == [] || k / GROUP_SIZE >= |h.selectors| || symbols[0] >= |TableFor(h, k)| then p
    else CodedEnd(h, p + TableFor(h, k)[symbols[0]], k + 1, symbols[1..])
  }

  // Reading what an encoder has written, of which the last symbol ends the block, is undoing
  // its symbols.
  lemma {:induction false} ReadOfCoded(h: Header, input: seq<byte>, p: nat, k: nat, s: State, symbols: seq<nat>)
    requires Usable(h) && |s.list| == 256
    requires NoneWraps(h)
    requires symbols != [] && Coded(h, input, p, k, symbols)
    requires Undo(h.alphabet, h.used, h.dbufSize, s, symbols[..|symbols| - 1]).More?
    requires !Undo(h.alphabet, h.used, h.dbufSize, s, symbols).More?
    ensures ReadFrom(h, input, p, k, s)
              == Verdict(Undo(h.alphabet, h.used, h.dbufSize, s, symbols), CodedEnd(h, p, k, symbols))
    decreases |symbols|
  {
    hide ReadFrom, Step, Usable, Coded, Undo, NoneWraps, TableFor, Verdict, CodedEnd;
    UsableSizes(h);
    var n := |symbols| - 1;
    var o, p' := ReadOneCoded(h, input, p, k, s, symbols);
    if n > 0 {
      assert symbols[..n][0] == symbols[0] && symbols[..n][1..] == symbols[1..][..n - 1];
      UndoNothing(h, s, symbols[..n]);
      ReadOfCoded(h, input, p', k + 1, o.state, symbols[1..]);
    }
  }

  lemma UndoNothing(h: Header, s: State, symbols: seq<nat>)
    requires Usable(h) && |s.list| == 256
    requires Undo(h.alphabet, h.used, h.dbufSize, s, symbols).More?
    ensures symbols != [] ==>
              var o := Step(h.alphabet, h.used, h.dbufSize, s, symbols[0]);
              o.More? && Undo(h.alphabet, h.used, h.dbufSize, o.state, symbols[1..]).More?
    ensures Undo(h.alphabet, h.used, h.dbufSize, s, []).More?
  {
    hide Step;
  }

  lemma ReadOneCoded(h: Header, input: seq<byte>, p: nat, k: nat, s: State, symbols: seq<nat>)
    returns (o: Outcome, p': nat)
    requires Usable(h) && |s.list| == 256 && NoneWraps(h)
    requires symbols != [] && Coded(h, input, p, k, symbols)
    ensures o == Step(h.alphabet, h.used, h.dbufSize, s, symbols[0]) && (o.More? ==> |o.state.list| == 256)
    ensures ReadFrom(h, input, p, k, s) == if o.More? then ReadFrom(h, input, p', k + 1, o.state) else Verdict(o, p')
    ensures Undo(h.alphabet, h.used, h.dbufSize, s, symbols)
         == if o.More? then Undo(h.alphabet, h.used, h.dbufSize, o.state, symbols[1..]) else o
    ensures Coded(h, input, p', k + 1, symbols[1..])
            && CodedEnd(h, p, k, symbols) == CodedEnd(h, p', k + 1, symbols[1..])
    ensures |symbols| == 1 ==> CodedEnd(h, p, k, symbols) == p'
    ensures |symbols| == 1 && o.More? ==> Undo(h.alphabet, h.used, h.dbufSize, s, symbols).More?
  {
    hide ReadSymbol, CodeAt, Step;
    var lengths := TableFor(h, k);
    ReadsCode(lengths, input, p, symbols[0]);
    o := Step(h.alphabet, h.used, h.dbufSize, s, symbols[0]);
    p' := p + lengths[symbols[0]];
    StepKeepsList(h.alphabet, h.used, h.dbufSize, s, symbols[0]);
  }

  // ----- the decoding loop -----

  lemma TallyOne(counts: seq<int>, out: seq<byte>, x: byte, n: nat)
    requires Tallies(counts, out)
    ensures Tallies(counts[x := counts[x] + n], out + Repeat(x, n))
  {
    forall c: byte
      ensures |Positions(out + Repeat(x, n), c)| == |Positions(out, c)| + if c == x then n else 0
    {
      PositionsOfRepeat(out, x, n, c);
    }
  }

  lemma {:induction false} PositionsOfRepeat(out: seq<byte>, x: byte, n: nat, c: byte)
    ensures |Positions(out + Repeat(x, n), c)| == |Positions(out, c)| + if c == x then n else 0
  {
    if n == 0 {
      assert out + Repeat(x, 0) == out;
    } else {
      PositionsOfRepeat(out, x, n - 1, c);
      RepeatSplit(x, n - 1, 1);
      assert Repeat(x, 1) == [x];
      var less := out + Repeat(x, n - 1);
      assert out + Repeat(x, n) == less + [x];
      assert (less + [x])[..|less|] == less;
    }
  }

  // The entries in use stand in front.
  predicate LowFirst(list: seq<byte>, used: nat)
  {
    forall i :: 0 <= i < used && i < |list| ==> list[i] < used
  }

  // The decoder's variables stand for the state s.
  predicate Represents(s: State, used: nat, list: seq<byte>, runPos: int, t: int, out: seq<nat>, counts: seq<int>)
  {
    && s.list == list && |list| == 256 && LowFirst(list, used)
    && s.run.runPos == runPos && (runPos != 0 ==> s.run.t == t)
    && out == s.out && Tallies(counts, s.out)
  }

  // The table of bytes agrees with the header where it is in use.
  predicate Names(h: Header, symToByte: seq<byte>)
  {
    |h.alphabet| == 256 == |symToByte| && forall i :: 0 <= i < h.used && i < 256 ==> symToByte[i] == h.alphabet[i]
  }

  // Moves entry i of the list to the front.
  method MoveUp(mtfSymbol: array<byte>, start: nat)
    requires 0 < start < mtfSymbol.Length
    modifies mtfSymbol
    ensures mtfSymbol[..] == ToFront(old(mtfSymbol[..]), start)
  {
    ghost var list := mtfSymbol[..];
    var i := start;
    var uc := mtfSymbol[i];
    while i > 0
      invariant 0 <= i <= start
      invariant forall k :: 0 <= k < i ==> mtfSymbol[k] == list[k]
      invariant forall k :: i < k <= start ==> mtfSymbol[k] == list[k - 1]
      invariant forall k :: start < k < mtfSymbol.Length ==> mtfSymbol[k] == list[k]
    {
      mtfSymbol[i] := mtfSymbol[i - 1];
      i := i - 1;
    }
    mtfSymbol[0] := uc;
  }

  // Appends t copies of one byte.
  method AppendRun(dbuf: array<nat>, byteCount: array<int>, dbufCount: nat, uc: byte, t: nat, ghost out: seq<byte>)
    requires dbufCount + t <= dbuf.Length && byteCount.Length == 256
    requires dbuf[..dbufCount] == out && Tallies(byteCount[..], out)
    modifies dbuf, byteCount
    ensures dbuf[..dbufCount + t] == out + Repeat(uc, t)
    ensures Tallies(byteCount[..], out + Repeat(uc, t))
  {
    hide Tallies;
    TallyOne(byteCount[..], out, uc, t);
    ghost var counts := byteCount[..];
    byteCount[uc] := byteCount[uc] + t;
    assert byteCount[..] == counts[uc := counts[uc] + t];
    var n := 0;
    assert out + Repeat(uc, 0) == out;
    while n < t
      invariant 0 <= n <= t
      invariant dbuf[..dbufCount + n] == out + Repeat(uc, n)
      invariant Tallies(byteCount[..], out + Repeat(uc, t))
    {
      dbuf[dbufCount + n] := uc;
      RepeatSplit(uc, n, 1);
      assert Repeat(uc, 1) == [uc];
      n := n + 1;
    }
  }

  // Where one symbol leads: on, to the end, to an error, or out of the buffer.
  datatype Flow = Continue | Stop | Fail | Leave

  // One symbol of the decoding loop.
  method ApplySymbol(h: Header, nextSym: nat, symToByte: array<byte>, mtfSymbol: array<byte>, byteCount: array<int>,
                     dbuf: array<nat>, runPos0: int, t0: int, dbufCount0: nat, ghost s: State)
    returns (flow: Flow, runPos: int, t: int, dbufCount: nat)
    requires Usable(h) && h.dbufSize <= dbuf.Length && dbufCount0 <= h.dbufSize && nextSym < h.used + 2
    requires Names(h, symToByte[..]) && symToByte != mtfSymbol
    requires mtfSymbol.Length == 256 && byteCount.Length == 256
    requires Represents(s, h.used, mtfSymbol[..], runPos0, t0, dbuf[..dbufCount0], byteCount[..])
    modifies mtfSymbol, byteCount, dbuf
    ensures dbufCount <= h.dbufSize
    ensures match Step(h.alphabet, h.used, h.dbufSize, s, nextSym)
            case Bad => flow == Fail
            case Overrun => flow == Leave
            case Done(out) => flow == Stop && dbuf[..dbufCount] == out && Tallies(byteCount[..], out)
            case More(s') => flow == Continue
                             && Represents(s', h.used, mtfSymbol[..], runPos, t, dbuf[..dbufCount], byteCount[..])
  {
    hide Tallies, Repeat, ToFront, LowFirst, Signed;
    runPos, t, dbufCount := runPos0, t0, dbufCount0;
    if nextSym <= 1 {
      if runPos == 0 {
        runPos, t := 1, 0;
      }
      t := Signed(t + if nextSym == 0 then runPos else Signed(2 * runPos));
      runPos := Signed(2 * runPos);
      return Continue, runPos, t, dbufCount;
    }
    ghost var out := s.out;
    NoneAppended(out, h, s);
    if runPos != 0 {
      runPos := 0;
      if Signed(dbufCount + t) >= h.dbufSize {
        return Fail, runPos, t, dbufCount;
      }
      if t < 0 || dbufCount + t >= h.dbufSize {
        return Leave, runPos, t, dbufCount;
      }
      var uc := symToByte[mtfSymbol[0]];
      FrontIsNamed(h, symToByte[..], s.list);
      AppendRun(dbuf, byteCount, dbufCount, uc, t, out);
      dbufCount := dbufCount + t;
      out := out + Repeat(uc, t);
    }
    if nextSym > h.used {
      return Stop, runPos, t, dbufCount;
    }
    if dbufCount >= h.dbufSize {
      return Fail, runPos, t, dbufCount;
    }
    ToFrontKeepsLow(s.list, h.used, nextSym - 1);
    MoveUp(mtfSymbol, nextSym - 1);
    FrontIsNamed(h, symToByte[..], mtfSymbol[..]);
    var uc := symToByte[mtfSymbol[0]];
    RepeatOne(uc);
    AppendRun(dbuf, byteCount, dbufCount, uc, 1, out);
    dbufCount := dbufCount + 1;
    return Continue, runPos, t, dbufCount;
  }

  lemma NoneAppended(out: seq<byte>, h: Header, s: State)
    requires |h.alphabet| == 256 == |s.list|
    ensures out + Repeat(h.alphabet[s.list[0]], 0) == out
  {
  }

  lemma FrontIsNamed(h: Header, symToByte: seq<byte>, list: seq<byte>)
    requires Names(h, symToByte) && |list| == 256 && LowFirst(list, h.used) && h.used > 0
    ensures symToByte[list[0]] == h.alphabet[list[0]]
  {
  }

  lemma ToFrontKeepsLow(list: seq<byte>, used: nat, i: nat)
    requires i < used <= |list| && LowFirst(list, used)
    ensures LowFirst(ToFront(list, i), used)
  {
  }

  lemma RepeatOne(x: byte)
    ensures Repeat(x, 1) == [x]
  {
  }

  // The first groups' tables are those of the header's lengths.
  ghost predicate GroupsFor(groups: seq<HufGroup>, tables: seq<seq<byte>>)
    reads groups, set g | g in groups :: g.limit, set g | g in groups :: g.base, set g | g in groups :: g.permute
  {
    |tables| <= |groups| && forall g :: 0 <= g < |tables| ==> groups[g].TablesOf(tables[g])
  }

  function Identity(): (list: seq<byte>)
    ensures |list| == 256
  {
    seq(256, i requires 0 <= i < 256 => i)
  }

  // The state every block starts from.
  function Start(): (s: State)
    ensures |s.list| == 256
  {
    State(Identity(), NONE, [])
  }

  method ClearTables(ghost used: nat, mtfSymbol: array<byte>, byteCount: array<int>)
    requires mtfSymbol.Length == 256 && byteCount.Length == 256
    modifies mtfSymbol, byteCount
    ensures Represents(Start(), used, mtfSymbol[..], 0, 0, [], byteCount[..])
  {
    var i := 0;
    while i < 256
      invariant 0 <= i <= 256
      invariant forall k: byte :: k < i ==> byteCount[k] == 0 && mtfSymbol[k] == k
    {
      byteCount[i] := 0;
      mtfSymbol[i] := i;
      i := i + 1;
    }
  }

  // What reading goes on with after one more symbol,
  lemma ReadStep(h: Header, input: seq<byte>, p: nat, k: nat, s: State)
    requires Usable(h) && |s.list| == 256 && k / GROUP_SIZE < |h.selectors|
    requires p + MaxLen(TableFor(h, k)) <= 8 * |input|
    ensures ReadFrom(h, input, p, k, s)
         == var d := ReadSymbol(TableFor(h, k), input, p);
            if d.Invalid? then Malformed
            else
              var o := Step(h.alphabet, h.used, h.dbufSize, s, d.symbol);
              if o.More? then ReadFrom(h, input, p + d.length, k + 1, o.state) else Verdict(o, p + d.length)
  {
    hide ReadSymbol, TableFor, Step, Usable;
  }

  // and when there is none.
  lemma ReadStops(h: Header, input: seq<byte>, p: nat, k: nat, s: State)
    requires Usable(h) && |s.list| == 256
    ensures k / GROUP_SIZE >= |h.selectors| ==> ReadFrom(h, input, p, k, s) == Malformed
    ensures k / GROUP_SIZE < |h.selectors| && p + MaxLen(TableFor(h, k)) > 8 * |input| ==>
              ReadFrom(h, input, p, k, s) == InputEnds
  {
    hide ReadSymbol, Step;
  }

  // The reader is where reading from state s has yet to give the result, unless the input has
  // ended.
  ghost predicate Tracks(bd: Reader, h: Header, k: nat, s: State, result: Result)
    reads bd
    requires Usable(h) && |s.list| == 256
  {
    bd.Sound() && if bd.ioError then result == InputEnds else ReadFrom(h, bd.inbuf, bd.Position(), k, s) == result
  }

  lemma TracksFirst(bd: Reader, h: Header)
    requires Usable(h) && bd.Sound()
    ensures Tracks(bd, h, 0, Start(),
                   if bd.ioError then InputEnds else ReadFrom(h, bd.inbuf, bd.Position(), 0, Start()))
  {
  }

  // When the selectors are used up the block is malformed.
  lemma TracksEnds(bd: Reader, h: Header, k: nat, s: State, result: Result)
    requires Usable(h) && |s.list| == 256 && Tracks(bd, h, k, s, result) && k / GROUP_SIZE >= |h.selectors|
    ensures bd.Sound() && if bd.ioError then result == InputEnds else result == Malformed
  {
    if !bd.ioError {
      ReadStops(h, bd.inbuf, bd.Position(), k, s);
    }
  }

  // Reads the next symbol. What its step does then leads to the same result.
  method NextSymbol(bd: Reader, h: Header, hufGroup: HufGroup, ghost k: nat, ghost s: State, ghost result: Result)
    returns (d: Decoded)
    requires Usable(h) && |s.list| == 256
    requires k / GROUP_SIZE < |h.selectors| && hufGroup.TablesOf(TableFor(h, k))
    requires Tracks(bd, h, k, s, result)
    modifies bd
    ensures bd.Sound() && (old(bd.ioError) ==> bd.ioError) && (bd.ioError ==> result == InputEnds)
    ensures d.Invalid? && !bd.ioError ==> result == Malformed
    ensures d.Symbol? ==>
              && d.symbol < h.used + 2
              && var o := Step(h.alphabet, h.used, h.dbufSize, s, d.symbol);
                 && (o.More? ==> |o.state.list| == 256 && Tracks(bd, h, k + 1, o.state, result))
                 && (!o.More? ==> bd.ioError || result == Verdict(o, bd.Position()))
  {
    hide ReadFrom, TableFor, Step, ReadSymbol, Usable, Verdict;
    if !bd.ioError {
      ReadStops(h, bd.inbuf, bd.Position(), k, s);
      if bd.Position() + MaxLen(TableFor(h, k)) <= 8 * |bd.inbuf| {
        ReadStep(h, bd.inbuf, bd.Position(), k, s);
      }
    }
    d := hufGroup.DecodeSymbol(bd, TableFor(h, k));
    if d.Symbol? {
      UsableSizes(h);
      StepKeepsList(h.alphabet, h.used, h.dbufSize, s, d.symbol);
    }
  }

  lemma UsableSizes(h: Header)
    requires Usable(h)
    ensures |h.alphabet| == 256 && h.used <= 256
  {
  }

  lemma StepKeepsList(alphabet: seq<byte>, used: nat, dbufSize: nat, s: State, x: nat)
    requires |alphabet| == 256 == |s.list| && used <= 256
    ensures var o := Step(alphabet, used, dbufSize, s, x);
            o.More? ==> |o.state.list| == 256
  {
  }

  // The decoding loop. It ends even when the input does not last, and then the error is
  // recorded and the bytes are counted all the same. Where the code would write outside the
  // buffer the loop stops, and says so.
  method DecodeData(bd: Reader, h: Header, groups: seq<HufGroup>, symToByte: array<byte>, mtfSymbol: array<byte>,
                    byteCount: array<int>, dbuf: array<nat>)
    returns (status: int, outside: bool, dbufCount: nat, ghost out: seq<byte>)
    requires Usable(h) && h.dbufSize <= dbuf.Length && mtfSymbol.Length == 256 && byteCount.Length == 256
    requires Names(h, symToByte[..]) && symToByte != mtfSymbol
    requires GroupsFor(groups, h.tables)
    requires forall g :: g in groups ==> g.limit != byteCount && g.base != byteCount && g.permute != dbuf
    requires bd.Sound()
    modifies bd, mtfSymbol, byteCount, dbuf
    ensures bd.Sound() && dbufCount <= h.dbufSize && (status == RETVAL_OK || status == RETVAL_DATA_ERROR)
    ensures status == RETVAL_OK ==> dbuf[..dbufCount] == out && Tallies(byteCount[..], out)
    ensures old(bd.ioError) ==> bd.ioError
    ensures !old(bd.ioError) ==>
              match old(ReadFrom(h, bd.inbuf, bd.Position(), 0, Start()))
              case Decoded(o, next) =>
                status == RETVAL_OK && !outside && out == o && !bd.ioError && bd.Position() == next
              case Malformed => status == RETVAL_DATA_ERROR && !outside && !bd.ioError
              case OutsideBuffer => outside && !bd.ioError
              case InputEnds => bd.ioError
  {
    hide ReadFrom, Represents, Tallies, TableFor, Start, Usable, HufGroup.TablesOf, GroupsFor, Names, Step, Verdict,
      Tracks;
    UsableSizes(h);
    TracksFirst(bd, h);
    ghost var result := if bd.ioError then InputEnds else ReadFrom(h, bd.inbuf, bd.Position(), 0, Start());
    ClearTables(h.used, mtfSymbol, byteCount);
    var runPos, t, symCount: nat, selector: nat := 0, 0, 0, 0;
    outside, dbufCount := false, 0;
    ghost var s, k := Start(), 0;
    var hufGroup: HufGroup? := null;
    assert dbuf[..dbufCount] == [];
    while true
      invariant |s.list| == 256 && dbufCount <= h.dbufSize
      invariant Tracks(bd, h, k, s, result) && (old(bd.ioError) ==> bd.ioError)
      invariant Represents(s, h.used, mtfSymbol[..], runPos, t, dbuf[..dbufCount], byteCount[..])
      invariant k == GROUP_SIZE * selector - symCount && symCount < GROUP_SIZE && selector <= |h.selectors|
      invariant GroupsFor(groups, h.tables)
      invariant symCount > 0 ==>
                  selector > 0 && h.selectors[selector - 1] < |groups| && hufGroup == groups[h.selectors[selector - 1]]
      decreases GROUP_SIZE * |h.selectors| - k
    {
      if symCount == 0 {
        symCount := GROUP_SIZE - 1;
        if selector >= |h.selectors| {
          TracksEnds(bd, h, k, s, result);
          return RETVAL_DATA_ERROR, false, dbufCount, [];
        }
        SelectorInRange(h, selector);
        GroupAt(groups, h.tables, h.selectors[selector]);
        hufGroup := groups[h.selectors[selector]];
        selector := selector + 1;
      } else {
        symCount := symCount - 1;
      }
      SelectorInRange(h, selector - 1);
      GroupOf(h, k, selector, symCount);
      GroupAt(groups, h.tables, h.selectors[selector - 1]);
      var d := NextSymbol(bd, h, hufGroup, k, s, result);
      if d.Invalid? {
        return RETVAL_DATA_ERROR, false, dbufCount, [];
      }
      ghost var o := Step(h.alphabet, h.used, h.dbufSize, s, d.symbol);
      var flow;
      flow, runPos, t, dbufCount :=
        ApplySymbol(h, d.symbol, symToByte, mtfSymbol, byteCount, dbuf, runPos, t, dbufCount, s);
      VerdictIs(o, if bd.ioError then 0 else bd.Position());
      match flow {
        case Fail => return RETVAL_DATA_ERROR, false, dbufCount, [];
        case Leave => return RETVAL_DATA_ERROR, true, dbufCount, [];
        case Stop => return RETVAL_OK, false, dbufCount, o.out;
        case Continue =>
      }
      s, k := o.state, k + 1;
    }
  }

  lemma VerdictIs(o: Outcome, next: nat)
    ensures o.Done? ==> Verdict(o, next) == Decoded(o.out, next)
    ensures o.Bad? ==> Verdict(o, next) == Malformed
    ensures o.Overrun? ==> Verdict(o, next) == OutsideBuffer
  {
  }

  lemma GroupAt(groups: seq<HufGroup>, tables: seq<seq<byte>>, i: nat)
    requires GroupsFor(groups, tables) && i < |tables|
    ensures |tables| <= |groups| && groups[i].TablesOf(tables[i])
  {
  }

  lemma SelectorInRange(h: Header, i: nat)
    requires Usable(h) && i < |h.selectors|
    ensures h.selectors[i] < |h.tables|
  {
  }

  lemma GroupOf(h: Header, k: nat, selector: nat, symCount: nat)
    requires Usable(h) && 0 < selector <= |h.selectors| && symCount < GROUP_SIZE
    requires k + 1 == GROUP_SIZE * selector - symCount
    ensures k / GROUP_SIZE == selector - 1 && TableFor(h, k) == h.tables[h.selectors[selector - 1]]
  {
  }
}
