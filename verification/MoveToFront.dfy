// The second stage of the bzip2 decoder: symbols are moved-to-front positions, and runs of
// position 0 are spelled in bijective base two by the symbols RUNA and RUNB.
module MoveToFront {
  import opened Bytes
  import opened RunCounters

  // ----- the decoder, as specified -----

  function ToFront<X>(list: seq<X>, i: nat): (r: seq<X>)
    requires i < |list|
    ensures |r| == |list|
  {
    [list[i]] + list[..i] + list[i + 1..]
  }

  // The decoder's state: the list of symbol numbers, the counters of the run, and the bytes
  // decoded so far.
  datatype State = State(list: seq<byte>, run: Counters, out: seq<byte>)

  // An overrun writes outside the buffer.
  datatype Outcome = More(state: State) | Done(out: seq<byte>) | Bad | Overrun

  // alphabet gives the byte of each symbol number; used of its entries are in use.
  function Step(alphabet: seq<byte>, used: nat, dbufSize: nat, s: State, nextSym: nat): Outcome
    requires |alphabet| == 256 == |s.list| && used <= 256
  {
    if nextSym <= 1 then More(s.(run := CountOne(s.run, nextSym)))
    else
      match Actual(|s.out|, dbufSize, s.run)
      case Refuses => Bad
      case Overruns => Overrun
      case Appends(n) =>
        var out := s.out + Repeat(alphabet[s.list[0]], n);
        if nextSym > used then Done(out)
        else if |out| >= dbufSize then Bad
        else
          var list := ToFront(s.list, nextSym - 1);
          More(State(list, NONE, out + [alphabet[list[0]]]))
  }

  function Undo(alphabet: seq<byte>, used: nat, dbufSize: nat, s: State, symbols: seq<nat>): Outcome
    requires |alphabet| == 256 == |s.list| && used <= 256
    decreases |symbols|
  {
    if symbols == [] then More(s)
    else
      var o := Step(alphabet, used, dbufSize, s, symbols[0]);
      if o.More? then Undo(alphabet, used, dbufSize, o.state, symbols[1..]) else o
  }

  // ----- the encoder, as specified -----

  lemma ToFrontPermutes<X>(list: seq<X>, i: nat)
    requires i < |list|
    ensures multiset(ToFront(list, i)) == multiset(list)
  {
    assert list == list[..i] + [list[i]] + list[i + 1..];
  }

  // Whatever the symbols say, the list stays a permutation of what it was.
  lemma {:induction false} UndoPermutes(alphabet: seq<byte>, used: nat, dbufSize: nat, s: State, symbols: seq<nat>)
    requires |alphabet| == 256 == |s.list| && used <= 256
    ensures Undo(alphabet, used, dbufSize, s, symbols).More? ==>
              multiset(Undo(alphabet, used, dbufSize, s, symbols).state.list) == multiset(s.list)
    decreases |symbols|
  {
    hide ToFront, Actual, CountOne, Repeat;
    if symbols != [] {
      var o := Step(alphabet, used, dbufSize, s, symbols[0]);
      if 1 < symbols[0] <= used {
        ToFrontPermutes(s.list, symbols[0] - 1);
      }
      if o.More? {
        UndoPermutes(alphabet, used, dbufSize, o.state, symbols[1..]);
      }
    }
  }

  // The entries that are moved, and the list after all of them.
  function Moved<X>(list: seq<X>, places: seq<nat>): seq<X>
    requires forall k :: 0 <= k < |places| ==> places[k] < |list|
    decreases |places|
  {
    if places == [] then [] else [list[places[0]]] + Moved(ToFront(list, places[0]), places[1..])
  }

  function ListAfter<X>(list: seq<X>, places: seq<nat>): (r: seq<X>)
    requires forall k :: 0 <= k < |places| ==> places[k] < |list|
    ensures |r| == |list|
    decreases |places|
  {
    if places == [] then list else ListAfter(ToFront(list, places[0]), places[1..])
  }

  ghost function Elements<X>(s: seq<X>): set<X>
  {
    set x | x in s
  }

  // x has place p, behind these entries.
  ghost predicate Behind<X>(list: seq<X>, p: nat, x: X, before: set<X>)
  {
    p < |list| && list[p] == x && |before| == p && before == Elements(list[..p])
  }

  ghost predicate Distinct<X(!new)>(list: seq<X>)
  {
    forall i, j :: 0 <= i < j < |list| ==> list[i] != list[j]
  }

  lemma ToFrontDistinct<X(!new)>(list: seq<X>, i: nat)
    requires i < |list| && Distinct(list)
    ensures Distinct(ToFront(list, i))
  {
  }

  // An entry from before x leaves x where it is,
  lemma MovedBefore<X(!new)>(list: seq<X>, p: nat, x: X, before: set<X>, i: nat)
    requires Distinct(list) && Behind(list, p, x, before) && i < p
    ensures list[i] in before && Behind(ToFront(list, i), p, x, before)
  {
    var moved := ToFront(list, i);
    assert list[..p] == list[..i] + [list[i]] + list[i + 1..p];
    assert moved[..p] == [list[i]] + list[..i] + list[i + 1..p];
    assert list[..p][i] == list[i];
  }

  // one from behind pushes it back.
  lemma MovedBehind<X(!new)>(list: seq<X>, p: nat, x: X, before: set<X>, i: nat)
    requires Distinct(list) && Behind(list, p, x, before) && p < i < |list|
    ensures list[i] !in before && Behind(ToFront(list, i), p + 1, x, before + {list[i]})
  {
    var moved := ToFront(list, i);
    assert moved[..p + 1] == [list[i]] + list[..p];
    assert moved[p + 1] == list[p];
  }

  lemma ElementsFirst<X>(x: X, s: seq<X>)
    ensures Elements([x] + s) == {x} + Elements(s)
    ensures Elements<X>([]) == {}
  {
  }

  // The place of an entry tells how many others have been moved since it was.
  lemma {:induction false} PlaceTells<X(!new)>(list: seq<X>, p: nat, x: X, before: set<X>, places: seq<nat>)
    returns (q: nat)
    requires Distinct(list) && Behind(list, p, x, before) && forall k :: 0 <= k < |places| ==> places[k] < |list|
    requires x !in Moved(list, places)
    ensures Behind(ListAfter(list, places), q, x, before + Elements(Moved(list, places)))
    decreases |places|
  {
    hide ToFront, Elements, Distinct;
    if places == [] {
      q := p;
      ElementsFirst(x, []);
      assert before + {} == before;
    } else {
      var i := places[0];
      var next, y := ToFront(list, i), list[i];
      var more := Moved(next, places[1..]);
      assert Moved(list, places)[0] == y;
      NotInRest(x, y, more);
      ElementsFirst(y, more);
      ToFrontDistinct(list, i);
      if i < p {
        MovedBefore(list, p, x, before, i);
        q := PlaceTells(next, p, x, before, places[1..]);
        assert before + ({y} + Elements(more)) == before + Elements(more);
      } else {
        MovedBehind(list, p, x, before, i);
        q := PlaceTells(next, p + 1, x, before + {y}, places[1..]);
        assert before + ({y} + Elements(more)) == before + {y} + Elements(more);
      }
    }
  }

  lemma NotInRest<X>(x: X, y: X, s: seq<X>)
    requires x !in [y] + s
    ensures x != y && x !in s
  {
    assert ([y] + s)[0] == y;
    assert forall i :: 0 <= i < |s| ==> ([y] + s)[i + 1] == s[i];
  }

  // So it is the number of different entries that have been used since its own last use.
  lemma LastUse<X(!new)>(list: seq<X>, i: nat, places: seq<nat>) returns (q: nat)
    requires Distinct(list) && i < |list| && forall k :: 0 <= k < |places| ==> places[k] < |list|
    requires list[i] !in Moved(ToFront(list, i), places)
    ensures q < |list| && ListAfter(ToFront(list, i), places)[q] == list[i]
    ensures q == |Elements(Moved(ToFront(list, i), places))|
  {
    ToFrontDistinct(list, i);
    ElementsFirst(list[i], []);
    assert ToFront(list, i)[..0] == [];
    q := PlaceTells(ToFront(list, i), 0, list[i], {}, places);
    assert {} + Elements(Moved(ToFront(list, i), places)) == Elements(Moved(ToFront(list, i), places));
  }

  // Where a byte stands in the list.
  function Place(alphabet: seq<byte>, list: seq<byte>, x: byte): (p: nat)
    requires |alphabet| == 256
    requires exists i :: 0 <= i < |list| && alphabet[list[i]] == x
    ensures p < |list| && alphabet[list[p]] == x
    ensures p == 0 <==> alphabet[list[0]] == x
  {
    if alphabet[list[0]] == x then 0
    else
      assert exists i :: 0 <= i < |list[1..]| && alphabet[list[1..][i]] == x by {
        var i :| 0 <= i < |list| && alphabet[list[i]] == x;
        assert list[1..][i - 1] == list[i];
      }
      1 + Place(alphabet, list[1..], x)
  }

  // The first used entries of the list stand for every byte of the text.
  predicate Covers(alphabet: seq<byte>, used: nat, list: seq<byte>, text: seq<byte>)
  {
    |alphabet| == 256 == |list| && used <= 256 &&
    forall x :: x in text ==> exists i :: 0 <= i < used && alphabet[list[i]] == x
  }

  // zeros is the length of the run of place-0 bytes that is still to be spelled.
  function Encode(alphabet: seq<byte>, used: nat, list: seq<byte>, zeros: nat, text: seq<byte>): seq<nat>
    requires Covers(alphabet, used, list, text)
    decreases |text|
  {
    if text == [] then RunSymbols(zeros) + [used + 1]
    else
      CoversFirst(alphabet, used, list, text);
      var p := Place(alphabet, list[..used], text[0]);
      CoversNext(alphabet, used, list, text, p);
      if p == 0 then Encode(alphabet, used, list, zeros + 1, text[1..])
      else RunSymbols(zeros) + [p + 1] + Encode(alphabet, used, ToFront(list, p), 0, text[1..])
  }

  lemma CoversFirst(alphabet: seq<byte>, used: nat, list: seq<byte>, text: seq<byte>)
    requires Covers(alphabet, used, list, text) && text != []
    ensures exists i :: 0 <= i < |list[..used]| && alphabet[list[..used][i]] == text[0]
  {
    assert text[0] in text;
    var i :| 0 <= i < used && alphabet[list[i]] == text[0];
    assert list[..used][i] == list[i];
  }

  lemma CoversNext(alphabet: seq<byte>, used: nat, list: seq<byte>, text: seq<byte>, p: nat)
    requires Covers(alphabet, used, list, text) && text != [] && p < used
    ensures Covers(alphabet, used, list, text[1..])
    ensures Covers(alphabet, used, ToFront(list, p), text[1..])
  {
    var moved := ToFront(list, p);
    forall x | x in text[1..]
      ensures exists i :: 0 <= i < used && alphabet[moved[i]] == x
    {
      assert x in text;
      var i :| 0 <= i < used && alphabet[list[i]] == x;
      var k := if i == p then 0 else if i < p then i + 1 else i;
      assert moved[k] == list[i];
    }
  }

  // ----- the decoder undoes the encoder -----

  lemma UndoStep(alphabet: seq<byte>, used: nat, dbufSize: nat, s: State, x: nat, rest: seq<nat>)
    requires |alphabet| == 256 == |s.list| && used <= 256
    ensures Undo(alphabet, used, dbufSize, s, [x] + rest)
         == var o := Step(alphabet, used, dbufSize, s, x);
            if o.More? then Undo(alphabet, used, dbufSize, o.state, rest) else o
  {
    assert ([x] + rest)[1..] == rest;
  }

  // A literal when no run is open,
  lemma LiteralUndone(alphabet: seq<byte>, used: nat, dbufSize: nat, s: State, x: nat, rest: seq<nat>)
    requires |alphabet| == 256 == |s.list| && 1 < x <= used <= 256 && s.run.runPos == 0 && |s.out| < dbufSize
    ensures Undo(alphabet, used, dbufSize, s, [x] + rest)
         == Undo(alphabet, used, dbufSize,
                 State(ToFront(s.list, x - 1), NONE, s.out + [alphabet[ToFront(s.list, x - 1)[0]]]), rest)
  {
    hide Undo, ToFront;
    assert s.out + Repeat(alphabet[s.list[0]], 0) == s.out;
    UndoStep(alphabet, used, dbufSize, s, x, rest);
  }

  // and the end of the block.
  lemma EndUndone(alphabet: seq<byte>, used: nat, dbufSize: nat, s: State)
    requires |alphabet| == 256 == |s.list| && 0 < used <= 256 && s.run.runPos == 0
    ensures Undo(alphabet, used, dbufSize, s, [used + 1]) == Done(s.out)
  {
    hide Undo;
    assert s.out + Repeat(alphabet[s.list[0]], 0) == s.out;
    assert [used + 1] + [] == [used + 1];
    UndoStep(alphabet, used, dbufSize, s, used + 1, []);
  }

  // Run symbols are counted,
  lemma {:induction false} DigitsUndone(alphabet: seq<byte>, used: nat, dbufSize: nat, s: State, digits: seq<nat>,
                                        rest: seq<nat>)
    requires |alphabet| == 256 == |s.list| && used <= 256 && IsRun(digits)
    ensures Undo(alphabet, used, dbufSize, s, digits + rest)
         == Undo(alphabet, used, dbufSize, s.(run := CountAll(s.run, digits)), rest)
    decreases |digits|
  {
    hide Undo, CountOne;
    if digits == [] {
      assert digits + rest == rest;
    } else {
      var more := digits[1..];
      assert digits + rest == [digits[0]] + (more + rest);
      UndoStep(alphabet, used, dbufSize, s, digits[0], more + rest);
      DigitsUndone(alphabet, used, dbufSize, s.(run := CountOne(s.run, digits[0])), more, rest);
    }
  }

  // and what the counters come to is done at the symbol behind them, for runs of any length.
  lemma RunThenSymbol(alphabet: seq<byte>, used: nat, dbufSize: nat, s: State, digits: seq<nat>, x: nat,
                      rest: seq<nat>)
    requires |alphabet| == 256 == |s.list| && used <= 256 && s.run.runPos == 0 && x > 1 && IsRun(digits)
    ensures Undo(alphabet, used, dbufSize, s, digits + ([x] + rest))
         == match Actual(|s.out|, dbufSize, CountAll(s.run, digits))
            case Refuses => Bad
            case Overruns => Overrun
            case Appends(n) =>
              Undo(alphabet, used, dbufSize, s.(out := s.out + Repeat(alphabet[s.list[0]], n)), [x] + rest)
  {
    hide Undo, CountAll;
    var c := CountAll(s.run, digits);
    DigitsUndone(alphabet, used, dbufSize, s, digits, [x] + rest);
    UndoStep(alphabet, used, dbufSize, s.(run := c), x, rest);
    var e := Actual(|s.out|, dbufSize, c);
    if e.Appends? {
      var full := s.(out := s.out + Repeat(alphabet[s.list[0]], e.n));
      assert full.out + Repeat(alphabet[s.list[0]], 0) == full.out;
      UndoStep(alphabet, used, dbufSize, full, x, rest);
    }
  }

  // A run that an encoder writes.
  lemma RunOfThenSymbol(alphabet: seq<byte>, used: nat, dbufSize: nat, s: State, n: nat, x: nat, rest: seq<nat>)
    requires |alphabet| == 256 == |s.list| && used <= 256 && s.run == NONE && x > 1
    requires |s.out| + n <= dbufSize < INT_LIMIT
    ensures Undo(alphabet, used, dbufSize, s, RunSymbols(n) + ([x] + rest))
         == if n > 0 && |s.out| + n >= dbufSize then Bad
            else Undo(alphabet, used, dbufSize, s.(out := s.out + Repeat(alphabet[s.list[0]], n)), [x] + rest)
  {
    hide Undo, CountAll, Actual, RunSymbols;
    RunSpells(n);
    ShortRun(n);
    RunThenSymbol(alphabet, used, dbufSize, s, RunSymbols(n), x, rest);
    ActualIs(|s.out|, dbufSize, 0, RunSymbols(n));
  }

  // The text ends in a byte that is at the front of the list when its turn comes, so that
  // the last symbol before the end of the block is a run symbol.
  predicate EndsInRun(alphabet: seq<byte>, list: seq<byte>, zeros: nat, text: seq<byte>)
    requires |alphabet| == 256 == |list|
  {
    if text == [] then zeros > 0
    else text[|text| - 1] == if |text| > 1 then text[|text| - 2] else alphabet[list[0]]
  }

  // A byte that is not at the front: the open run ends, and the byte moves to the front.
  lemma LiteralStep(alphabet: seq<byte>, used: nat, dbufSize: nat, list: seq<byte>, zeros: nat, text: seq<byte>,
                    out: seq<byte>)
    returns (moved: seq<byte>)
    requires Covers(alphabet, used, list, text) && text != [] && alphabet[list[0]] != text[0]
    requires |out| + zeros + |text| <= dbufSize < INT_LIMIT
    ensures Covers(alphabet, used, moved, text[1..]) && alphabet[moved[0]] == text[0]
    ensures Undo(alphabet, used, dbufSize, State(list, NONE, out), Encode(alphabet, used, list, zeros, text))
         == Undo(alphabet, used, dbufSize, State(moved, NONE, out + Repeat(alphabet[list[0]], zeros) + [text[0]]),
                 Encode(alphabet, used, moved, 0, text[1..]))
  {
    CoversFirst(alphabet, used, list, text);
    var p := Place(alphabet, list[..used], text[0]);
    CoversNext(alphabet, used, list, text, p);
    moved := ToFront(list, p);
    var more := Encode(alphabet, used, moved, 0, text[1..]);
    var s := State(list, NONE, out);
    var full := s.(out := out + Repeat(alphabet[list[0]], zeros));
    Regroup(RunSymbols(zeros), [p + 1], more);
    hide Encode, RunSymbols, ToFront, Repeat, Undo, Step;
    RunOfThenSymbol(alphabet, used, dbufSize, s, zeros, p + 1, more);
    LiteralUndone(alphabet, used, dbufSize, full, p + 1, more);
  }

  // A byte at the front only lengthens the run.
  lemma ZeroStep(alphabet: seq<byte>, used: nat, list: seq<byte>, zeros: nat, text: seq<byte>)
    requires Covers(alphabet, used, list, text) && text != [] && alphabet[list[0]] == text[0]
    ensures Covers(alphabet, used, list, text[1..])
    ensures Encode(alphabet, used, list, zeros, text) == Encode(alphabet, used, list, zeros + 1, text[1..])
  {
    CoversFirst(alphabet, used, list, text);
    CoversNext(alphabet, used, list, text, 0);
  }

  // The end of the text: the open run ends, and the block with it.
  lemma EndStep(alphabet: seq<byte>, used: nat, dbufSize: nat, list: seq<byte>, zeros: nat, out: seq<byte>)
    requires |alphabet| == 256 == |list| && 0 < used <= 256 && |out| + zeros <= dbufSize < INT_LIMIT
    ensures Undo(alphabet, used, dbufSize, State(list, NONE, out), RunSymbols(zeros) + [used + 1])
         == if zeros > 0 && |out| + zeros >= dbufSize then Bad else Done(out + Repeat(alphabet[list[0]], zeros))
  {
    var s := State(list, NONE, out);
    var full := s.(out := out + Repeat(alphabet[list[0]], zeros));
    hide RunSymbols, Repeat, Undo, Step;
    assert [used + 1] + [] == [used + 1];
    RunOfThenSymbol(alphabet, used, dbufSize, s, zeros, used + 1, []);
    EndUndone(alphabet, used, dbufSize, full);
  }

  // Decoding undoes encoding for every text that fits, but for one case: a text of exactly
  // the buffer's size that ends in a run is refused.
  lemma {:induction false} UndoOfEncode(alphabet: seq<byte>, used: nat, dbufSize: nat, list: seq<byte>, zeros: nat,
                                        text: seq<byte>, out: seq<byte>)
    requires Covers(alphabet, used, list, text) && used > 0
    requires |out| + zeros + |text| <= dbufSize < INT_LIMIT
    ensures Undo(alphabet, used, dbufSize, State(list, NONE, out), Encode(alphabet, used, list, zeros, text))
         == if |out| + zeros + |text| < dbufSize || !EndsInRun(alphabet, list, zeros, text)
            then Done(out + Repeat(alphabet[list[0]], zeros) + text) else Bad
    decreases |text|
  {
    hide Undo, Encode, Covers, EndsInRun, Repeat;
    CoversSizes(alphabet, used, list, text);
    var front := alphabet[list[0]];
    if text == [] {
      EncodeNothing(alphabet, used, list, zeros);
      EndStep(alphabet, used, dbufSize, list, zeros, out);
      assert out + Repeat(front, zeros) + [] == out + Repeat(front, zeros);
    } else if text[0] == front {
      ZeroStep(alphabet, used, list, zeros, text);
      UndoOfEncode(alphabet, used, dbufSize, list, zeros + 1, text[1..], out);
      EndsInRunNext(alphabet, list, list, zeros, zeros + 1, text);
      MoveOver(out, front, zeros, text);
    } else {
      var moved := LiteralStep(alphabet, used, dbufSize, list, zeros, text, out);
      CoversSizes(alphabet, used, moved, text[1..]);
      UndoOfEncode(alphabet, used, dbufSize, moved, 0, text[1..], out + Repeat(front, zeros) + [text[0]]);
      EndsInRunNext(alphabet, list, moved, zeros, 0, text);
      Reassemble(out + Repeat(front, zeros), text, alphabet[moved[0]]);
    }
  }

  lemma CoversSizes(alphabet: seq<byte>, used: nat, list: seq<byte>, text: seq<byte>)
    requires Covers(alphabet, used, list, text)
    ensures |alphabet| == 256 == |list| && used <= 256
  {
  }

  lemma EncodeNothing(alphabet: seq<byte>, used: nat, list: seq<byte>, zeros: nat)
    requires Covers(alphabet, used, list, [])
    ensures Encode(alphabet, used, list, zeros, []) == RunSymbols(zeros) + [used + 1]
    ensures |alphabet| == 256 == |list| && (EndsInRun(alphabet, list, zeros, []) <==> zeros > 0)
  {
  }

  // Whether the text ends in a run can be told after its first byte as well.
  lemma EndsInRunNext(alphabet: seq<byte>, list: seq<byte>, list': seq<byte>, zeros: nat, zeros': nat, text: seq<byte>)
    requires |alphabet| == 256 == |list| == |list'| && text != [] && alphabet[list'[0]] == text[0]
    requires zeros' > 0 <==> alphabet[list[0]] == text[0]
    ensures EndsInRun(alphabet, list, zeros, text) <==> EndsInRun(alphabet, list', zeros', text[1..])
  {
  }

  lemma MoveOver(out: seq<byte>, front: byte, zeros: nat, text: seq<byte>)
    requires text != [] && text[0] == front
    ensures out + Repeat(front, zeros + 1) + text[1..] == out + Repeat(front, zeros) + text
  {
    RepeatSplit(front, zeros, 1);
    assert Repeat(front, 1) == [front];
    Regroup(Repeat(front, zeros), [front], text[1..]);
    Regroup(out, Repeat(front, zeros) + [front], text[1..]);
    assert [front] + text[1..] == text;
    Regroup(out, Repeat(front, zeros), text);
  }

  lemma Reassemble(out: seq<byte>, text: seq<byte>, front: byte)
    requires text != []
    ensures out + [text[0]] + Repeat(front, 0) + text[1..] == out + text
  {
    assert Repeat(front, 0) == [];
  }

  // The last symbol ends the block, and no other.
  predicate EndsOnce(symbols: seq<nat>, used: nat)
  {
    && symbols != [] && symbols[|symbols| - 1] == used + 1
    && forall i :: 0 <= i < |symbols| - 1 ==> symbols[i] <= used
  }

  lemma EndsOnceBehind(front: seq<nat>, symbols: seq<nat>, used: nat)
    requires EndsOnce(symbols, used) && Low(front, used)
    ensures EndsOnce(front + symbols, used)
  {
  }

  predicate Low(symbols: seq<nat>, used: nat)
  {
    forall i :: 0 <= i < |symbols| ==> symbols[i] <= used
  }

  lemma FrontLow(zeros: nat, p: nat, used: nat)
    requires p < used
    ensures Low(RunSymbols(zeros), used) && Low(RunSymbols(zeros) + [p + 1], used)
  {
    hide RunSymbols;
    RunSpells(zeros);
  }

  // Only the last symbol of an encoded text is the one that ends the block.
  lemma {:induction false} EncodeShape(alphabet: seq<byte>, used: nat, list: seq<byte>, zeros: nat, text: seq<byte>)
    requires Covers(alphabet, used, list, text) && used > 0
    ensures EndsOnce(Encode(alphabet, used, list, zeros, text), used)
    decreases |text|
  {
    hide Place, Covers, RunSymbols, ToFront, Low;
    CoversSizes(alphabet, used, list, text);
    FrontLow(zeros, 0, used);
    var front := RunSymbols(zeros);
    if text == [] {
      EndsOnceBehind(front, [used + 1], used);
    } else {
      CoversFirst(alphabet, used, list, text);
      var p := Place(alphabet, list[..used], text[0]);
      CoversNext(alphabet, used, list, text, p);
      hide EndsOnce;
      if p == 0 {
        EncodeShape(alphabet, used, list, zeros + 1, text[1..]);
      } else {
        EncodeShape(alphabet, used, ToFront(list, p), 0, text[1..]);
        FrontLow(zeros, p, used);
        EndsOnceBehind(front + [p + 1], Encode(alphabet, used, ToFront(list, p), 0, text[1..]), used);
      }
    }
  }

  lemma {:induction false} NotDoneBefore(alphabet: seq<byte>, used: nat, dbufSize: nat, s: State, symbols: seq<nat>)
    requires |alphabet| == 256 == |s.list| && used <= 256
    requires symbols != [] && forall i :: 0 <= i < |symbols| - 1 ==> symbols[i] <= used
    requires Undo(alphabet, used, dbufSize, s, symbols).Done?
    ensures Undo(alphabet, used, dbufSize, s, symbols[..|symbols| - 1]).More?
    decreases |symbols|
  {
    if |symbols| > 1 {
      hide ToFront, Repeat;
      var o := Step(alphabet, used, dbufSize, s, symbols[0]);
      NotDoneBefore(alphabet, used, dbufSize, o.state, symbols[1..]);
      assert symbols[..|symbols| - 1][1..] == symbols[1..][..|symbols| - 2];
    }
  }

  // A run of 31 symbols, which no buffer holds, writes outside the buffer where it should be
  // refused,
  lemma LongRunExample(alphabet: seq<byte>, used: nat, dbufSize: nat, s: State, x: nat, rest: seq<nat>)
    requires |alphabet| == 256 == |s.list| && used <= 256 && s.run == NONE && x > 1
    requires |s.out| <= dbufSize < INT_LIMIT
    ensures var digits := Repeat<nat>(0, 30) + [1];
            && Undo(alphabet, used, dbufSize, s, digits + ([x] + rest)) == Overrun
            && Wanted(|s.out|, dbufSize, digits) == Refuses
  {
    hide Undo, CountAll, Actual, RunLength, Repeat;
    var digits := Repeat<nat>(0, 30) + [1];
    LongRuns();
    ActualIs(|s.out|, dbufSize, 0, digits);
    RunThenSymbol(alphabet, used, dbufSize, s, digits, x, rest);
  }

  // and one of 32 symbols is dropped.
  lemma DroppedRunExample(alphabet: seq<byte>, used: nat, dbufSize: nat, s: State)
    requires |alphabet| == 256 == |s.list| && 0 < used <= 256 && s.run == NONE && |s.out| <= dbufSize < INT_LIMIT
    ensures var digits := Repeat<nat>(0, 32);
            && Undo(alphabet, used, dbufSize, s, digits + [used + 1]) == Done(s.out)
            && Wanted(|s.out|, dbufSize, digits) == Refuses
  {
    hide Undo, CountAll, Actual, RunLength, Repeat;
    var digits := Repeat<nat>(0, 32);
    LongRuns();
    ActualIs(|s.out|, dbufSize, 0, digits);
    assert [used + 1] + [] == [used + 1];
    RunThenSymbol(alphabet, used, dbufSize, s, digits, used + 1, []);
    assert s.out + Repeat(alphabet[s.list[0]], 0) == s.out;
    EndUndone(alphabet, used, dbufSize, s);
  }
}
