// What the state of the LZMA decoder says about the packets before: the kinds of the last
// ones, as far back as to the third literal behind a copy.
module LzmaStates {
  import opened LzmaCode

  // New distances, used ones, and single bytes from the last distance.
  datatype Sort = Lit | New | Again | Single

  function SortOf(pk: Packet): Sort
  {
    match pk
    case Literal(_) => Lit
    case Match(_, _) => New
    case ShortRep => Single
    case Rep(_, _) => Again
  }

  function Sorts(pks: seq<Packet>): (s: seq<Sort>)
    ensures |s| == |pks|
  {
    seq(|pks|, i requires 0 <= i < |pks| => SortOf(pks[i]))
  }

  // The last packet was a literal, or there was none.
  predicate LitLast(s: seq<Sort>)
  {
    s == [] || s[|s| - 1].Lit?
  }

  // The literals at the end.
  function LitsAtEnd(s: seq<Sort>): (n: nat)
    ensures n <= |s|
  {
    if s == [] || !s[|s| - 1].Lit? then 0 else LitsAtEnd(s[..|s| - 1]) + 1
  }

  // Three kinds of copies are told apart: of a new distance, of a used one, and of a single
  // byte, which counts as a used distance when it is behind another copy.
  function CopyKind(s: seq<Sort>): nat
  {
    if s == [] || s[|s| - 1].New? then 0
    else if s[|s| - 1].Single? && LitLast(s[..|s| - 1]) then 2
    else 1
  }

  // 0 stands for literals only or three at least at the end, 1 to 3 for two literals
  // behind each kind of copy, 4 to 6 for one, 7 to 9 for a copy behind a literal, and 10
  // and 11 for one behind another copy.
  function StateOf(s: seq<Sort>): (state: nat)
    ensures state < 12
  {
    var n := LitsAtEnd(s);
    var copies := s[..|s| - n];
    if copies == [] || n >= 3 then 0
    else if n == 2 then 1 + CopyKind(copies)
    else if n == 1 then 4 + CopyKind(copies)
    else if LitLast(s[..|s| - 1]) then 7 + CopyKind(s)
    else 10 + CopyKind(s)
  }

  function StateAfter(state: nat, sort: Sort): nat
  {
    match sort
    case Lit => AfterLiteral(state)
    case New => After(state, 7, 10)
    case Again => After(state, 8, 11)
    case Single => After(state, 9, 11)
  }

  // Each packet takes the state of the packets before to that with itself.
  lemma StateStep(s: seq<Sort>, sort: Sort)
    ensures StateOf(s + [sort]) == StateAfter(StateOf(s), sort)
    ensures StateOf(s) < 7 <==> LitLast(s)
  {
    var t, n := s + [sort], LitsAtEnd(s);
    assert t[..|s|] == s;
    var copies := s[..|s| - n];
    if sort.Lit? {
      assert t[..|t| - (n + 1)] == copies;
    } else {
      assert t[..|t| - 0] == t;
    }
    if n == 0 && s != [] {
      assert copies == s;
    }
    KindBounds(copies);
    KindBounds(s);
  }

  lemma KindBounds(s: seq<Sort>)
    ensures CopyKind(s) <= 2
    ensures s != [] && !LitLast(s) && !LitLast(s[..|s| - 1]) ==> CopyKind(s) <= 1
  {
  }

  lemma {:induction false} StateTells(s: seq<Sort>, c: Coder, pks: seq<Packet>, dict: nat, size: nat)
    requires Stream(c, pks, dict, size) && c.state == StateOf(s)
    ensures Run(c, pks, dict, size).state == StateOf(s + Sorts(pks))
    decreases |pks|
  {
    hide StateOf, Legal, Coherent, AfterLiteral, After;
    if pks == [] {
      assert s + Sorts(pks) == s;
    } else {
      var sort, c' := SortOf(pks[0]), Next(c, pks[0], dict, size);
      StateStep(s, sort);
      assert c'.state == StateAfter(c.state, sort);
      assert s + Sorts(pks) == s + [sort] + Sorts(pks[1..]);
      if IsEnd(pks[0]) {
        assert Sorts(pks) == [sort];
      } else {
        StateTells(s + [sort], c', pks[1..], dict, size);
      }
    }
  }

  // ----- the last distances -----

  // A distance, and when it was used last.
  datatype Used = Used(dist: nat, time: int)

  predicate LatestFirst(us: seq<Used>)
  {
    forall i, j :: 0 <= i < j < |us| ==> us[i].time > us[j].time
  }

  predicate Stands(us: seq<Used>, reps: seq<nat>, now: int)
  {
    |us| == |reps| && LatestFirst(us) && forall i :: 0 <= i < |us| ==> us[i].dist == reps[i] && us[i].time < now
  }

  // The one that a packet uses, if it uses one: a new distance takes the place of the one
  // that was not used for longest.
  function UsedBy(pk: Packet): nat
  {
    match pk
    case Literal(_) => 4
    case Match(_, _) => 3
    case ShortRep => 0
    case Rep(index, _) => index
  }

  // An entry that is used now goes to the front.
  lemma UsedNow(us: seq<Used>, i: nat, mine: Used, now: int) returns (next: seq<Used>)
    requires i < |us| && LatestFirst(us) && mine.time == now && forall j :: 0 <= j < |us| ==> us[j].time < now
    ensures |next| == |us| && LatestFirst(next) && forall j :: 0 <= j < |next| ==> next[j].time < now + 1
    ensures next[0] == mine
    ensures forall j :: 0 < j < |next| ==> next[j] == us[if j <= i then j - 1 else j]
    ensures multiset(next) == multiset(us[i := mine])
  {
    next := [mine] + us[..i] + us[i + 1..];
    FrontSame(us, i, mine);
  }

  lemma FrontSame(us: seq<Used>, i: nat, mine: Used)
    requires i < |us|
    ensures multiset([mine] + us[..i] + us[i + 1..]) == multiset(us[i := mine])
  {
    assert us[i := mine] == us[..i] + [mine] + us[i + 1..];
  }

  // The distances stand in the order of their last use.
  lemma RepsTell(c: Coder, pk: Packet, dict: nat, size: nat, us: seq<Used>, now: int) returns (next: seq<Used>)
    requires Coherent(c, dict) && Legal(c, pk, dict, size) && !IsEnd(pk) && Stands(us, c.reps, now)
    ensures Stands(next, Next(c, pk, dict, size).reps, now + 1)
    ensures var i := UsedBy(pk);
            if i >= 4 then next == us
            else i < |us| && multiset(next) == multiset(us[i := Used(if pk.Match? then pk.dist else us[i].dist, now)])
  {
    ReachFour(c, dict);
    var i := UsedBy(pk);
    next := us;
    if i < 4 {
      next := UsedNow(us, i, Used(if pk.Match? then pk.dist else us[i].dist, now), now);
      RepsMoved(c, pk, dict, size, i);
    }
  }

  lemma RepsMoved(c: Coder, pk: Packet, dict: nat, size: nat, i: nat)
    requires Coherent(c, dict) && Legal(c, pk, dict, size) && !IsEnd(pk) && i == UsedBy(pk) && i < 4
    ensures var reps := Next(c, pk, dict, size).reps;
            && |reps| == 4 && |c.reps| == 4 && reps[0] == (if pk.Match? then pk.dist else c.reps[i])
            && forall j :: 0 < j < 4 ==> reps[j] == c.reps[if j <= i then j - 1 else j]
  {
    hide After, AfterLiteral, Reach;
  }

  lemma ReachFour(c: Coder, dict: nat)
    requires Coherent(c, dict)
    ensures |c.reps| == 4
  {
  }
}
