// The run counters of the bzip2 decoder. A run's length is spelled in bijective base two, and
// counted in 32-bit ints, which are taken to wrap around.
module RunCounters {
  import opened Bytes
  import opened Powers

  const INT_LIMIT := 0x80000000

  // The place value, which is 0 when no run is open, and the length so far.
  datatype Counters = Counters(runPos: int, t: int)

  const NONE := Counters(0, 0)

  // One more digit: RUNA is 1 and RUNB is 2, shifted to the place.
  function CountOne(c: Counters, digit: nat): (c': Counters)
    ensures -INT_LIMIT <= c'.t < INT_LIMIT
  {
    var open := if c.runPos == 0 then Counters(1, 0) else c;
    Counters(Signed(2 * open.runPos), Signed(open.t + if digit == 0 then open.runPos else Signed(2 * open.runPos)))
  }

  function CountAll(c: Counters, digits: seq<nat>): (c': Counters)
    ensures digits != [] ==> -INT_LIMIT <= c'.t < INT_LIMIT
    decreases |digits|
  {
    if digits == [] then c
    else CountAll(CountOne(c, digits[0]), digits[1..])
  }

  predicate IsRun(digits: seq<nat>)
  {
    forall i :: 0 <= i < |digits| ==> digits[i] <= 1
  }

  // The length that a run spells, least significant digit first.
  function RunLength(digits: seq<nat>): (n: nat)
    ensures digits != [] ==> n > 0
  {
    if digits == [] then 0 else digits[0] + 1 + 2 * RunLength(digits[1..])
  }

  // The run that spells a length.
  function RunSymbols(n: nat): (digits: seq<nat>)
  {
    if n == 0 then [] else if n % 2 == 1 then [0] + RunSymbols((n - 1) / 2) else [1] + RunSymbols((n - 2) / 2)
  }

  lemma RunLengthBehind(digit: nat, digits: seq<nat>)
    ensures RunLength([digit] + digits) == digit + 1 + 2 * RunLength(digits)
  {
    assert ([digit] + digits)[1..] == digits;
  }

  lemma {:induction false} RunSpells(n: nat)
    ensures IsRun(RunSymbols(n)) && RunLength(RunSymbols(n)) == n
  {
    if n > 0 {
      var digit, m := if n % 2 == 1 then 0 else 1, if n % 2 == 1 then (n - 1) / 2 else (n - 2) / 2;
      RunSpells(m);
      RunLengthBehind(digit, RunSymbols(m));
    }
  }

  // There is only one such run.
  lemma {:induction false} RunOfLength(digits: seq<nat>)
    requires IsRun(digits)
    ensures RunSymbols(RunLength(digits)) == digits
  {
    hide RunSymbols;
    if digits == [] {
      NoSymbols();
    } else {
      RunOfLength(digits[1..]);
      SymbolsBehind(digits[0], RunLength(digits[1..]));
      assert digits == [digits[0]] + digits[1..];
    }
  }

  lemma NoSymbols()
    ensures RunSymbols(0) == []
  {
  }

  lemma SymbolsBehind(digit: nat, m: nat)
    requires digit <= 1
    ensures RunSymbols(digit + 1 + 2 * m) == [digit] + RunSymbols(m)
  {
    var n := digit + 1 + 2 * m;
    assert (n - 1) / 2 == m || digit == 1;
    assert (n - 2) / 2 == m || digit == 0;
  }

  lemma {:induction false} RunBounds(digits: seq<nat>)
    requires IsRun(digits)
    ensures Pow2(|digits|) - 1 <= RunLength(digits) <= 2 * Pow2(|digits|) - 2
  {
    if digits != [] {
      RunBounds(digits[1..]);
    }
  }

  lemma ShortRun(n: nat)
    requires n < INT_LIMIT
    ensures |RunSymbols(n)| < 32
  {
    hide Pow2, RunSymbols;
    RunSpells(n);
    RunBounds(RunSymbols(n));
    PowerValues();
    if |RunSymbols(n)| >= 32 {
      Pow2Monotone(32, |RunSymbols(n)|);
    }
  }

  // ----- what the counters hold -----

  // Up to 31 digits on, the counters hold the place value and the length, as far as 32 bits can.
  lemma {:induction false} CountFrom(c: Counters, place: nat, start: int, digits: seq<nat>)
    requires IsRun(digits) && place + |digits| <= 32
    requires c == Counters(Signed(Pow2(place)), Signed(start))
    ensures CountAll(c, digits)
         == Counters(Signed(Pow2(place + |digits|)), Signed(start + Pow2(place) * RunLength(digits)))
    decreases |digits|
  {
    hide Pow2, Signed;
    if digits == [] {
      assert Pow2(place) * 0 == 0;
    } else {
      var w, d, m := Pow2(place), digits[0], RunLength(digits[1..]);
      PlaceOpen(place);
      PlaceNext(place);
      SignedDigit(w, start, d);
      var next := start + (d + 1) * w;
      CountFrom(CountOne(c, d), place + 1, next, digits[1..]);
      Triple(2, w, m);
      Distribute(d + 1, 2 * m, w);
      Triple(w, 2, m);
      Commute(w, d + 1 + 2 * m);
    }
  }

  lemma Commute(a: int, b: int)
    ensures a * b == b * a
  {
  }

  lemma PlaceNext(place: nat)
    ensures Pow2(place + 1) == 2 * Pow2(place)
  {
  }

  lemma PlaceOpen(place: nat)
    requires place < 32
    ensures Signed(Pow2(place)) != 0
  {
    hide Pow2;
    Pow2Monotone(place, 31);
    PowerValues();
  }

  // One digit, where the counters may have wrapped.
  lemma SignedDigit(w: int, start: int, d: nat)
    requires d <= 1 && Signed(w) != 0
    ensures CountOne(Counters(Signed(w), Signed(start)), d) == Counters(Signed(2 * w), Signed(start + (d + 1) * w))
  {
    SignedDouble(w);
    hide Signed;
    var p := Signed(w);
    if d == 0 {
      SignedSum(start, p);
      SignedSum(w, start);
    } else {
      SignedSum(start, Signed(2 * p));
      SignedSum(2 * w, start);
    }
  }

  // From no run: the counters wrap with the place value, and start again when it is gone.
  function Kept(digits: seq<nat>): (kept: seq<nat>)
    ensures |kept| < 32 && |kept| == |digits| % 32 && (IsRun(digits) ==> IsRun(kept))
    ensures |digits| < 32 ==> kept == digits
    decreases |digits|
  {
    if |digits| < 32 then digits else Kept(digits[32..])
  }

  lemma StartsOpen(t: int, digits: seq<nat>)
    requires digits != []
    ensures CountAll(Counters(0, t), digits) == CountAll(Counters(1, 0), digits)
  {
  }

  lemma {:induction false} CountAppend(c: Counters, a: seq<nat>, b: seq<nat>)
    ensures CountAll(c, a + b) == CountAll(CountAll(c, a), b)
    decreases |a|
  {
    hide CountOne;
    if a == [] {
      assert a + b == b;
    } else {
      assert (a + b)[0] == a[0] && (a + b)[1..] == a[1..] + b;
      CountAppend(CountOne(c, a[0]), a[1..], b);
    }
  }

  // What the counters hold after any run.
  lemma {:induction false} CountersAre(t: int, digits: seq<nat>)
    requires IsRun(digits)
    ensures var c, kept := CountAll(Counters(0, t), digits), Kept(digits);
            if kept == [] then c.runPos == 0
            else c == Counters(Signed(Pow2(|kept|)), Signed(RunLength(kept))) && c.runPos != 0
    decreases |digits|
  {
    hide CountOne, Signed, Pow2, RunLength;
    if 0 < |digits| < 32 {
      Whole(t, digits);
      PlaceOpen(|digits|);
    } else if |digits| >= 32 {
      var a, b := digits[..32], digits[32..];
      assert digits == a + b;
      CountAppend(Counters(0, t), a, b);
      Whole(t, a);
      NoneLeft();
      CountersAre(CountAll(Counters(0, t), a).t, b);
    }
  }

  lemma NoneLeft()
    ensures Signed(Pow2(32)) == 0
  {
    hide Pow2;
    PowerValues();
  }

  lemma OnceSo(w: int, n: int)
    requires w == 1
    ensures w * n == n
  {
  }

  lemma Whole(t: int, digits: seq<nat>)
    requires IsRun(digits) && 0 < |digits| <= 32
    ensures CountAll(Counters(0, t), digits) == Counters(Signed(Pow2(|digits|)), Signed(RunLength(digits)))
  {
    hide CountOne, CountAll, Signed, Pow2, RunLength, IsRun;
    StartsOpen(t, digits);
    UnitCounters();
    CountFrom(Counters(1, 0), 0, 0, digits);
    OnceSo(Pow2(0), RunLength(digits));
  }

  lemma UnitCounters()
    ensures Counters(1, 0) == Counters(Signed(Pow2(0)), Signed(0)) && Pow2(0) == 1
  {
  }

  // The counters of all runs of n symbols are exact if and only if n is at most 30.
  lemma CountersExact(n: nat)
    ensures (forall digits :: IsRun(digits) && |digits| == n ==> CountAll(NONE, digits).t == RunLength(digits)) <==>
              n <= 30
  {
    hide CountAll, Pow2, RunLength, Signed;
    if n <= 30 {
      forall digits | IsRun(digits) && |digits| == n ensures CountAll(NONE, digits).t == RunLength(digits) {
        if n == 0 {
          NothingCounted(digits);
        } else {
          Whole(0, digits);
          RunBounds(digits);
          Pow2Monotone(n, 30);
          PowerValues();
          SignedSmall(RunLength(digits));
        }
      }
    } else {
      var digits := Repeat<nat>(1, n);
      TwosAre(n);
      Pow2Monotone(31, n);
      PowerValues();
      assert CountAll(NONE, digits).t != RunLength(digits);
    }
  }

  lemma NothingCounted(digits: seq<nat>)
    requires digits == []
    ensures CountAll(NONE, digits) == NONE && RunLength(digits) == 0
  {
  }

  lemma {:induction false} TwosAre(n: nat)
    ensures IsRun(Repeat<nat>(1, n)) && RunLength(Repeat<nat>(1, n)) == 2 * Pow2(n) - 2
  {
    if n > 0 {
      TwosAre(n - 1);
    }
  }

  lemma {:induction false} OnesAre(n: nat)
    ensures IsRun(Repeat<nat>(0, n)) && RunLength(Repeat<nat>(0, n)) == Pow2(n) - 1
  {
    if n > 0 {
      OnesAre(n - 1);
    }
  }

  lemma {:induction false} OnesThenTwo(n: nat)
    ensures IsRun(Repeat<nat>(0, n) + [1]) && RunLength(Repeat<nat>(0, n) + [1]) == 3 * Pow2(n) - 1
  {
    if n > 0 {
      OnesThenTwo(n - 1);
      Regroup([0 as nat], Repeat<nat>(0, n - 1), [1]);
      RunLengthBehind(0, Repeat<nat>(0, n - 1) + [1]);
    }
  }

  // A run of 31 symbols and one of 32, of which nothing is kept.
  lemma LongRuns()
    ensures RunLength(Repeat<nat>(0, 30) + [1]) == 0xBFFFFFFF && RunLength(Repeat<nat>(0, 32)) == 0xFFFFFFFF
    ensures IsRun(Repeat<nat>(0, 30) + [1]) && IsRun(Repeat<nat>(0, 32))
  {
    hide Pow2, RunLength, IsRun;
    OnesThenTwo(30);
    OnesAre(32);
    PowerValues();
  }

  // ----- what a run does at the symbol after it -----

  // It appends so many bytes, or is refused, or writes outside the buffer.
  datatype Effect = Appends(n: nat) | Refuses | Overruns

  // What the code does: the test is on ints, and so is the count of bytes to write.
  function Actual(count: nat, dbufSize: nat, c: Counters): Effect
  {
    if c.runPos == 0 then Appends(0)
    else if Signed(count + c.t) >= dbufSize then Refuses
    else if c.t < 0 || count + c.t >= dbufSize then Overruns
    else Appends(c.t)
  }

  // What it is meant to do.
  function Wanted(count: nat, dbufSize: nat, digits: seq<nat>): Effect
  {
    if digits != [] && count + RunLength(digits) >= dbufSize then Refuses else Appends(RunLength(digits))
  }

  lemma ActualIs(count: nat, dbufSize: nat, t: int, digits: seq<nat>)
    requires IsRun(digits) && count <= dbufSize < INT_LIMIT
    ensures var w := RunLength(Kept(digits));
            Actual(count, dbufSize, CountAll(Counters(0, t), digits))
            == if Kept(digits) == [] then Appends(0)
               else if count + w >= INT_LIMIT then Overruns
               else if count + w >= dbufSize then Refuses
               else Appends(w)
  {
    hide CountAll, RunLength, Pow2, Signed;
    var kept := Kept(digits);
    CountersAre(t, digits);
    RunBounds(kept);
    Pow2Monotone(|kept|, 31);
    PowerValues();
    if kept != [] {
      SumOnInts(count, RunLength(kept));
    }
  }

  // The test on ints tells the sum, or passes with a count that is negative or does not fit.
  lemma SumOnInts(count: nat, w: nat)
    requires count < INT_LIMIT && 0 < w < 2 * INT_LIMIT
    ensures count + w < INT_LIMIT ==> Signed(w) == w && Signed(count + Signed(w)) == count + w
    ensures INT_LIMIT <= count + w ==>
              Signed(count + Signed(w)) < count && (Signed(w) < 0 || Signed(w) == w)
  {
    SignedSum(w, count);
  }

  // A run has the effect it is meant to have if and only if the whole sum fits an int or, when
  // the place value has wrapped, what is left of the run is refused too.
  lemma EffectExact(count: nat, dbufSize: nat, digits: seq<nat>)
    requires IsRun(digits) && count <= dbufSize < INT_LIMIT
    ensures Actual(count, dbufSize, CountAll(NONE, digits)) == Wanted(count, dbufSize, digits) <==>
              if |digits| < 32 then count + RunLength(digits) < INT_LIMIT
              else |digits| % 32 != 0 && dbufSize <= count + RunLength(Kept(digits)) < INT_LIMIT
  {
    hide CountAll, Pow2, Actual, Kept;
    ActualIs(count, dbufSize, 0, digits);
    if |digits| >= 32 {
      RunBounds(digits);
      Pow2Monotone(32, |digits|);
      PowerValues();
    }
  }

  // So all runs of n symbols have the right effect if n is at most 29, and of 30 or 31 not all.
  lemma SafeRuns(n: nat, dbufSize: nat)
    requires n < 32 && 2 <= dbufSize < INT_LIMIT / 2
    ensures (forall digits, count: nat :: IsRun(digits) && |digits| == n && count <= dbufSize ==>
               Actual(count, dbufSize, CountAll(NONE, digits)) == Wanted(count, dbufSize, digits)) <==> n <= 29
  {
    hide CountAll, RunLength, Pow2, Actual, Wanted, Kept;
    PowerValues();
    if n <= 29 {
      Pow2Monotone(n, 29);
      forall digits, count: nat | IsRun(digits) && |digits| == n && count <= dbufSize
        ensures Actual(count, dbufSize, CountAll(NONE, digits)) == Wanted(count, dbufSize, digits)
      {
        RunBounds(digits);
        EffectExact(count, dbufSize, digits);
      }
    } else {
      var digits := Repeat<nat>(1, n);
      TwosAre(n);
      Pow2Monotone(30, n);
      EffectExact(2, dbufSize, digits);
      assert Actual(2, dbufSize, CountAll(NONE, digits)) != Wanted(2, dbufSize, digits);
    }
  }
}
