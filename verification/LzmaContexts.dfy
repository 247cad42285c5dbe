// Which probability a bit of an LZMA packet is coded with. The bits of a packet are named by
// what they say and by what is known before them, and the table of probabilities is proved
// to have one place for each name.
module LzmaContexts {
  import opened Powers
  import opened LzmaCode

  // Bits that answer one question each. low is the position modulo 2^pb; again tells the
  // length of a used distance from that of a new one.
  datatype Flag =
    | IsMatch(state: nat, low: nat)
    | IsAgain(state: nat)
    | NotLast(state: nat)
    | NotSecond(state: nat)
    | NotThird(state: nat)
    | IsLong(state: nat, low: nat)
    | LenNotLow(again: bool)
    | LenNotMid(again: bool)

  // Numbers sent bit by bit. A literal's place is its position modulo 2^lp and the top lc
  // bits of the byte before it.
  datatype Tree =
    | LenLow(again: bool, low: nat)
    | LenMid(again: bool, low: nat)
    | LenHigh(again: bool)
    | DistanceSlot(extra: nat)
    | Footer(slot: nat)
    | Align
    | Plain(low: nat, top: nat)
    | Guessed(low: nat, top: nat, guess: nat)

  // A bit of a number is known by the bits of the number before it.
  datatype Place = Ask(flag: Flag) | Inside(tree: Tree, path: seq<nat>)

  // A bit with a probability, or one without.
  datatype Coded = At(place: Place, bit: nat) | Bare(bit: nat)

  predicate AreBits(s: seq<nat>)
  {
    forall i :: 0 <= i < |s| ==> s[i] <= 1
  }

  function Levels(tree: Tree): nat
  {
    match tree
    case LenLow(_, _) => 3
    case LenMid(_, _) => 3
    case LenHigh(_) => 8
    case DistanceSlot(_) => 6
    case Footer(slot) => SlotBits(slot)
    case Align => 4
    case Plain(_, _) => 8
    case Guessed(_, _, _) => 8
  }

  predicate FlagFits(props: Props, flag: Flag)
  {
    match flag
    case IsMatch(state, low) => state < 12 && low < Pow2(props.pb)
    case IsAgain(state) => state < 12
    case NotLast(state) => state < 12
    case NotSecond(state) => state < 12
    case NotThird(state) => state < 12
    case IsLong(state, low) => state < 12 && low < Pow2(props.pb)
    case LenNotLow(_) => true
    case LenNotMid(_) => true
  }

  predicate TreeFits(props: Props, tree: Tree)
  {
    match tree
    case LenLow(_, low) => low < Pow2(props.pb)
    case LenMid(_, low) => low < Pow2(props.pb)
    case LenHigh(_) => true
    case DistanceSlot(extra) => extra < 4
    case Footer(slot) => 4 <= slot < 14
    case Align => true
    case Plain(low, top) => low < Pow2(props.lp) && top < Pow2(props.lc)
    case Guessed(low, top, guess) => low < Pow2(props.lp) && top < Pow2(props.lc) && guess <= 1
  }

  predicate PlaceFits(props: Props, place: Place)
  {
    match place
    case Ask(flag) => FlagFits(props, flag)
    case Inside(tree, path) => TreeFits(props, tree) && |path| < Levels(tree) && AreBits(path)
  }

  // ----- the table -----

  function LenBase(again: bool): nat
  {
    if again then REP_LEN_CODER else LEN_CODER
  }

  function FlagNumber(flag: Flag): nat
  {
    match flag
    case IsMatch(state, low) => IS_MATCH + 16 * state + low
    case IsAgain(state) => IS_REP + state
    case NotLast(state) => IS_REP_G0 + state
    case NotSecond(state) => IS_REP_G1 + state
    case NotThird(state) => IS_REP_G2 + state
    case IsLong(state, low) => IS_REP_0_LONG + 16 * state + low
    case LenNotLow(again) => LenBase(again)
    case LenNotMid(again) => LenBase(again) + 1
  }

  function TreeBase(props: Props, tree: Tree): nat
  {
    match tree
    case LenLow(again, low) => LenBase(again) + LEN_LOW + 8 * low
    case LenMid(again, low) => LenBase(again) + LEN_MID + 8 * low
    case LenHigh(again) => LenBase(again) + LEN_HIGH
    case DistanceSlot(extra) => POS_SLOT + 64 * extra
    case Footer(slot) => Less(SPEC_POS + SlotBase(slot), slot + 1)
    case Align => ALIGN
    case Plain(low, top) => LITERAL + 768 * Joined(low, top, props.lc)
    case Guessed(low, top, guess) => LITERAL + 768 * Joined(low, top, props.lc) + 256 + 256 * guess
  }

  // The node that the bits lead to, counted level by level from 1.
  function NodeOf(path: seq<nat>): (m: nat)
    ensures m > 0
  {
    if path == [] then 1 else 2 * NodeOf(path[..|path| - 1]) + path[|path| - 1]
  }

  function NumberOf(props: Props, place: Place): nat
  {
    match place
    case Ask(flag) => FlagNumber(flag)
    case Inside(tree, path) => TreeBase(props, tree) + NodeOf(path)
  }

  // ----- no two places share a probability -----

  lemma {:induction false} NodeBounds(path: seq<nat>)
    requires AreBits(path)
    ensures Pow2(|path|) <= NodeOf(path) < 2 * Pow2(|path|)
  {
    if path != [] {
      NodeBounds(path[..|path| - 1]);
    }
  }

  lemma {:induction false} NodesApart(a: seq<nat>, b: seq<nat>)
    requires AreBits(a) && AreBits(b) && NodeOf(a) == NodeOf(b)
    ensures a == b
    decreases |a|
  {
    if a != [] && b != [] {
      var x, y := a[..|a| - 1], b[..|b| - 1];
      LastDigit(NodeOf(x), a[|a| - 1], NodeOf(y), b[|b| - 1]);
      NodesApart(x, y);
      assert a == x + [a[|a| - 1]] && b == y + [b[|b| - 1]];
    }
  }

  lemma LastDigit(p: nat, x: nat, q: nat, y: nat)
    requires 2 * p + x == 2 * q + y && x <= 1 && y <= 1
    ensures p == q && x == y
  {
  }

  // The kinds of places in the order of the table, and where each kind starts.
  function FlagKind(flag: Flag): (k: nat)
    ensures k < KINDS
  {
    match flag
    case IsMatch(_, _) => 0
    case IsAgain(_) => 1
    case NotLast(_) => 2
    case NotSecond(_) => 3
    case NotThird(_) => 4
    case IsLong(_, _) => 5
    case LenNotLow(again) => if again then 14 else 9
    case LenNotMid(again) => if again then 15 else 10
  }

  function TreeKind(tree: Tree): (k: nat)
    ensures k < KINDS
  {
    match tree
    case DistanceSlot(_) => 6
    case Footer(_) => 7
    case Align => 8
    case LenLow(again, _) => if again then 16 else 11
    case LenMid(again, _) => if again then 17 else 12
    case LenHigh(again) => if again then 18 else 13
    case Plain(_, _) => 19
    case Guessed(_, _, _) => 19
  }

  function Kind(place: Place): (k: nat)
    ensures k < KINDS
  {
    match place
    case Ask(flag) => FlagKind(flag)
    case Inside(tree, _) => TreeKind(tree)
  }

  const KINDS := 20

  function Start(k: nat): nat
    requires k < KINDS
  {
    [IS_MATCH, IS_REP, IS_REP_G0, IS_REP_G1, IS_REP_G2, IS_REP_0_LONG, POS_SLOT, SPEC_POS, ALIGN,
     LEN_CODER, LEN_CODER + 1, LEN_CODER + LEN_LOW, LEN_CODER + LEN_MID, LEN_CODER + LEN_HIGH,
     REP_LEN_CODER, REP_LEN_CODER + 1, REP_LEN_CODER + LEN_LOW, REP_LEN_CODER + LEN_MID, REP_LEN_CODER + LEN_HIGH,
     LITERAL][k]
  }

  lemma SmallPosition(props: Props)
    requires InRange(props)
    ensures Pow2(props.pb) <= 16
  {
    Pow2Monotone(props.pb, 4);
    SmallPowers();
  }

  lemma Widths()
    ensures Pow2(3) == 8 && Pow2(4) == 16 && Pow2(6) == 64 && Pow2(8) == 256
  {
    SmallPowers();
    assert Pow2(6) == 4 * Pow2(4);
    assert Pow2(8) == 4 * Pow2(6);
  }

  // The nodes of a tree lie below a power of two.
  lemma NodesBelow(tree: Tree, path: seq<nat>)
    requires AreBits(path) && |path| < Levels(tree)
    ensures 1 <= NodeOf(path) < Pow2(Levels(tree))
  {
    NodeBounds(path);
    Pow2Monotone(|path| + 1, Levels(tree));
  }

  lemma FlagInKind(props: Props, flag: Flag)
    requires InRange(props) && FlagFits(props, flag)
    ensures var k := FlagKind(flag); Start(k) <= FlagNumber(flag) && (k + 1 < KINDS ==> FlagNumber(flag) < Start(k + 1))
  {
    SmallPosition(props);
    hide Pow2;
  }

  // The footers of the ten slots that have their own, one after the other.
  lemma FooterStarts(slot: nat)
    requires 4 <= slot < 14
    ensures Less(SPEC_POS + SlotBase(slot), slot + 1) == SPEC_POS + FooterStart(slot)
    ensures Pow2(SlotBits(slot)) == FooterWidth(slot)
  {
    hide Pow2, SlotBase, SlotBits;
    FooterBits(slot);
    FooterBase(slot, slot % 2);
  }

  lemma FooterBits(slot: nat)
    requires 4 <= slot < 14
    ensures Pow2(SlotBits(slot)) == FooterWidth(slot) && SlotBase(slot) == (2 + slot % 2) * FooterWidth(slot)
  {
    SmallPowers();
    assert Pow2(5) == 32;
    hide Pow2;
    var half := slot / 2;
    assert 2 <= half < 7 && SlotBits(slot) == half - 1;
    assert SlotBase(slot) == (2 + slot % 2) * Pow2(half - 1);
  }

  lemma FooterBase(slot: nat, odd: nat)
    requires 4 <= slot < 14 && odd == slot % 2
    ensures (2 + odd) * FooterWidth(slot) - slot - 1 == FooterStart(slot)
  {
    assert slot == 2 * (slot / 2) + odd;
  }

  function FooterWidth(slot: nat): nat
  {
    if slot < 6 then 2 else if slot < 8 then 4 else if slot < 10 then 8 else if slot < 12 then 16 else 32
  }

  // Where the nodes of a footer start, less one, counted from the first.
  function FooterStart(slot: nat): int
    requires 4 <= slot < 14
  {
    [-1, 0, 1, 4, 7, 14, 21, 36, 51, 82][slot - 4]
  }

  lemma TreeInKind(props: Props, tree: Tree, path: seq<nat>)
    requires InRange(props) && TreeFits(props, tree) && AreBits(path) && |path| < Levels(tree)
    ensures var k, n := TreeKind(tree), TreeBase(props, tree) + NodeOf(path);
            Start(k) <= n && (k + 1 < KINDS ==> n < Start(k + 1))
  {
    hide NodeOf, Joined, Pow2, SlotBase, SlotBits, Levels, Less;
    NodesBelow(tree, path);
    SmallPosition(props);
    BaseInKind(props, tree, NodeOf(path));
  }

  lemma BaseInKind(props: Props, tree: Tree, m: nat)
    requires TreeFits(props, tree) && 1 <= m < Pow2(Levels(tree)) && Pow2(props.pb) <= 16
    ensures var k, n := TreeKind(tree), TreeBase(props, tree) + m;
            Start(k) <= n && (k + 1 < KINDS ==> n < Start(k + 1))
  {
    hide Joined, Pow2, SlotBase, SlotBits, Less;
    Widths();
    if tree.Footer? {
      FooterStarts(tree.slot);
    }
  }

  lemma InKind(props: Props, place: Place)
    requires InRange(props) && PlaceFits(props, place)
    ensures var k, n := Kind(place), NumberOf(props, place); Start(k) <= n && (k + 1 < KINDS ==> n < Start(k + 1))
  {
    hide Pow2, FlagNumber, TreeBase, FlagFits, TreeFits, Start, Levels, AreBits;
    match place
    case Ask(flag) => FlagInKind(props, flag);
    case Inside(tree, path) => TreeInKind(props, tree, path);
  }

  lemma {:induction false} StartsRise(j: nat, k: nat)
    requires j <= k < KINDS
    ensures Start(j) <= Start(k)
  {
    if j < k {
      StartsRise(j, k - 1);
    }
  }

  lemma KindsApart(props: Props, a: Place, b: Place)
    requires InRange(props) && PlaceFits(props, a) && PlaceFits(props, b) && NumberOf(props, a) == NumberOf(props, b)
    ensures Kind(a) == Kind(b)
  {
    hide PlaceFits, NumberOf, Kind, Start;
    InKind(props, a);
    InKind(props, b);
    if Kind(a) < Kind(b) {
      StartsRise(Kind(a) + 1, Kind(b));
    } else if Kind(b) < Kind(a) {
      StartsRise(Kind(b) + 1, Kind(a));
    }
  }

  lemma FlagsApart(props: Props, a: Flag, b: Flag)
    requires InRange(props) && FlagFits(props, a) && FlagFits(props, b)
    requires FlagKind(a) == FlagKind(b) && FlagNumber(a) == FlagNumber(b)
    ensures a == b
  {
    SmallPosition(props);
    hide Pow2;
  }

  lemma TreesApart(props: Props, a: Tree, x: nat, b: Tree, y: nat)
    requires InRange(props) && TreeFits(props, a) && TreeFits(props, b) && TreeKind(a) == TreeKind(b)
    requires 1 <= x < Pow2(Levels(a)) && 1 <= y < Pow2(Levels(b))
    requires TreeBase(props, a) + x == TreeBase(props, b) + y
    ensures a == b && x == y
  {
    Widths();
    if a.Footer? {
      FootersApart(a.slot, x, b.slot, y);
    } else if a.Plain? || a.Guessed? {
      LiteralsApart(props, a, x, b, y);
    } else {
      hide Pow2, SlotBase, SlotBits, Joined;
    }
  }

  lemma FootersApart(s: nat, x: nat, t: nat, y: nat)
    requires 4 <= s < 14 && 4 <= t < 14 && 1 <= x < Pow2(SlotBits(s)) && 1 <= y < Pow2(SlotBits(t))
    requires Less(SPEC_POS + SlotBase(s), s + 1) + x == Less(SPEC_POS + SlotBase(t), t + 1) + y
    ensures s == t && x == y
  {
    FooterStarts(s);
    FooterStarts(t);
    hide Pow2, SlotBase, SlotBits, Less;
    if s < t {
      FootersRise(s, t);
    } else if t < s {
      FootersRise(t, s);
    }
  }

  lemma {:induction false} FootersRise(s: nat, t: nat)
    requires 4 <= s < t < 14
    ensures FooterStart(s) + FooterWidth(s) <= FooterStart(t) + 1
    decreases t
  {
    if s + 1 < t {
      FootersRise(s, t - 1);
    }
  }

  function Offset(tree: Tree, x: nat): nat
  {
    if tree.Guessed? then 256 + 256 * tree.guess + x else x
  }

  lemma LiteralsApart(props: Props, a: Tree, x: nat, b: Tree, y: nat)
    requires TreeFits(props, a) && TreeFits(props, b) && (a.Plain? || a.Guessed?) && (b.Plain? || b.Guessed?)
    requires 1 <= x < 256 && 1 <= y < 256 && TreeBase(props, a) + x == TreeBase(props, b) + y
    ensures a == b && x == y
  {
    hide Joined;
    SevenSixtyEight(Joined(a.low, a.top, props.lc), Offset(a, x), Joined(b.low, b.top, props.lc), Offset(b, y));
    JoinedTells(a.low, a.top, b.low, b.top, props.lc);
  }

  lemma SevenSixtyEight(i: nat, x: nat, j: nat, y: nat)
    requires x < 768 && y < 768 && 768 * i + x == 768 * j + y
    ensures i == j && x == y
  {
  }

  lemma JoinedTells(h: nat, l: nat, h': nat, l': nat, bits: nat)
    requires l < Pow2(bits) && l' < Pow2(bits)
    ensures Joined(h, l, bits) == Joined(h', l', bits) <==> h == h' && l == l'
  {
    DivModUnique(Joined(h, l, bits), h, Pow2(bits), l);
    DivModUnique(Joined(h', l', bits), h', Pow2(bits), l');
  }

  // Two bits share a probability only if they say the same with the same known before.
  lemma PlacesApart(props: Props, a: Place, b: Place)
    requires InRange(props) && PlaceFits(props, a) && PlaceFits(props, b)
    ensures NumberOf(props, a) == NumberOf(props, b) <==> a == b
  {
    if NumberOf(props, a) == NumberOf(props, b) {
      KindsApart(props, a, b);
      if a.Ask? {
        assert b.Ask? by {
          hide Pow2;
        }
        FlagsApart(props, a.flag, b.flag);
      } else {
        assert b.Inside?;
        NodesBelow(a.tree, a.path);
        NodesBelow(b.tree, b.path);
        TreesApart(props, a.tree, NodeOf(a.path), b.tree, NodeOf(b.path));
        NodesApart(a.path, b.path);
      }
    }
  }
}
