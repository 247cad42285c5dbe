// The digest of a message from the test suite of RFC 1321, section A.5, step by step.
module Md5Example {
  import opened Bytes
  import opened Words
  import opened Md5Rounds
  import opened Md5
  import R = RawWords

  // The one block of the message "a".
  function Block(): (b: seq<Word>)
    ensures |b| == 16
  {
    [Word(0x8061), ZERO, ZERO, ZERO, ZERO, ZERO, ZERO, ZERO, ZERO, ZERO, ZERO, ZERO, ZERO, ZERO, Word(8), ZERO]
  }

  function Of(a: bv32, b: bv32, c: bv32, d: bv32): State
  {
    State(Word(a), Word(b), Word(c), Word(d))
  }

  // ----- turning by one place and by four -----

  function One(w: bv32): bv32
  {
    (w << 1) | (w >> 31)
  }

  function Four(w: bv32): bv32
  {
    (w << 4) | (w >> 28)
  }

  lemma Downs(w: bv32)
    ensures R.Down(w, 28) == w >> 28 && R.Down(w, 31) == w >> 31
  {
    hide R.Down, R.Half;
    R.DownFour(w, 4);
    R.DownFour(w, 8);
    R.DownFour(w, 12);
    R.DownFour(w, 16);
    R.DownFour(w, 20);
    R.DownFour(w, 24);
    R.DownFour(w, 28);
    R.DownOne(w, 29);
    R.DownOne(w, 30);
    R.DownOne(w, 31);
    DownsOf(w);
  }

  lemma DownsOf(w: bv32)
    ensures w >> 4 >> 4 >> 4 >> 4 >> 4 >> 4 >> 4 == w >> 28
    ensures R.Half(R.Half(R.Half(w >> 28))) == w >> 31
  {
  }

  lemma OneIs(w: bv32)
    ensures RotateLeft(Word(w), 1) == Word(One(w))
  {
    hide R.Down, R.Up;
    Downs(w);
    R.UpOne(w, 1);
  }

  lemma FourIs(w: bv32)
    ensures RotateLeft(Word(w), 4) == Word(Four(w))
  {
    hide R.Down, R.Up;
    Downs(w);
    R.UpFour(w, 4);
  }

  // w, turned by s places.
  function Turned(w: bv32, s: nat): bv32
    decreases s
  {
    if s >= 4 then Turned(Four(w), s - 4) else if s > 0 then Turned(One(w), s - 1) else w
  }

  lemma {:induction false} TurnedIs(w: bv32, s: nat)
    requires s <= BITS
    ensures RotateLeft(Word(w), s) == Word(Turned(w, s))
    decreases s
  {
    hide One, Four, RotateLeft;
    if s >= 4 {
      FourIs(w);
      TurnedIs(Four(w), s - 4);
      RotateAdd(Word(w), 4, s - 4);
    } else if s > 0 {
      OneIs(w);
      TurnedIs(One(w), s - 1);
      RotateAdd(Word(w), 1, s - 1);
    } else {
      TurnedNothing(w);
    }
  }

  lemma TurnedNothing(w: bv32)
    ensures RotateLeft(Word(w), 0) == Word(w)
  {
    hide BitAt, RotateLeft;
    forall i | 0 <= i < BITS ensures BitAt(RotateLeft(Word(w), 0), i) <==> BitAt(Word(w), i) {
      RotateBit(Word(w), 0, i);
      assert (i + BITS - 0) % BITS == i;
    }
    WordsEqual(RotateLeft(Word(w), 0), Word(w));
  }

  // ----- one step -----

  function Raw(i: nat, b: bv32, c: bv32, d: bv32): bv32
  {
    if i < 16 then RawF(b, c, d) else if i < 32 then RawG(b, c, d) else if i < 48 then RawH(b, c, d) else RawI(b, c, d)
  }

  function RawF(b: bv32, c: bv32, d: bv32): bv32 { R.Or(R.And(b, c), R.And(R.Not(b), d)) }

  function RawG(b: bv32, c: bv32, d: bv32): bv32 { R.Or(R.And(b, d), R.And(c, R.Not(d))) }

  function RawH(b: bv32, c: bv32, d: bv32): bv32 { R.Xor(R.Xor(b, c), d) }

  function RawI(b: bv32, c: bv32, d: bv32): bv32 { R.Xor(c, R.Or(b, R.Not(d))) }

  lemma RawFIs(b: bv32, c: bv32, d: bv32)
    ensures F(Word(b), Word(c), Word(d)) == Word(RawF(b, c, d))
  {
    hide R.And, R.Or, R.Xor, R.Not;
  }

  lemma RawGIs(b: bv32, c: bv32, d: bv32)
    ensures G(Word(b), Word(c), Word(d)) == Word(RawG(b, c, d))
  {
    hide R.And, R.Or, R.Xor, R.Not;
  }

  lemma RawHIs(b: bv32, c: bv32, d: bv32)
    ensures H(Word(b), Word(c), Word(d)) == Word(RawH(b, c, d))
  {
    hide R.And, R.Or, R.Xor, R.Not;
  }

  lemma RawIIs(b: bv32, c: bv32, d: bv32)
    ensures I(Word(b), Word(c), Word(d)) == Word(RawI(b, c, d))
  {
    hide R.And, R.Or, R.Xor, R.Not;
  }

  lemma RawIs(i: nat, b: bv32, c: bv32, d: bv32)
    ensures Mixed(i, Word(b), Word(c), Word(d)) == Word(Raw(i, b, c, d))
  {
    hide F, G, H, I, RawF, RawG, RawH, RawI;
    RawFIs(b, c, d);
    RawGIs(b, c, d);
    RawHIs(b, c, d);
    RawIIs(b, c, d);
  }

  // What step i takes: which word of the block, its value, the constant and the shift.
  predicate Given(i: nat, k: nat, m: bv32, t: bv32, s: nat)
  {
    i < 64 && k == WordIndex(i) && t == T(i) && s == Shift(i) && Block()[k] == Word(m)
  }

  function Sum(a: bv32, b: bv32): bv32
  {
    Plus(Word(a), Word(b)).raw
  }

  lemma SumIs(a: bv32, b: bv32)
    ensures Plus(Word(a), Word(b)) == Word(Sum(a, b))
  {
    hide Plus;
  }

  lemma SteppedIs(f: bv32, a: bv32, b: bv32, m: bv32, t: bv32, s: nat, sum: bv32)
    requires s <= BITS && sum == Sum(a, Sum(f, Sum(m, t)))
    ensures Stepped(Word(f), Word(a), Word(b), Plus(Word(m), Word(t)), s) == Word(Sum(Turned(sum, s), b))
  {
    hide RotateLeft, Turned, Plus, Sum;
    SumIs(m, t);
    SumIs(f, Sum(m, t));
    SumIs(a, Sum(f, Sum(m, t)));
    TurnedIs(sum, s);
    SumIs(Turned(sum, s), b);
  }

  // Step i, from the four words before it to the one that is made.
  lemma StepTo(i: nat, k: nat, m: bv32, t: bv32, s: nat, a: bv32, b: bv32, c: bv32, d: bv32, sum: bv32, r: bv32)
    requires Given(i, k, m, t, s) && Steps(START, Block(), i) == Of(a, b, c, d)
    requires sum == Sum(a, Sum(Raw(i, b, c, d), Sum(m, t))) && r == Turned(sum, s)
    ensures Steps(START, Block(), i + 1) == Of(d, Sum(r, b), b, c)
  {
    hide Mixed, Raw, T, TGroup, Block, Stepped, Plus, Sum, Turned, WordIndex, Shift;
    RawIs(i, b, c, d);
    SteppedIs(Raw(i, b, c, d), a, b, m, t, s, sum);
  }

  // ----- the steps -----

  lemma Data4()
    ensures Given(0, 0, 0x8061, 0xd76aa478, 7)
    ensures Given(1, 1, 0x0, 0xe8c7b756, 12)
    ensures Given(2, 2, 0x0, 0x242070db, 17)
    ensures Given(3, 3, 0x0, 0xc1bdceee, 22)
  {
    hide Steps;
  }

  lemma StepsTo4()
    requires Steps(START, Block(), 0) == Of(0x67452301, 0xefcdab89, 0x98badcfe, 0x10325476)
    ensures Steps(START, Block(), 4) == Of(0xa56017f4, 0x607d9686, 0xe65857a7, 0xf2d58361)
  {
    hide Steps, Given;
    Data4();
    StepTo(0, 0, 0x8061, 0xd76aa478, 7, 0x67452301, 0xefcdab89, 0x98badcfe, 0x10325476,
           0xd76b24d8, 0xb5926c6b);
    StepTo(1, 1, 0x0, 0xe8c7b756, 12, 0x10325476, 0xa56017f4, 0xefcdab89, 0x98badcfe,
           0xb6d4d756, 0x4d756b6d);
    StepTo(2, 2, 0x0, 0x242070db, 17, 0x98badcfe, 0xf2d58361, 0xa56017f4, 0xefcdab89,
           0x6a2379c1, 0xf382d446);
    StepTo(3, 3, 0x0, 0xc1bdceee, 22, 0xefcdab89, 0xe65857a7, 0xf2d58361, 0xa56017f4,
           0x94fb7de8, 0x7a253edf);
  }

  lemma Data8()
    ensures Given(4, 4, 0x0, 0xf57c0faf, 7)
    ensures Given(5, 5, 0x0, 0x4787c62a, 12)
    ensures Given(6, 6, 0x0, 0xa8304613, 17)
    ensures Given(7, 7, 0x0, 0xfd469501, 22)
  {
    hide Steps;
  }

  lemma StepsTo8()
    requires Steps(START, Block(), 4) == Of(0xa56017f4, 0x607d9686, 0xe65857a7, 0xf2d58361)
    ensures Steps(START, Block(), 8) == Of(0x3a9d5bcc, 0xa8af6da5, 0xd31ddc83, 0xe0a07db7)
  {
    hide Steps, Given;
    Data8();
    StepTo(4, 4, 0x0, 0xf57c0faf, 7, 0xa56017f4, 0x607d9686, 0xe65857a7, 0xf2d58361,
           0x8db43f8a, 0xda1fc546);
    StepTo(5, 5, 0x0, 0x4787c62a, 12, 0xf2d58361, 0x3a9d5bcc, 0x607d9686, 0xe65857a7,
           0x1eba6032, 0xa60321eb);
    StepTo(6, 6, 0x0, 0xa8304613, 17, 0xe65857a7, 0xe0a07db7, 0x3a9d5bcc, 0x607d9686,
           0xaf66793e, 0xf27d5ecc);
    StepTo(7, 7, 0x0, 0xfd469501, 22, 0x607d9686, 0xd31ddc83, 0xe0a07db7, 0x3a9d5bcc,
           0x46448b56, 0xd5919122);
  }

  lemma Data12()
    ensures Given(8, 8, 0x0, 0x698098d8, 7)
    ensures Given(9, 9, 0x0, 0x8b44f7af, 12)
    ensures Given(10, 10, 0x0, 0xffff5bb1, 17)
    ensures Given(11, 11, 0x0, 0x895cd7be, 22)
  {
    hide Steps;
  }

  lemma StepsTo12()
    requires Steps(START, Block(), 8) == Of(0x3a9d5bcc, 0xa8af6da5, 0xd31ddc83, 0xe0a07db7)
    ensures Steps(START, Block(), 12) == Of(0xbe580957, 0x68493d6a, 0xf5fdd933, 0xf386bea6)
  {
    hide Steps, Given;
    Data12();
    StepTo(8, 8, 0x0, 0x698098d8, 7, 0x3a9d5bcc, 0xa8af6da5, 0xd31ddc83, 0xe0a07db7,
           0x642b5137, 0x15a89bb2);
    StepTo(9, 9, 0x0, 0x8b44f7af, 12, 0xe0a07db7, 0xbe580957, 0xa8af6da5, 0xd31ddc83,
           0x54f352eb, 0x352eb54f);
    StepTo(10, 10, 0x0, 0xffff5bb1, 17, 0xd31ddc83, 0xf386bea6, 0xbe580957, 0xa8af6da5,
           0x8d46813b, 0x02771a8d);
    StepTo(11, 11, 0x0, 0x895cd7be, 22, 0xa8af6da5, 0xf5fdd933, 0xf386bea6, 0xbe580957,
           0x2d90ddc9, 0x724b6437);
  }

  lemma Data16()
    ensures Given(12, 12, 0x0, 0x6b901122, 7)
    ensures Given(13, 13, 0x0, 0xfd987193, 12)
    ensures Given(14, 14, 0x8, 0xa679438e, 17)
    ensures Given(15, 15, 0x0, 0x49b40821, 22)
  {
    hide Steps;
  }

  lemma StepsTo16()
    requires Steps(START, Block(), 12) == Of(0xbe580957, 0x68493d6a, 0xf5fdd933, 0xf386bea6)
    ensures Steps(START, Block(), 16) == Of(0x44244cf8, 0xf01e3ce2, 0x6360a45f, 0xd0fe9b27)
  {
    hide Steps, Given;
    Data16();
    StepTo(12, 12, 0x0, 0x6b901122, 7, 0xbe580957, 0x68493d6a, 0xf5fdd933, 0xf386bea6,
           0x1db7b61f, 0xdbdb0f8e);
    StepTo(13, 13, 0x0, 0xfd987193, 12, 0xf386bea6, 0x44244cf8, 0x68493d6a, 0xf5fdd933,
           0xe2f8cda4, 0x8cda4e2f);
    StepTo(14, 14, 0x8, 0xa679438e, 17, 0xf5fdd933, 0xd0fe9b27, 0x44244cf8, 0x68493d6a,
           0x049c4931, 0x92620938);
    StepTo(15, 15, 0x0, 0x49b40821, 22, 0x68493d6a, 0x6360a45f, 0xd0fe9b27, 0x44244cf8,
           0xf6620e32, 0x8cbd9883);
  }

  lemma Data20()
    ensures Given(16, 1, 0x0, 0xf61e2562, 5)
    ensures Given(17, 6, 0x0, 0xc040b340, 9)
    ensures Given(18, 11, 0x0, 0x265e5a51, 14)
    ensures Given(19, 0, 0x8061, 0xe9b6c7aa, 20)
  {
    hide Steps;
  }

  lemma StepsTo20()
    requires Steps(START, Block(), 16) == Of(0x44244cf8, 0xf01e3ce2, 0x6360a45f, 0xd0fe9b27)
    ensures Steps(START, Block(), 20) == Of(0x9c341767, 0x8d25cc66, 0xe39ffd23, 0x970ab3a9)
  {
    hide Steps, Given;
    Data20();
    StepTo(16, 1, 0x0, 0xf61e2562, 5, 0x44244cf8, 0xf01e3ce2, 0x6360a45f, 0xd0fe9b27,
           0x2d60aed4, 0xac15da85);
    StepTo(17, 6, 0x0, 0xc040b340, 9, 0xd0fe9b27, 0x9c341767, 0xf01e3ce2, 0x6360a45f,
           0x217d6b4e, 0xfad69c42);
    StepTo(18, 11, 0x0, 0x265e5a51, 14, 0x6360a45f, 0x970ab3a9, 0x9c341767, 0xf01e3ce2,
           0x25e93255, 0x4c95497a);
    StepTo(19, 0, 0x8061, 0xe9b6c7aa, 20, 0xf01e3ce2, 0xe39ffd23, 0x970ab3a9, 0x9c341767,
           0x5cf43a98, 0xa985cf43);
  }

  lemma Data24()
    ensures Given(20, 5, 0x0, 0xd62f105d, 5)
    ensures Given(21, 10, 0x0, 0x02441453, 9)
    ensures Given(22, 15, 0x0, 0xd8a1e681, 14)
    ensures Given(23, 4, 0x0, 0xe7d3fbc8, 20)
  {
    hide Steps;
  }

  lemma StepsTo24()
    requires Steps(START, Block(), 20) == Of(0x9c341767, 0x8d25cc66, 0xe39ffd23, 0x970ab3a9)
    ensures Steps(START, Block(), 24) == Of(0x8c444930, 0x373beab0, 0x2dacb8a3, 0x7267097a)
  {
    hide Steps, Given;
    Data24();
    StepTo(20, 5, 0x0, 0xd62f105d, 5, 0x9c341767, 0x8d25cc66, 0xe39ffd23, 0x970ab3a9,
           0x57f8f3e6, 0xff1e7cca);
    StepTo(21, 10, 0x0, 0x02441453, 9, 0x970ab3a9, 0x8c444930, 0x8d25cc66, 0xe39ffd23,
           0x25731160, 0xe622c04a);
    StepTo(22, 15, 0x0, 0xd8a1e681, 14, 0xe39ffd23, 0x7267097a, 0x8c444930, 0x8d25cc66,
           0xbca6ed16, 0xbb45af29);
    StepTo(23, 4, 0x0, 0xe7d3fbc8, 20, 0x8d25cc66, 0x2dacb8a3, 0x7267097a, 0x8c444930,
           0xf320d098, 0x098f320d);
  }

  lemma Data28()
    ensures Given(24, 9, 0x0, 0x21e1cde6, 5)
    ensures Given(25, 14, 0x8, 0xc33707d6, 9)
    ensures Given(26, 3, 0x0, 0xf4d50d87, 14)
    ensures Given(27, 8, 0x0, 0x455a14ed, 20)
  {
    hide Steps;
  }

  lemma StepsTo28()
    requires Steps(START, Block(), 24) == Of(0x8c444930, 0x373beab0, 0x2dacb8a3, 0x7267097a)
    ensures Steps(START, Block(), 28) == Of(0xf175e3ad, 0xc8f891b4, 0x87b7f475, 0x9d5df67e)
  {
    hide Steps, Given;
    Data28();
    StepTo(24, 9, 0x0, 0x21e1cde6, 5, 0x8c444930, 0x373beab0, 0x2dacb8a3, 0x7267097a,
           0xedd1cfc7, 0xba39f8fd);
    StepTo(25, 14, 0x8, 0xc33707d6, 9, 0x7267097a, 0xf175e3ad, 0x373beab0, 0x2dacb8a3,
           0x68d5f409, 0xabe812d1);
    StepTo(26, 3, 0x0, 0xf4d50d87, 14, 0x2dacb8a3, 0x9d5df67e, 0xf175e3ad, 0x373beab0,
           0xf7dfa967, 0xea59fdf7);
    StepTo(27, 8, 0x0, 0x455a14ed, 20, 0x373beab0, 0x87b7f475, 0x9d5df67e, 0xf175e3ad,
           0x09d3f414, 0x41409d3f);
  }

  lemma Data32()
    ensures Given(28, 13, 0x0, 0xa9e3e905, 5)
    ensures Given(29, 2, 0x0, 0xfcefa3f8, 9)
    ensures Given(30, 7, 0x0, 0x676f02d9, 14)
    ensures Given(31, 12, 0x0, 0x8d2a4c8a, 20)
  {
    hide Steps;
  }

  lemma StepsTo32()
    requires Steps(START, Block(), 28) == Of(0xf175e3ad, 0xc8f891b4, 0x87b7f475, 0x9d5df67e)
    ensures Steps(START, Block(), 32) == Of(0x93842e98, 0x3745961f, 0x94a2ebee, 0xc7043b64)
  {
    hide Steps, Given;
    Data32();
    StepTo(28, 13, 0x0, 0xa9e3e905, 5, 0xf175e3ad, 0xc8f891b4, 0x87b7f475, 0x9d5df67e,
           0x26545ce7, 0xca8b9ce4);
    StepTo(29, 2, 0x0, 0xfcefa3f8, 9, 0x9d5df67e, 0x93842e98, 0xc8f891b4, 0x87b7f475,
           0x6619c006, 0x33800ccc);
    StepTo(30, 7, 0x0, 0x676f02d9, 14, 0x87b7f475, 0xc7043b64, 0x93842e98, 0xc8f891b4,
           0xc22b367a, 0xcd9eb08a);
    StepTo(31, 12, 0x0, 0x8d2a4c8a, 20, 0xc8f891b4, 0x94a2ebee, 0xc7043b64, 0x93842e98,
           0x2aa31a2a, 0xa2a2aa31);
  }

  lemma Data36()
    ensures Given(32, 5, 0x0, 0xfffa3942, 4)
    ensures Given(33, 8, 0x0, 0x8771f681, 11)
    ensures Given(34, 11, 0x0, 0x6d9d6122, 16)
    ensures Given(35, 14, 0x8, 0xfde5380c, 23)
  {
    hide Steps;
  }

  lemma StepsTo36()
    requires Steps(START, Block(), 32) == Of(0x93842e98, 0x3745961f, 0x94a2ebee, 0xc7043b64)
    ensures Steps(START, Block(), 36) == Of(0xbd607d1e, 0xdaf7f308, 0xbf8b4f98, 0xa6f72085)
  {
    hide Steps, Given;
    Data36();
    StepTo(32, 5, 0x0, 0xfffa3942, 4, 0x93842e98, 0x3745961f, 0x94a2ebee, 0xc7043b64,
           0xf861ae6f, 0x861ae6ff);
    StepTo(33, 8, 0x0, 0x8771f681, 11, 0xc7043b64, 0xbd607d1e, 0x3745961f, 0x94a2ebee,
           0x6cfd32d4, 0xe996a367);
    StepTo(34, 11, 0x0, 0x6d9d6122, 16, 0x94a2ebee, 0xa6f72085, 0xbd607d1e, 0x3745961f,
           0x2f131894, 0x18942f13);
    StepTo(35, 14, 0x8, 0xfde5380c, 23, 0x3745961f, 0xbf8b4f98, 0xa6f72085, 0xbd607d1e,
           0xd946e036, 0x1b6ca370);
  }

  lemma Data40()
    ensures Given(36, 1, 0x0, 0xa4beea44, 4)
    ensures Given(37, 4, 0x0, 0x4bdecfa9, 11)
    ensures Given(38, 7, 0x0, 0xf6bb4b60, 16)
    ensures Given(39, 10, 0x0, 0xbebfbc70, 23)
  {
    hide Steps;
  }

  lemma StepsTo40()
    requires Steps(START, Block(), 36) == Of(0xbd607d1e, 0xdaf7f308, 0xbf8b4f98, 0xa6f72085)
    ensures Steps(START, Block(), 40) == Of(0x35a82a7a, 0xcf7e60db, 0x5abe099c, 0x89e0ec97)
  {
    hide Steps, Given;
    Data40();
    StepTo(36, 1, 0x0, 0xa4beea44, 4, 0xbd607d1e, 0xdaf7f308, 0xbf8b4f98, 0xa6f72085,
           0x25ab0377, 0x5ab03772);
    StepTo(37, 4, 0x0, 0x4bdecfa9, 11, 0xa6f72085, 0x35a82a7a, 0xdaf7f308, 0xbf8b4f98,
           0x43aa8718, 0x5438c21d);
    StepTo(38, 7, 0x0, 0xf6bb4b60, 16, 0xbf8b4f98, 0x89e0ec97, 0x35a82a7a, 0xdaf7f308,
           0x1d05d0dd, 0xd0dd1d05);
    StepTo(39, 10, 0x0, 0xbebfbc70, 23, 0xdaf7f308, 0x5abe099c, 0x89e0ec97, 0x35a82a7a,
           0x80ae7ee9, 0x74c0573f);
  }

  lemma Data44()
    ensures Given(40, 13, 0x0, 0x289b7ec6, 4)
    ensures Given(41, 0, 0x8061, 0xeaa127fa, 11)
    ensures Given(42, 3, 0x0, 0xd4ef3085, 16)
    ensures Given(43, 6, 0x0, 0x04881d05, 23)
  {
    hide Steps;
  }

  lemma StepsTo44()
    requires Steps(START, Block(), 40) == Of(0x35a82a7a, 0xcf7e60db, 0x5abe099c, 0x89e0ec97)
    ensures Steps(START, Block(), 44) == Of(0x75c151e2, 0xcc6f5e9e, 0x0c0e6ac4, 0x942e0c86)
  {
    hide Steps, Given;
    Data44();
    StepTo(40, 13, 0x0, 0x289b7ec6, 4, 0x35a82a7a, 0xcf7e60db, 0x5abe099c, 0x89e0ec97,
           0x7a642f10, 0xa642f107);
    StepTo(41, 0, 0x8061, 0xeaa127fa, 11, 0x89e0ec97, 0x75c151e2, 0xcf7e60db, 0x5abe099c,
           0x5483cd97, 0x1e6cbaa4);
    StepTo(42, 3, 0x0, 0xd4ef3085, 16, 0x5abe099c, 0x942e0c86, 0x75c151e2, 0xcf7e60db,
           0x5e3e77e0, 0x77e05e3e);
    StepTo(43, 6, 0x0, 0x04881d05, 23, 0xcf7e60db, 0x0c0e6ac4, 0x942e0c86, 0x75c151e2,
           0xc1e7b580, 0xc060f3da);
  }

  lemma Data48()
    ensures Given(44, 9, 0x0, 0xd9d4d039, 4)
    ensures Given(45, 12, 0x0, 0xe6db99e5, 11)
    ensures Given(46, 15, 0x0, 0x1fa27cf8, 16)
    ensures Given(47, 2, 0x0, 0xc4ac5665, 23)
  {
    hide Steps;
  }

  lemma StepsTo48()
    requires Steps(START, Block(), 44) == Of(0x75c151e2, 0xcc6f5e9e, 0x0c0e6ac4, 0x942e0c86)
    ensures Steps(START, Block(), 48) == Of(0x0ac50e18, 0x918f93bb, 0x8a4a6356, 0x79ca7845)
  {
    hide Steps, Given;
    Data48();
    StepTo(44, 9, 0x0, 0xd9d4d039, 4, 0x75c151e2, 0xcc6f5e9e, 0x0c0e6ac4, 0x942e0c86,
           0xa3e55af7, 0x3e55af7a);
    StepTo(45, 12, 0x0, 0xe6db99e5, 11, 0x942e0c86, 0x0ac50e18, 0xcc6f5e9e, 0x0c0e6ac4,
           0x45ade0ad, 0x6f056a2d);
    StepTo(46, 15, 0x0, 0x1fa27cf8, 16, 0x0c0e6ac4, 0x79ca7845, 0x0ac50e18, 0xcc6f5e9e,
           0xeb11107f, 0x107feb11);
    StepTo(47, 2, 0x0, 0xc4ac5665, 23, 0xcc6f5e9e, 0x8a4a6356, 0x79ca7845, 0x0ac50e18,
           0x8a60ca0e, 0x07453065);
  }

  lemma Data52()
    ensures Given(48, 0, 0x8061, 0xf4292244, 6)
    ensures Given(49, 7, 0x0, 0x432aff97, 10)
    ensures Given(50, 14, 0x8, 0xab9423a7, 15)
    ensures Given(51, 5, 0x0, 0xfc93a039, 21)
  {
    hide Steps;
  }

  lemma StepsTo52()
    requires Steps(START, Block(), 48) == Of(0x0ac50e18, 0x918f93bb, 0x8a4a6356, 0x79ca7845)
    ensures Steps(START, Block(), 52) == Of(0xcab8fe42, 0x1ee405eb, 0x36269c3f, 0x6a4daeee)
  {
    hide Steps, Given;
    Data52();
    StepTo(48, 0, 0x8061, 0xf4292244, 6, 0x0ac50e18, 0x918f93bb, 0x8a4a6356, 0x79ca7845,
           0x1ce4a5aa, 0x39296a87);
    StepTo(49, 7, 0x0, 0x432aff97, 10, 0x79ca7845, 0xcab8fe42, 0x918f93bb, 0x8a4a6356,
           0x2b27e52c, 0x9f94b0ac);
    StepTo(50, 14, 0x8, 0xab9423a7, 15, 0x8a4a6356, 0x6a4daeee, 0xcab8fe42, 0x918f93bb,
           0xdaa397b1, 0xcbd8ed51);
    StepTo(51, 5, 0x0, 0xfc93a039, 21, 0x918f93bb, 0x36269c3f, 0x6a4daeee, 0xcab8fe42,
           0xeb4d6745, 0xe8bd69ac);
  }

  lemma Data56()
    ensures Given(52, 12, 0x0, 0x655b59c3, 6)
    ensures Given(53, 3, 0x0, 0x8f0ccc92, 10)
    ensures Given(54, 10, 0x0, 0xffeff47d, 15)
    ensures Given(55, 1, 0x0, 0x85845dd1, 21)
  {
    hide Steps;
  }

  lemma StepsTo56()
    requires Steps(START, Block(), 52) == Of(0xcab8fe42, 0x1ee405eb, 0x36269c3f, 0x6a4daeee)
    ensures Steps(START, Block(), 56) == Of(0x982c7861, 0x893501c0, 0x71fc7709, 0x6812a362)
  {
    hide Steps, Given;
    Data56();
    StepTo(52, 12, 0x0, 0x655b59c3, 6, 0xcab8fe42, 0x1ee405eb, 0x36269c3f, 0x6a4daeee,
           0xd9e521c9, 0x79487276);
    StepTo(53, 3, 0x0, 0x8f0ccc92, 10, 0x6a4daeee, 0x982c7861, 0x1ee405eb, 0x36269c3f,
           0xc073f98a, 0xcfe62b01);
    StepTo(54, 10, 0x0, 0xffeff47d, 15, 0x36269c3f, 0x6812a362, 0x982c7861, 0x1ee405eb,
           0xa74e13d3, 0x09e9d3a7);
    StepTo(55, 1, 0x0, 0x85845dd1, 21, 0x1ee405eb, 0x71fc7709, 0x6812a362, 0x982c7861,
           0xc455b8b9, 0x17388ab7);
  }

  lemma Data60()
    ensures Given(56, 8, 0x0, 0x6fa87e4f, 6)
    ensures Given(57, 15, 0x0, 0xfe2ce6e0, 10)
    ensures Given(58, 6, 0x0, 0xa3014314, 15)
    ensures Given(59, 13, 0x0, 0x4e0811a1, 21)
  {
    hide Steps;
  }

  lemma StepsTo60()
    requires Steps(START, Block(), 56) == Of(0x982c7861, 0x893501c0, 0x71fc7709, 0x6812a362)
    ensures Steps(START, Block(), 60) == Of(0xfebd62fd, 0xaa4d8ae3, 0x53e33526, 0x28936a74)
  {
    hide Steps, Given;
    Data60();
    StepTo(56, 8, 0x0, 0x6fa87e4f, 6, 0x982c7861, 0x893501c0, 0x71fc7709, 0x6812a362,
           0xf5d62184, 0x7588613d);
    StepTo(57, 15, 0x0, 0xfe2ce6e0, 10, 0x6812a362, 0xfebd62fd, 0x893501c0, 0x71fc7709,
           0xddca7581, 0x29d60777);
    StepTo(58, 6, 0x0, 0xa3014314, 15, 0x71fc7709, 0x28936a74, 0xfebd62fd, 0x893501c0,
           0x9564569f, 0x2b4fcab2);
    StepTo(59, 13, 0x0, 0x4e0811a1, 21, 0x893501c0, 0x53e33526, 0x28936a74, 0xfebd62fd,
           0x52adeab3, 0x566a55bd);
  }

  lemma Data64()
    ensures Given(60, 4, 0x0, 0xf7537e82, 6)
    ensures Given(61, 11, 0x0, 0xbd3af235, 10)
    ensures Given(62, 2, 0x0, 0x2ad7d2bb, 15)
    ensures Given(63, 9, 0x0, 0xeb86d391, 21)
  {
    hide Steps;
  }

  lemma StepsTo64()
    requires Steps(START, Block(), 60) == Of(0xfebd62fd, 0xaa4d8ae3, 0x53e33526, 0x28936a74)
    ensures Steps(START, Block(), 64) == Of(0x52309e0b, 0xb8e94637, 0x49dee633, 0x50f422f3)
  {
    hide Steps, Given;
    Data64();
    StepTo(60, 4, 0x0, 0xf7537e82, 6, 0xfebd62fd, 0xaa4d8ae3, 0x53e33526, 0x28936a74,
           0xa29f8c4c, 0xa7e31328);
    StepTo(61, 11, 0x0, 0xbd3af235, 10, 0x28936a74, 0x52309e0b, 0xaa4d8ae3, 0x53e33526,
           0x3a3fb0e1, 0xfec384e8);
    StepTo(62, 2, 0x0, 0x2ad7d2bb, 15, 0x53e33526, 0x50f422f3, 0x52309e0b, 0xaa4d8ae3,
           0x8681f1d5, 0xf8eac340);
    StepTo(63, 9, 0x0, 0xeb86d391, 21, 0xaa4d8ae3, 0x49dee633, 0x50f422f3, 0x52309e0b,
           0x53002378, 0x6f0a6004);
  }

  lemma AllSteps()
    ensures Steps(START, Block(), 64) == Of(0x52309e0b, 0xb8e94637, 0x49dee633, 0x50f422f3)
  {
    assert Steps(START, Block(), 0) == Of(0x67452301, 0xefcdab89, 0x98badcfe, 0x10325476);
    hide Steps;
    StepsTo4();
    StepsTo8();
    StepsTo12();
    StepsTo16();
    StepsTo20();
    StepsTo24();
    StepsTo28();
    StepsTo32();
    StepsTo36();
    StepsTo40();
    StepsTo44();
    StepsTo48();
    StepsTo52();
    StepsTo56();
    StepsTo60();
    StepsTo64();
  }

  lemma CompressedIs()
    ensures Compress(START, Block()) == Of(0xb975c10c, 0xa8b6f1c0, 0xe299c331, 0x61267769)
  {
    hide Steps, Sum;
    AllSteps();
    SumIs(0x67452301, 0x52309e0b);
    SumIs(0xefcdab89, 0xb8e94637);
    SumIs(0x98badcfe, 0x49dee633);
    SumIs(0x10325476, 0x50f422f3);
    SumsAre();
  }

  lemma SumsAre()
    ensures Sum(0x67452301, 0x52309e0b) == 0xb975c10c
    ensures Sum(0xefcdab89, 0xb8e94637) == 0xa8b6f1c0
    ensures Sum(0x98badcfe, 0x49dee633) == 0xe299c331
    ensures Sum(0x10325476, 0x50f422f3) == 0x61267769
  {
  }

  // ----- the message -----

  lemma {:induction false} ZeroWords(n: nat)
    ensures Decoded(Repeat<byte>(0, 4 * n)) == Repeat(ZERO, n)
    decreases n
  {
    if n > 0 {
      var rest := Repeat<byte>(0, 4 * (n - 1));
      ZeroWords(n - 1);
      RepeatSplit<byte>(0, 4, 4 * (n - 1));
      assert Repeat<byte>(0, 4) == [0, 0, 0, 0];
      assert Repeat<byte>(0, 4 * n)[..4] == [0, 0, 0, 0] && Repeat<byte>(0, 4 * n)[4..] == rest;
    }
  }

  lemma WordAt(a: byte, b: byte, c: byte, d: byte)
    ensures Decoded([a, b, c, d]) == [WordOf(Number([a, b, c, d]))]
  {
    hide WordOf, Number;
    var s := [a, b, c, d];
    assert s[..4] == s && s[4..] == [];
  }

  lemma PaddedIs()
    ensures Padded([0x61]) == [0x61, 0x80, 0, 0] + (Repeat<byte>(0, 52) + ([8, 0, 0, 0] + [0, 0, 0, 0]))
  {
    hide Repeat, WordOf;
    var zeros := Repeat<byte>(0, 52);
    RepeatSplit<byte>(0, 2, 52);
    RepeatAt<byte>(0, 2);
    assert Repeat<byte>(0, 2) == [0, 0];
    assert FourBytes(8) == [8, 0, 0, 0] && FourBytes(0) == [0, 0, 0, 0];
  }

  lemma WordsAre()
    ensures WordOf(Number([0x61, 0x80, 0, 0])) == Word(0x8061)
    ensures WordOf(Number([8, 0, 0, 0])) == Word(8) && WordOf(Number([0, 0, 0, 0])) == ZERO
  {
    assert Number([0x61, 0x80, 0, 0]) == 0x8061 && Number([8, 0, 0, 0]) == 8 && Number([0, 0, 0, 0]) == 0;
  }

  lemma BlockIs()
    ensures Decoded(Padded([0x61])) == Block()
  {
    hide Decoded, Repeat, Padded, WordOf, Number;
    var zeros := Repeat<byte>(0, 52);
    PaddedIs();
    WordsAre();
    DecodedAdd([0x61, 0x80, 0, 0], zeros + ([8, 0, 0, 0] + [0, 0, 0, 0]));
    DecodedAdd(zeros, [8, 0, 0, 0] + [0, 0, 0, 0]);
    DecodedAdd([8, 0, 0, 0], [0, 0, 0, 0]);
    ZeroWords(13);
    RepeatAt(ZERO, 13);
    WordAt(0x61, 0x80, 0, 0);
    WordAt(8, 0, 0, 0);
    WordAt(0, 0, 0, 0);
  }

  lemma DigestIs()
    ensures Digest(Of(0xb975c10c, 0xa8b6f1c0, 0xe299c331, 0x61267769))
         == [0x0c, 0xc1, 0x75, 0xb9, 0xc0, 0xf1, 0xb6, 0xa8, 0x31, 0xc3, 0x99, 0xe2, 0x69, 0x77, 0x26, 0x61]
  {
  }

  // The digest of "a".
  lemma DigestExample()
    ensures Hash([0x61])
         == [0x0c, 0xc1, 0x75, 0xb9, 0xc0, 0xf1, 0xb6, 0xa8, 0x31, 0xc3, 0x99, 0xe2, 0x69, 0x77, 0x26, 0x61]
  {
    hide Compress, Decoded, Digest, Repeat;
    BlockIs();
    CompressedIs();
    DigestIs();
    FoldOne(START, [], Padded([0x61]));
    assert [] + Padded([0x61]) == Padded([0x61]);
  }
}
