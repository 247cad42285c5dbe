// One block of MD5: the unrolled steps, against the table-driven rounds of section 3.4 of
// RFC 1321.
module Md5Rounds {
  import opened Words

  function Plus(v: Word, w: Word): Word
  {
    Word(v.raw + w.raw)
  }

  function RotateLeft(w: Word, s: nat): Word
    requires s <= BITS
  {
    Or(Up(w, s), Down(w, BITS - s))
  }

  // A word is turned: what leaves at the top comes in at the bottom.
  lemma RotateBit(w: Word, s: nat, i: nat)
    requires s <= BITS && i < BITS
    ensures BitAt(RotateLeft(w, s), i) <==> BitAt(w, (i + BITS - s) % BITS)
  {
    hide BitAt, Up, Down, Or;
    BitOr(Up(w, s), Down(w, BITS - s), i);
    UpBit(w, s, i);
    DownBit(w, BITS - s, i);
  }

  lemma RotateAdd(w: Word, m: nat, n: nat)
    requires m + n <= BITS
    ensures RotateLeft(RotateLeft(w, m), n) == RotateLeft(w, m + n)
  {
    hide BitAt, RotateLeft;
    var v, t := RotateLeft(RotateLeft(w, m), n), RotateLeft(w, m + n);
    forall i | 0 <= i < BITS ensures BitAt(v, i) <==> BitAt(t, i) {
      var j := (i + BITS - n) % BITS;
      RotateBit(RotateLeft(w, m), n, i);
      RotateBit(w, m, j);
      RotateBit(w, m + n, i);
      assert (j + BITS - m) % BITS == (i + BITS - (m + n)) % BITS;
    }
    WordsEqual(v, t);
  }

  // ----- the functions and tables of RFC 1321 -----

  function F(x: Word, y: Word, z: Word): Word { Or(And(x, y), And(Not(x), z)) }

  function G(x: Word, y: Word, z: Word): Word { Or(And(x, z), And(y, Not(z))) }

  function H(x: Word, y: Word, z: Word): Word { Xor(Xor(x, y), z) }

  function I(x: Word, y: Word, z: Word): Word { Xor(y, Or(x, Not(z))) }

  // The constants of a group of four steps.
  function TGroup(i: nat): (r: seq<bv32>)
    ensures |r| == 4
  {
    if i < 4 then [0xd76aa478, 0xe8c7b756, 0x242070db, 0xc1bdceee]
    else if i < 8 then [0xf57c0faf, 0x4787c62a, 0xa8304613, 0xfd469501]
    else if i < 12 then [0x698098d8, 0x8b44f7af, 0xffff5bb1, 0x895cd7be]
    else if i < 16 then [0x6b901122, 0xfd987193, 0xa679438e, 0x49b40821]
    else if i < 20 then [0xf61e2562, 0xc040b340, 0x265e5a51, 0xe9b6c7aa]
    else if i < 24 then [0xd62f105d, 0x02441453, 0xd8a1e681, 0xe7d3fbc8]
    else if i < 28 then [0x21e1cde6, 0xc33707d6, 0xf4d50d87, 0x455a14ed]
    else if i < 32 then [0xa9e3e905, 0xfcefa3f8, 0x676f02d9, 0x8d2a4c8a]
    else if i < 36 then [0xfffa3942, 0x8771f681, 0x6d9d6122, 0xfde5380c]
    else if i < 40 then [0xa4beea44, 0x4bdecfa9, 0xf6bb4b60, 0xbebfbc70]
    else if i < 44 then [0x289b7ec6, 0xeaa127fa, 0xd4ef3085, 0x04881d05]
    else if i < 48 then [0xd9d4d039, 0xe6db99e5, 0x1fa27cf8, 0xc4ac5665]
    else if i < 52 then [0xf4292244, 0x432aff97, 0xab9423a7, 0xfc93a039]
    else if i < 56 then [0x655b59c3, 0x8f0ccc92, 0xffeff47d, 0x85845dd1]
    else if i < 60 then [0x6fa87e4f, 0xfe2ce6e0, 0xa3014314, 0x4e0811a1]
    else [0xf7537e82, 0xbd3af235, 0x2ad7d2bb, 0xeb86d391]
  }

  function T(i: nat): bv32
  {
    TGroup(i)[i % 4]
  }

  datatype State = State(a: Word, b: Word, c: Word, d: Word)

  // Step i of the 64: the function, the block word, the constant and the shift.
  function Mixed(i: nat, x: Word, y: Word, z: Word): Word
  {
    if i < 16 then F(x, y, z) else if i < 32 then G(x, y, z) else if i < 48 then H(x, y, z) else I(x, y, z)
  }

  function WordIndex(i: nat): (k: nat)
    ensures k < 16
  {
    (if i < 16 then i else if i < 32 then 5 * i + 1 else if i < 48 then 3 * i + 5 else 7 * i) % 16
  }

  function Shift(i: nat): (s: nat)
    ensures s <= BITS
  {
    if i < 16 then [7, 12, 17, 22][i % 4]
    else if i < 32 then [5, 9, 14, 20][i % 4]
    else if i < 48 then [4, 11, 16, 23][i % 4]
    else [6, 10, 15, 21][i % 4]
  }

  // What one step makes of the word that it replaces.
  function Stepped(f: Word, w: Word, x: Word, data: Word, s: nat): Word
    requires s <= BITS
  {
    Plus(RotateLeft(Plus(w, Plus(f, data)), s), x)
  }

  function Step(st: State, block: seq<Word>, i: nat): State
    requires |block| == 16 && i < 64
  {
    var a := Stepped(Mixed(i, st.b, st.c, st.d), st.a, st.b, Plus(block[WordIndex(i)], Word(T(i))), Shift(i));
    State(st.d, a, st.b, st.c)
  }

  function Steps(st: State, block: seq<Word>, n: nat): State
    requires |block| == 16 && n <= 64
  {
    if n == 0 then st else Step(Steps(st, block, n - 1), block, n - 1)
  }

  function Added(st: State, more: State): State
  {
    State(Plus(st.a, more.a), Plus(st.b, more.b), Plus(st.c, more.c), Plus(st.d, more.d))
  }

  function Compress(st: State, block: seq<Word>): State
    requires |block| == 16
  {
    Added(st, Steps(st, block, 64))
  }

  // ----- the forms used -----

  function F1(x: Word, y: Word, z: Word): Word { Xor(z, And(x, Xor(y, z))) }

  function F2(x: Word, y: Word, z: Word): Word { F1(z, x, y) }

  function F3(x: Word, y: Word, z: Word): Word { Xor(Xor(x, y), z) }

  function F4(x: Word, y: Word, z: Word): Word { Xor(y, Or(x, Not(z))) }

  lemma F1IsF(x: Word, y: Word, z: Word)
    ensures F1(x, y, z) == F(x, y, z)
  {
    hide BitAt, And, Or, Xor, Not;
    forall i | 0 <= i < BITS ensures BitAt(F1(x, y, z), i) <==> BitAt(F(x, y, z), i) {
      BitXor(z, And(x, Xor(y, z)), i);
      BitAnd(x, Xor(y, z), i);
      BitXor(y, z, i);
      BitOr(And(x, y), And(Not(x), z), i);
      BitAnd(x, y, i);
      BitAnd(Not(x), z, i);
      BitNot(x, i);
    }
    WordsEqual(F1(x, y, z), F(x, y, z));
  }

  lemma F2IsG(x: Word, y: Word, z: Word)
    ensures F2(x, y, z) == G(x, y, z)
  {
    hide BitAt, And, Or, Xor, Not, F, F1;
    F1IsF(z, x, y);
    forall i | 0 <= i < BITS ensures BitAt(F(z, x, y), i) <==> BitAt(G(x, y, z), i) {
      FBit(z, x, y, i);
      BitOr(And(x, z), And(y, Not(z)), i);
      BitAnd(x, z, i);
      BitAnd(y, Not(z), i);
      BitNot(z, i);
    }
    WordsEqual(F(z, x, y), G(x, y, z));
  }

  lemma FBit(x: Word, y: Word, z: Word, i: nat)
    requires i < BITS
    ensures BitAt(F(x, y, z), i) <==> if BitAt(x, i) then BitAt(y, i) else BitAt(z, i)
  {
    hide BitAt, And, Or, Not;
    BitOr(And(x, y), And(Not(x), z), i);
    BitAnd(x, y, i);
    BitAnd(Not(x), z, i);
    BitNot(x, i);
  }

  // The form used in step i.
  function Used(i: nat, x: Word, y: Word, z: Word): Word
  {
    if i < 16 then F1(x, y, z) else if i < 32 then F2(x, y, z) else if i < 48 then F3(x, y, z) else F4(x, y, z)
  }

  lemma UsedIsMixed(i: nat, x: Word, y: Word, z: Word)
    ensures Used(i, x, y, z) == Mixed(i, x, y, z)
  {
    hide And, Or, Xor, Not, F, G, F1, F2;
    F1IsF(x, y, z);
    F2IsG(x, y, z);
  }

  lemma StepIs(st0: State, block: seq<Word>, i: nat, st: State, k: nat, t: bv32, s: nat)
    requires |block| == 16 && i < 64 && st == Steps(st0, block, i)
    requires k == WordIndex(i) && t == T(i) && s == Shift(i)
    ensures Steps(st0, block, i + 1)
         == State(st.d, Stepped(Used(i, st.b, st.c, st.d), st.a, st.b, Plus(block[k], Word(t)), s), st.b, st.c)
  {
    hide Stepped, Mixed, Used, Plus, T, TGroup;
    UsedIsMixed(i, st.b, st.c, st.d);
  }

  // Steps 0 to 7.
  method Steps0(ghost st0: State, st: State, block: seq<Word>) returns (r: State)
    requires |block| == 16 && st == Steps(st0, block, 0)
    ensures r == Steps(st0, block, 8)
  {
    hide Steps, Stepped, Plus, F1, F2, F3, F4;
    var a, b, c, d := st.a, st.b, st.c, st.d;
    StepIs(st0, block, 0, State(a, b, c, d), 0, 0xd76aa478, 7);
    a := Stepped(F1(b, c, d), a, b, Plus(block[0], Word(0xd76aa478)), 7);
    StepIs(st0, block, 1, State(d, a, b, c), 1, 0xe8c7b756, 12);
    d := Stepped(F1(a, b, c), d, a, Plus(block[1], Word(0xe8c7b756)), 12);
    StepIs(st0, block, 2, State(c, d, a, b), 2, 0x242070db, 17);
    c := Stepped(F1(d, a, b), c, d, Plus(block[2], Word(0x242070db)), 17);
    StepIs(st0, block, 3, State(b, c, d, a), 3, 0xc1bdceee, 22);
    b := Stepped(F1(c, d, a), b, c, Plus(block[3], Word(0xc1bdceee)), 22);
    StepIs(st0, block, 4, State(a, b, c, d), 4, 0xf57c0faf, 7);
    a := Stepped(F1(b, c, d), a, b, Plus(block[4], Word(0xf57c0faf)), 7);
    StepIs(st0, block, 5, State(d, a, b, c), 5, 0x4787c62a, 12);
    d := Stepped(F1(a, b, c), d, a, Plus(block[5], Word(0x4787c62a)), 12);
    StepIs(st0, block, 6, State(c, d, a, b), 6, 0xa8304613, 17);
    c := Stepped(F1(d, a, b), c, d, Plus(block[6], Word(0xa8304613)), 17);
    StepIs(st0, block, 7, State(b, c, d, a), 7, 0xfd469501, 22);
    b := Stepped(F1(c, d, a), b, c, Plus(block[7], Word(0xfd469501)), 22);
    r := State(a, b, c, d);
  }

  // Steps 8 to 15.
  method Steps8(ghost st0: State, st: State, block: seq<Word>) returns (r: State)
    requires |block| == 16 && st == Steps(st0, block, 8)
    ensures r == Steps(st0, block, 16)
  {
    hide Steps, Stepped, Plus, F1, F2, F3, F4;
    var a, b, c, d := st.a, st.b, st.c, st.d;
    StepIs(st0, block, 8, State(a, b, c, d), 8, 0x698098d8, 7);
    a := Stepped(F1(b, c, d), a, b, Plus(block[8], Word(0x698098d8)), 7);
    StepIs(st0, block, 9, State(d, a, b, c), 9, 0x8b44f7af, 12);
    d := Stepped(F1(a, b, c), d, a, Plus(block[9], Word(0x8b44f7af)), 12);
    StepIs(st0, block, 10, State(c, d, a, b), 10, 0xffff5bb1, 17);
    c := Stepped(F1(d, a, b), c, d, Plus(block[10], Word(0xffff5bb1)), 17);
    StepIs(st0, block, 11, State(b, c, d, a), 11, 0x895cd7be, 22);
    b := Stepped(F1(c, d, a), b, c, Plus(block[11], Word(0x895cd7be)), 22);
    StepIs(st0, block, 12, State(a, b, c, d), 12, 0x6b901122, 7);
    a := Stepped(F1(b, c, d), a, b, Plus(block[12], Word(0x6b901122)), 7);
    StepIs(st0, block, 13, State(d, a, b, c), 13, 0xfd987193, 12);
    d := Stepped(F1(a, b, c), d, a, Plus(block[13], Word(0xfd987193)), 12);
    StepIs(st0, block, 14, State(c, d, a, b), 14, 0xa679438e, 17);
    c := Stepped(F1(d, a, b), c, d, Plus(block[14], Word(0xa679438e)), 17);
    StepIs(st0, block, 15, State(b, c, d, a), 15, 0x49b40821, 22);
    b := Stepped(F1(c, d, a), b, c, Plus(block[15], Word(0x49b40821)), 22);
    r := State(a, b, c, d);
  }

  method Round1(ghost st0: State, st: State, block: seq<Word>) returns (r: State)
    requires |block| == 16 && st == Steps(st0, block, 0)
    ensures r == Steps(st0, block, 16)
  {
    hide Steps;
    r := Steps0(st0, st, block);
    r := Steps8(st0, r, block);
  }

  // Steps 16 to 23.
  method Steps16(ghost st0: State, st: State, block: seq<Word>) returns (r: State)
    requires |block| == 16 && st == Steps(st0, block, 16)
    ensures r == Steps(st0, block, 24)
  {
    hide Steps, Stepped, Plus, F1, F2, F3, F4;
    var a, b, c, d := st.a, st.b, st.c, st.d;
    StepIs(st0, block, 16, State(a, b, c, d), 1, 0xf61e2562, 5);
    a := Stepped(F2(b, c, d), a, b, Plus(block[1], Word(0xf61e2562)), 5);
    StepIs(st0, block, 17, State(d, a, b, c), 6, 0xc040b340, 9);
    d := Stepped(F2(a, b, c), d, a, Plus(block[6], Word(0xc040b340)), 9);
    StepIs(st0, block, 18, State(c, d, a, b), 11, 0x265e5a51, 14);
    c := Stepped(F2(d, a, b), c, d, Plus(block[11], Word(0x265e5a51)), 14);
    StepIs(st0, block, 19, State(b, c, d, a), 0, 0xe9b6c7aa, 20);
    b := Stepped(F2(c, d, a), b, c, Plus(block[0], Word(0xe9b6c7aa)), 20);
    StepIs(st0, block, 20, State(a, b, c, d), 5, 0xd62f105d, 5);
    a := Stepped(F2(b, c, d), a, b, Plus(block[5], Word(0xd62f105d)), 5);
    StepIs(st0, block, 21, State(d, a, b, c), 10, 0x02441453, 9);
    d := Stepped(F2(a, b, c), d, a, Plus(block[10], Word(0x02441453)), 9);
    StepIs(st0, block, 22, State(c, d, a, b), 15, 0xd8a1e681, 14);
    c := Stepped(F2(d, a, b), c, d, Plus(block[15], Word(0xd8a1e681)), 14);
    StepIs(st0, block, 23, State(b, c, d, a), 4, 0xe7d3fbc8, 20);
    b := Stepped(F2(c, d, a), b, c, Plus(block[4], Word(0xe7d3fbc8)), 20);
    r := State(a, b, c, d);
  }

  // Steps 24 to 31.
  method Steps24(ghost st0: State, st: State, block: seq<Word>) returns (r: State)
    requires |block| == 16 && st == Steps(st0, block, 24)
    ensures r == Steps(st0, block, 32)
  {
    hide Steps, Stepped, Plus, F1, F2, F3, F4;
    var a, b, c, d := st.a, st.b, st.c, st.d;
    StepIs(st0, block, 24, State(a, b, c, d), 9, 0x21e1cde6, 5);
    a := Stepped(F2(b, c, d), a, b, Plus(block[9], Word(0x21e1cde6)), 5);
    StepIs(st0, block, 25, State(d, a, b, c), 14, 0xc33707d6, 9);
    d := Stepped(F2(a, b, c), d, a, Plus(block[14], Word(0xc33707d6)), 9);
    StepIs(st0, block, 26, State(c, d, a, b), 3, 0xf4d50d87, 14);
    c := Stepped(F2(d, a, b), c, d, Plus(block[3], Word(0xf4d50d87)), 14);
    StepIs(st0, block, 27, State(b, c, d, a), 8, 0x455a14ed, 20);
    b := Stepped(F2(c, d, a), b, c, Plus(block[8], Word(0x455a14ed)), 20);
    StepIs(st0, block, 28, State(a, b, c, d), 13, 0xa9e3e905, 5);
    a := Stepped(F2(b, c, d), a, b, Plus(block[13], Word(0xa9e3e905)), 5);
    StepIs(st0, block, 29, State(d, a, b, c), 2, 0xfcefa3f8, 9);
    d := Stepped(F2(a, b, c), d, a, Plus(block[2], Word(0xfcefa3f8)), 9);
    StepIs(st0, block, 30, State(c, d, a, b), 7, 0x676f02d9, 14);
    c := Stepped(F2(d, a, b), c, d, Plus(block[7], Word(0x676f02d9)), 14);
    StepIs(st0, block, 31, State(b, c, d, a), 12, 0x8d2a4c8a, 20);
    b := Stepped(F2(c, d, a), b, c, Plus(block[12], Word(0x8d2a4c8a)), 20);
    r := State(a, b, c, d);
  }

  method Round2(ghost st0: State, st: State, block: seq<Word>) returns (r: State)
    requires |block| == 16 && st == Steps(st0, block, 16)
    ensures r == Steps(st0, block, 32)
  {
    hide Steps;
    r := Steps16(st0, st, block);
    r := Steps24(st0, r, block);
  }

  // Steps 32 to 39.
  method Steps32(ghost st0: State, st: State, block: seq<Word>) returns (r: State)
    requires |block| == 16 && st == Steps(st0, block, 32)
    ensures r == Steps(st0, block, 40)
  {
    hide Steps, Stepped, Plus, F1, F2, F3, F4;
    var a, b, c, d := st.a, st.b, st.c, st.d;
    StepIs(st0, block, 32, State(a, b, c, d), 5, 0xfffa3942, 4);
    a := Stepped(F3(b, c, d), a, b, Plus(block[5], Word(0xfffa3942)), 4);
    StepIs(st0, block, 33, State(d, a, b, c), 8, 0x8771f681, 11);
    d := Stepped(F3(a, b, c), d, a, Plus(block[8], Word(0x8771f681)), 11);
    StepIs(st0, block, 34, State(c, d, a, b), 11, 0x6d9d6122, 16);
    c := Stepped(F3(d, a, b), c, d, Plus(block[11], Word(0x6d9d6122)), 16);
    StepIs(st0, block, 35, State(b, c, d, a), 14, 0xfde5380c, 23);
    b := Stepped(F3(c, d, a), b, c, Plus(block[14], Word(0xfde5380c)), 23);
    StepIs(st0, block, 36, State(a, b, c, d), 1, 0xa4beea44, 4);
    a := Stepped(F3(b, c, d), a, b, Plus(block[1], Word(0xa4beea44)), 4);
    StepIs(st0, block, 37, State(d, a, b, c), 4, 0x4bdecfa9, 11);
    d := Stepped(F3(a, b, c), d, a, Plus(block[4], Word(0x4bdecfa9)), 11);
    StepIs(st0, block, 38, State(c, d, a, b), 7, 0xf6bb4b60, 16);
    c := Stepped(F3(d, a, b), c, d, Plus(block[7], Word(0xf6bb4b60)), 16);
    StepIs(st0, block, 39, State(b, c, d, a), 10, 0xbebfbc70, 23);
    b := Stepped(F3(c, d, a), b, c, Plus(block[10], Word(0xbebfbc70)), 23);
    r := State(a, b, c, d);
  }

  // Steps 40 to 47.
  method Steps40(ghost st0: State, st: State, block: seq<Word>) returns (r: State)
    requires |block| == 16 && st == Steps(st0, block, 40)
    ensures r == Steps(st0, block, 48)
  {
    hide Steps, Stepped, Plus, F1, F2, F3, F4;
    var a, b, c, d := st.a, st.b, st.c, st.d;
    StepIs(st0, block, 40, State(a, b, c, d), 13, 0x289b7ec6, 4);
    a := Stepped(F3(b, c, d), a, b, Plus(block[13], Word(0x289b7ec6)), 4);
    StepIs(st0, block, 41, State(d, a, b, c), 0, 0xeaa127fa, 11);
    d := Stepped(F3(a, b, c), d, a, Plus(block[0], Word(0xeaa127fa)), 11);
    StepIs(st0, block, 42, State(c, d, a, b), 3, 0xd4ef3085, 16);
    c := Stepped(F3(d, a, b), c, d, Plus(block[3], Word(0xd4ef3085)), 16);
    StepIs(st0, block, 43, State(b, c, d, a), 6, 0x04881d05, 23);
    b := Stepped(F3(c, d, a), b, c, Plus(block[6], Word(0x04881d05)), 23);
    StepIs(st0, block, 44, State(a, b, c, d), 9, 0xd9d4d039, 4);
    a := Stepped(F3(b, c, d), a, b, Plus(block[9], Word(0xd9d4d039)), 4);
    StepIs(st0, block, 45, State(d, a, b, c), 12, 0xe6db99e5, 11);
    d := Stepped(F3(a, b, c), d, a, Plus(block[12], Word(0xe6db99e5)), 11);
    StepIs(st0, block, 46, State(c, d, a, b), 15, 0x1fa27cf8, 16);
    c := Stepped(F3(d, a, b), c, d, Plus(block[15], Word(0x1fa27cf8)), 16);
    StepIs(st0, block, 47, State(b, c, d, a), 2, 0xc4ac5665, 23);
    b := Stepped(F3(c, d, a), b, c, Plus(block[2], Word(0xc4ac5665)), 23);
    r := State(a, b, c, d);
  }

  method Round3(ghost st0: State, st: State, block: seq<Word>) returns (r: State)
    requires |block| == 16 && st == Steps(st0, block, 32)
    ensures r == Steps(st0, block, 48)
  {
    hide Steps;
    r := Steps32(st0, st, block);
    r := Steps40(st0, r, block);
  }

  // Steps 48 to 55.
  method Steps48(ghost st0: State, st: State, block: seq<Word>) returns (r: State)
    requires |block| == 16 && st == Steps(st0, block, 48)
    ensures r == Steps(st0, block, 56)
  {
    hide Steps, Stepped, Plus, F1, F2, F3, F4;
    var a, b, c, d := st.a, st.b, st.c, st.d;
    StepIs(st0, block, 48, State(a, b, c, d), 0, 0xf4292244, 6);
    a := Stepped(F4(b, c, d), a, b, Plus(block[0], Word(0xf4292244)), 6);
    StepIs(st0, block, 49, State(d, a, b, c), 7, 0x432aff97, 10);
    d := Stepped(F4(a, b, c), d, a, Plus(block[7], Word(0x432aff97)), 10);
    StepIs(st0, block, 50, State(c, d, a, b), 14, 0xab9423a7, 15);
    c := Stepped(F4(d, a, b), c, d, Plus(block[14], Word(0xab9423a7)), 15);
    StepIs(st0, block, 51, State(b, c, d, a), 5, 0xfc93a039, 21);
    b := Stepped(F4(c, d, a), b, c, Plus(block[5], Word(0xfc93a039)), 21);
    StepIs(st0, block, 52, State(a, b, c, d), 12, 0x655b59c3, 6);
    a := Stepped(F4(b, c, d), a, b, Plus(block[12], Word(0x655b59c3)), 6);
    StepIs(st0, block, 53, State(d, a, b, c), 3, 0x8f0ccc92, 10);
    d := Stepped(F4(a, b, c), d, a, Plus(block[3], Word(0x8f0ccc92)), 10);
    StepIs(st0, block, 54, State(c, d, a, b), 10, 0xffeff47d, 15);
    c := Stepped(F4(d, a, b), c, d, Plus(block[10], Word(0xffeff47d)), 15);
    StepIs(st0, block, 55, State(b, c, d, a), 1, 0x85845dd1, 21);
    b := Stepped(F4(c, d, a), b, c, Plus(block[1], Word(0x85845dd1)), 21);
    r := State(a, b, c, d);
  }

  // Steps 56 to 63.
  method Steps56(ghost st0: State, st: State, block: seq<Word>) returns (r: State)
    requires |block| == 16 && st == Steps(st0, block, 56)
    ensures r == Steps(st0, block, 64)
  {
    hide Steps, Stepped, Plus, F1, F2, F3, F4;
    var a, b, c, d := st.a, st.b, st.c, st.d;
    StepIs(st0, block, 56, State(a, b, c, d), 8, 0x6fa87e4f, 6);
    a := Stepped(F4(b, c, d), a, b, Plus(block[8], Word(0x6fa87e4f)), 6);
    StepIs(st0, block, 57, State(d, a, b, c), 15, 0xfe2ce6e0, 10);
    d := Stepped(F4(a, b, c), d, a, Plus(block[15], Word(0xfe2ce6e0)), 10);
    StepIs(st0, block, 58, State(c, d, a, b), 6, 0xa3014314, 15);
    c := Stepped(F4(d, a, b), c, d, Plus(block[6], Word(0xa3014314)), 15);
    StepIs(st0, block, 59, State(b, c, d, a), 13, 0x4e0811a1, 21);
    b := Stepped(F4(c, d, a), b, c, Plus(block[13], Word(0x4e0811a1)), 21);
    StepIs(st0, block, 60, State(a, b, c, d), 4, 0xf7537e82, 6);
    a := Stepped(F4(b, c, d), a, b, Plus(block[4], Word(0xf7537e82)), 6);
    StepIs(st0, block, 61, State(d, a, b, c), 11, 0xbd3af235, 10);
    d := Stepped(F4(a, b, c), d, a, Plus(block[11], Word(0xbd3af235)), 10);
    StepIs(st0, block, 62, State(c, d, a, b), 2, 0x2ad7d2bb, 15);
    c := Stepped(F4(d, a, b), c, d, Plus(block[2], Word(0x2ad7d2bb)), 15);
    StepIs(st0, block, 63, State(b, c, d, a), 9, 0xeb86d391, 21);
    b := Stepped(F4(c, d, a), b, c, Plus(block[9], Word(0xeb86d391)), 21);
    r := State(a, b, c, d);
  }

  method Round4(ghost st0: State, st: State, block: seq<Word>) returns (r: State)
    requires |block| == 16 && st == Steps(st0, block, 48)
    ensures r == Steps(st0, block, 64)
  {
    hide Steps;
    r := Steps48(st0, st, block);
    r := Steps56(st0, r, block);
  }

  method Transform(st: State, block: seq<Word>) returns (r: State)
    requires |block| == 16
    ensures r == Compress(st, block)
  {
    hide Steps, Added;
    StartSteps(st, block);
    r := Round1(st, st, block);
    r := Round2(st, r, block);
    r := Round3(st, r, block);
    r := Round4(st, r, block);
    r := Added(st, r);
  }

  lemma StartSteps(st: State, block: seq<Word>)
    requires |block| == 16
    ensures Steps(st, block, 0) == st
  {
  }
}
