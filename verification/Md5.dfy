// MD5 over a message that arrives in pieces, against sections 3.1 to 3.5 of RFC 1321.
module Md5 {
  import opened Bytes
  import opened Powers
  import opened Words
  import opened Md5Rounds

  // ----- bytes and words, low byte first -----

  function Number(s: seq<byte>): (n: nat)
    requires |s| == 4
    ensures n < WORD
  {
    var a: int, b: int, c: int, d: int := s[0], s[1], s[2], s[3];
    a + 256 * b + 0x10000 * c + 0x1000000 * d
  }

  function FourBytes(n: nat): (s: seq<byte>)
    ensures |s| == 4
  {
    [n % 256, n / 256 % 256, n / 0x10000 % 256, n / 0x1000000 % 256]
  }

  lemma NumberOfFour(n: nat)
    requires n < WORD
    ensures Number(FourBytes(n)) == n
  {
    var q1, q2, q3 := n / 256, n / 0x10000, n / 0x1000000;
    assert q2 == q1 / 256 && q3 == q2 / 256;
    assert q3 < 256;
  }

  function Decoded(s: seq<byte>): (ws: seq<Word>)
    requires |s| % 4 == 0
    ensures |ws| == |s| / 4
  {
    if s == [] then [] else [WordOf(Number(s[..4]))] + Decoded(s[4..])
  }

  lemma {:induction false} DecodedAdd(s: seq<byte>, t: seq<byte>)
    requires |s| % 4 == 0 && |t| % 4 == 0
    ensures Decoded(s + t) == Decoded(s) + Decoded(t)
  {
    hide WordOf, Number;
    if s == [] {
      assert s + t == t;
    } else {
      assert (s + t)[..4] == s[..4] && (s + t)[4..] == s[4..] + t;
      DecodedAdd(s[4..], t);
      Regroup([WordOf(Number(s[..4]))], Decoded(s[4..]), Decoded(t));
    }
  }

  lemma DecodedFour(n: nat)
    requires n < WORD
    ensures Decoded(FourBytes(n)) == [WordOf(n)]
  {
    var s := FourBytes(n);
    NumberOfFour(n);
    hide WordOf, Number, FourBytes;
    assert s[..4] == s && s[4..] == [];
  }

  // ----- the algorithm, as specified -----

  const START := State(Word(0x67452301), Word(0xefcdab89), Word(0x98badcfe), Word(0x10325476))

  // Whole blocks, one after the other.
  function Fold(st: State, s: seq<byte>): State
    requires |s| % 64 == 0
    decreases |s|
  {
    if s == [] then st else Fold(Compress(st, Decoded(s[..64])), s[64..])
  }

  // A one bit, zeros up to 56 modulo 64, and the length in bits modulo 2^64.
  function Zeros(n: nat): nat
  {
    if n % 64 < 56 then 55 - n % 64 else 119 - n % 64
  }

  function Length(n: nat): (s: seq<byte>)
    ensures |s| == 8
  {
    FourBytes(8 * n % WORD) + FourBytes(8 * n / WORD % WORD)
  }

  function Padded(m: seq<byte>): (s: seq<byte>)
    ensures |s| % 64 == 0
  {
    ZerosFill(|m|);
    m + [0x80] + Repeat(0, Zeros(|m|)) + Length(|m|)
  }

  lemma ZerosFill(n: nat)
    ensures (n + 1 + Zeros(n) + 8) % 64 == 0
  {
    var q, r := n / 64, n % 64;
    DivModUnique(n + 1 + Zeros(n) + 8, if r < 56 then q + 1 else q + 2, 64, 0);
  }

  function Digest(st: State): (s: seq<byte>)
    ensures |s| == 16
  {
    FourBytes(NumberOf(st.a)) + FourBytes(NumberOf(st.b)) + FourBytes(NumberOf(st.c)) + FourBytes(NumberOf(st.d))
  }

  function Hash(m: seq<byte>): (s: seq<byte>)
    ensures |s| == 16
  {
    Digest(Fold(START, Padded(m)))
  }

  lemma {:induction false} FoldAdd(st: State, s: seq<byte>, t: seq<byte>)
    requires |s| % 64 == 0 && |t| % 64 == 0
    ensures Fold(st, s + t) == Fold(Fold(st, s), t)
    decreases |s|
  {
    if s == [] {
      assert s + t == t;
    } else {
      assert (s + t)[..64] == s[..64] && (s + t)[64..] == s[64..] + t;
      FoldAdd(Compress(st, Decoded(s[..64])), s[64..], t);
    }
  }

  lemma FoldOne(st: State, s: seq<byte>, block: seq<byte>)
    requires |s| % 64 == 0 && |block| == 64
    ensures Fold(st, s + block) == Compress(Fold(st, s), Decoded(block))
  {
    FoldAdd(st, s, block);
    assert block[..64] == block && block[64..] == [];
  }

  // ----- the context -----

  // The part of a message that has not filled a block.
  function Left(m: seq<byte>): (s: seq<byte>)
    ensures |s| == |m| % 64
  {
    m[|m| - |m| % 64..]
  }

  function Done(m: seq<byte>): (s: seq<byte>)
    ensures |s| % 64 == 0 && |s| == |m| - |m| % 64
  {
    m[..|m| - |m| % 64]
  }

  class MD5Context {
    var buf: State
    var bits0: nat
    var bits1: nat
    const data: array<byte>
    ghost var seen: seq<byte>      // the message so far

    ghost predicate Valid()
      reads this, data
    {
      && data.Length == 64
      && bits0 == 8 * |seen| % WORD && bits1 == 8 * |seen| / WORD % WORD
      && buf == Fold(START, Done(seen)) && data[..|seen| % 64] == Left(seen)
    }

    constructor ()
      ensures Valid() && seen == [] && fresh(data)
    {
      buf, bits0, bits1, seen := START, 0, 0, [];
      data := new byte[64];
    }

    // Copies bytes into the block at a place.
    method Move(at: nat, s: seq<byte>)
      requires at + |s| <= data.Length
      modifies data
      ensures data[..at + |s|] == old(data[..at]) + s && data[at + |s|..] == old(data[at + |s|..])
    {
      forall i | 0 <= i < |s| {
        data[at + i] := s[i];
      }
    }

    // The bytes of the block become words, low byte first, and go through the rounds.
    method Process()
      requires data.Length == 64
      modifies `buf
      ensures buf == Compress(old(buf), Decoded(data[..]))
    {
      hide Compress, Decoded;
      buf := Transform(buf, Decoded(data[..]));
    }

    // Adds to the count of bits, and tells how many bytes of the block were filled.
    method Count(len: nat, ghost n: nat) returns (filled: nat)
      requires len < WORD && bits0 == 8 * n % WORD && bits1 == 8 * n / WORD % WORD
      modifies `bits0, `bits1
      ensures bits0 == 8 * (n + len) % WORD && bits1 == 8 * (n + len) / WORD % WORD && filled == n % 64
    {
      BitCount(n, len);
      var t := bits0;
      bits0 := (t + 8 * len % WORD) % WORD;
      if bits0 < t {
        bits1 := (bits1 + 1) % WORD;
      }
      bits1 := (bits1 + len / 0x20000000) % WORD;
      filled := t / 8 % 64;
    }

    // The block, once it is full, is the next one of the message.
    method Full(ghost before: seq<byte>, ghost block: seq<byte>)
      requires data.Length == 64 && data[..64] == block && |before| % 64 == 0 && buf == Fold(START, before)
      modifies `buf
      ensures buf == Fold(START, before + block)
    {
      hide Fold, Compress, Decoded;
      FoldOne(START, before, block);
      assert data[..] == data[..64];
      Process();
    }

    // Whole blocks go through the rounds, the rest of the input stays in the block.
    method Blocks(input: seq<byte>, start: nat, ghost m: seq<byte>)
      requires data.Length == 64 && start <= |input| && (|m| + start) % 64 == 0
               && buf == Fold(START, m + input[..start])
      modifies `buf, data
      ensures buf == Fold(START, Done(m + input)) && data[..(|m| + |input|) % 64] == Left(m + input)
    {
      hide Fold, Compress, Decoded, Done, Left;
      var pos := start;
      while |input| - pos >= 64
        invariant pos <= |input| && (|m| + pos) % 64 == 0
        invariant buf == Fold(START, m + input[..pos])
      {
        Move(0, input[pos..pos + 64]);
        NextBlock(m, input, pos);
        Full(m + input[..pos], input[pos..pos + 64]);
        pos := pos + 64;
      }
      Move(0, input[pos..]);
      WholeBlocks(m, input, pos);
    }

    // Takes in the next piece of the message.
    method Update(input: seq<byte>)
      requires Valid() && |input| < WORD
      modifies this, data
      ensures Valid() && seen == old(seen) + input
    {
      hide Fold, Compress, Decoded, Done, Left;
      ghost var m := seen;
      var len := |input|;
      var t := Count(len, |m|);
      seen := m + input;
      DoneLeft(m);
      LeftLength(m);
      if t != 0 {
        var room: nat := 64 - t;
        if len < room {
          Move(t, input);
          AddedLeft(m, input);
          return;
        }
        Move(t, input[..room]);
        Full(Done(m), Left(m) + input[..room]);
        Regroup(Done(m), Left(m), input[..room]);
        RoomFills(|m|, room);
        Blocks(input, room, m);
      } else {
        assert m + input[..0] == m;
        Blocks(input, 0, m);
      }
    }

    // The last block ends in the count of bits.
    method Finish(ghost before: seq<byte>, ghost head: seq<byte>, ghost n: nat) returns (digest: seq<byte>)
      requires data.Length == 64 && |head| == 56 && data[..56] == head && |before| % 64 == 0
               && buf == Fold(START, before)
      requires bits0 == 8 * n % WORD && bits1 == 8 * n / WORD % WORD
      modifies `buf
      ensures digest == Digest(Fold(START, before + (head + Length(n))))
    {
      hide Fold, Compress, Decoded, Digest, WordOf, FourBytes;
      FoldOne(START, before, head + Length(n));
      LengthWords(head, n);
      buf := Transform(buf, Decoded(data[..56]) + [WordOf(bits0), WordOf(bits1)]);
      digest := Digest(buf);
    }

    // Fills up with zeros: the rest of this block and most of another, or just this block.
    method Pad(count: nat, ghost m: seq<byte>) returns (digest: seq<byte>)
      requires data.Length == 64 && count == |m| % 64 && data[..count + 1] == Left(m) + [0x80]
               && buf == Fold(START, Done(m))
      requires bits0 == 8 * |m| % WORD && bits1 == 8 * |m| / WORD % WORD
      modifies `buf, data
      ensures digest == Hash(m)
    {
      hide Fold, Compress, Decoded, Done, Left, Digest, Padded, Repeat, FourBytes;
      LeftLength(m);
      PaddedBlocks(m);
      ghost var started := Left(m) + [0x80];
      if 64 - 1 - count < 8 {
        Move(count + 1, Repeat(0, 63 - count));
        Full(Done(m), started + Repeat(0, 63 - count));
        Move(0, Repeat(0, 56));
        digest := Finish(Done(m) + (started + Repeat(0, 63 - count)), Repeat(0, 56), |m|);
      } else {
        Move(count + 1, Repeat(0, 55 - count));
        digest := Finish(Done(m), started + Repeat(0, 55 - count), |m|);
      }
    }

    // Pads the message and gives its digest. One or two blocks are left to process; then
    // the context is wiped.
    method Final() returns (digest: seq<byte>)
      requires Valid()
      modifies this, data
      ensures digest == Hash(old(seen))
      ensures buf == State(ZERO, ZERO, ZERO, ZERO) && bits0 == bits1 == 0 && data[..] == Repeat<byte>(0, 64)
    {
      hide Fold, Compress, Decoded, Done, Left, Hash, Repeat;
      LeftLength(seen);
      BitCount(|seen|, 0);
      var count: nat := bits0 / 8 % 64;
      Move(count, [0x80]);
      digest := Pad(count, seen);
      buf, bits0, bits1 := State(ZERO, ZERO, ZERO, ZERO), 0, 0;
      Move(0, Repeat(0, 64));
      assert data[..64] == data[..];
    }
  }

  lemma LengthWords(head: seq<byte>, n: nat)
    requires |head| == 56
    ensures Decoded(head + Length(n)) == Decoded(head) + [WordOf(8 * n % WORD), WordOf(8 * n / WORD % WORD)]
  {
    hide Decoded, WordOf, FourBytes;
    var low, high := FourBytes(8 * n % WORD), FourBytes(8 * n / WORD % WORD);
    DecodedFour(8 * n % WORD);
    DecodedFour(8 * n / WORD % WORD);
    DecodedAdd(low, high);
    DecodedAdd(head, low + high);
  }

  // The padded message, cut where the blocks are.
  lemma PaddedBlocks(m: seq<byte>)
    ensures var started, k := Left(m) + [0x80], |m| % 64;
            && (k <= 55 ==> Padded(m) == Done(m) + (started + Repeat(0, 55 - k) + Length(|m|)))
            && (k > 55 ==> Padded(m) == Done(m) + (started + Repeat(0, 63 - k)) + (Repeat(0, 56) + Length(|m|)))
  {
    hide Done, Left, Length, Repeat;
    DoneLeft(m);
    var k := |m| % 64;
    if k > 55 {
      RepeatSplit<byte>(0, 63 - k, 56);
    }
  }

  function Joined(pieces: seq<seq<byte>>): seq<byte>
  {
    if pieces == [] then [] else Joined(pieces[..|pieces| - 1]) + pieces[|pieces| - 1]
  }

  // The digest of a file is that of its contents, whatever pieces it is read in.
  method Md5File(parts: seq<seq<byte>>) returns (output: seq<byte>)
    requires forall i :: 0 <= i < |parts| ==> |parts[i]| < WORD
    ensures output == Hash(Joined(parts))
  {
    hide Hash, MD5Context.Valid;
    var context := new MD5Context();
    var i := 0;
    while i < |parts|
      invariant 0 <= i <= |parts| && context.Valid() && context.seen == Joined(parts[..i]) && fresh(context)
                && fresh(context.data)
    {
      context.Update(parts[i]);
      assert parts[..i + 1][..i] == parts[..i];
      i := i + 1;
    }
    assert parts[..i] == parts;
    output := context.Final();
  }

  method Md5Sum(input: seq<byte>) returns (output: seq<byte>)
    requires |input| < WORD
    ensures output == Hash(input)
  {
    hide *;
    var context := new MD5Context();
    assert [] + input == input;
    context.Update(input);
    output := context.Final();
  }

  lemma NextBlock(m: seq<byte>, s: seq<byte>, pos: nat)
    requires (|m| + pos) % 64 == 0 && pos + 64 <= |s|
    ensures (|m| + (pos + 64)) % 64 == 0 && |m + s[..pos]| % 64 == 0
            && m + s[..pos] + s[pos..pos + 64] == m + s[..pos + 64]
  {
  }

  lemma LeftLength(m: seq<byte>)
    ensures |Left(m)| == |m| % 64 && |Done(m)| % 64 == 0
  {
  }

  lemma RoomFills(n: nat, room: nat)
    requires n % 64 + room == 64
    ensures (n + room) % 64 == 0
  {
    DivModUnique(n + room, n / 64 + 1, 64, 0);
  }

  lemma DoneLeft(m: seq<byte>)
    ensures Done(m) + Left(m) == m
    ensures |m| % 64 == 0 ==> Done(m) == m && Left(m) == []
  {
  }

  // The count of bits, in two words, of a longer message.
  lemma BitCount(n: nat, len: nat)
    requires len < WORD
    ensures var low, low' := 8 * n % WORD, (8 * n % WORD + 8 * len % WORD) % WORD;
            var high := 8 * n / WORD % WORD;
            && low' == 8 * (n + len) % WORD && low / 8 % 64 == n % 64
            && ((if low' < low then (high + 1) % WORD else high) + len / 0x20000000) % WORD
                 == 8 * (n + len) / WORD % WORD
  {
    var q, r := 8 * n / WORD, 8 * n % WORD;
    var k, l := 8 * len / WORD, 8 * len % WORD;
    var carry := if r + l < WORD then 0 else 1;
    DivModUnique(8 * (n + len), q + k + carry, WORD, r + l - carry * WORD);
    assert k == len / 0x20000000;
    HighCount(q, k, carry);
    DivModUnique(r / 8, n / 64 - q * 0x800000, 64, n % 64);
  }

  lemma HighCount(q: nat, k: nat, carry: nat)
    requires carry <= 1
    ensures ((if carry == 1 then (q % WORD + 1) % WORD else q % WORD) + k) % WORD == (q + k + carry) % WORD
  {
    TruncatedShift(q, WORD, 1, k + carry);
    TruncatedShift(q % WORD + carry, WORD, 1, k);
  }

  lemma AddedLeft(m: seq<byte>, s: seq<byte>)
    requires |m| % 64 + |s| < 64
    ensures Done(m + s) == Done(m) && Left(m + s) == Left(m) + s && (|m| + |s|) % 64 == |m| % 64 + |s|
  {
    DivModUnique(|m| + |s|, |m| / 64, 64, |m| % 64 + |s|);
  }

  lemma WholeBlocks(m: seq<byte>, s: seq<byte>, pos: nat)
    requires pos <= |s| < pos + 64 && (|m| + pos) % 64 == 0
    ensures Done(m + s) == m + s[..pos] && Left(m + s) == s[pos..] && (|m| + |s|) % 64 == |s| - pos
  {
    DivModUnique(|m| + |s|, (|m| + pos) / 64, 64, |s| - pos);
  }
}
