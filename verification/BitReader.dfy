// The bit reader of the bzip2 decoder: a 32-bit shift register filled a byte at a time.
// It is proved to read the input as one big-endian string of bits, also when bits that
// were read in advance are given back.
module BitReader {
  import opened Bytes
  import opened Powers

  // Bit k of the input, counting from the top bit of the first byte.
  function Bit(input: seq<byte>, k: nat): (b: nat)
    requires k < 8 * |input|
    ensures b < 2
  {
    input[k / 8] / Pow2(7 - k % 8) % 2
  }

  // The number that w bits from position p on spell, most significant bit first.
  function Field(input: seq<byte>, p: nat, w: nat): (v: nat)
    requires p + w <= 8 * |input|
    ensures v < Pow2(w)
  {
    if w == 0 then 0 else 2 * Field(input, p, w - 1) + Bit(input, p + w - 1)
  }

  lemma DoubleBelow(high: nat, weight: nat, low: nat)
    ensures 2 * (high * weight + low) == high * (2 * weight) + 2 * low
  {
  }

  lemma {:induction false} FieldSplit(input: seq<byte>, p: nat, a: nat, b: nat)
    requires p + a + b <= 8 * |input|
    ensures Field(input, p, a + b) == Field(input, p, a) * Pow2(b) + Field(input, p + a, b)
  {
    hide Bit;
    if b > 0 {
      FieldSplit(input, p, a, b - 1);
      DoubleBelow(Field(input, p, a), Pow2(b - 1), Field(input, p + a, b - 1));
    }
  }

  // The first k bits from a byte boundary are the high bits of that byte,
  lemma {:induction false} FieldInByte(input: seq<byte>, i: nat, k: nat)
    requires i < |input| && k <= 8
    ensures Field(input, 8 * i, k) == input[i] / Pow2(8 - k)
  {
    if k == 0 {
      assert Pow2(8) == 256;
    } else {
      FieldInByte(input, i, k - 1);
      DivModUnique(8 * i + k - 1, i, 8, k - 1);
      DivDiv(input[i], Pow2(8 - k), 2);
    }
  }

  // and eight bits are the byte.
  lemma FieldByte(input: seq<byte>, i: nat)
    requires i < |input|
    ensures Field(input, 8 * i, 8) == input[i]
  {
    FieldInByte(input, i, 8);
  }

  // The shift register after all of input[..pos] has gone through it.
  predicate Holds(input: seq<byte>, pos: nat, register: nat)
  {
    pos <= |input| && register == Field(input, 0, 8 * pos) % Pow2(32)
  }

  lemma Pow2Eight()
    ensures Pow2(8) == 256
  {
  }

  lemma ShiftIn(input: seq<byte>, pos: nat, register: nat)
    requires Holds(input, pos, register) && pos < |input|
    ensures Holds(input, pos + 1, (register * 256 + input[pos]) % Pow2(32))
  {
    hide Pow2, Field;
    Pow2Eight();
    FieldSplit(input, 0, 8 * pos, 8);
    FieldByte(input, pos);
    TruncatedShift(Field(input, 0, 8 * pos), Pow2(32), 256, input[pos]);
  }

  // The w bits of the register that stand above its low c bits.
  lemma RegisterField(input: seq<byte>, pos: nat, register: nat, c: nat, w: nat)
    requires Holds(input, pos, register) && c + w <= 8 * pos && c + w <= 32
    ensures register / Pow2(c) % Pow2(w) == Field(input, 8 * pos - c - w, w)
  {
    hide Pow2, Field;
    var all := Field(input, 0, 8 * pos);
    FieldOfTruncation(all, c, w, 32);
    FieldSplit(input, 0, 8 * pos - c, c);
    DivModUnique(all, Field(input, 0, 8 * pos - c), Pow2(c), Field(input, 8 * pos - c, c));
    FieldSplit(input, 0, 8 * pos - c - w, w);
    DivModUnique(all / Pow2(c), Field(input, 0, 8 * pos - c - w), Pow2(w), Field(input, 8 * pos - c - w, w));
  }

  // Bits from a number that ends at bit position p on: none yet, or all above a cut.
  lemma JoinFields(input: seq<byte>, p: nat, k: nat, w: nat)
    requires p + k + w <= 8 * |input|
    ensures Field(input, p, k) * Pow2(w) + Field(input, p + k, w) == Field(input, p, k + w)
  {
    FieldSplit(input, p, k, w);
  }

  lemma HoldsNothing(input: seq<byte>)
    ensures Holds(input, 0, 0)
  {
    hide Pow2;
    FieldNone(input, 0);
  }

  class Reader {
    const inbuf: seq<byte>
    var inbufPos: nat
    var inbufBitCount: nat
    var inbufBits: nat
    var ioError: bool

    // The register's low inbufBitCount bits have been fetched but not yet handed out.
    ghost predicate Valid()
      reads this
    {
      Holds(inbuf, inbufPos, inbufBits) && inbufPos <= |inbuf| && inbufBitCount <= 31 && inbufBitCount <= 8 * inbufPos
    }

    // The number of bits handed out so far.
    ghost function Position(): (p: nat)
      requires Valid()
      reads this
      ensures p <= 8 * |inbuf|
    {
      8 * inbufPos - inbufBitCount
    }

    constructor (input: seq<byte>)
      ensures Valid() && Position() == 0 && inbuf == input && !ioError
    {
      inbuf := input;
      inbufPos, inbufBitCount, inbufBits, ioError := 0, 0, 0, false;
      new;
      hide Holds;
      HoldsNothing(inbuf);
    }

    // One byte into the register.
    method FetchByte()
      requires Valid() && inbufPos < |inbuf| && inbufBitCount < 24
      modifies this
      ensures Valid() && Position() == old(Position())
      ensures inbufBitCount == old(inbufBitCount) + 8 && ioError == old(ioError)
    {
      hide Field, Pow2;
      ShiftIn(inbuf, inbufPos, inbufBits);
      inbufBits := (inbufBits * 256 + inbuf[inbufPos]) % Pow2(32);
      inbufPos := inbufPos + 1;
      inbufBitCount := inbufBitCount + 8;
    }

    // Before the end of the input has been run over, the register is in order.
    ghost predicate Sound()
      reads this
    {
      ioError || Valid()
    }

    // The input has not been run over, and the next bit is at p.
    ghost predicate At(p: nat)
      reads this
    {
      Valid() && !ioError && Position() == p
    }

    // That many bits are still to come.
    ghost predicate Has(n: nat)
      reads this
      requires Sound()
    {
      !ioError && Position() + n <= 8 * |inbuf|
    }

    // The next bitsWanted bits as a number. At the end of the input the error is recorded and
    // the result is 0. After that the bits are whatever lies behind the buffer.
    method GetBits(bitsWanted: nat) returns (bits: nat)
      requires Sound() && bitsWanted <= 32
      modifies this
      ensures Sound() && bits < Pow2(bitsWanted)
      ensures old(Has(bitsWanted)) ==>
                && !ioError && bits == Field(inbuf, old(Position()), bitsWanted)
                && Position() == old(Position()) + bitsWanted && (bitsWanted <= 24 ==> inbufBitCount + bitsWanted <= 31)
      ensures !old(Has(bitsWanted)) ==> ioError && (!old(ioError) ==> bits == 0)
    {
      if ioError {
        bits :| 0 <= bits < Pow2(bitsWanted);
        return;
      }
      bits := Fetched(bitsWanted);
    }

    method Fetched(bitsWanted: nat) returns (bits: nat)
      requires Valid() && !ioError && bitsWanted <= 32
      modifies this
      ensures Valid() && bits < Pow2(bitsWanted)
      ensures if old(Position()) + bitsWanted <= 8 * |inbuf|
              then bits == Field(inbuf, old(Position()), bitsWanted)
                   && Position() == old(Position()) + bitsWanted && !ioError
                   && (bitsWanted <= 24 ==> inbufBitCount + bitsWanted <= 31)
              else bits == 0 && ioError
    {
      hide Field, Pow2, Holds;
      ghost var start := Position();
      FieldNone(inbuf, start);
      var wanted: nat := bitsWanted;
      bits := 0;
      while inbufBitCount < wanted
        invariant Valid() && ioError == old(ioError)
        invariant wanted <= bitsWanted && (wanted < bitsWanted ==> wanted <= 8 && bitsWanted > 24)
        invariant Position() == start + bitsWanted - wanted
        invariant wanted == bitsWanted <= 24 ==> inbufBitCount <= old(inbufBitCount) || inbufBitCount < bitsWanted + 8
        invariant bits == Field(inbuf, start, bitsWanted - wanted) * Pow2(wanted)
        decreases |inbuf| - inbufPos
      {
        if inbufPos == |inbuf| {
          ioError := true;
          return 0;
        }
        if inbufBitCount >= 24 {
          RegisterField(inbuf, inbufPos, inbufBits, 0, inbufBitCount);
          Pow2None();
          bits := inbufBits % Pow2(inbufBitCount);
          wanted := wanted - inbufBitCount;
          bits := bits * Pow2(wanted);
          inbufBitCount := 0;
        }
        FetchByte();
      }
      inbufBitCount := inbufBitCount - wanted;
      assert wanted <= 31;
      RegisterField(inbuf, inbufPos, inbufBits, inbufBitCount, wanted);
      JoinFields(inbuf, start, bitsWanted - wanted, wanted);
      bits := bits + inbufBits / Pow2(inbufBitCount) % Pow2(wanted);
    }

    // Gives back the last n bits.
    method Unget(n: nat)
      requires Sound() && (!ioError ==> inbufBitCount + n <= 31 && n <= Position())
      modifies this
      ensures Sound() && ioError == old(ioError) && (!ioError ==> Position() == old(Position()) - n)
    {
      inbufBitCount := inbufBitCount + n;
    }
  }

  lemma FieldNone(input: seq<byte>, p: nat)
    requires p <= 8 * |input|
    ensures Field(input, p, 0) == 0
  {
  }

  lemma Pow2None()
    ensures Pow2(0) == 1
  {
  }
}
