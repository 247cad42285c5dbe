// Bits on the side of an encoder: numbers as lists of bits, and bytes made from bits.
module BunzipBits {
  import opened Bytes
  import opened Powers
  import opened BitReader

  // The input has these bits from position p on.
  predicate Reads(input: seq<byte>, p: nat, bits: seq<nat>)
  {
    p + |bits| <= 8 * |input| && forall i :: 0 <= i < |bits| ==> ReadsAt(input, p, bits, i)
  }

  predicate ReadsAt(input: seq<byte>, p: nat, bits: seq<nat>, i: nat)
    requires i < |bits| && p + |bits| <= 8 * |input|
  {
    Bit(input, p + i) == bits[i]
  }

  lemma ReadsBoth(input: seq<byte>, p: nat, a: seq<nat>, b: seq<nat>)
    ensures Reads(input, p, a + b) <==> Reads(input, p, a) && Reads(input, p + |a|, b)
  {
    hide Bit;
    var q := p + |a|;
    if Reads(input, p, a + b) {
      forall i | 0 <= i < |a| ensures ReadsAt(input, p, a, i) {
        assert ReadsAt(input, p, a + b, i);
      }
      forall i | 0 <= i < |b| ensures ReadsAt(input, q, b, i) {
        assert ReadsAt(input, p, a + b, |a| + i);
      }
    }
    if Reads(input, p, a) && Reads(input, p + |a|, b) {
      var both := a + b;
      forall i | 0 <= i < |both| ensures ReadsAt(input, p, both, i) {
        if i < |a| {
          assert ReadsAt(input, p, a, i);
        } else {
          assert ReadsAt(input, q, b, i - |a|);
        }
      }
    }
  }

  predicate AreBits(bits: seq<nat>)
  {
    forall i :: 0 <= i < |bits| ==> bits[i] <= 1
  }

  // The w low bits of v, most significant first.
  function Digits(v: nat, w: nat): (bits: seq<nat>)
    ensures |bits| == w && AreBits(bits)
  {
    if w == 0 then [] else Digits(v / 2, w - 1) + [v % 2]
  }

  // The number that a list of bits spells.
  function NumberOfBits(b: seq<nat>): (v: nat)
    requires AreBits(b)
    ensures v < Pow2(|b|)
  {
    if b == [] then 0 else 2 * NumberOfBits(b[..|b| - 1]) + b[|b| - 1]
  }

  lemma {:induction false} NumberOfDigits(v: nat, w: nat)
    requires v < Pow2(w)
    ensures NumberOfBits(Digits(v, w)) == v
  {
    if w > 0 {
      NumberOfDigits(v / 2, w - 1);
    }
  }

  lemma {:induction false} FieldIsNumber(input: seq<byte>, p: nat, bits: seq<nat>)
    requires AreBits(bits) && Reads(input, p, bits)
    ensures p + |bits| <= 8 * |input| && Field(input, p, |bits|) == NumberOfBits(bits)
  {
    hide Bit;
    if bits != [] {
      var n := |bits| - 1;
      assert bits == bits[..n] + [bits[n]];
      ReadsBoth(input, p, bits[..n], [bits[n]]);
      FieldIsNumber(input, p, bits[..n]);
      assert ReadsAt(input, p, bits, n);
    }
  }

  lemma FieldOfDigits(input: seq<byte>, p: nat, v: nat, w: nat)
    requires v < Pow2(w) && Reads(input, p, Digits(v, w))
    ensures p + w <= 8 * |input| && Field(input, p, w) == v
  {
    hide Pow2, Field, Digits, NumberOfBits;
    NumberOfDigits(v, w);
    FieldIsNumber(input, p, Digits(v, w));
  }

  // ----- packing bits into bytes -----

  lemma {:induction false} BitOfNumber(b: seq<nat>, i: nat)
    requires AreBits(b) && i < |b|
    ensures NumberOfBits(b) / Pow2(|b| - 1 - i) % 2 == b[i]
  {
    hide Pow2;
    var n := |b| - 1;
    if i == n {
      Pow2Zero();
      OddDigit(NumberOfBits(b[..n]), b[n]);
    } else {
      BitOfNumber(b[..n], i);
      Pow2Step(n - 1 - i);
      HalfFirst(NumberOfBits(b[..n]), b[n], Pow2(n - 1 - i));
    }
  }

  lemma Pow2Zero()
    ensures Pow2(0) == 1
  {
  }

  lemma Pow2Step(k: nat)
    ensures Pow2(k + 1) == 2 * Pow2(k)
  {
  }

  lemma OddDigit(high: nat, digit: nat)
    requires digit <= 1
    ensures (2 * high + digit) / 1 % 2 == digit
  {
  }

  lemma HalfFirst(high: nat, digit: nat, d: nat)
    requires digit <= 1 && d > 0
    ensures (2 * high + digit) / (2 * d) == high / d
  {
    DivDiv(2 * high + digit, 2, d);
  }

  function ByteOf(b: seq<nat>): (x: byte)
    requires |b| == 8 && AreBits(b)
  {
    Pow2Eight();
    NumberOfBits(b)
  }

  function Packed(bits: seq<nat>): (input: seq<byte>)
    requires |bits| % 8 == 0 && AreBits(bits)
    ensures 8 * |input| == |bits|
  {
    if bits == [] then [] else [ByteOf(bits[..8])] + Packed(bits[8..])
  }

  lemma {:induction false} PackedBit(bits: seq<nat>, k: nat)
    requires |bits| % 8 == 0 && AreBits(bits) && k < |bits|
    ensures Bit(Packed(bits), k) == bits[k]
  {
    hide Bit, Pow2, NumberOfBits, AreBits;
    PackedStep(bits);
    var x, rest := ByteOf(bits[..8]), Packed(bits[8..]);
    if k < 8 {
      BitOfNumber(bits[..8], k);
      BitInFront(x, rest, k);
    } else {
      PackedBit(bits[8..], k - 8);
      BitBehind(x, rest, k - 8);
    }
  }

  lemma PackedStep(bits: seq<nat>)
    requires |bits| % 8 == 0 && AreBits(bits) && bits != []
    ensures AreBits(bits[..8]) && AreBits(bits[8..]) && Packed(bits) == [ByteOf(bits[..8])] + Packed(bits[8..])
  {
    hide ByteOf;
  }

  lemma BitInFront(x: byte, rest: seq<byte>, k: nat)
    requires k < 8
    ensures Bit([x] + rest, k) == x / Pow2(7 - k) % 2
  {
  }

  lemma BitBehind(x: byte, rest: seq<byte>, k: nat)
    requires k < 8 * |rest|
    ensures Bit([x] + rest, k + 8) == Bit(rest, k)
  {
  }

  lemma PackedReads(bits: seq<nat>)
    requires |bits| % 8 == 0 && AreBits(bits)
    ensures Reads(Packed(bits), 0, bits)
  {
    hide Bit, Packed;
    forall i | 0 <= i < |bits| ensures ReadsAt(Packed(bits), 0, bits, i) {
      PackedBit(bits, i);
    }
  }

  // Bits filled up to whole bytes.
  function Filled(bits: seq<nat>): (r: seq<nat>)
    requires AreBits(bits)
    ensures |r| % 8 == 0 && AreBits(r) && bits <= r
  {
    bits + seq((8 - |bits| % 8) % 8, _ => 0)
  }

  // Every list of bits is the beginning of some input.
  lemma BitsHaveInput(bits: seq<nat>) returns (input: seq<byte>)
    requires AreBits(bits)
    ensures Reads(input, 0, bits)
  {
    var r := Filled(bits);
    input := Packed(r);
    PackedReads(r);
    assert r == bits + r[|bits|..];
    ReadsBoth(input, 0, bits, r[|bits|..]);
  }
}
