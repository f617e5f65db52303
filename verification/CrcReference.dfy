/**
The bit-serial definition of CRC-16/ARC over sequences of bits, independent of any
machine arithmetic, and the algebra of its register.

A register holds the coefficients of a polynomial of degree below 16 over GF(2),
highest power first, so that shifting is multiplication by x modulo the generator
x^16 + x^15 + x^2 + 1 (0x8005).
*/
module CrcReference {

  type Register = r: seq<bool> | |r| == 16
    witness [false, false, false, false, false, false, false, false,
             false, false, false, false, false, false, false, false]

  function Zeros(n: nat): (r: seq<bool>)
    ensures |r| == n
    ensures forall i | 0 <= i < n :: !r[i]
  {
    seq(n, i => false)
  }

  /** The low sixteen coefficients of the generator, read backwards: 0xA001. */
  function Generator(): Register {
    [true] + Zeros(12) + [true, false, true]
  }

  function Xor(a: seq<bool>, b: seq<bool>): (r: seq<bool>)
    requires |a| == |b|
    ensures |r| == |a|
    ensures forall i | 0 <= i < |a| :: r[i] == (a[i] != b[i])
  {
    seq(|a|, i requires 0 <= i < |a| => a[i] != b[i])
  }

  function Shift(c: Register): Register {
    Xor(c[1..] + [false], if c[0] then Generator() else Zeros(16))
  }

  function ShiftN(c: Register, n: nat): Register
    decreases n
  {
    if n == 0 then c else ShiftN(Shift(c), n - 1)
  }

  /** The register whose lowest bits are the given ones. */
  function Pad(bits: seq<bool>): Register
    requires |bits| <= 16
  {
    bits + Zeros(16 - |bits|)
  }

  function BitStep(c: Register, b: bool): Register {
    Shift(Xor(c, Pad([b])))
  }

  /** Feeds message bits, in transmission order, into the register. */
  function Feed(c: Register, bits: seq<bool>): Register
    decreases |bits|
  {
    if bits == [] then c else Feed(BitStep(c, bits[0]), bits[1..])
  }

  /** The bits of a byte, least significant first ("reflect input"). */
  function BitsOf(b: bv8): (r: seq<bool>)
    ensures |r| == 8
  {
    [b & 0x01 != 0, b & 0x02 != 0, b & 0x04 != 0, b & 0x08 != 0,
     b & 0x10 != 0, b & 0x20 != 0, b & 0x40 != 0, b & 0x80 != 0]
  }

  function MessageBits(data: seq<bv8>): (r: seq<bool>)
    ensures |r| == 8 * |data|
  {
    if data == [] then [] else BitsOf(data[0]) + MessageBits(data[1..])
  }

  /** The CRC of a message: the register after all its bits. */
  function Crc(data: seq<bv8>, seed: Register): Register {
    Feed(seed, MessageBits(data))
  }

  // ----- streaming -----

  lemma {:induction false} FeedAppend(c: Register, x: seq<bool>, y: seq<bool>)
    ensures Feed(c, x + y) == Feed(Feed(c, x), y)
    decreases |x|
  {
    if x == [] {
      assert x + y == y;
    } else {
      assert (x + y)[1..] == x[1..] + y;
      FeedAppend(BitStep(c, x[0]), x[1..], y);
    }
  }

  lemma {:induction false} MessageBitsAppend(a: seq<bv8>, b: seq<bv8>)
    ensures MessageBits(a + b) == MessageBits(a) + MessageBits(b)
    decreases |a|
  {
    if a == [] {
      assert a + b == b;
    } else {
      assert (a + b)[1..] == a[1..] + b;
      MessageBitsAppend(a[1..], b);
    }
  }

  lemma MessageBitsOfByte(b: bv8)
    ensures MessageBits([b]) == BitsOf(b)
  {
    assert [b][1..] == [];
  }

  /** Checksumming in pieces, each seeded with the last result, is checksumming the whole. */
  lemma CrcAppend(a: seq<bv8>, b: seq<bv8>, seed: Register)
    ensures Crc(a + b, seed) == Crc(b, Crc(a, seed))
  {
    MessageBitsAppend(a, b);
    FeedAppend(seed, MessageBits(a), MessageBits(b));
  }

  // ----- linearity -----

  lemma XorZero(a: Register)
    ensures Xor(a, Zeros(16)) == a
    ensures Xor(Zeros(16), a) == a
    ensures Xor(a, a) == Zeros(16)
  {
  }

  lemma XorSwap(a: Register, b: Register, c: Register, d: Register)
    ensures Xor(Xor(a, b), Xor(c, d)) == Xor(Xor(a, c), Xor(b, d))
  {
  }

  lemma ShiftIsLinear(c: Register, d: Register)
    ensures Shift(Xor(c, d)) == Xor(Shift(c), Shift(d))
  {
  }

  lemma {:induction false} ShiftNIsLinear(c: Register, d: Register, n: nat)
    ensures ShiftN(Xor(c, d), n) == Xor(ShiftN(c, n), ShiftN(d, n))
    decreases n
  {
    if n > 0 {
      ShiftIsLinear(c, d);
      ShiftNIsLinear(Shift(c), Shift(d), n - 1);
    }
  }

  lemma BitStepIsLinear(c: Register, d: Register, a: bool, b: bool)
    ensures BitStep(Xor(c, d), a != b) == Xor(BitStep(c, a), BitStep(d, b))
  {
    assert Pad([a != b]) == Xor(Pad([a]), Pad([b]));
    XorSwap(c, d, Pad([a]), Pad([b]));
    ShiftIsLinear(Xor(c, Pad([a])), Xor(d, Pad([b])));
  }

  /** Feeding the sum of two messages into the sum of two registers gives the sum of the results. */
  lemma {:induction false} FeedIsLinear(c: Register, d: Register, x: seq<bool>, y: seq<bool>)
    requires |x| == |y|
    ensures Feed(Xor(c, d), Xor(x, y)) == Xor(Feed(c, x), Feed(d, y))
    decreases |x|
  {
    if x != [] {
      BitStepIsLinear(c, d, x[0], y[0]);
      assert Xor(x, y)[1..] == Xor(x[1..], y[1..]);
      FeedIsLinear(BitStep(c, x[0]), BitStep(d, y[0]), x[1..], y[1..]);
    }
  }

  // ----- shifting is invertible -----

  lemma ShiftIsInjective(c: Register)
    requires Shift(c) == Zeros(16)
    ensures c == Zeros(16)
  {
    assert Shift(c)[15] == c[0];
    forall i | 1 <= i < 16 ensures !c[i] {
      assert Shift(c)[i - 1] == c[i];
    }
  }

  lemma {:induction false} ShiftNOfZero(n: nat)
    ensures ShiftN(Zeros(16), n) == Zeros(16)
  {
    if n > 0 {
      assert Shift(Zeros(16)) == Zeros(16);
      ShiftNOfZero(n - 1);
    }
  }

  lemma {:induction false} ShiftNIsInjective(c: Register, n: nat)
    requires ShiftN(c, n) == Zeros(16)
    ensures c == Zeros(16)
    decreases n
  {
    if n > 0 {
      ShiftNIsInjective(Shift(c), n - 1);
      ShiftIsInjective(c);
    }
  }

  lemma {:induction false} ShiftNAdd(c: Register, m: nat, n: nat)
    ensures ShiftN(c, m + n) == ShiftN(ShiftN(c, m), n)
    decreases m
  {
    if m > 0 { ShiftNAdd(Shift(c), m - 1, n); }
  }

  lemma FeedZero(c: Register)
    ensures BitStep(c, false) == Shift(c)
  {
    assert Xor(c, Pad([false])) == c;
  }

  lemma {:induction false} FeedZeros(c: Register, n: nat)
    ensures Feed(c, Zeros(n)) == ShiftN(c, n)
    decreases n
  {
    if n > 0 {
      assert Zeros(n)[1..] == Zeros(n - 1);
      FeedZero(c);
      FeedZeros(Shift(c), n - 1);
    }
  }

  // ----- up to sixteen bits at once -----

  lemma PadSplit(bits: seq<bool>)
    requires 0 < |bits| <= 16
    ensures Pad(bits) == Xor(Pad([bits[0]]), Pad([false] + bits[1..]))
  {
  }

  lemma ShiftOfPad(bits: seq<bool>)
    requires |bits| <= 15
    ensures Shift(Pad([false] + bits)) == Pad(bits)
  {
  }

  lemma XorAssoc(a: Register, b: Register, c: Register)
    ensures Xor(a, Xor(b, c)) == Xor(Xor(a, b), c)
  {
  }

  lemma ShiftUndoesPad(c: Register, bits: seq<bool>)
    requires 0 < |bits| <= 16
    ensures Shift(Xor(c, Pad(bits))) == Xor(BitStep(c, bits[0]), Pad(bits[1..]))
  {
    var head, tail := Pad([bits[0]]), Pad([false] + bits[1..]);
    PadSplit(bits);
    XorAssoc(c, head, tail);
    ShiftIsLinear(Xor(c, head), tail);
    ShiftOfPad(bits[1..]);
  }

  /** Feeding up to sixteen bits is adding them to the register at once, then shifting. */
  lemma {:induction false} FeedPadded(c: Register, bits: seq<bool>)
    requires |bits| <= 16
    ensures Feed(c, bits) == ShiftN(Xor(c, Pad(bits)), |bits|)
    decreases |bits|
  {
    if bits == [] {
      assert Pad(bits) == Zeros(16);
      XorZero(c);
    } else {
      FeedPadded(BitStep(c, bits[0]), bits[1..]);
      ShiftUndoesPad(c, bits);
    }
  }

  // ----- the same register as division by the unreflected polynomial 0x8005 -----

  /** The register read backwards: index j is then the coefficient of x^j ("reflect output"). */
  function Reverse(c: Register): (r: Register)
    ensures forall i | 0 <= i < 16 :: r[i] == c[15 - i]
  {
    seq(16, i requires 0 <= i < 16 => c[15 - i])
  }

  /** One step of dividing by x^16 + x^15 + x^2 + 1: multiply by x and add the bit at x^16. */
  function DivisionStep(r: Register, b: bool): Register {
    Xor([false] + r[..15], if r[15] != b then [true, false, true] + Zeros(12) + [true] else Zeros(16))
  }

  function Divide(r: Register, bits: seq<bool>): Register
    decreases |bits|
  {
    if bits == [] then r else Divide(DivisionStep(r, bits[0]), bits[1..])
  }

  lemma ReverseXor(a: Register, b: Register)
    ensures Reverse(Xor(a, b)) == Xor(Reverse(a), Reverse(b))
  {
  }

  lemma ReverseTaps(b: bool)
    ensures Reverse(if b then Generator() else Zeros(16))
            == if b then [true, false, true] + Zeros(12) + [true] else Zeros(16)
  {
  }

  lemma ReverseShiftedOut(c: Register, d: Register)
    requires c[1..] == d[1..]
    ensures Reverse(d[1..] + [false]) == [false] + Reverse(c)[..15]
  {
    assert forall i | 1 <= i < 16 :: c[i] == c[1..][i - 1] == d[1..][i - 1] == d[i];
  }

  lemma FirstBitStep(c: Register, b: bool)
    ensures Xor(c, Pad([b]))[0] == (Reverse(c)[15] != b)
    ensures Xor(c, Pad([b]))[1..] == c[1..]
  {
  }

  lemma ReverseStep(c: Register, b: bool)
    ensures Reverse(BitStep(c, b)) == DivisionStep(Reverse(c), b)
  {
    var x := Xor(c, Pad([b]));
    FirstBitStep(c, b);
    ReverseShiftedOut(c, x);
    ReverseTaps(x[0]);
    ReverseXor(x[1..] + [false], if x[0] then Generator() else Zeros(16));
  }

  /** The reflected register, read backwards, is the remainder of long division by 0x8005. */
  lemma {:induction false} FeedIsDivision(c: Register, bits: seq<bool>)
    ensures Reverse(Feed(c, bits)) == Divide(Reverse(c), bits)
    decreases |bits|
  {
    if bits != [] {
      ReverseStep(c, bits[0]);
      FeedIsDivision(BitStep(c, bits[0]), bits[1..]);
    }
  }
}
