/**
What the table CRC detects, for messages of any length: the exact condition under which
two messages collide, odd-weight errors, bursts, and the residue of an appended CRC.
*/
module CrcErrors {
  import opened CrcReference
  import C = Crc16

  /** The bits in which two messages of one length differ, in transmission order. */
  function ErrorPattern(a: seq<bv8>, b: seq<bv8>): seq<bool>
    requires |a| == |b|
  {
    Xor(MessageBits(a), MessageBits(b))
  }

  /** Two messages collide exactly when their error pattern alone leaves a zero register. */
  lemma CollisionIffZeroSyndrome(a: seq<bv8>, b: seq<bv8>, seed: Register)
    requires |a| == |b|
    ensures Crc(a, seed) == Crc(b, seed) <==> Feed(Zeros(16), ErrorPattern(a, b)) == Zeros(16)
  {
    XorZero(seed);
    FeedIsLinear(seed, seed, MessageBits(a), MessageBits(b));
    XorZero(Crc(a, seed));
    XorIsZero(Crc(a, seed), Crc(b, seed));
  }

  lemma XorIsZero(a: Register, b: Register)
    ensures Xor(a, b) == Zeros(16) ==> a == b
  {
    if Xor(a, b) == Zeros(16) {
      forall i | 0 <= i < 16 ensures a[i] == b[i] {
        assert !Xor(a, b)[i];
      }
    }
  }

  // ----- parity -----

  function Weight(bits: seq<bool>): nat {
    if bits == [] then 0 else (if bits[0] then 1 else 0) + Weight(bits[1..])
  }

  predicate Parity(bits: seq<bool>) {
    Weight(bits) % 2 == 1
  }

  lemma {:induction false} WeightAppend(a: seq<bool>, b: seq<bool>)
    ensures Weight(a + b) == Weight(a) + Weight(b)
    decreases |a|
  {
    if a == [] {
      assert a + b == b;
    } else {
      assert (a + b)[1..] == a[1..] + b;
      WeightAppend(a[1..], b);
    }
  }

  lemma {:induction false} ParityXor(a: seq<bool>, b: seq<bool>)
    requires |a| == |b|
    ensures Parity(Xor(a, b)) <==> Parity(a) != Parity(b)
    decreases |a|
  {
    if a != [] {
      assert Xor(a, b)[1..] == Xor(a[1..], b[1..]);
      ParityXor(a[1..], b[1..]);
    }
  }

  lemma {:induction false} WeightOfZeros(n: nat)
    ensures Weight(Zeros(n)) == 0
  {
    if n > 0 {
      assert Zeros(n)[1..] == Zeros(n - 1);
      WeightOfZeros(n - 1);
    }
  }

  lemma WeightOfThree(a: bool, b: bool, c: bool)
    ensures Weight([a, b, c]) == Weight([a]) + Weight([b]) + Weight([c])
  {
    assert [a, b, c][1..] == [b, c] && [b, c][1..] == [c];
  }

  lemma ParityOfGenerator()
    ensures Parity(Generator())
  {
    WeightAppend([true] + Zeros(12), [true, false, true]);
    WeightAppend([true], Zeros(12));
    WeightOfZeros(12);
    WeightOfThree(true, false, true);
  }

  lemma ParityOfShiftedOut(c: Register)
    ensures Parity(c[1..] + [false]) <==> Parity(c) != c[0]
  {
    WeightAppend(c[1..], [false]);
  }

  /** The generator has an even number of terms, so shifting keeps parity. */
  lemma ParityOfShift(c: Register)
    ensures Parity(Shift(c)) <==> Parity(c)
  {
    var taps := if c[0] then Generator() else Zeros(16);
    assert Parity(taps) <==> c[0] by {
      ParityOfGenerator();
      WeightOfZeros(16);
    }
    ParityOfShiftedOut(c);
    ParityXor(c[1..] + [false], taps);
  }

  lemma WeightOfPaddedBit(b: bool)
    ensures Weight(Pad([b])) == if b then 1 else 0
  {
    WeightAppend([b], Zeros(15));
    WeightOfZeros(15);
  }

  lemma ParityOfBitStep(c: Register, b: bool)
    ensures Parity(BitStep(c, b)) <==> Parity(c) != b
  {
    ParityOfShift(Xor(c, Pad([b])));
    ParityXor(c, Pad([b]));
    WeightOfPaddedBit(b);
  }

  lemma {:induction false} ParityOfFeed(c: Register, bits: seq<bool>)
    ensures Parity(Feed(c, bits)) <==> Parity(c) != Parity(bits)
    decreases |bits|
  {
    if bits != [] {
      ParityOfBitStep(c, bits[0]);
      ParityOfFeed(BitStep(c, bits[0]), bits[1..]);
    }
  }

  /** The parity of the CRC is the parity of the message and the seed together. */
  lemma ParityOfCrc(data: seq<bv8>, seed: Register)
    ensures Parity(Crc(data, seed)) <==> Parity(seed) != Parity(MessageBits(data))
  {
    ParityOfFeed(seed, MessageBits(data));
  }

  /** Every error in an odd number of bits changes the CRC. */
  lemma OddErrorsAreDetected(a: seq<bv8>, b: seq<bv8>, seed: Register)
    requires |a| == |b| && Weight(ErrorPattern(a, b)) % 2 == 1
    ensures Crc(a, seed) != Crc(b, seed)
  {
    ParityXor(MessageBits(a), MessageBits(b));
    ParityOfCrc(a, seed);
    ParityOfCrc(b, seed);
  }

  // ----- bursts -----

  lemma {:induction false} QuietBitsKeepZero(p: nat, bits: seq<bool>)
    ensures Feed(Zeros(16), Zeros(p) + bits) == Feed(Zeros(16), bits)
  {
    FeedAppend(Zeros(16), Zeros(p), bits);
    FeedZeros(Zeros(16), p);
    ShiftNOfZero(p);
  }

  lemma SyndromeOfShortMessage(burst: seq<bool>)
    requires |burst| <= 16
    ensures Feed(Zeros(16), burst) == ShiftN(Pad(burst), |burst|)
  {
    FeedPadded(Zeros(16), burst);
    XorZero(Pad(burst));
  }

  lemma SyndromeThenQuiet(burst: seq<bool>, q: nat)
    requires |burst| <= 16
    ensures Feed(Zeros(16), burst + Zeros(q)) == ShiftN(ShiftN(Pad(burst), |burst|), q)
  {
    FeedAppend(Zeros(16), burst, Zeros(q));
    SyndromeOfShortMessage(burst);
    FeedZeros(ShiftN(Pad(burst), |burst|), q);
  }

  /** A burst of at most sixteen bits among quiet bits leaves a zero register only if it is quiet too. */
  lemma ZeroSyndromeOfBurst(p: nat, burst: seq<bool>, q: nat)
    requires |burst| <= 16
    requires Feed(Zeros(16), Zeros(p) + burst + Zeros(q)) == Zeros(16)
    ensures ShiftN(ShiftN(Pad(burst), |burst|), q) == Zeros(16)
  {
    assert Zeros(p) + burst + Zeros(q) == Zeros(p) + (burst + Zeros(q));
    QuietBitsKeepZero(p, burst + Zeros(q));
    SyndromeThenQuiet(burst, q);
  }

  lemma QuietBurst(p: nat, burst: seq<bool>, q: nat)
    requires |burst| <= 16 && Pad(burst) == Zeros(16)
    ensures Zeros(p) + burst + Zeros(q) == Zeros(p + |burst| + q)
  {
    assert forall i | 0 <= i < |burst| :: Pad(burst)[i] == burst[i];
  }

  lemma BurstLeavesRegister(p: nat, burst: seq<bool>, q: nat)
    requires |burst| <= 16
    requires Feed(Zeros(16), Zeros(p) + burst + Zeros(q)) == Zeros(16)
    ensures Zeros(p) + burst + Zeros(q) == Zeros(p + |burst| + q)
  {
    ZeroSyndromeOfBurst(p, burst, q);
    ShiftNIsInjective(ShiftN(Pad(burst), |burst|), q);
    ShiftNIsInjective(Pad(burst), |burst|);
    QuietBurst(p, burst, q);
  }

  /** Every error confined to sixteen consecutive bits, at any bit offset, changes the CRC. */
  lemma BurstsAreDetected(a: seq<bv8>, b: seq<bv8>, seed: Register, p: nat, burst: seq<bool>, q: nat)
    requires |a| == |b| && ErrorPattern(a, b) == Zeros(p) + burst + Zeros(q)
    requires |burst| <= 16 && a != b
    ensures Crc(a, seed) != Crc(b, seed)
  {
    CollisionIffZeroSyndrome(a, b, seed);
    if Feed(Zeros(16), ErrorPattern(a, b)) == Zeros(16) {
      BurstLeavesRegister(p, burst, q);
      SameBits(MessageBits(a), MessageBits(b));
      MessageBitsIsInjective(a, b);
    }
  }

  lemma SameBits(x: seq<bool>, y: seq<bool>)
    requires |x| == |y| && Xor(x, y) == Zeros(|x|)
    ensures x == y
  {
    forall i | 0 <= i < |x| ensures x[i] == y[i] {
      assert !Xor(x, y)[i];
    }
  }

  lemma BitsOfIsInjective(a: bv8, b: bv8)
    requires BitsOf(a) == BitsOf(b)
    ensures a == b
  {
    var x, y := BitsOf(a), BitsOf(b);
    assert x[0] == y[0] && x[1] == y[1] && x[2] == y[2] && x[3] == y[3];
    assert x[4] == y[4] && x[5] == y[5] && x[6] == y[6] && x[7] == y[7];
  }

  lemma {:induction false} MessageBitsIsInjective(a: seq<bv8>, b: seq<bv8>)
    requires |a| == |b| && MessageBits(a) == MessageBits(b)
    ensures a == b
    decreases |a|
  {
    if a != [] {
      assert BitsOf(a[0]) == MessageBits(a)[..8] == MessageBits(b)[..8] == BitsOf(b[0]);
      assert MessageBits(a[1..]) == MessageBits(a)[8..] == MessageBits(b)[8..] == MessageBits(b[1..]);
      BitsOfIsInjective(a[0], b[0]);
      MessageBitsIsInjective(a[1..], b[1..]);
    }
  }

  // ----- the residue -----

  /** Two bytes after a message give CRC zero exactly when they are its CRC, low byte first. */
  lemma ResidueIsZeroIffCrcAppended(data: seq<bv8>, low: bv8, high: bv8, seed: Register)
    ensures Crc(data + [low, high], seed) == Zeros(16) <==> BitsOf(low) + BitsOf(high) == Crc(data, seed)
  {
    var c, w := Crc(data, seed), BitsOf(low) + BitsOf(high);
    CrcAppend(data, [low, high], seed);
    assert [low, high] == [low] + [high];
    MessageBitsAppend([low], [high]);
    MessageBitsOfByte(low);
    MessageBitsOfByte(high);
    FeedPadded(c, w);
    assert Pad(w) == w;
    if Crc(data + [low, high], seed) == Zeros(16) {
      ShiftNIsInjective(Xor(c, w), 16);
      XorIsZero(c, w);
    } else if w == c {
      XorZero(c);
      ShiftNOfZero(16);
    }
  }
}
