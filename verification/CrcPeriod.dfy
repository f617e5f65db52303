/**
Two-bit errors: the CRC misses them exactly when the two bits are a multiple of 32767
apart. The argument is that x has order 32767 modulo the generator.
*/
module CrcPeriod {
  import opened CrcReference
  import opened CrcErrors
  import C = Crc16

  /** The register of the constant polynomial 1. */
  function One(): Register {
    Zeros(15) + [true]
  }

  // ----- products of registers, by Horner's rule -----

  function Select(b: bool, w: Register): Register {
    if b then w else Zeros(16)
  }

  function Horner(bits: seq<bool>, w: Register, acc: Register): Register
    decreases |bits|
  {
    if bits == [] then acc else Horner(bits[1..], w, Xor(Shift(acc), Select(bits[0], w)))
  }

  /** The first k bits of a register, moved to its end. */
  function Leading(v: Register, k: nat): (r: Register)
    requires k <= 16
    ensures forall i | 0 <= i < 16 :: r[i] == (i >= 16 - k && v[i - (16 - k)])
  {
    Zeros(16 - k) + v[..k]
  }

  lemma ShiftOfLeading(v: Register, k: nat)
    requires k < 16
    ensures forall i | 0 <= i < 15 :: Shift(Leading(v, k))[i] == Leading(v, k)[i + 1]
    ensures !Shift(Leading(v, k))[15]
  {
  }

  lemma AddLast(v: Register, k: nat, s: Register)
    requires k < 16 && !s[15]
    requires forall i | 0 <= i < 15 :: s[i] == Leading(v, k)[i + 1]
    ensures Xor(s, Select(v[k], One())) == Leading(v, k + 1)
  {
    assert forall i | 0 <= i < 16 :: Select(v[k], One())[i] == (i == 15 && v[k]);
    forall i | 0 <= i < 16 ensures Xor(s, Select(v[k], One()))[i] == Leading(v, k + 1)[i] {
      if i < 15 { assert s[i] == Leading(v, k)[i + 1]; }
    }
  }

  lemma BuildStep(v: Register, k: nat)
    requires k < 16
    ensures Xor(Shift(Leading(v, k)), Select(v[k], One())) == Leading(v, k + 1)
  {
    ShiftOfLeading(v, k);
    AddLast(v, k, Shift(Leading(v, k)));
  }

  lemma {:induction false} HornerBuilds(v: Register, k: nat)
    requires k <= 16
    ensures Horner(v[k..], One(), Leading(v, k)) == v
    decreases 16 - k
  {
    if k == 16 {
      assert Leading(v, 16) == v;
    } else {
      BuildStep(v, k);
      assert v[k..][1..] == v[k + 1..];
      HornerBuilds(v, k + 1);
    }
  }

  lemma ShiftOfSelect(b: bool, w: Register)
    ensures Shift(Select(b, w)) == Select(b, Shift(w))
  {
    assert Shift(Zeros(16)) == Zeros(16);
  }

  lemma HornerStepCommutes(b: bool, w: Register, acc: Register)
    ensures Xor(Shift(Shift(acc)), Select(b, Shift(w))) == Shift(Xor(Shift(acc), Select(b, w)))
  {
    ShiftIsLinear(Shift(acc), Select(b, w));
    ShiftOfSelect(b, w);
  }

  lemma {:induction false} HornerCommutes(bits: seq<bool>, w: Register, acc: Register)
    ensures Horner(bits, Shift(w), Shift(acc)) == Shift(Horner(bits, w, acc))
    decreases |bits|
  {
    if bits != [] {
      HornerStepCommutes(bits[0], w, acc);
      HornerCommutes(bits[1..], w, Xor(Shift(acc), Select(bits[0], w)));
    }
  }

  lemma ShiftNLast(c: Register, n: nat)
    requires n > 0
    ensures ShiftN(c, n) == Shift(ShiftN(c, n - 1))
  {
    ShiftNAdd(c, n - 1, 1);
    assert ShiftN(ShiftN(c, n - 1), 1) == ShiftN(Shift(ShiftN(c, n - 1)), 0);
  }

  lemma ZeroShifted()
    ensures Shift(Zeros(16)) == Zeros(16)
  {
  }

  /** Shifting by n multiplies by x^n. */
  lemma {:induction false} ShiftIsProduct(v: Register, n: nat)
    ensures ShiftN(v, n) == Horner(v, ShiftN(One(), n), Zeros(16))
    decreases n
  {
    if n == 0 {
      HornerBuilds(v, 0);
      assert v[0..] == v && Leading(v, 0) == Zeros(16);
    } else {
      ShiftIsProduct(v, n - 1);
      ShiftNLast(v, n);
      ShiftNLast(One(), n);
      HornerCommutes(v, ShiftN(One(), n - 1), Zeros(16));
      ZeroShifted();
    }
  }

  // ----- the same products on machine words, for computation -----

  function SelectWord(b: bool, w: bv16): bv16 {
    if b then w else 0
  }

  function WordStep(v: bv16, w: bv16, acc: bv16): bv16 {
    C.Shift1(acc) ^ SelectWord(v & 1 == 1, w)
  }

  function Half(v: bv16): bv16 {
    v >> 1
  }

  function HornerWord(v: bv16, w: bv16, acc: bv16, n: nat): bv16
    decreases n
  {
    if n == 0 then acc
    else HornerWord(Half(v), w, WordStep(v, w, acc), n - 1)
  }

  lemma SelectWordIsSelect(b: bool, w: bv16)
    ensures C.ToRegister(SelectWord(b, w)) == Select(b, C.ToRegister(w))
  {
    C.ToRegisterGenerator();
  }

  lemma XorOfImages(s: bv16, t: bv16, x: Register, y: Register)
    requires C.ToRegister(s) == x && C.ToRegister(t) == y
    ensures C.ToRegister(s ^ t) == Xor(x, y)
  {
    C.ToRegisterXor(s, t);
  }

  lemma HornerWordStep(b: bool, w: bv16, acc: bv16)
    ensures C.ToRegister(C.Shift1(acc) ^ SelectWord(b, w))
            == Xor(Shift(C.ToRegister(acc)), Select(b, C.ToRegister(w)))
  {
    C.ToRegisterShift(acc);
    SelectWordIsSelect(b, w);
    XorOfImages(C.Shift1(acc), SelectWord(b, w), Shift(C.ToRegister(acc)), Select(b, C.ToRegister(w)));
  }

  lemma {:induction false} HornerWordIsHorner(v: bv16, w: bv16, acc: bv16, n: nat)
    requires n <= 16
    ensures C.ToRegister(HornerWord(v, w, acc, n))
            == Horner(C.ToRegister(v)[..n], C.ToRegister(w), C.ToRegister(acc))
    decreases n
  {
    if n > 0 {
      HalfOfWord(v, n);
      HornerWordIsHorner(Half(v), w, WordStep(v, w, acc), n - 1);
      WordStepIs(v, w, acc);
      HornerNext(C.ToRegister(v)[..n], C.ToRegister(w), C.ToRegister(acc), C.ToRegister(WordStep(v, w, acc)));
    }
  }

  lemma HalfOfWord(v: bv16, n: nat)
    requires 0 < n <= 16
    ensures C.ToRegister(Half(v))[..n - 1] == C.ToRegister(v)[..n][1..]
    ensures C.ToRegister(v)[..n][0] <==> v & 1 == 1
  {
    C.LowestBit(v);
    C.ToRegisterHalf(v);
  }

  lemma WordStepIs(v: bv16, w: bv16, acc: bv16)
    ensures C.ToRegister(WordStep(v, w, acc)) == Xor(Shift(C.ToRegister(acc)), Select(v & 1 == 1, C.ToRegister(w)))
  {
    var b := v & 1 == 1;
    HornerWordStep(b, w, acc);
    assert WordStep(v, w, acc) == C.Shift1(acc) ^ SelectWord(b, w);
  }

  lemma HornerNext(bits: seq<bool>, w: Register, acc: Register, next: Register)
    requires bits != [] && next == Xor(Shift(acc), Select(bits[0], w))
    ensures Horner(bits, w, acc) == Horner(bits[1..], w, next)
  {
  }

  function FourSteps(v: bv16, w: bv16, acc: bv16): bv16 {
    WordStep(Half(Half(Half(v))), w, WordStep(Half(Half(v)), w, WordStep(Half(v), w, WordStep(v, w, acc))))
  }

  function Sixteenth(v: bv16): bv16 {
    Half(Half(Half(Half(v))))
  }

  function Product(v: bv16, w: bv16): bv16 {
    var v4 := Sixteenth(v);
    var v8 := Sixteenth(v4);
    FourSteps(Sixteenth(v8), w, FourSteps(v8, w, FourSteps(v4, w, FourSteps(v, w, 0))))
  }

  lemma UnrollTwo(v: bv16, w: bv16, acc: bv16, n: nat)
    requires n >= 2
    ensures HornerWord(v, w, acc, n) == HornerWord(Half(Half(v)), w, WordStep(Half(v), w, WordStep(v, w, acc)), n - 2)
  {
  }

  lemma UnrollFour(v: bv16, w: bv16, acc: bv16, n: nat)
    requires n >= 4
    ensures HornerWord(v, w, acc, n) == HornerWord(Sixteenth(v), w, FourSteps(v, w, acc), n - 4)
  {
    UnrollTwo(v, w, acc, n);
    UnrollTwo(Half(Half(v)), w, WordStep(Half(v), w, WordStep(v, w, acc)), n - 2);
  }

  lemma HornerWordIsProduct(v: bv16, w: bv16)
    ensures HornerWord(v, w, 0, 16) == Product(v, w)
  {
    var v4 := Sixteenth(v);
    var v8 := Sixteenth(v4);
    var a := FourSteps(v, w, 0);
    var b := FourSteps(v4, w, a);
    UnrollFour(v, w, 0, 16);
    UnrollFour(v4, w, a, 12);
    UnrollFour(v8, w, b, 8);
    UnrollFour(Sixteenth(v8), w, FourSteps(v8, w, b), 4);
  }

  /** x^n modulo the generator, as a machine word. */
  predicate PowerIs(n: nat, c: bv16) {
    ShiftN(One(), n) == C.ToRegister(c)
  }

  lemma ProductIsHorner(a: bv16, b: bv16)
    ensures C.ToRegister(Product(a, b)) == Horner(C.ToRegister(a), C.ToRegister(b), Zeros(16))
  {
    HornerWordIsProduct(a, b);
    HornerWordIsHorner(a, b, 0, 16);
    C.ToRegisterGenerator();
    assert C.ToRegister(a)[..16] == C.ToRegister(a);
  }

  lemma Multiply(m: nat, a: bv16, n: nat, b: bv16, c: bv16)
    requires PowerIs(m, a) && PowerIs(n, b) && c == Product(a, b)
    ensures PowerIs(m + n, c)
  {
    ShiftNAdd(One(), m, n);
    ShiftIsProduct(C.ToRegister(a), n);
    ProductIsHorner(a, b);
  }

  lemma FirstPower()
    ensures PowerIs(1, 0x4000)
  {
    C.Masks();
    assert C.ToRegister(0x8000) == One();
    C.ToRegisterShift(0x8000);
    assert C.Shift1(0x8000) == 0x4000;
    assert ShiftN(One(), 1) == ShiftN(Shift(One()), 0);
  }

  // The powers of x below are computed by the verifier, a product at a time.

  lemma PowersTo8()
    ensures PowerIs(1, 0x4000) && PowerIs(8, 0x0080)
  {
    FirstPower();
    Multiply(1, 0x4000, 1, 0x4000, 0x2000);
    Multiply(2, 0x2000, 2, 0x2000, 0x0800);
    Multiply(4, 0x0800, 4, 0x0800, 0x0080);
  }

  lemma PowersTo64()
    ensures PowerIs(16, 0xA001) && PowerIs(32, 0xE801) && PowerIs(64, 0xC881)
  {
    PowersTo8();
    Multiply(8, 0x0080, 8, 0x0080, 0xA001);
    Multiply(16, 0xA001, 16, 0xA001, 0xE801);
    Multiply(32, 0xE801, 32, 0xE801, 0xC881);
  }

  lemma PowersTo512()
    ensures PowerIs(128, 0x6080) && PowerIs(512, 0xE081)
  {
    PowersTo64();
    Multiply(64, 0xC881, 64, 0xC881, 0x6080);
    Multiply(128, 0x6080, 128, 0x6080, 0x8801);
    Multiply(256, 0x8801, 256, 0x8801, 0xE081);
  }

  lemma PowersTo4096()
    ensures PowerIs(1024, 0x6800) && PowerIs(4096, 0xA881)
  {
    PowersTo512();
    Multiply(512, 0xE081, 512, 0xE081, 0x6800);
    Multiply(1024, 0x6800, 1024, 0x6800, 0x2880);
    Multiply(2048, 0x2880, 2048, 0x2880, 0xA881);
  }

  lemma Power9()
    ensures PowerIs(9, 0x0040)
  {
    PowersTo8();
    Multiply(1, 0x4000, 8, 0x0080, 0x0040);
  }

  lemma Power89()
    ensures PowerIs(89, 0xD402)
  {
    Power9();
    PowersTo64();
    Multiply(9, 0x0040, 16, 0xA001, 0xC031);
    Multiply(25, 0xC031, 64, 0xC881, 0xD402);
  }

  lemma Power217()
    ensures PowerIs(217, 0x3E55)
  {
    Power89();
    PowersTo512();
    Multiply(89, 0xD402, 128, 0x6080, 0x3E55);
  }

  lemma Power33()
    ensures PowerIs(33, 0xD401)
  {
    PowersTo8();
    PowersTo64();
    Multiply(1, 0x4000, 32, 0xE801, 0xD401);
  }

  lemma Power1057()
    ensures PowerIs(1057, 0xCE41)
  {
    Power33();
    PowersTo4096();
    Multiply(33, 0xD401, 1024, 0x6800, 0xCE41);
  }

  lemma Power73()
    ensures PowerIs(73, 0x3004)
  {
    Power9();
    PowersTo64();
    Multiply(9, 0x0040, 64, 0xC881, 0x3004);
  }

  lemma Power4681()
    ensures PowerIs(4681, 0x8C69)
  {
    Power73();
    PowersTo512();
    PowersTo4096();
    Multiply(73, 0x3004, 512, 0xE081, 0x0F31);
    Multiply(585, 0x0F31, 4096, 0xA881, 0x8C69);
  }

  lemma Power32767()
    ensures PowerIs(32767, 0x8000)
  {
    Power4681();
    Multiply(4681, 0x8C69, 4681, 0x8C69, 0x3EC0);
    Multiply(9362, 0x3EC0, 9362, 0x3EC0, 0x72A8);
    Multiply(4681, 0x8C69, 9362, 0x3EC0, 0xCC68);
    Multiply(14043, 0xCC68, 18724, 0x72A8, 0x8000);
  }

  // ----- the order of x -----

  predicate Period(n: nat) {
    ShiftN(One(), n) == One()
  }

  lemma OneIsTopBit()
    ensures C.ToRegister(0x8000) == One()
  {
    C.Masks();
  }

  lemma NotOne(n: nat, c: bv16)
    requires PowerIs(n, c) && c & 0x0001 != 0
    ensures !Period(n)
  {
    C.Masks();
    assert C.ToRegister(c)[0] && !One()[0];
  }

  lemma KnownPeriods()
    ensures Period(32767) && !Period(217) && !Period(1057) && !Period(4681)
  {
    Power32767();
    OneIsTopBit();
    Power217();
    NotOne(217, 0x3E55);
    Power1057();
    NotOne(1057, 0xCE41);
    Power4681();
    NotOne(4681, 0x8C69);
  }

  lemma PeriodAdd(a: nat, b: nat)
    requires Period(a)
    ensures Period(a + b) <==> Period(b)
  {
    ShiftNAdd(One(), a, b);
  }

  lemma {:induction false} PeriodMultiple(d: nat, k: nat)
    requires Period(d)
    ensures Period(d * k)
  {
    if k > 0 {
      PeriodMultiple(d, k - 1);
      PeriodAdd(d, d * (k - 1));
      assert d * k == d + d * (k - 1);
    }
  }

  lemma {:induction false} PeriodRemainder(d: nat, k: nat, r: nat)
    requires Period(d)
    ensures Period(d * k + r) <==> Period(r)
  {
    PeriodMultiple(d, k);
    PeriodAdd(d * k, r);
  }

  lemma LeastPeriod() returns (d: nat)
    ensures 0 < d <= 32767 && Period(d)
    ensures forall e | 0 < e < d :: !Period(e)
  {
    KnownPeriods();
    d := 1;
    while !Period(d)
      invariant 0 < d <= 32767
      invariant forall e | 0 < e < d :: !Period(e)
      decreases 32767 - d
    {
      d := d + 1;
    }
  }

  /** Every period is a multiple of the least one. */
  lemma LeastDivides(d: nat, n: nat) returns (k: nat)
    requires 0 < d && Period(d) && Period(n)
    requires forall e | 0 < e < d :: !Period(e)
    ensures n == d * k
  {
    k := n / d;
    var r := n - d * k;
    assert 0 <= r < d;
    PeriodRemainder(d, k, r);
  }

  // ----- 32767 = 7 * 31 * 151 -----

  ghost predicate Prime(p: nat) {
    p > 1 && forall k: nat, m: nat | 1 < k < p :: k * m != p
  }

  lemma NoSmallFactor(k: nat, m: nat)
    requires 1 < k <= 12
    ensures k * m != 151
    ensures k <= 5 ==> k * m != 31
    ensures k <= 2 ==> k * m != 7
  {
    assert k == 2 || k == 3 || k == 4 || k == 5 || k == 6 || k == 7 || k == 8
           || k == 9 || k == 10 || k == 11 || k == 12;
  }

  lemma LargeProduct(k: nat, m: nat, b: nat)
    requires k >= b && m >= b
    ensures k * m >= b * b
  {
  }

  lemma FactorsArePrime()
    ensures Prime(7) && Prime(31) && Prime(151)
  {
    forall k: nat, m: nat | 1 < k < 151 ensures k * m != 151 && (k < 31 ==> k * m != 31) && (k < 7 ==> k * m != 7) {
      assert k * m == m * k;
      if k <= 12 { NoSmallFactor(k, m); }
      if 1 < m <= 12 { NoSmallFactor(m, k); }
      if k > 12 && m > 12 { LargeProduct(k, m, 13); }
      if k > 5 && m > 5 { LargeProduct(k, m, 6); }
      if k > 2 && m > 2 { LargeProduct(k, m, 3); }
    }
  }

  lemma EuclidStep(p: int, r: int, s: int, t: int, a: int)
    requires r * s == p * t
    ensures (p - r * a) * s == p * (s - a * t)
  {
    assert (p - r * a) * s == p * s - a * (r * s);
    assert a * (p * t) == p * (a * t);
  }

  lemma SameProduct(p: nat, s: nat, t: int)
    requires p > 0 && s == p * t
    ensures t >= 0
  {
  }

  /** A prime that divides r * s, with r below it, divides s. */
  lemma {:induction false} EuclidLemma(p: nat, r: nat, s: nat, t: int) returns (k: nat)
    requires Prime(p) && 0 < r < p && r * s == p * t
    ensures s == p * k
    decreases r
  {
    if r == 1 {
      SameProduct(p, s, t);
      k := t;
    } else {
      var a := p / r;
      EuclidStep(p, r, s, t, a);
      k := EuclidLemma(p, p - r * a, s, s - a * t);
    }
  }

  lemma RemainderProduct(p: int, u: int, r: int, q: int, c: int)
    requires (p * u + r) * q == p * c
    ensures r * q == p * (c - u * q)
  {
    assert (p * u) * q == p * (u * q);
  }

  lemma FactorOut(p: nat, d: nat, k: nat, c: nat)
    requires p > 0 && d * (p * k) == p * c
    ensures d * k == c
  {
    assert d * (p * k) == p * (d * k);
    CancelFactor(p, d * k, c);
  }

  lemma CancelLeft(p: nat, u: nat, q: nat, c: nat)
    requires p > 0 && (p * u) * q == p * c
    ensures u * q == c
  {
    assert (p * u) * q == p * (u * q);
    CancelFactor(p, u * q, c);
  }

  lemma DivMod(d: nat, p: nat) returns (u: nat, r: nat)
    requires p > 0
    ensures d == p * u + r && r < p
  {
    u, r := d / p, d % p;
  }

  lemma CoprimeCase(p: nat, c: nat, d: nat, q: nat, u: nat, r: nat) returns (k: nat)
    requires Prime(p) && d * q == p * c && d == p * u + r && 0 < r < p
    ensures d * k == c
  {
    RemainderProduct(p, u, r, q, c);
    k := EuclidLemma(p, r, q, c - u * q);
    FactorOut(p, d, k, c);
  }

  /** If d divides p * c then either p divides d, or d divides c. */
  lemma SplitPrime(p: nat, c: nat, d: nat, q: nat) returns (u: nat, k: nat)
    requires Prime(p) && d * q == p * c
    ensures (d == p * u && u * q == c) || d * k == c
  {
    var r;
    k := 0;
    u, r := DivMod(d, p);
    if r == 0 { CancelLeft(p, u, q, c); } else { k := CoprimeCase(p, c, d, q, u, r); }
  }

  lemma CancelFactor(p: nat, x: nat, y: nat)
    requires p > 0 && p * x == p * y
    ensures x == y
  {
  }

  /** A proper divisor of 32767 divides its quotient by one of its three primes. */
  lemma ProperDivisor(d: nat, q: nat) returns (k: nat)
    requires d * q == 32767 && q > 1
    ensures d * k == 217 || d * k == 1057 || d * k == 4681
  {
    FactorsArePrime();
    var u, v, w;
    u, k := SplitPrime(7, 4681, d, q);
    if d * k == 4681 { return; }
    v, k := SplitPrime(31, 151, u, q);
    if u * k == 151 { assert d * k == 7 * (u * k); return; }
    w, k := SplitPrime(151, 1, v, q);
    if v * k == 1 { assert d * k == 7 * (31 * (v * k)); return; }
    LargeProduct(w, q, 0);
    assert w * q == 1;
    assert false by { UnitProduct(w, q); }
  }

  lemma UnitProduct(w: nat, q: nat)
    requires q > 1
    ensures w * q != 1
  {
    if w > 0 { LargeProductOne(w, q); }
  }

  lemma LargeProductOne(w: nat, q: nat)
    requires w >= 1
    ensures w * q >= q
  {
  }

  lemma ProperDivisorIsNoPeriod(d: nat, q: nat)
    requires d * q == 32767 && q > 1
    ensures !Period(d)
  {
    KnownPeriods();
    var k := ProperDivisor(d, q);
    if Period(d) { PeriodMultiple(d, k); }
  }

  lemma LeastPeriodIs32767()
    ensures Period(32767)
    ensures forall e | 0 < e < 32767 :: !Period(e)
  {
    KnownPeriods();
    var d := LeastPeriod();
    var q := LeastDivides(d, 32767);
    if q > 1 { ProperDivisorIsNoPeriod(d, q); }
  }

  /** x has order 32767 modulo the generator. */
  lemma OrderOfX(n: nat)
    ensures Period(n) <==> n % 32767 == 0
  {
    LeastPeriodIs32767();
    PeriodRemainder(32767, n / 32767, n % 32767);
    assert ShiftN(One(), 0) == One();
  }

  // ----- two-bit errors -----

  lemma LoneBitMoves(k: nat)
    requires 1 <= k <= 15
    ensures Shift(Zeros(k) + [true] + Zeros(15 - k)) == Zeros(k - 1) + [true] + Zeros(16 - k)
  {
  }

  lemma {:induction false} LoneBit(k: nat)
    requires k <= 15
    ensures ShiftN(Zeros(k) + [true] + Zeros(15 - k), k) == Pad([true])
  {
    if k == 0 {
      assert Zeros(0) + [true] + Zeros(15) == Pad([true]);
    } else {
      LoneBitMoves(k);
      LoneBit(k - 1);
    }
  }

  lemma LowestBitIsPower()
    ensures ShiftN(One(), 15) == Pad([true])
  {
    assert Zeros(15) + [true] + Zeros(0) == One();
    LoneBit(15);
  }

  lemma ShiftNCancels(a: Register, b: Register, n: nat)
    ensures ShiftN(a, n) == ShiftN(b, n) <==> a == b
  {
    if ShiftN(a, n) == ShiftN(b, n) {
      ShiftNIsLinear(a, b, n);
      XorZero(ShiftN(a, n));
      ShiftNIsInjective(Xor(a, b), n);
      XorIsZero(a, b);
    }
  }

  lemma BitReturns(n: nat)
    ensures ShiftN(Pad([true]), n) == Pad([true]) <==> Period(n)
  {
    LowestBitIsPower();
    ShiftNAdd(One(), 15, n);
    ShiftNAdd(One(), n, 15);
    ShiftNCancels(ShiftN(One(), n), One(), 15);
  }

  lemma FirstErrorBit(n: nat, rest: seq<bool>)
    requires n > 0
    ensures Feed(Zeros(16), [true] + Zeros(n - 1) + rest) == Feed(ShiftN(Pad([true]), n), rest)
  {
    assert [true] + Zeros(n - 1) + rest == [true] + (Zeros(n - 1) + rest);
    FeedAppend(Zeros(16), [true], Zeros(n - 1) + rest);
    SyndromeOfShortMessage([true]);
    FeedAppend(ShiftN(Pad([true]), 1), Zeros(n - 1), rest);
    FeedZeros(ShiftN(Pad([true]), 1), n - 1);
    ShiftNAdd(Pad([true]), 1, n - 1);
  }

  lemma SecondErrorBit(c: Register, q: nat)
    ensures Feed(c, [true] + Zeros(q)) == ShiftN(ShiftN(Xor(c, Pad([true])), 1), q)
  {
    FeedAppend(c, [true], Zeros(q));
    FeedPadded(c, [true]);
    FeedZeros(ShiftN(Xor(c, Pad([true])), 1), q);
  }

  lemma SecondErrorBitCancels(c: Register, q: nat)
    ensures Feed(c, [true] + Zeros(q)) == Zeros(16) <==> c == Pad([true])
  {
    SecondErrorBit(c, q);
    var x := Xor(c, Pad([true]));
    if c == Pad([true]) {
      XorZero(c);
      ShiftNOfZero(1);
      ShiftNOfZero(q);
    } else if ShiftN(ShiftN(x, 1), q) == Zeros(16) {
      ShiftNIsInjective(ShiftN(x, 1), q);
      ShiftNIsInjective(x, 1);
      XorIsZero(c, Pad([true]));
    }
  }

  function TwoBits(p: nat, n: nat, q: nat): seq<bool>
    requires n > 0
  {
    Zeros(p) + ([true] + Zeros(n - 1) + ([true] + Zeros(q)))
  }

  /** An error in exactly two bits, n apart, goes undetected if and only if n is a multiple of 32767. */
  lemma TwoBitErrors(a: seq<bv8>, b: seq<bv8>, seed: Register, p: nat, n: nat, q: nat)
    requires |a| == |b| && n > 0 && ErrorPattern(a, b) == TwoBits(p, n, q)
    ensures Crc(a, seed) == Crc(b, seed) <==> n % 32767 == 0
  {
    CollisionIffZeroSyndrome(a, b, seed);
    QuietBitsKeepZero(p, [true] + Zeros(n - 1) + ([true] + Zeros(q)));
    FirstErrorBit(n, [true] + Zeros(q));
    SecondErrorBitCancels(ShiftN(Pad([true]), n), q);
    BitReturns(n);
    OrderOfX(n);
  }
}
