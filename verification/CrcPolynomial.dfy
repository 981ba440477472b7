/** What the CRC-32 is in terms of polynomials over two elements, and its value on the usual check input. */
module CrcPolynomial {
  import opened Crc32

  // -------------------------------------------------------- polynomials as sets

  /** A polynomial as the set of its exponents. */
  type Poly = set<nat>

  /** Without carry: an exponent in both cancels. */
  function Sum(a: Poly, b: Poly): Poly { (a - b) + (b - a) }

  /** a times x^k. */
  function Raised(a: Poly, k: nat): Poly { set e | e in a :: e + k }

  predicate Has(a: Poly, e: int) { e >= 0 && e in a }

  lemma HasSum(a: Poly, b: Poly, e: int)
    ensures Has(Sum(a, b), e) <==> Has(a, e) != Has(b, e)
  {
  }

  lemma HasRaised(a: Poly, k: nat, e: int)
    ensures Has(Raised(a, k), e) <==> Has(a, e - k)
  {
    if Has(a, e - k) {
      assert (e - k) + k == e;
    }
  }

  /** x^32 + x^26 + x^23 + x^22 + x^16 + x^12 + x^11 + x^10 + x^8 + x^7 + x^5 + x^4 + x^2 + x + 1. */
  const GENERATOR: Poly := {32, 26, 23, 22, 16, 12, 11, 10, 8, 7, 5, 4, 2, 1, 0}

  /** b times x^k. */
  function Term(b: bool, k: nat): Poly { if b then {k} else {} }

  /** A message of bits, the first of them being the highest coefficient. */
  function Message(bits: seq<bool>): Poly {
    if bits == [] then {} else Sum(Raised(Message(bits[..|bits| - 1]), 1), Term(bits[|bits| - 1], 0))
  }

  function Generators(b: bool): Poly { if b then GENERATOR else {} }

  /** q times the generator. */
  function Multiple(q: seq<bool>): Poly {
    if q == [] then {} else Sum(Raised(Multiple(q[..|q| - 1]), 1), Generators(q[|q| - 1]))
  }

  // ------------------------------------------------- the coefficients of a register

  /** c shifted right k times. */
  function Halved(c: bv32, k: nat): bv32
    decreases k
  {
    if k == 0 then c else Half(Halved(c, k - 1))
  }

  /** The coefficient of x^e in a register, which keeps the highest power in its least significant bit. */
  predicate Coefficient(c: bv32, e: nat)
    requires e < 32
  {
    Odd(Halved(c, 31 - e))
  }

  function Register(c: bv32): (r: Poly)
    ensures forall e: nat :: e in r ==> e < 32
  {
    set e | 0 <= e < 32 && Coefficient(c, e)
  }

  lemma {:induction false} XorHalved(a: bv32, b: bv32, k: nat)
    ensures Halved(Xor(a, b), k) == Xor(Halved(a, k), Halved(b, k))
  {
    hide Xor, Half;
    if k > 0 {
      XorHalved(a, b, k - 1);
      XorHalf(Halved(a, k - 1), Halved(b, k - 1));
    }
  }

  lemma XorCoefficient(a: bv32, b: bv32, e: nat)
    requires e < 32
    ensures Coefficient(Xor(a, b), e) <==> Coefficient(a, e) != Coefficient(b, e)
  {
    hide Xor, Odd, Halved;
    XorHalved(a, b, 31 - e);
    XorHalf(Halved(a, 31 - e), Halved(b, 31 - e));
  }

  lemma {:induction false} HalvedOnce(c: bv32, k: nat)
    ensures Halved(Half(c), k) == Halved(c, k + 1)
  {
    hide Half;
    if k > 0 {
      HalvedOnce(c, k - 1);
    }
  }

  lemma HalvedTwice(c: bv32, k: nat)
    ensures Halved(c, k + 2) == Half(Half(Halved(c, k)))
  {
    hide Half;
  }

  lemma HalvedEight(c: bv32, k: nat)
    ensures Halved(c, k + 8) == Shift8(Halved(c, k))
  {
    hide Half, Halved, Shift8;
    HalvedTwice(c, k);
    HalvedTwice(c, k + 2);
    HalvedTwice(c, k + 4);
    HalvedTwice(c, k + 6);
    EightHalves(Halved(c, k));
  }

  lemma EightHalves(h: bv32)
    ensures Half(Half(Half(Half(Half(Half(Half(Half(h)))))))) == Shift8(h)
  {
  }

  /** Shifting takes the coefficients one power up, and nothing comes in at the bottom. */
  lemma HalfCoefficient(c: bv32, e: nat)
    requires e < 32
    ensures Coefficient(Half(c), e) <==> e > 0 && Coefficient(c, e - 1)
  {
    hide Half, Halved, Shift8;
    HalvedOnce(c, 31 - e);
    if e == 0 {
      HalvedEight(c, 0);
      HalvedEight(c, 8);
      HalvedEight(c, 16);
      HalvedEight(c, 24);
      AllOut(Halved(c, 0));
    }
  }

  lemma AllOut(c: bv32)
    ensures !Odd(Shift8(Shift8(Shift8(Shift8(c)))))
  {
  }

  lemma GeneratorBits()
    ensures var p := POLYNOMIAL;
            !Coefficient(p, 31) && !Coefficient(p, 30) && !Coefficient(p, 29) && !Coefficient(p, 28)
    ensures var p := POLYNOMIAL;
            !Coefficient(p, 27) && Coefficient(p, 26) && !Coefficient(p, 25) && !Coefficient(p, 24)
    ensures var p := POLYNOMIAL;
            Coefficient(p, 23) && Coefficient(p, 22) && !Coefficient(p, 21) && !Coefficient(p, 20)
    ensures var p := POLYNOMIAL;
            !Coefficient(p, 19) && !Coefficient(p, 18) && !Coefficient(p, 17) && Coefficient(p, 16)
    ensures var p := POLYNOMIAL;
            !Coefficient(p, 15) && !Coefficient(p, 14) && !Coefficient(p, 13) && Coefficient(p, 12)
    ensures var p := POLYNOMIAL;
            Coefficient(p, 11) && Coefficient(p, 10) && !Coefficient(p, 9) && Coefficient(p, 8)
    ensures var p := POLYNOMIAL;
            Coefficient(p, 7) && !Coefficient(p, 6) && Coefficient(p, 5) && Coefficient(p, 4)
    ensures var p := POLYNOMIAL;
            !Coefficient(p, 3) && Coefficient(p, 2) && Coefficient(p, 1) && Coefficient(p, 0)
  {
  }

  lemma InGenerator(e: nat)
    ensures e in GENERATOR <==>
            || e == 32 || e == 26 || e == 23 || e == 22 || e == 16 || e == 12 || e == 11 || e == 10 || e == 8
            || e == 7 || e == 5 || e == 4 || e == 2 || e == 1 || e == 0
  {
  }

  lemma GeneratorCoefficient(e: nat)
    requires e < 32
    ensures Coefficient(POLYNOMIAL, e) <==> e in GENERATOR
  {
    hide Coefficient, GENERATOR, POLYNOMIAL;
    GeneratorBits();
    InGenerator(e);
    if e < 8 {
      assert e == 0 || e == 1 || e == 2 || e == 3 || e == 4 || e == 5 || e == 6 || e == 7;
    } else if e < 16 {
      assert e == 8 || e == 9 || e == 10 || e == 11 || e == 12 || e == 13 || e == 14 || e == 15;
    } else if e < 24 {
      assert e == 16 || e == 17 || e == 18 || e == 19 || e == 20 || e == 21 || e == 22 || e == 23;
    } else {
      assert e == 24 || e == 25 || e == 26 || e == 27 || e == 28 || e == 29 || e == 30 || e == 31;
    }
  }

  /** One step: times x, less the generator when x^32 comes out. */
  lemma StepCoefficient(c: bv32, e: nat)
    requires e < 32
    ensures Coefficient(BitStep(c), e) <==> (e > 0 && Coefficient(c, e - 1)) != (Odd(c) && e in GENERATOR)
  {
    hide Coefficient, Xor, Half, Odd, GENERATOR, POLYNOMIAL;
    HalfCoefficient(c, e);
    XorCoefficient(POLYNOMIAL, Half(c), e);
    GeneratorCoefficient(e);
  }

  lemma BitCoefficient(b: bool, e: nat)
    requires e < 32
    ensures Coefficient(Bit(b), e) <==> b && e == 31
  {
    hide Halved, Odd;
    if e < 31 {
      HalvedOnce(Bit(b), 30 - e);
      assert Half(Bit(b)) == 0;
      ZeroHalved(30 - e);
    } else {
      NoneHalved(Bit(b));
    }
    Parity(b);
  }

  lemma NoneHalved(c: bv32)
    ensures Halved(c, 0) == c
  {
  }

  lemma Parity(b: bool)
    ensures Odd(Bit(b)) == b && !Odd(0)
  {
  }

  lemma {:induction false} ZeroHalved(k: nat)
    ensures Halved(0, k) == 0
  {
    if k > 0 {
      ZeroHalved(k - 1);
    }
  }

  /** The register after one message bit. */
  function Turn(c: bv32, b: bool): bv32 { BitStep(Xor(c, Bit(b))) }

  lemma TurnRegister(c: bv32, b: bool, e: int)
    ensures var t := Odd(Xor(c, Bit(b)));
            (Has(Register(c), e - 1) != (b && e == 32)) == (Has(Register(Turn(c, b)), e) != (t && Has(GENERATOR, e)))
  {
    hide Coefficient, Xor, Odd, Bit, BitStep;
    var d := Xor(c, Bit(b));
    if 0 <= e < 32 {
      StepCoefficient(d, e);
    }
    if 0 < e <= 32 {
      XorCoefficient(c, Bit(b), e - 1);
      BitCoefficient(b, e - 1);
    }
    LowestIsTop(d);
  }

  lemma LowestIsTop(c: bv32)
    ensures Coefficient(c, 31) <==> Odd(c)
  {
    NoneHalved(c);
  }

  // ------------------------------------------------------------------- division

  lemma DivideLast(c: bv32, bits: seq<bool>)
    requires bits != []
    ensures DivideBits(c, bits) == Turn(DivideBits(c, bits[..|bits| - 1]), bits[|bits| - 1])
  {
    hide BitStep, Xor, Bit;
    var front, last := bits[..|bits| - 1], bits[|bits| - 1];
    assert bits == front + [last];
    DivideConcat(c, front, [last]);
    assert [last][1..] == [];
  }

  /** c x^n + m x^32 = q g + r, where n is the length of m, q has n coefficients, and r, of degree below 32, is what the
      bit-at-a-time division ends with. */
  lemma {:induction false} DivideIsRemainder(c: bv32, bits: seq<bool>) returns (q: seq<bool>)
    ensures |q| == |bits|
    ensures Sum(Raised(Register(c), |bits|), Raised(Message(bits), 32)) ==
            Sum(Multiple(q), Register(DivideBits(c, bits)))
    decreases |bits|
  {
    hide *;
    if bits == [] {
      q := [];
      NoMessage(c);
    } else {
      var front, b := bits[..|bits| - 1], bits[|bits| - 1];
      var p := DivideIsRemainder(c, front);
      var r := DivideBits(c, front);
      q := p + [Odd(Xor(r, Bit(b)))];
      DivideLast(c, bits);
      forall e: int
        ensures Has(Sum(Raised(Register(c), |bits|), Raised(Message(bits), 32)), e) ==
                Has(Sum(Multiple(q), Register(DivideBits(c, bits))), e)
      {
        OneMore(c, bits, p, q, e);
      }
      SamePoly(Sum(Raised(Register(c), |bits|), Raised(Message(bits), 32)),
               Sum(Multiple(q), Register(DivideBits(c, bits))));
    }
  }

  lemma NoMessage(c: bv32)
    ensures Sum(Raised(Register(c), 0), Raised(Message([]), 32)) == Sum(Multiple([]), Register(DivideBits(c, [])))
  {
    hide Coefficient;
    assert Raised(Register(c), 0) == Register(c);
    assert Raised({}, 32) == {};
  }

  lemma SamePoly(a: Poly, b: Poly)
    requires forall e: int :: Has(a, e) == Has(b, e)
    ensures a == b
  {
    forall e: nat ensures e in a <==> e in b {
      assert Has(a, e) == Has(b, e);
    }
  }

  /** Coefficient by coefficient, one more bit. */
  lemma OneMore(c: bv32, bits: seq<bool>, p: seq<bool>, q: seq<bool>, e: int)
    requires bits != [] && |p| == |bits| - 1
    requires var front := bits[..|bits| - 1];
             && Sum(Raised(Register(c), |front|), Raised(Message(front), 32)) ==
                Sum(Multiple(p), Register(DivideBits(c, front)))
             && q == p + [Odd(Xor(DivideBits(c, front), Bit(bits[|bits| - 1])))]
    requires DivideBits(c, bits) == Turn(DivideBits(c, bits[..|bits| - 1]), bits[|bits| - 1])
    ensures Has(Sum(Raised(Register(c), |bits|), Raised(Message(bits), 32)), e) ==
            Has(Sum(Multiple(q), Register(DivideBits(c, bits))), e)
  {
    hide *;
    var front, b := bits[..|bits| - 1], bits[|bits| - 1];
    var r, n := DivideBits(c, front), |front|;
    var t := Odd(Xor(r, Bit(b)));
    TurnRegister(r, b, e);
    HasSum(Raised(Register(c), n), Raised(Message(front), 32), e - 1);
    HasSum(Multiple(p), Register(r), e - 1);
    HasRaised(Register(c), n, e - 1);
    HasRaised(Message(front), 32, e - 1);
    HasSum(Raised(Register(c), n + 1), Raised(Message(bits), 32), e);
    HasSum(Multiple(q), Register(DivideBits(c, bits)), e);
    HasRaised(Register(c), n + 1, e);
    HasRaised(Message(bits), 32, e);
    HasMessage(bits, e - 32);
    HasMultiple(q, e);
    assert q[..|q| - 1] == p;
  }

  lemma HasMessage(bits: seq<bool>, e: int)
    requires bits != []
    ensures Has(Message(bits), e) <==> Has(Message(bits[..|bits| - 1]), e - 1) != (bits[|bits| - 1] && e == 0)
  {
    var m := Message(bits[..|bits| - 1]);
    HasRaised(m, 1, e);
    HasSum(Raised(m, 1), Term(bits[|bits| - 1], 0), e);
  }

  lemma HasMultiple(q: seq<bool>, e: int)
    requires q != []
    ensures Has(Multiple(q), e) <==> Has(Multiple(q[..|q| - 1]), e - 1) != (q[|q| - 1] && Has(GENERATOR, e))
  {
    hide GENERATOR;
    var m := Multiple(q[..|q| - 1]);
    HasRaised(m, 1, e);
    HasSum(Raised(m, 1), Generators(q[|q| - 1]), e);
  }

  /** Multiples of the generator that agree from x^32 on are the same. */
  lemma {:induction false} QuotientIsUnique(p: seq<bool>, q: seq<bool>)
    requires |p| == |q| && forall e: int :: e >= 32 ==> Has(Multiple(p), e) == Has(Multiple(q), e)
    ensures p == q
    decreases |p|
  {
    hide Multiple, Has;
    if p != [] {
      var p', q' := p[..|p| - 1], q[..|q| - 1];
      forall e: int | e >= 32 ensures Has(Multiple(p'), e) == Has(Multiple(q'), e) {
        HasMultiple(p, e + 1);
        HasMultiple(q, e + 1);
        GeneratorTop(e + 1);
      }
      QuotientIsUnique(p', q');
      HasMultiple(p, 32);
      HasMultiple(q, 32);
      GeneratorTop(32);
      assert p == p' + [p[|p| - 1]] && q == q' + [q[|q| - 1]];
    }
  }

  lemma GeneratorTop(e: int)
    requires e >= 32
    ensures Has(GENERATOR, e) <==> e == 32
  {
    if e > 32 {
      InGenerator(e);
    }
  }

  /** So there is one remainder of degree below 32. */
  lemma RemainderIsUnique(p: seq<bool>, a: Poly, q: seq<bool>, b: Poly)
    requires |p| == |q| && Sum(Multiple(p), a) == Sum(Multiple(q), b)
    requires (forall e :: e in a ==> e < 32) && (forall e :: e in b ==> e < 32)
    ensures p == q && a == b
  {
    hide Multiple, Sum;
    forall e: int | e >= 32 ensures Has(Multiple(p), e) == Has(Multiple(q), e) {
      HasSum(Multiple(p), a, e);
      HasSum(Multiple(q), b, e);
    }
    QuotientIsUnique(p, q);
    forall e: int ensures Has(a, e) == Has(b, e) {
      HasSum(Multiple(p), a, e);
      HasSum(Multiple(q), b, e);
    }
    SamePoly(a, b);
  }

  /** The CRC of a buffer is the remainder of its bits, after the start value, modulo the generator. */
  lemma CrcIsRemainder(c: bv32, data: seq<bv8>) returns (q: seq<bool>)
    ensures |q| == 8 * |data|
    ensures Sum(Raised(Register(c), 8 * |data|), Raised(Message(Bits(data)), 32)) ==
            Sum(Multiple(q), Register(Crc(c, data)))
  {
    hide *;
    CrcIsDivision(c, data);
    q := DivideIsRemainder(c, Bits(data));
  }

  // -------------------------------------------------------------- the check value

  lemma ByteIs(c: bv32, b: bv8, r: bv32)
    requires var x := c ^ (b as bv32); r == BitStep(BitStep(BitStep(BitStep(BitStep(BitStep(BitStep(BitStep(x))))))))
    ensures ByteStep(c, b) == r
  {
    hide BitStep;
    UnfoldEight(Xor(c, Widen(b)));
  }

  /** The CRC of the nine bytes 123456789. */
  lemma CheckValue()
    ensures Calculate([49, 50, 51, 52, 53, 54, 55, 56, 57]) == 0xCBF4_3926
  {
    ByteIs(0xFFFF_FFFF, 49, 0x7C23_1048);
    ByteIs(0x7C23_1048, 50, 0xB0AC_BB32);
    ByteIs(0xB0AC_BB32, 51, 0x77B7_9C2D);
    ByteIs(0x77B7_9C2D, 52, 0x641C_1F5C);
    ByteIs(0x641C_1F5C, 53, 0x340A_C5E3);
    ByteIs(0x340A_C5E3, 54, 0xF68D_2C9E);
    ByteIs(0xF68D_2C9E, 55, 0xAFFC_9660);
    ByteIs(0xAFFC_9660, 56, 0x651F_2550);
    ByteIs(0x651F_2550, 57, 0x340B_C6D9);
  }
}
