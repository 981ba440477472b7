/** CRC-32 with the reflected polynomial of section 3.2.9 of IEEE 802.3: the table-driven,
    four-way unrolled form, its bit-at-a-time meaning, and which changes it always detects. */
module Crc32 {
  const POLYNOMIAL: bv32 := 0xEDB8_8320

  function Xor(a: bv32, b: bv32): bv32 { a ^ b }

  function Half(a: bv32): bv32 { a >> 1 }

  predicate Odd(a: bv32) { a & 1 == 1 }

  // ------------------------------------------------ bit-at-a-time division

  /** One step of the division: shift, and subtract the polynomial if a one bit fell out. */
  function BitStep(c: bv32): bv32 { if Odd(c) then Xor(POLYNOMIAL, Half(c)) else Half(c) }

  function BitSteps(c: bv32, n: nat): bv32
    decreases n
  {
    if n == 0 then c else BitStep(BitSteps(c, n - 1))
  }

  function Bit(b: bool): bv32 { if b then 1 else 0 }

  /** Dividing a message of single bits. */
  function DivideBits(c: bv32, bits: seq<bool>): bv32
    decreases |bits|
  {
    if bits == [] then c else DivideBits(BitStep(Xor(c, Bit(bits[0]))), bits[1..])
  }

  /** Bit k of b, the least significant being bit 0. */
  predicate BitOf(b: bv8, k: nat)
    requires k < 8
  {
    (b >> k) & 1 == 1
  }

  /** A byte as its bits, least significant first: the order in which the division takes them. */
  function ByteBits(b: bv8): (r: seq<bool>)
    ensures |r| == 8
  {
    [BitOf(b, 0), BitOf(b, 1), BitOf(b, 2), BitOf(b, 3), BitOf(b, 4), BitOf(b, 5), BitOf(b, 6), BitOf(b, 7)]
  }

  function Bits(data: seq<bv8>): (r: seq<bool>)
    ensures |r| == 8 * |data|
  {
    if data == [] then [] else ByteBits(data[0]) + Bits(data[1..])
  }

  // ------------------------------------------------------------- bit algebra

  lemma XorAssociates(a: bv32, b: bv32, c: bv32)
    ensures a ^ (b ^ c) == (a ^ b) ^ c
  {
  }

  lemma XorLaws(a: bv32, b: bv32, c: bv32)
    ensures Xor(a, b) == Xor(b, a) && Xor(a, Xor(b, c)) == Xor(Xor(a, b), c)
  {
    XorAssociates(a, b, c);
    assert Xor(b, c) == b ^ c && Xor(a, b) == a ^ b;
  }

  lemma XorHalf(a: bv32, b: bv32)
    ensures Half(Xor(a, b)) == Xor(Half(a), Half(b))
    ensures Odd(Xor(a, b)) <==> Odd(a) != Odd(b)
  {
    assert (a ^ b) & 1 == (a & 1) ^ (b & 1);
  }

  lemma XorCancel(a: bv32, b: bv32)
    ensures Xor(a, Xor(a, b)) == b
    ensures Xor(a, b) == 0 ==> a == b
  {
  }

  /** The bit step is linear. */
  lemma StepLinear(a: bv32, b: bv32)
    ensures BitStep(Xor(a, b)) == Xor(BitStep(a), BitStep(b))
  {
    hide Xor, Half, Odd;
    XorHalf(a, b);
    var p, x, y := POLYNOMIAL, Half(a), Half(b);
    XorLaws(p, x, y);
    XorLaws(x, p, y);
    XorLaws(x, p, Xor(p, y));
    XorCancel(p, y);
  }

  /** The bit step loses nothing: the polynomial's top bit records what fell out. */
  lemma StepInjective(a: bv32, b: bv32)
    requires BitStep(a) == BitStep(b)
    ensures a == b
  {
  }

  lemma {:induction false} StepsLinear(a: bv32, b: bv32, n: nat)
    ensures BitSteps(Xor(a, b), n) == Xor(BitSteps(a, n), BitSteps(b, n))
  {
    hide Xor, BitStep;
    if n > 0 {
      StepsLinear(a, b, n - 1);
      StepLinear(BitSteps(a, n - 1), BitSteps(b, n - 1));
    }
  }

  /** A word whose low byte is zero is just shifted by eight steps. */
  lemma EightShifts(x: bv32)
    requires x & 0xFF == 0
    ensures BitSteps(x, 8) == x >> 8
  {
    var x1 := BitStep(x);
    var x2 := BitStep(x1);
    var x3 := BitStep(x2);
    var x4 := BitStep(x3);
    var x5 := BitStep(x4);
    var x6 := BitStep(x5);
    var x7 := BitStep(x6);
    assert BitStep(x7) == x >> 8;
    UnfoldEight(x);
  }

  lemma UnfoldEight(x: bv32)
    ensures BitSteps(x, 8) ==
            BitStep(BitStep(BitStep(BitStep(BitStep(BitStep(BitStep(BitStep(x))))))))
  {
    hide BitStep;
    assert BitSteps(x, 2) == BitStep(BitStep(x));
    assert BitSteps(x, 4) == BitStep(BitStep(BitSteps(x, 2)));
    assert BitSteps(x, 6) == BitStep(BitStep(BitSteps(x, 4)));
  }

  // ------------------------------------------------------------ bytes at once

  /** Eight steps after adding a byte: what one table look-up does. */
  function ByteStep(c: bv32, b: bv8): bv32 { BitSteps(Xor(c, Widen(b)), 8) }

  /** The running CRC over a buffer. */
  function Crc(c: bv32, data: seq<bv8>): bv32
    decreases |data|
  {
    if data == [] then c else Crc(ByteStep(c, data[0]), data[1..])
  }

  function Low(x: bv32): bv32 { x & 0xFF }

  function High(x: bv32): bv32 { x & 0xFFFF_FF00 }

  function Shift8(x: bv32): bv32 { x >> 8 }

  function Widen(b: bv8): bv32 { b as bv32 }

  lemma SplitWord(x: bv32)
    ensures Xor(Low(x), High(x)) == x
    ensures High(x) & 0xFF == 0 && Shift8(High(x)) == Shift8(x)
  {
  }

  lemma AddedByte(c: bv32, b: bv8)
    ensures Shift8(Xor(c, Widen(b))) == Shift8(c)
  {
  }

  lemma HighShifts(x: bv32)
    ensures BitSteps(High(x), 8) == Shift8(x)
  {
    hide BitSteps;
    SplitWord(x);
    EightShifts(High(x));
  }

  /** A table entry for the low byte and a shift for the rest make a byte step. */
  lemma LookUp(c: bv32, b: bv8)
    ensures Xor(BitSteps(Low(Xor(c, Widen(b))), 8), Shift8(c)) == ByteStep(c, b)
  {
    hide Xor, BitSteps, Low, High, Shift8, Widen;
    var x := Xor(c, Widen(b));
    SplitWord(x);
    AddedByte(c, b);
    HighShifts(x);
    StepsLinear(Low(x), High(x), 8);
  }

  /** Adding a bit after k steps is adding it k places higher before them. */
  lemma TakeBit(x: bv32, y: bv32, bit: bool, k: nat)
    requires BitSteps(y, k) == Bit(bit)
    ensures BitStep(Xor(BitSteps(x, k), Bit(bit))) == BitSteps(Xor(x, y), k + 1)
  {
    hide Xor, BitStep, Bit;
    StepsLinear(x, y, k);
  }

  function Placed(b: bv8, k: nat): bv32
    requires k < 8
  {
    if !BitOf(b, k) then 0
    else if k == 0 then 1 else if k == 1 then 2 else if k == 2 then 4 else if k == 3 then 8
    else if k == 4 then 16 else if k == 5 then 32 else if k == 6 then 64 else 128
  }

  lemma {:induction false} StepsOfZero(k: nat)
    ensures BitSteps(0, k) == 0
  {
    if k > 0 {
      StepsOfZero(k - 1);
    }
  }

  lemma StepsOfPower()
    ensures BitSteps(1, 0) == 1 && BitSteps(2, 1) == 1 && BitSteps(4, 2) == 1 && BitSteps(8, 3) == 1
    ensures BitSteps(16, 4) == 1 && BitSteps(32, 5) == 1 && BitSteps(64, 6) == 1 && BitSteps(128, 7) == 1
  {
  }

  lemma PlacedComesDown(b: bv8, k: nat)
    requires k < 8
    ensures BitSteps(Placed(b, k), k) == Bit(BitOf(b, k))
  {
    hide BitSteps, BitOf;
    StepsOfZero(k);
    StepsOfPower();
  }

  /** c with the low k bits of b added. */
  function Added(c: bv32, b: bv8, k: nat): bv32
    requires k <= 8
    decreases k
  {
    if k == 0 then c else Xor(Added(c, b, k - 1), Placed(b, k - 1))
  }

  lemma PlacedBits(b: bv8)
    ensures Xor(Xor(Xor(Xor(Xor(Xor(Xor(Xor(0, Placed(b, 0)), Placed(b, 1)), Placed(b, 2)), Placed(b, 3)),
                Placed(b, 4)), Placed(b, 5)), Placed(b, 6)), Placed(b, 7)) == Widen(b)
  {
  }

  lemma AddedToZero(b: bv8)
    ensures Added(0, b, 8) == Widen(b)
  {
    hide Placed, Widen, Xor;
    PlacedBits(b);
    assert Added(0, b, 2) == Xor(Xor(0, Placed(b, 0)), Placed(b, 1));
    assert Added(0, b, 4) == Xor(Xor(Added(0, b, 2), Placed(b, 2)), Placed(b, 3));
    assert Added(0, b, 6) == Xor(Xor(Added(0, b, 4), Placed(b, 4)), Placed(b, 5));
    assert Added(0, b, 8) == Xor(Xor(Added(0, b, 6), Placed(b, 6)), Placed(b, 7));
  }

  lemma {:induction false} AddedIsXor(c: bv32, b: bv8, k: nat)
    requires k <= 8
    ensures Added(c, b, k) == Xor(c, Added(0, b, k))
    decreases k
  {
    hide Xor, Placed;
    if k == 0 {
      XorZero(c);
    } else {
      AddedIsXor(c, b, k - 1);
      XorLaws(c, Added(0, b, k - 1), Placed(b, k - 1));
    }
  }

  lemma XorZero(c: bv32)
    ensures Xor(c, 0) == c
  {
  }

  lemma AddedAll(c: bv32, b: bv8)
    ensures Added(c, b, 8) == Xor(c, Widen(b))
  {
    hide Added, Xor, Widen;
    AddedIsXor(c, b, 8);
    AddedToZero(b);
  }

  lemma {:induction false} BitsOfByte(c: bv32, b: bv8, k: nat)
    requires k <= 8
    ensures DivideBits(BitSteps(Added(c, b, k), k), ByteBits(b)[k..]) == BitSteps(Added(c, b, 8), 8)
    decreases 8 - k
  {
    hide BitSteps, BitStep, Xor, Placed, BitOf, Bit;
    var bits := ByteBits(b);
    if k < 8 {
      PlacedComesDown(b, k);
      assert bits[k] == BitOf(b, k);
      TakeBit(Added(c, b, k), Placed(b, k), BitOf(b, k), k);
      assert bits[k..][0] == bits[k] && bits[k..][1..] == bits[k + 1..];
      BitsOfByte(c, b, k + 1);
    }
  }

  lemma {:induction false} DivideConcat(c: bv32, a: seq<bool>, b: seq<bool>)
    ensures DivideBits(c, a + b) == DivideBits(DivideBits(c, a), b)
    decreases |a|
  {
    hide BitStep, Xor, Bit;
    if a == [] {
      assert a + b == b;
    } else {
      assert (a + b)[1..] == a[1..] + b;
      DivideConcat(BitStep(Xor(c, Bit(a[0]))), a[1..], b);
    }
  }

  /** Byte steps are bit-at-a-time division of the message's bits. */
  lemma {:induction false} CrcIsDivision(c: bv32, data: seq<bv8>)
    ensures Crc(c, data) == DivideBits(c, Bits(data))
    decreases |data|
  {
    hide BitSteps, BitStep, Xor, ByteBits, Widen, Added;
    if data != [] {
      var b := data[0];
      BitsOfByte(c, b, 0);
      AddedAll(c, b);
      StepsNone(Added(c, b, 0));
      AddedNone(c, b);
      assert ByteBits(b)[0..] == ByteBits(b);
      DivideConcat(c, ByteBits(b), Bits(data[1..]));
      CrcIsDivision(ByteStep(c, b), data[1..]);
    }
  }

  lemma AddedNone(c: bv32, b: bv8)
    ensures Added(c, b, 0) == c
  {
  }

  lemma StepsNone(c: bv32)
    ensures BitSteps(c, 0) == c
  {
  }

  /** Updating over two pieces is updating over their concatenation. */
  lemma {:induction false} CrcConcat(c: bv32, a: seq<bv8>, b: seq<bv8>)
    ensures Crc(c, a + b) == Crc(Crc(c, a), b)
    decreases |a|
  {
    hide ByteStep;
    if a == [] {
      assert a + b == b;
    } else {
      assert (a + b)[1..] == a[1..] + b;
      CrcConcat(ByteStep(c, a[0]), a[1..], b);
    }
  }

  // ----------------------------------------------------------- burst detection

  predicate TopClear(x: bv32) { x & 0x8000_0000 == 0 }

  function Double(x: bv32): bv32 { x << 1 }

  /** The top j bits of x are zero. */
  predicate Leading(x: bv32, j: nat)
    decreases j
  {
    j == 0 || (TopClear(x) && Leading(Double(x), j - 1))
  }

  lemma {:induction false} LeadingZero(j: nat)
    ensures Leading(0, j)
  {
    if j > 0 {
      assert Double(0) == 0;
      LeadingZero(j - 1);
    }
  }

  lemma LeadingOne()
    ensures Leading(1, 31)
  {
    assert Leading(0x40000000, 1);
    assert Leading(0x10000000, 3);
    assert Leading(0x4000000, 5);
    assert Leading(0x1000000, 7);
    assert Leading(0x400000, 9);
    assert Leading(0x100000, 11);
    assert Leading(0x40000, 13);
    assert Leading(0x10000, 15);
    assert Leading(0x4000, 17);
    assert Leading(0x1000, 19);
    assert Leading(0x400, 21);
    assert Leading(0x100, 23);
    assert Leading(0x40, 25);
    assert Leading(0x10, 27);
    assert Leading(0x4, 29);
  }

  lemma {:induction false} LeadingFewer(x: bv32, j: nat, k: nat)
    requires Leading(x, j) && k <= j
    ensures Leading(x, k)
    decreases j
  {
    if k > 0 {
      LeadingFewer(Double(x), j - 1, k - 1);
    }
  }

  lemma DoubleXor(x: bv32, y: bv32)
    ensures Double(Xor(x, y)) == Xor(Double(x), Double(y))
    ensures TopClear(x) && TopClear(y) ==> TopClear(Xor(x, y))
  {
  }

  lemma {:induction false} LeadingXor(x: bv32, y: bv32, j: nat)
    requires Leading(x, j) && Leading(y, j)
    ensures Leading(Xor(x, y), j)
    decreases j
  {
    hide Xor, Double, TopClear;
    if j > 0 {
      DoubleXor(x, y);
      LeadingXor(Double(x), Double(y), j - 1);
    }
  }

  lemma LeadingBit(bit: bool, j: nat)
    requires j <= 31
    ensures Leading(Bit(bit), j)
  {
    if bit {
      LeadingOne();
      LeadingFewer(1, 31, j);
    } else {
      LeadingZero(j);
    }
  }

  /** A step that leaves the top bit clear only shifted, so it can be undone. */
  lemma StepBack(d: bv32, bit: bool)
    requires TopClear(BitStep(Xor(d, Bit(bit))))
    ensures d == Xor(Double(BitStep(Xor(d, Bit(bit)))), Bit(bit))
    ensures d == 0 ==> !bit && BitStep(Xor(d, Bit(bit))) == 0
  {
  }

  lemma DifferenceSteps(s: bv32, t: bv32, a: bool, b: bool)
    ensures Xor(BitStep(Xor(s, Bit(a))), BitStep(Xor(t, Bit(b)))) == BitStep(Xor(Xor(s, t), Bit(a != b)))
  {
    hide BitStep, Xor;
    StepLinear(Xor(s, Bit(a)), Xor(t, Bit(b)));
    Rearrange(s, t, a, b);
  }

  lemma Rearrange(s: bv32, t: bv32, a: bool, b: bool)
    ensures Xor(Xor(s, Bit(a)), Xor(t, Bit(b))) == Xor(Xor(s, t), Bit(a != b))
  {
    hide Xor;
    XorLaws(s, Bit(a), Xor(t, Bit(b)));
    XorLaws(Bit(a), t, Bit(b));
    XorLaws(t, Bit(a), Bit(b));
    XorLaws(s, t, Xor(Bit(a), Bit(b)));
    assert Xor(Bit(a), Bit(b)) == Bit(a != b) by {
      XorBits(a, b);
    }
  }

  lemma XorBits(a: bool, b: bool)
    ensures Xor(Bit(a), Bit(b)) == Bit(a != b)
  {
  }

  lemma XorIsZero(a: bv32, b: bv32)
    ensures Xor(a, b) == 0 <==> a == b
  {
  }

  /** If two runs of at most 32 bits end in the same state, their starting states differ in the
      low |a| bits at most, and if they also start in the same state they are the same bits. */
  lemma {:induction false} RunBack(s: bv32, t: bv32, a: seq<bool>, b: seq<bool>)
    requires |a| == |b| <= 32 && DivideBits(s, a) == DivideBits(t, b)
    ensures Leading(Xor(s, t), 32 - |a|)
    ensures s == t ==> a == b
    decreases |a|
  {
    hide Xor, BitStep, Bit, Double;
    XorIsZero(s, t);
    if a == [] {
      LeadingZero(32);
    } else {
      var s', t' := BitStep(Xor(s, Bit(a[0]))), BitStep(Xor(t, Bit(b[0])));
      RunBack(s', t', a[1..], b[1..]);
      var d, bit := Xor(s, t), a[0] != b[0];
      DifferenceSteps(s, t, a[0], b[0]);
      var d' := Xor(s', t');
      StepBack(d, bit);
      LeadingBit(bit, 32 - |a|);
      LeadingXor(Double(d'), Bit(bit), 32 - |a|);
      XorIsZero(s', t');
      if s == t {
        assert a == [a[0]] + a[1..] && b == [b[0]] + b[1..];
      }
    }
  }

  /** Different states stay different over any common bits. */
  lemma {:induction false} StaysDifferent(s: bv32, t: bv32, bits: seq<bool>)
    requires s != t
    ensures DivideBits(s, bits) != DivideBits(t, bits)
    decreases |bits|
  {
    hide BitStep;
    if bits != [] {
      var b := Bit(bits[0]);
      if BitStep(Xor(s, b)) == BitStep(Xor(t, b)) {
        StepInjective(Xor(s, b), Xor(t, b));
        XorCancel(b, s);
        XorCancel(b, t);
        XorLaws(b, s, 0);
        XorLaws(b, t, 0);
        assert false;
      }
      StaysDifferent(BitStep(Xor(s, b)), BitStep(Xor(t, b)), bits[1..]);
    }
  }

  /** Any change confined to 32 consecutive message bits changes the remainder. */
  lemma BurstChangesRemainder(c: bv32, a: seq<bool>, b: seq<bool>, i: nat, j: nat)
    requires |a| == |b| && a != b && i <= j <= |a| && j - i <= 32
    requires a[..i] == b[..i] && a[j..] == b[j..]
    ensures DivideBits(c, a) != DivideBits(c, b)
  {
    hide DivideBits;
    var x, y, z := a[..i], a[i..j], a[j..];
    var y' := b[i..j];
    assert a == x + (y + z) && b == x + (y' + z);
    var s := DivideBits(c, x);
    DivideConcat(c, x, y + z);
    DivideConcat(c, x, y' + z);
    DivideConcat(s, y, z);
    DivideConcat(s, y', z);
    if DivideBits(s, y) == DivideBits(s, y') {
      RunBack(s, s, y, y');
      assert false;
    }
    StaysDifferent(DivideBits(s, y), DivideBits(s, y'), z);
  }

  // ------------------------------------------------------------------- buffers

  function Calculate(data: seq<bv8>): bv32 { Xor(Crc(0xFFFF_FFFF, data), 0xFFFF_FFFF) }

  lemma {:induction false} BitsConcat(a: seq<bv8>, b: seq<bv8>)
    ensures Bits(a + b) == Bits(a) + Bits(b)
    decreases |a|
  {
    hide ByteBits;
    if a == [] {
      assert a + b == b;
    } else {
      assert (a + b)[1..] == a[1..] + b;
      BitsConcat(a[1..], b);
    }
  }

  lemma ByteBitsInjective(a: bv8, b: bv8)
    requires ByteBits(a) == ByteBits(b)
    ensures a == b
  {
    assert forall k :: 0 <= k < 8 ==> ByteBits(a)[k] == ByteBits(b)[k];
    assert BitOf(a, 0) == BitOf(b, 0) && BitOf(a, 1) == BitOf(b, 1) && BitOf(a, 2) == BitOf(b, 2);
    assert BitOf(a, 3) == BitOf(b, 3);
    assert BitOf(a, 4) == BitOf(b, 4) && BitOf(a, 5) == BitOf(b, 5) && BitOf(a, 6) == BitOf(b, 6);
    assert BitOf(a, 7) == BitOf(b, 7);
  }

  lemma {:induction false} BitsInjective(a: seq<bv8>, b: seq<bv8>)
    requires |a| == |b| && Bits(a) == Bits(b)
    ensures a == b
    decreases |a|
  {
    hide ByteBits;
    if a != [] {
      var x, y := ByteBits(a[0]), ByteBits(b[0]);
      assert x == Bits(a)[..8] && y == Bits(b)[..8];
      ByteBitsInjective(a[0], b[0]);
      assert Bits(a[1..]) == Bits(a)[8..] && Bits(b[1..]) == Bits(b)[8..];
      BitsInjective(a[1..], b[1..]);
      assert a == [a[0]] + a[1..] && b == [b[0]] + b[1..];
    }
  }

  /** Two buffers of one length whose bits differ only inside 32 consecutive bits have different CRCs. */
  lemma BurstDetected(a: seq<bv8>, b: seq<bv8>, i: nat, j: nat)
    requires |a| == |b| && a != b && i <= j <= 8 * |a| && j - i <= 32
    requires Bits(a)[..i] == Bits(b)[..i] && Bits(a)[j..] == Bits(b)[j..]
    ensures Calculate(a) != Calculate(b)
  {
    hide Crc, Bits, DivideBits;
    if Bits(a) == Bits(b) {
      BitsInjective(a, b);
      assert false;
    }
    var c: bv32 := 0xFFFF_FFFF;
    CrcIsDivision(c, a);
    CrcIsDivision(c, b);
    BurstChangesRemainder(c, Bits(a), Bits(b), i, j);
    XorKeepsApart(Crc(c, a), Crc(c, b));
  }

  lemma XorKeepsApart(x: bv32, y: bv32)
    requires x != y
    ensures Xor(x, 0xFFFF_FFFF) != Xor(y, 0xFFFF_FFFF)
  {
  }

  /** In particular, any change within 4 consecutive bytes. */
  lemma FourBytesDetected(a: seq<bv8>, b: seq<bv8>, i: nat, j: nat)
    requires |a| == |b| && a != b && i <= j <= |a| && j - i <= 4
    requires a[..i] == b[..i] && a[j..] == b[j..]
    ensures Calculate(a) != Calculate(b)
  {
    hide Bits, Calculate;
    BitsAround(a, i);
    BitsAround(b, i);
    BitsAround(a, j);
    BitsAround(b, j);
    BurstDetected(a, b, 8 * i, 8 * j);
  }

  lemma BitsAround(a: seq<bv8>, i: nat)
    requires i <= |a|
    ensures Bits(a)[..8 * i] == Bits(a[..i]) && Bits(a)[8 * i..] == Bits(a[i..])
  {
    hide Bits;
    BitsConcat(a[..i], a[i..]);
    assert a == a[..i] + a[i..];
  }

  // ------------------------------------------------------------------- the code

  /** Entry i is eight steps from i. */
  ghost predicate TableOk(t: seq<bv32>) {
    |t| == 256 && forall i :: 0 <= i < 256 ==> t[i] == BitSteps(i as bv32, 8)
  }

  /** `crc32_init`. */
  method Init(table: array<bv32>)
    requires table.Length == 256
    modifies table
    ensures TableOk(table[..])
  {
    hide BitStep;
    var i := 0;
    while i < 256
      invariant 0 <= i <= 256
      invariant forall k :: 0 <= k < i ==> table[k] == BitSteps(k as bv32, 8)
    {
      var c := i as bv32;
      var k := 0;
      while k < 8
        invariant 0 <= k <= 8 && c == BitSteps(i as bv32, k)
      {
        c := BitStep(c);
        k := k + 1;
      }
      table[i] := c;
      i := i + 1;
    }
  }

  /** One table look-up. */
  method Feed(table: array<bv32>, crc: bv32, b: bv8) returns (r: bv32)
    requires TableOk(table[..])
    ensures r == ByteStep(crc, b)
  {
    hide Xor, BitSteps, Low, Shift8, Widen, ByteStep;
    var x := Low(Xor(crc, Widen(b)));
    LowFits(Xor(crc, Widen(b)));
    assert table[x as int] == table[..][x as int];
    r := Xor(table[x as int], Shift8(crc));
    LookUp(crc, b);
  }

  lemma LowFits(x: bv32)
    ensures Low(x) as int < 256 && (Low(x) as int) as bv32 == Low(x)
  {
  }

  /** `crc32_update`: four bytes a turn, then the rest one by one. */
  method Update(table: array<bv32>, crc0: bv32, buffer: seq<bv8>) returns (crc: bv32)
    requires TableOk(table[..])
    ensures crc == Crc(crc0, buffer)
  {
    hide ByteStep, TableOk;
    crc := crc0;
    var i := 0;
    while |buffer| - i >= 4
      invariant 0 <= i <= |buffer| && Crc(crc0, buffer) == Crc(crc, buffer[i..])
    {
      FeedOne(crc, buffer, i);
      crc := Feed(table, crc, buffer[i]);
      FeedOne(crc, buffer, i + 1);
      crc := Feed(table, crc, buffer[i + 1]);
      FeedOne(crc, buffer, i + 2);
      crc := Feed(table, crc, buffer[i + 2]);
      FeedOne(crc, buffer, i + 3);
      crc := Feed(table, crc, buffer[i + 3]);
      i := i + 4;
    }
    while i < |buffer|
      invariant 0 <= i <= |buffer| && Crc(crc0, buffer) == Crc(crc, buffer[i..])
    {
      FeedOne(crc, buffer, i);
      crc := Feed(table, crc, buffer[i]);
      i := i + 1;
    }
  }

  lemma FeedOne(c: bv32, data: seq<bv8>, i: nat)
    requires i < |data|
    ensures Crc(c, data[i..]) == Crc(ByteStep(c, data[i]), data[i + 1..])
  {
    hide ByteStep;
    assert data[i..][1..] == data[i + 1..];
  }

  /** `crc32_calculate`. */
  method CalculateBuffer(table: array<bv32>, buffer: seq<bv8>) returns (crc: bv32)
    requires TableOk(table[..])
    ensures crc == Calculate(buffer)
  {
    crc := Update(table, 0xFFFF_FFFF, buffer);
    crc := Xor(crc, 0xFFFF_FFFF);
  }
}
