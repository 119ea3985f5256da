/**
  The CRC-32 of section 8 of RFC 1952: bit by bit division as the definition, and the table of
  makecrc with which flush_window computes it.
 */
module Crc {
  import opened Words
  import Octets

  /** The polynomial without its top term, lowest power at the top bit. */
  const POLY: bv32 := 0xedb88320

  const ALL_ONES: bv32 := 0xffffffff

  /** Addition and subtraction of polynomials. */
  function Xor(a: bv32, b: bv32): bv32 {
    a ^ b
  }

  /** One place of the division: shift out a bit, and subtract the polynomial if it was set. */
  function Step(c: bv32): bv32 {
    if Odd(c) then Xor(Half(c), POLY) else Half(c)
  }

  predicate Odd(c: bv32) {
    c & 1 == 1
  }

  function Half(c: bv32): bv32 {
    c >> 1
  }

  function Bit(b: bool): bv32 {
    if b then 1 else 0
  }

  /** The register after one more bit of the message. */
  function FeedBit(c: bv32, b: bool): bv32 {
    Step(Xor(c, Bit(b)))
  }

  /** The register after the low n bits of x, least significant first. */
  function FeedBits(c: bv32, x: bv32, n: nat): bv32
    decreases n
  {
    if n == 0 then c else FeedBits(FeedBit(c, Odd(x)), Half(x), n - 1)
  }

  /** The register after a string of bytes. */
  function Feed(c: bv32, s: seq<Byte>): bv32 {
    if s == [] then c else FeedBits(Feed(c, s[..|s| - 1]), s[|s| - 1] as bv32, 8)
  }

  /** The division may be cut anywhere. */
  lemma {:induction false} FeedConcat(c: bv32, s: seq<Byte>, t: seq<Byte>)
    ensures Feed(c, s + t) == Feed(Feed(c, s), t)
  {
    hide FeedBits;
    if t == [] {
      assert s + t == s;
    } else {
      var front, last := t[..|t| - 1], t[|t| - 1];
      FeedConcat(c, s, front);
      assert (s + t)[..|s + t| - 1] == s + front && (s + t)[|s + t| - 1] == last;
    }
  }

  // ----- linearity

  lemma HalfXor(a: bv32, b: bv32)
    ensures Half(Xor(a, b)) == Xor(Half(a), Half(b))
  {
  }

  lemma OddXor(a: bv32, b: bv32)
    ensures Odd(Xor(a, b)) <==> Odd(a) != Odd(b)
  {
  }

  lemma XorAssoc(a: bv32, b: bv32, c: bv32)
    ensures Xor(Xor(a, b), c) == Xor(a, Xor(b, c))
  {
  }

  lemma XorSwaps(a: bv32, b: bv32)
    ensures Xor(a, b) == Xor(b, a)
  {
  }

  lemma XorOnce(a: bv32, b: bv32, p: bv32)
    ensures Xor(Xor(a, p), b) == Xor(Xor(a, b), p) == Xor(a, Xor(b, p))
  {
    hide Xor;
    XorAssoc(a, b, p);
    XorAssoc(a, p, b);
    XorSwaps(p, b);
  }

  lemma XorSelf(a: bv32, p: bv32)
    ensures Xor(Xor(a, p), p) == a
  {
  }

  lemma XorTwice(a: bv32, b: bv32, p: bv32)
    ensures Xor(Xor(a, p), Xor(b, p)) == Xor(a, b)
  {
    hide Xor;
    XorOnce(a, Xor(b, p), p);
    XorOnce(a, b, p);
    XorSelf(Xor(a, b), p);
  }

  lemma XorZero(a: bv32)
    ensures Xor(a, 0) == a && Xor(0, a) == a
  {
  }

  /** The division is linear over the two-element field. */
  lemma StepLinear(a: bv32, b: bv32)
    ensures Step(Xor(a, b)) == Xor(Step(a), Step(b))
  {
    hide Xor, Odd, Half;
    OddXor(a, b);
    HalfXor(a, b);
    XorTwice(Half(a), Half(b), POLY);
    XorOnce(Half(a), Half(b), POLY);
  }

  /** n places of the division with no message bits. */
  function Steps(c: bv32, n: nat): bv32 {
    if n == 0 then c else Step(Steps(c, n - 1))
  }

  lemma {:induction false} StepsLinear(a: bv32, b: bv32, n: nat)
    ensures Steps(Xor(a, b), n) == Xor(Steps(a, n), Steps(b, n))
  {
    hide Step, Xor;
    if n > 0 {
      StepsLinear(a, b, n - 1);
      StepLinear(Steps(a, n - 1), Steps(b, n - 1));
    }
  }

  lemma {:induction false} StepsFirst(c: bv32, n: nat)
    ensures Steps(Step(c), n) == Steps(c, n + 1)
  {
    hide Step;
    if n > 0 {
      StepsFirst(c, n - 1);
    }
  }

  /** What the register held and what the message adds can be divided apart. */
  lemma {:induction false} FeedSplits(c: bv32, x: bv32, n: nat)
    ensures FeedBits(c, x, n) == Xor(Steps(c, n), FeedBits(0, x, n))
    decreases n
  {
    hide Step, Xor, Bit;
    if n == 0 {
      XorZero(c);
    } else {
      SplitStep(c, Odd(x), Half(x), n);
    }
  }

  lemma {:induction false} SplitStep(c: bv32, b: bool, rest: bv32, n: nat)
    requires n > 0
    ensures FeedBits(FeedBit(c, b), rest, n - 1) == Xor(Steps(c, n), FeedBits(FeedBit(0, b), rest, n - 1))
    decreases n, 0
  {
    hide Step, Xor, Bit;
    FeedSplits(FeedBit(c, b), rest, n - 1);
    FeedSplits(FeedBit(0, b), rest, n - 1);
    StepLinear(c, Bit(b));
    StepsLinear(Step(c), Step(Bit(b)), n - 1);
    StepsFirst(c, n - 1);
    XorZero(Bit(b));
    XorAssoc(Steps(Step(c), n - 1), Steps(Step(Bit(b)), n - 1), FeedBits(0, rest, n - 1));
  }

  // ----- a byte at a time

  lemma ZeroByte(c: bv32)
    requires c & 0xff == 0
    ensures Steps(c, 8) == c >> 8
  {
    assert Steps(c, 1) == c >> 1;
    assert Steps(c, 2) == c >> 2;
    assert Steps(c, 3) == c >> 3;
    assert Steps(c, 4) == c >> 4;
    assert Steps(c, 5) == c >> 5;
    assert Steps(c, 6) == c >> 6;
    assert Steps(c, 7) == c >> 7;
  }

  /** Eight places of the division shift out the low byte. */
  lemma EightSteps(c: bv32)
    ensures Steps(c, 8) == Xor(Steps(c & 0xff, 8), c >> 8)
  {
    LowHigh(c);
    ZeroByte(c & 0xffffff00);
    EightStepsOf(c, c & 0xff, c & 0xffffff00, c >> 8);
  }

  lemma EightStepsOf(c: bv32, low: bv32, high: bv32, rest: bv32)
    requires c == Xor(low, high) && Steps(high, 8) == rest
    ensures Steps(c, 8) == Xor(Steps(low, 8), rest)
  {
    StepsLinear(low, high, 8);
  }

  lemma LowHigh(c: bv32)
    ensures c == Xor(c & 0xff, c & 0xffffff00)
    ensures (c & 0xffffff00) >> 8 == c >> 8
    ensures (c & 0xffffff00) & 0xff == 0
  {
  }

  /** A byte fed bit by bit, or added to the register all at once and divided. */
  lemma {:induction false} FeedAtOnce(x: bv32, n: nat)
    requires n <= 8 && Shifted(x, n) == 0
    ensures FeedBits(0, x, n) == Steps(x, n)
    decreases n
  {
    ShiftHalf(x, n);
    StepParts(x);
    hide Step, Xor, Odd, Half, Bit, Shifted;
    if n > 0 {
      FeedAtOnce(Half(x), n - 1);
      FeedSplits(FeedBit(0, Odd(x)), Half(x), n - 1);
      XorZero(Bit(Odd(x)));
      StepsLinear(Step(Bit(Odd(x))), Half(x), n - 1);
      StepsFirst(x, n - 1);
    }
  }

  function Shifted(x: bv32, n: nat): bv32
    requires n <= 8
  {
    x >> n
  }

  lemma ShiftHalf(x: bv32, n: nat)
    requires n <= 8 && Shifted(x, n) == 0
    ensures if n == 0 then x == 0 else Shifted(Half(x), n - 1) == 0
  {
  }

  lemma StepParts(x: bv32)
    ensures Xor(Step(Bit(Odd(x))), Half(x)) == Step(x)
  {
    OneBit();
    hide Xor, Odd, Half;
    XorZero(POLY);
    XorZero(Half(x));
    XorSwaps(POLY, Half(x));
  }

  lemma OneBit()
    ensures Odd(1) && Half(1) == 0 && !Odd(0) && Half(0) == 0
  {
  }

  /** What table entry x is for: the register after byte x alone. */
  function Entry(x: bv32): bv32 {
    FeedBits(0, x, 8)
  }

  /** The update of flush_window: one table look-up and a shift take in a whole byte. */
  lemma TableStep(c: bv32, x: bv32)
    requires Shifted(x, 8) == 0
    ensures FeedBits(c, x, 8) == Xor(Entry(Xor(c, x) & 0xff), c >> 8)
  {
    ByteParts(c, x);
    EightSteps(Xor(c, x));
    TableStepOf(c, x, Xor(c, x) & 0xff, c >> 8);
  }

  lemma TableStepOf(c: bv32, x: bv32, low: bv32, rest: bv32)
    requires Shifted(x, 8) == 0 && Shifted(low, 8) == 0
    requires Steps(Xor(c, x), 8) == Xor(Steps(low, 8), rest)
    ensures FeedBits(c, x, 8) == Xor(Entry(low), rest)
  {
    hide Xor, Shifted, Steps, FeedBits;
    FeedSplits(c, x, 8);
    FeedAtOnce(x, 8);
    StepsLinear(c, x, 8);
    FeedAtOnce(low, 8);
  }

  lemma ByteParts(c: bv32, x: bv32)
    requires Shifted(x, 8) == 0
    ensures Xor(c, x) >> 8 == c >> 8 && Shifted(Xor(c, x) & 0xff, 8) == 0
  {
  }

  // ----- the start of the register

  function ByteBits(b: Byte): bv32 {
    b as bv32
  }

  /** A byte is added to the register and divided. */
  lemma {:induction false} FeedByte(c: bv32, b: Byte)
    ensures Feed(c, [b]) == Steps(Xor(c, ByteBits(b)), 8)
  {
    assert [b][..0] == [];
    assert Feed(c, [b]) == FeedBits(c, ByteBits(b), 8);
    ByteFits(b);
    assert Shifted(ByteBits(b), 8) == 0;
    hide Xor, Shifted, Steps, FeedBits, ByteBits;
    FeedSplits(c, ByteBits(b), 8);
    FeedAtOnce(ByteBits(b), 8);
    StepsLinear(c, ByteBits(b), 8);
  }

  lemma NotByte(b: Byte)
    ensures ByteBits(255 - b) == Xor(ByteBits(b), 0xff)
  {
    Octets.Complement(b);
  }

  /** Ones in the low byte of the register complement the next byte of the message. */
  lemma OnesComplement(c: bv32, m: bv32, b: Byte)
    requires m & 0xff == 0xff
    ensures Feed(Xor(c, m), [b]) == Xor(Feed(c, [255 - b]), m >> 8)
  {
    hide ByteBits;
    MaskParts(c, m, ByteBits(b));
    ZeroByte(m & 0xffffff00);
    OnesComplementOf(c, m, b, m & 0xffffff00, m >> 8);
  }

  lemma OnesComplementOf(c: bv32, m: bv32, b: Byte, high: bv32, rest: bv32)
    requires Xor(Xor(c, m), ByteBits(b)) == Xor(Xor(c, Xor(ByteBits(b), 0xff)), high) && Steps(high, 8) == rest
    ensures Feed(Xor(c, m), [b]) == Xor(Feed(c, [255 - b]), rest)
  {
    hide *;
    FeedByte(Xor(c, m), b);
    FeedByte(c, 255 - b);
    NotByte(b);
    StepsLinear(Xor(c, Xor(ByteBits(b), 0xff)), high, 8);
  }

  lemma MaskParts(c: bv32, m: bv32, b: bv32)
    requires m & 0xff == 0xff
    ensures Xor(Xor(c, m), b) == Xor(Xor(c, Xor(b, 0xff)), m & 0xffffff00)
    ensures (m & 0xffffff00) & 0xff == 0 && (m & 0xffffff00) >> 8 == m >> 8
  {
  }

  /** A register that starts with ones complements the first 32 bits of the message. */
  lemma {:induction false} StartComplements(s: seq<Byte>)
    requires |s| >= 4
    ensures Feed(ALL_ONES, s) == Feed(0, [255 - s[0], 255 - s[1], 255 - s[2], 255 - s[3]] + s[4..])
  {
    hide *;
    OnesFour(s[0], s[1], s[2], s[3]);
    FeedFour(ALL_ONES, s[0], s[1], s[2], s[3], s[4..]);
    FeedFour(0, 255 - s[0], 255 - s[1], 255 - s[2], 255 - s[3], s[4..]);
    assert s == [s[0], s[1], s[2], s[3]] + s[4..];
  }

  lemma {:induction false} OnesFour(a: Byte, b: Byte, d: Byte, e: Byte)
    ensures Feed(Feed(Feed(Feed(ALL_ONES, [a]), [b]), [d]), [e])
         == Feed(Feed(Feed(Feed(0, [255 - a]), [255 - b]), [255 - d]), [255 - e])
  {
    hide *;
    var c1 := Feed(0, [255 - a]);
    var c2 := Feed(c1, [255 - b]);
    var c3 := Feed(c2, [255 - d]);
    FromOnes(a);
    OnesShift(c1, 0xffffff, 0xffff, b);
    OnesShift(c2, 0xffff, 0xff, d);
    OnesShift(c3, 0xff, 0, e);
    XorZero(Feed(c3, [255 - e]));
  }

  lemma OnesShift(c: bv32, m: bv32, m2: bv32, b: Byte)
    requires m & 0xff == 0xff && m >> 8 == m2
    ensures Feed(Xor(c, m), [b]) == Xor(Feed(c, [255 - b]), m2)
  {
    hide *;
    OnesComplement(c, m, b);
  }

  lemma FromOnes(b: Byte)
    ensures Feed(ALL_ONES, [b]) == Xor(Feed(0, [255 - b]), 0xffffff)
  {
    XorZero(ALL_ONES);
    OnesShift(0, ALL_ONES, 0xffffff, b);
  }

  lemma {:induction false} FeedFour(c: bv32, a: Byte, b: Byte, d: Byte, e: Byte, s: seq<Byte>)
    ensures Feed(c, [a, b, d, e] + s) == Feed(Feed(Feed(Feed(Feed(c, [a]), [b]), [d]), [e]), s)
  {
    hide Feed;
    FeedConcat(c, [a, b, d, e], s);
    FeedConcat(c, [a, b, d], [e]);
    FeedConcat(c, [a, b], [d]);
    FeedConcat(c, [a], [b]);
    assert [a] + [b] == [a, b] && [a, b] + [d] == [a, b, d] && [a, b, d] + [e] == [a, b, d, e];
  }

  /** Nothing is lost in a step: the bit shifted out shows in the top bit. */
  lemma StepInjective(a: bv32, b: bv32)
    ensures Step(a) == Step(b) ==> a == b
  {
  }

  lemma FeedBitInjective(a: bv32, b: bv32, x: bool)
    ensures FeedBit(a, x) == FeedBit(b, x) ==> a == b
  {
    hide Step;
    StepInjective(Xor(a, Bit(x)), Xor(b, Bit(x)));
    hide Xor;
    XorSelf(a, Bit(x));
    XorSelf(b, Bit(x));
  }

  lemma {:induction false} FeedBitsInjective(a: bv32, b: bv32, x: bv32, n: nat)
    ensures FeedBits(a, x, n) == FeedBits(b, x, n) ==> a == b
    decreases n
  {
    hide FeedBit, Half, Odd;
    if n > 0 {
      FeedBitInjective(a, b, Odd(x));
      FeedBitsInjective(FeedBit(a, Odd(x)), FeedBit(b, Odd(x)), Half(x), n - 1);
    }
  }

  /** Two registers that differ still differ after the same string. */
  lemma {:induction false} FeedInjective(a: bv32, b: bv32, s: seq<Byte>)
    ensures Feed(a, s) == Feed(b, s) ==> a == b
  {
    hide FeedBits;
    if s != [] {
      var front := s[..|s| - 1];
      FeedBitsInjective(Feed(a, front), Feed(b, front), s[|s| - 1] as bv32, 8);
      FeedInjective(a, b, front);
    }
  }

  /** A zero byte in front of a string does not go unseen. */
  lemma {:induction false} LeadingZeroShows(s: seq<Byte>)
    ensures Feed(ALL_ONES, [0] + s) != Feed(ALL_ONES, s)
  {
    hide Feed;
    FeedConcat(ALL_ONES, [0], s);
    FeedInjective(Feed(ALL_ONES, [0]), ALL_ONES, s);
    OnesComplement(0, ALL_ONES, 0);
    XorZero(ALL_ONES);
    FeedByte(0, 255);
    XorZero(255);
    LastEntry();
  }

  lemma LastEntry()
    ensures Xor(Steps(255, 8), ALL_ONES >> 8) != ALL_ONES
  {
    assert Steps(255, 2) == 0x9b64c28f;
    assert Steps(255, 4) == 0xbdbdf213;
    assert Steps(255, 6) == 0xb40bbe34;
  }

  /** The CRC-32 of the nine digits, before it is complemented. */
  lemma {:induction false} CheckValue()
    ensures Feed(ALL_ONES, [49, 50, 51, 52, 53, 54, 55, 56, 57]) == 0x340bc6d9
  {
    hide *;
    FirstDigits();
    LastDigits();
    FeedConcat(ALL_ONES, [49, 50, 51, 52], [53, 54, 55, 56, 57]);
    assert [49, 50, 51, 52] + [53, 54, 55, 56, 57] == [49, 50, 51, 52, 53, 54, 55, 56, 57];
  }

  lemma FirstDigits()
    ensures Feed(ALL_ONES, [49, 50, 51, 52]) == 0x641c1f5c
  {
    FirstValues();
    assert ALL_ONES == 0xffffffff;
    hide *;
    NextRegister(0xffffffff, 49, 0x31, 0x7c231048);
    NextRegister(0x7c231048, 50, 0x32, 0xb0acbb32);
    NextRegister(0xb0acbb32, 51, 0x33, 0x77b79c2d);
    NextRegister(0x77b79c2d, 52, 0x34, 0x641c1f5c);
    FeedFour(ALL_ONES, 49, 50, 51, 52, []);
    assert [49, 50, 51, 52] + [] == [49, 50, 51, 52];
    FeedNothing(0x641c1f5c);
  }

  lemma LastDigits()
    ensures Feed(0x641c1f5c, [53, 54, 55, 56, 57]) == 0x340bc6d9
  {
    hide *;
    LastValues();
    NextRegister(0x641c1f5c, 53, 0x35, 0x340ac5e3);
    NextRegister(0x340ac5e3, 54, 0x36, 0xf68d2c9e);
    NextRegister(0xf68d2c9e, 55, 0x37, 0xaffc9660);
    NextRegister(0xaffc9660, 56, 0x38, 0x651f2550);
    NextRegister(0x651f2550, 57, 0x39, 0x340bc6d9);
    FeedFour(0x641c1f5c, 53, 54, 55, 56, [57]);
    assert [53, 54, 55, 56] + [57] == [53, 54, 55, 56, 57];
  }

  lemma FirstValues()
    ensures FourSteps(FourSteps(Xor(0xffffffff, 0x31))) == 0x7c231048 && ByteBits(49) == 0x31
    ensures FourSteps(FourSteps(Xor(0x7c231048, 0x32))) == 0xb0acbb32 && ByteBits(50) == 0x32
    ensures FourSteps(FourSteps(Xor(0xb0acbb32, 0x33))) == 0x77b79c2d && ByteBits(51) == 0x33
    ensures FourSteps(FourSteps(Xor(0x77b79c2d, 0x34))) == 0x641c1f5c && ByteBits(52) == 0x34
  {
  }

  lemma LastValues()
    ensures FourSteps(FourSteps(Xor(0x641c1f5c, 0x35))) == 0x340ac5e3 && ByteBits(53) == 0x35
    ensures FourSteps(FourSteps(Xor(0x340ac5e3, 0x36))) == 0xf68d2c9e && ByteBits(54) == 0x36
    ensures FourSteps(FourSteps(Xor(0xf68d2c9e, 0x37))) == 0xaffc9660 && ByteBits(55) == 0x37
    ensures FourSteps(FourSteps(Xor(0xaffc9660, 0x38))) == 0x651f2550 && ByteBits(56) == 0x38
    ensures FourSteps(FourSteps(Xor(0x651f2550, 0x39))) == 0x340bc6d9 && ByteBits(57) == 0x39
  {
  }

  lemma FeedNothing(c: bv32)
    ensures Feed(c, []) == c
  {
  }

  function FourSteps(c: bv32): bv32 {
    Step(Step(Step(Step(c))))
  }

  lemma FourAndFour(c: bv32)
    ensures Steps(c, 8) == FourSteps(FourSteps(c))
  {
    hide Step;
    assert Steps(c, 1) == Step(c);
    assert Steps(c, 2) == Step(Step(c));
    assert Steps(c, 3) == Step(Steps(c, 2));
    assert Steps(c, 4) == FourSteps(c);
    assert Steps(c, 5) == Step(Steps(c, 4));
    assert Steps(c, 6) == Step(Step(FourSteps(c)));
    assert Steps(c, 7) == Step(Steps(c, 6));
  }

  lemma NextRegister(c: bv32, b: Byte, x: bv32, next: bv32)
    requires ByteBits(b) == x && FourSteps(FourSteps(Xor(c, x))) == next
    ensures Feed(c, [b]) == next
  {
    hide *;
    FeedByte(c, b);
    FourAndFour(Xor(c, x));
  }

  // ----- the table of makecrc

  /** The powers of the polynomial, without x^32. */
  const TERMS: seq<nat> := [0, 1, 2, 4, 5, 7, 8, 10, 11, 12, 16, 22, 23, 26]

  function Term(n: nat): bv32
    requires n <= 31
  {
    1 << (31 - n)
  }

  function SumOfTerms(n: nat): bv32
    requires n <= |TERMS|
  {
    if n == 0 then 0 else SumOfTerms(n - 1) | Term(TERMS[n - 1])
  }

  lemma OneTerm(n: nat, sum: bv32)
    requires n < |TERMS| && SumOfTerms(n) | Term(TERMS[n]) == sum
    ensures SumOfTerms(n + 1) == sum
  {
  }

  lemma FirstTerms()
    ensures SumOfTerms(5) == 0xec000000
  {
    hide SumOfTerms;
    assert SumOfTerms(0) == 0 by { NoTerms(); }
    OneTerm(0, 0x80000000);
    OneTerm(1, 0xc0000000);
    OneTerm(2, 0xe0000000);
    OneTerm(3, 0xe8000000);
    OneTerm(4, 0xec000000);
  }

  lemma MiddleTerms()
    ensures SumOfTerms(10) == 0xedb80000
  {
    hide SumOfTerms;
    FirstTerms();
    OneTerm(5, 0xed000000);
    OneTerm(6, 0xed800000);
    OneTerm(7, 0xeda00000);
    OneTerm(8, 0xedb00000);
    OneTerm(9, 0xedb80000);
  }

  lemma NoTerms()
    ensures SumOfTerms(0) == 0
  {
  }

  lemma TermsMakePoly()
    ensures SumOfTerms(|TERMS|) == POLY
  {
    hide SumOfTerms;
    MiddleTerms();
    OneTerm(10, 0xedb88000);
    OneTerm(11, 0xedb88200);
    OneTerm(12, 0xedb88300);
    OneTerm(13, 0xedb88320);
  }

  /** Make the exclusive-or pattern from the polynomial. */
  method MakePoly() returns (e: bv32)
    ensures e == POLY
  {
    hide Term;
    e := 0;
    var t := 0;
    while t < |TERMS|
      invariant 0 <= t <= |TERMS| && e == SumOfTerms(t)
    {
      e := e | Term(TERMS[t]);
      t := t + 1;
    }
    TermsMakePoly();
  }

  /** makecrc: the entry of every byte value, and the start value of the register. */
  method MakeCrc() returns (tab: array<bv32>, crc: bv32)
    ensures fresh(tab) && tab.Length == 256 && crc == ALL_ONES
    ensures forall i :: 0 <= i < 256 ==> tab[i] == Entry(i as bv32)
  {
    hide Entry, Shifted;
    tab := new bv32[256];
    var e := MakePoly();
    tab[0] := 0;
    ZeroEntry();
    var i := 1;
    while i < 256
      invariant 1 <= i <= 256
      invariant forall j :: 0 <= j < i ==> tab[j] == Entry(j as bv32)
    {
      ByteFits(i);
      var c := MakeEntry(i as bv32, e);
      tab[i] := c;
      i := i + 1;
    }
    crc := ALL_ONES;
  }

  lemma ByteFits(i: nat)
    requires i < 256
    ensures Shifted(i as bv32, 8) == 0
  {
  }

  lemma ZeroEntry()
    ensures Entry(0) == 0
  {
    FeedAtOnce(0, 8);
    ZeroByte(0);
  }

  function Marker(n: nat): bv32 {
    if n == 0 then 1 else Marker(n - 1) << 1
  }

  ghost predicate Under(k: bv32, x: bv32, m: bv32) {
    x < m && k == x | m
  }

  /** k is the bits of x that are still to be fed, n of them, below a marker bit. */
  ghost predicate Marked(k: bv32, x: bv32, n: nat) {
    Under(k, x, Marker(n))
  }

  lemma {:induction false} MarkerFits(n: nat)
    requires n <= 8
    ensures 1 <= Marker(n) <= Marker(8) == 256
    ensures n < 8 ==> Marker(n) <= 128
  {
    assert Marker(2) == 4 && Marker(4) == 16 && Marker(6) == 64;
  }

  lemma MarkerStep(n: nat)
    requires n <= 8
    ensures if n == 0 then Marker(n) == 1 else Marker(n) == Marker(n - 1) << 1 && 1 <= Marker(n - 1) <= 128
  {
    MarkerFits(if n == 0 then n else n - 1);
  }

  lemma NextMarked(k: bv32, x: bv32, n: nat)
    requires n <= 8 && Marked(k, x, n)
    ensures k == 1 <==> n == 0
    ensures n > 0 ==> Odd(k) == Odd(x) && Marked(Half(k), Half(x), n - 1)
  {
    hide Odd, Half, Marker, Under;
    MarkerStep(n);
    if n == 0 {
      LastUnder(k, x);
    } else {
      NextUnder(k, x, Marker(n), Marker(n - 1));
    }
  }

  lemma LastUnder(k: bv32, x: bv32)
    requires Under(k, x, 1)
    ensures k == 1
  {
  }

  lemma NextUnder(k: bv32, x: bv32, m: bv32, m2: bv32)
    requires Under(k, x, m) && 1 <= m2 <= 128 && m == m2 << 1
    ensures Odd(k) == Odd(x) && Under(Half(k), Half(x), m2) && k != 1
  {
  }

  /** One entry: the bits of i are shifted out under a marker, each fed to the register after a step. */
  method MakeEntry(i: bv32, e: bv32) returns (c: bv32)
    requires Shifted(i, 8) == 0 && e == POLY
    ensures c == Entry(i)
  {
    hide Step, Odd, Half, Bit, Xor, Marked;
    c := 0;
    var k := i | 256;
    ghost var x: bv32, n: nat := i, 8;
    FirstMarked(i);
    while k != 1
      invariant n <= 8 && Marked(k, x, n) && FeedBits(c, x, n) == Entry(i)
      decreases n
    {
      NextMarked(k, x, n);
      FeedAsStep(c, Odd(x));
      c := if Odd(c) then Xor(Half(c), e) else Half(c);
      if Odd(k) {
        c := Xor(c, e);
      }
      k := Half(k);
      x, n := Half(x), n - 1;
    }
    NextMarked(k, x, n);
  }

  lemma FirstMarked(i: bv32)
    requires Shifted(i, 8) == 0
    ensures Marked(i | 256, i, 8)
  {
    MarkerFits(8);
  }

  lemma FeedAsStep(c: bv32, b: bool)
    ensures FeedBit(c, b) == (if b then Xor(Step(c), POLY) else Step(c))
    ensures Step(c) == if Odd(c) then Xor(Half(c), POLY) else Half(c)
  {
    StepOfBit(b);
    StepLinear(c, Bit(b));
    XorZero(Step(c));
  }

  lemma StepOfBit(b: bool)
    ensures Step(Bit(b)) == if b then POLY else 0
  {
  }
}
