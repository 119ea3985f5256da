/** The code counter of huft_build: the bits of i in the order they are read, counted up from their last. */
module CodeCounter {
  import opened Words
  import opened BitReverse
  import opened HuffmanCode
  import opened HuftCounts

  /** (i & j) for j a power of two, or 0. */
  predicate HasBit(i: nat, j: nat) {
    j != 0 && i / j % 2 == 1
  }

  lemma TopBitTest(i: nat, j: nat)
    requires i < 2 * j
    ensures HasBit(i, j) <==> i >= j
  {
    if i < j {
      DivUnique(i, j, 0, i);
    } else {
      DivUnique(i, j, 1, i - j);
    }
  }

  /** The top bit of e bits is the last in reading order. */
  lemma TopBitRev(i: nat, e: nat)
    requires e > 0 && i < Pow2(e)
    ensures i < Pow2(e - 1) ==>
      Rev(i, e) == 2 * Rev(i, e - 1) && Rev(i + Pow2(e - 1), e) == 2 * Rev(i, e - 1) + 1
    ensures i >= Pow2(e - 1) ==> Rev(i, e) == 2 * Rev(i - Pow2(e - 1), e - 1) + 1
  {
    var low := if i < Pow2(e - 1) then i else i - Pow2(e - 1);
    BothTopBits(low, e);
  }

  lemma BothTopBits(low: nat, e: nat)
    requires e > 0 && low < Pow2(e - 1)
    ensures Rev(low, e) == 2 * Rev(low, e - 1) && Rev(low + Pow2(e - 1), e) == 2 * Rev(low, e - 1) + 1
  {
    hide Rev, Shl, Shr, Low, Pow2;
    ShlOne(e - 1);
    TopBit(low, 0, e);
    TopBit(low, 1, e);
  }

  lemma TopBit(low: nat, bit: nat, e: nat)
    requires e > 0 && low < Pow2(e - 1) && bit < 2
    ensures Rev(low + Shl(bit, e - 1), e) == 2 * Rev(low, e - 1) + bit
  {
    hide *;
    OneBit(Rev(low, e - 1), bit);
    var b := low + Shl(bit, e - 1);
    RevSplit(b, e - 1, 1);
    Compose(low, bit, e - 1);
    RevOfLow(b, e - 1, e - 1);
  }

  lemma OneBit(a: nat, bit: nat)
    requires bit < 2
    ensures Shl(a, 1) == 2 * a && Rev(bit, 1) == bit
  {
  }

  /** After k - e carries the bits of i0 that are still to be looked at are those of i, and the others were ones. */
  ghost predicate CarryAt(i0: nat, k: nat, i: nat, j: nat, e: nat) {
    && e <= k && j == (if e > 0 then Pow2(e - 1) else 0) && i < Pow2(e)
    && Rev(i0, k) == Shl(Rev(i, e), k - e) + Pow2(k - e) - 1
  }

  /** Backwards increment of the k-bit code i: the next code, or 0 after the last one. */
  method NextReversed(i0: nat, k: nat) returns (i: nat)
    requires 1 <= k <= BMAX && i0 < Pow2(k)
    ensures i < Pow2(k)
    ensures Rev(i0, 16) + Pow2(16 - k) < FULL ==> Rev(i, 16) == Rev(i0, 16) + Pow2(16 - k)
    ensures Rev(i0, 16) + Pow2(16 - k) >= FULL ==> i == 0
  {
    hide *;
    i := i0;
    var j := Pow2(k - 1);
    ghost var e: nat := k;
    CarryStart(i0, k);
    while HasBit(i, j)
      invariant CarryAt(i0, k, i, j, e)
      decreases e
    {
      CarryStep(i0, k, i, j, e);
      i := i - j;
      j := j / 2;
      e := e - 1;
    }
    IncrementDone(i0, k, i, j, e);
    i := i + j;
  }

  lemma CarryStart(i0: nat, k: nat)
    requires 1 <= k && i0 < Pow2(k)
    ensures CarryAt(i0, k, i0, Pow2(k - 1), k)
  {
    NoShift(Rev(i0, k));
    assert Pow2(0) == 1;
    hide Rev, Shl, Pow2;
  }

  /** The mask j over e bits, and the test with it. */
  lemma MaskHalves(i: nat, j: nat, e: nat)
    requires i < Pow2(e) && j == if e > 0 then Pow2(e - 1) else 0
    ensures e == 0 ==> !HasBit(i, j) && i == 0
    ensures e > 0 ==> Pow2(e) == 2 * j && (HasBit(i, j) <==> i >= j) && j / 2 == if e > 1 then Pow2(e - 2) else 0
  {
    if e > 0 {
      TopBitTest(i, j);
    }
  }

  /** A carry passes over a one bit. */
  lemma CarryStep(i0: nat, k: nat, i: nat, j: nat, e: nat)
    requires CarryAt(i0, k, i, j, e) && HasBit(i, j)
    ensures e > 0 && i >= j && CarryAt(i0, k, i - j, j / 2, e - 1)
  {
    hide Rev, Shl, Pow2, HasBit;
    MaskHalves(i, j, e);
    TopBitRev(i, e);
    AllOnes(Rev(i - j, e - 1), k - e);
  }

  lemma AllOnes(r: nat, n: nat)
    ensures Shl(2 * r + 1, n) + Pow2(n) == Shl(r, n + 1) + Pow2(n + 1)
  {
    ShlSum(2 * r, 1, n);
    ShlDouble(r, n);
    ShlOne(n);
  }

  lemma IncrementDone(i0: nat, k: nat, before: nat, j: nat, e: nat)
    requires 1 <= k <= BMAX && i0 < Pow2(k) && CarryAt(i0, k, before, j, e) && !HasBit(before, j)
    ensures before + j < Pow2(k)
    ensures if Rev(i0, 16) + Pow2(16 - k) < FULL then Rev(before + j, 16) == Rev(i0, 16) + Pow2(16 - k)
            else before + j == 0
  {
    hide Shl, Rev, Pow2, HasBit;
    RevShort(i0, k, 16 - k);
    ShlSum(Rev(i0, k), 1, 16 - k);
    ShlOne(16 - k);
    ShlPow(k, 16 - k);
    Pow2Of16();
    PowPositive(k);
    MaskHalves(before, j, e);
    if e == 0 {
      RevEmpty(before);
      ShlOne(k);
    } else {
      OneMoreInRev(i0, before, before + j, k, e);
      RevShort(before + j, k, 16 - k);
      ShlApart(Rev(before + j, k), Pow2(k), 16 - k);
    }
  }

  lemma RevEmpty(b: nat)
    ensures Rev(b, 0) == 0
  {
  }

  lemma OneMoreInRev(i0: nat, before: nat, i: nat, k: nat, e: nat)
    requires 0 < e <= k && before < Pow2(e - 1) && before < Pow2(e) && i == before + Pow2(e - 1)
    requires Rev(i0, k) == Shl(Rev(before, e), k - e) + Pow2(k - e) - 1
    ensures i < Pow2(k) && Rev(i, k) == Rev(i0, k) + 1
  {
    hide Shl, Rev, Pow2;
    TopBitRev(before, e);
    Pow2Grows(e, k);
    MaskHalves(before, Pow2(e - 1), e);
    RevShort(i, e, k - e);
    ShlSum(2 * Rev(before, e - 1), 1, k - e);
    ShlOne(k - e);
  }
}
