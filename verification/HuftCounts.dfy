/** The counts of codes by length in huft_build, and the arithmetic of its table sizes. */
module HuftCounts {
  import opened Words
  import opened BitReverse
  import opened HuffmanCode

  // ----- weights of counts

  /** The strings of 16 bits taken up by c[1] codes of length 1 up to c[k] codes of length k. */
  function Weight(c: seq<nat>, k: nat): nat
    requires k < |c| == BMAX + 1
  {
    if k == 0 then 0 else Weight(c, k - 1) + Shl(c[k], BMAX - k)
  }

  function Codes(c: seq<nat>, k: nat): nat
    requires k < |c| == BMAX + 1
  {
    if k == 0 then 0 else Codes(c, k - 1) + c[k]
  }

  /** Where code number r of length k begins. */
  function Pos(c: seq<nat>, k: nat, r: nat): nat
    requires 1 <= k < |c| == BMAX + 1
  {
    Weight(c, k - 1) + Shl(r, BMAX - k)
  }

  lemma PosNext(c: seq<nat>, k: nat, r: nat)
    requires 1 <= k < |c| == BMAX + 1
    ensures Pos(c, k, r + 1) == Pos(c, k, r) + Pow2(BMAX - k)
    ensures Pos(c, k, c[k]) == Weight(c, k)
    ensures Pos(c, k, 0) == Weight(c, k - 1)
  {
    ShlSum(r, 1, BMAX - k);
    ShlOne(BMAX - k);
  }

  lemma {:induction false} WeightGrows(c: seq<nat>, j: nat, k: nat)
    requires j <= k < |c| == BMAX + 1
    ensures Weight(c, j) <= Weight(c, k) && Codes(c, j) <= Codes(c, k)
  {
    if j < k {
      WeightGrows(c, j, k - 1);
    }
  }

  /** Codes longer than k weigh at most what as many codes of length k would. */
  lemma {:induction false} TailWeight(c: seq<nat>, k: nat, m: nat)
    requires k <= m < |c| == BMAX + 1
    ensures Codes(c, k) <= Codes(c, m)
    ensures Weight(c, m) - Weight(c, k) <= Shl(Codes(c, m) - Codes(c, k), BMAX - k)
  {
    if k == m {
      ShlOne(BMAX - k);
    } else {
      TailWeight(c, k, m - 1);
      ShlSum(Codes(c, m - 1) - Codes(c, k), c[m], BMAX - k);
      ShorterWeighsMore(c[m], BMAX - m, BMAX - k);
    }
  }

  lemma ShorterWeighsMore(n: nat, a: nat, b: nat)
    requires a <= b
    ensures Shl(n, a) <= Shl(n, b)
  {
    ShlAdds(n, a, b - a);
  }

  lemma {:induction false} NoCodesNoWeight(c: seq<nat>, k: nat)
    requires k < |c| == BMAX + 1 && Codes(c, k) == 0
    ensures Weight(c, k) == 0
  {
    if k > 0 {
      NoCodesNoWeight(c, k - 1);
      ShlOne(BMAX - k);
    }
  }

  /** Zero counts above g leave the weight as it is. */
  lemma {:induction false} NothingAbove(c: seq<nat>, g: nat, k: nat)
    requires g <= k < |c| == BMAX + 1 && forall j :: g < j <= k ==> c[j] == 0
    ensures Weight(c, k) == Weight(c, g) && Codes(c, k) == Codes(c, g)
  {
    if g < k {
      NothingAbove(c, g, k - 1);
      ShlOne(BMAX - k);
    }
  }

  lemma {:induction false} SameCounts(c: seq<nat>, lens: seq<nat>, k: nat)
    requires k < |c| == BMAX + 1 && forall j :: 1 <= j <= k ==> c[j] == CountLen(lens, j)
    ensures Weight(c, k) == KraftUpTo(lens, k) && Codes(c, k) == CountUpTo(lens, k)
  {
    if k > 0 {
      SameCounts(c, lens, k - 1);
    }
  }

  lemma {:induction false} SameBelow(c: seq<nat>, d: seq<nat>, k: nat)
    requires k < |c| == |d| == BMAX + 1 && forall j :: 1 <= j <= k ==> c[j] == d[j]
    ensures Weight(c, k) == Weight(d, k) && Codes(c, k) == Codes(d, k)
  {
    if k > 0 {
      SameBelow(c, d, k - 1);
    }
  }

  // ----- what huft_build knows of its counts

  /** Counts of a complete set: g is the longest length, and the codes take up everything. */
  ghost predicate Filling(c: seq<nat>, g: nat) {
    && |c| == BMAX + 1 && 1 <= g <= BMAX && c[g] > 0
    && (forall j :: g < j <= BMAX ==> c[j] == 0)
    && Weight(c, g) == FULL
  }

  lemma PosBound(c: seq<nat>, g: nat, k: nat, r: nat)
    requires Filling(c, g) && 1 <= k <= BMAX && r < c[k]
    ensures k <= g && Pos(c, k, r) + Pow2(BMAX - k) <= Weight(c, k) <= FULL
  {
    hide Weight;
    PosNext(c, k, r);
    PosNext(c, k, c[k]);
    ShlGrows(r + 1, c[k], BMAX - k);
    assert Pos(c, k, r + 1) <= Pos(c, k, c[k]);
    WeightGrows(c, k, g);
  }

  /**
    A subtree at depth w, entered after some code already, whose first code is l or more bits below
    it, holds at least 2^l codes: more than 2^l codes in all.
   */
  lemma DeepSubtreeNeedsManyCodes(c: seq<nat>, g: nat, k: nat, r: nat, w: nat, l: nat)
    requires Filling(c, g) && 1 <= k <= g && r < c[k] && w + l <= k
    requires 0 < Pos(c, k, r) && Pos(c, k, r) + Pow2(BMAX - w) <= FULL
    ensures Codes(c, BMAX) > Pow2(l)
  {
    hide Weight, Codes, Shl, Pow2;
    var left := Codes(c, BMAX) - Codes(c, k) + (c[k] - r);
    TailWeight(c, k, BMAX);
    WeightGrows(c, g, BMAX);
    ShlSum(Codes(c, BMAX) - Codes(c, k), c[k] - r, BMAX - k);
    ShlSum(r, c[k] - r, BMAX - k);
    WeightStep(c, k);
    assert FULL - Pos(c, k, r) <= Shl(left, BMAX - k);
    ShlPow(k - w, BMAX - k);
    Pow2Grows(l, k - w);
    PowPositive(BMAX - k);
    if left < Pow2(l) {
      ShlApart(left, Pow2(k - w), BMAX - k);
    }
    SomeCodeBefore(c, k, r);
  }

  lemma PowPositive(n: nat)
    ensures Pow2(n) > 0
  {
  }

  lemma WeightStep(c: seq<nat>, k: nat)
    requires 1 <= k < |c| == BMAX + 1
    ensures Weight(c, k) == Weight(c, k - 1) + Shl(c[k], BMAX - k)
    ensures Codes(c, k) == Codes(c, k - 1) + c[k]
  {
  }

  lemma SomeCodeBefore(c: seq<nat>, k: nat, r: nat)
    requires 1 <= k < |c| == BMAX + 1 && 0 < Pos(c, k, r) && r <= c[k]
    ensures Codes(c, k - 1) + r > 0
  {
    if Codes(c, k - 1) == 0 && r == 0 {
      NoCodesNoWeight(c, k - 1);
      ShlOne(BMAX - k);
    }
  }

  // ----- table sizes

  /**
    A table of j bits at depth w for code number r of length k. Either the codes of up to w + j bits
    use up the table, or it has as many bits as it may; and more than l bits only when the code
    leaves no other choice, or when the search for a smaller size starts one bit too high, which it
    does when the codes of length k do not use up the table.
   */
  ghost predicate SizedFor(c: seq<nat>, k: nat, r: nat, w: nat, l: nat, j: nat)
    requires 1 <= k < |c| == BMAX + 1 && w <= BMAX
  {
    && k - w <= j && w + j <= BMAX
    && var end := Pos(c, k, r) + Pow2(BMAX - w);
       && (Weight(c, w + j) >= end || j >= l)
       && (j == k - w || j <= l || (j == k - w + 1 && k - w >= l && Weight(c, k) < end))
       && (Weight(c, k) < end ==> j > k - w)
  }

  /** What makes the table wider than l bits: a code too long, or of just l bits but not the last one. */
  ghost predicate Widens(c: seq<nat>, k: nat, r: nat, w: nat, l: nat)
    requires 1 <= k < |c| == BMAX + 1 && w <= BMAX
  {
    k > w + l || (k == w + l && Weight(c, k) < Pos(c, k, r) + Pow2(BMAX - w))
  }

  /** A table gets more than l bits exactly when the counts make it. */
  lemma WiderExactlyWhen(c: seq<nat>, k: nat, r: nat, w: nat, l: nat, j: nat)
    requires 1 <= k < |c| == BMAX + 1 && w < k && SizedFor(c, k, r, w, l, j)
    ensures j > l <==> Widens(c, k, r, w, l)
  {
    hide Weight, Shl, Pow2;
  }

  /** The size of a new table at depth w for the code number c[k] - 1 - a of length k. */
  method TableBits(c: seq<nat>, k: nat, a: nat, w: nat, l: nat, g: nat) returns (j: nat)
    requires Filling(c, g) && w < k <= g && a < c[k]
    requires Pos(c, k, c[k] - 1 - a) + Pow2(BMAX - w) <= FULL
    ensures SizedFor(c, k, c[k] - 1 - a, w, l, j) && w + j <= g
  {
    hide Weight, Shl, Pow2;
    ghost var end := Pos(c, k, c[k] - 1 - a) + Pow2(BMAX - w);
    var z := if g - w > l then l else g - w;
    j := k - w;
    var f := Pow2(j);
    FirstPatterns(c, k, a, w);
    if f > a + 1 {
      f := f - (a + 1);
      var xp := k;
      j := j + 1;
      LengthsEnd(c, g, k, end);
      while j < z
        invariant xp == w + j - 1 < g && k - w < j
        invariant j <= z || j == k - w + 1
        invariant f > 0 && Shl(f, BMAX - xp) == end - Weight(c, xp)
        decreases z - j
      {
        PatternsStep(c, xp + 1, f, end);
        f := 2 * f;
        xp := xp + 1;
        if f <= c[xp] {
          break;
        }
        f := f - c[xp];
        LengthsEnd(c, g, xp, end);
        j := j + 1;
      }
    }
    WeightAtTop(c, g, w + j);
  }

  /** Patterns of k - w bits left after the remaining codes of length k. */
  lemma FirstPatterns(c: seq<nat>, k: nat, a: nat, w: nat)
    requires |c| == BMAX + 1 && w < k <= BMAX && a < c[k]
    ensures var end := Pos(c, k, c[k] - 1 - a) + Pow2(BMAX - w);
      if Pow2(k - w) > a + 1 then Shl(Pow2(k - w) - (a + 1), BMAX - k) == end - Weight(c, k) > 0
      else Weight(c, k) >= end
  {
    hide Weight, Shl, Pow2;
    WeightStep(c, k);
    ShlSum(c[k] - 1 - a, a + 1, BMAX - k);
    ShlPow(k - w, BMAX - k);
    PowPositive(BMAX - k);
    if Pow2(k - w) > a + 1 {
      ShlSum(Pow2(k - w) - (a + 1), a + 1, BMAX - k);
      ShlApart(a + 1, Pow2(k - w), BMAX - k);
    } else {
      ShlGrows(Pow2(k - w), a + 1, BMAX - k);
    }
  }

  /** Going on to length k doubles the patterns left and takes off the codes of that length. */
  lemma PatternsStep(c: seq<nat>, k: nat, f: nat, end: int)
    requires 1 <= k < |c| == BMAX + 1 && Shl(f, BMAX - (k - 1)) == end - Weight(c, k - 1)
    ensures if 2 * f <= c[k] then Weight(c, k) >= end
            else Shl(2 * f - c[k], BMAX - k) == end - Weight(c, k) > 0
  {
    hide Weight, Shl, Pow2;
    WeightStep(c, k);
    ShlDouble(f, BMAX - k);
    PowPositive(BMAX - k);
    if 2 * f <= c[k] {
      ShlGrows(2 * f, c[k], BMAX - k);
    } else {
      ShlSum(2 * f - c[k], c[k], BMAX - k);
      ShlApart(c[k], 2 * f, BMAX - k);
    }
  }

  lemma ShlDouble(f: nat, n: nat)
    ensures Shl(f, n + 1) == Shl(2 * f, n)
  {
    ShlAdds(f, 1, n);
    assert Shl(f, 1) == 2 * f;
  }

  /** While codes up to length k leave something, longer ones follow. */
  lemma LengthsEnd(c: seq<nat>, g: nat, k: nat, end: int)
    requires Filling(c, g) && k <= g && end <= FULL && Weight(c, k) < end
    ensures k < g
  {
  }

  lemma WeightAtTop(c: seq<nat>, g: nat, k: nat)
    requires Filling(c, g)
    ensures g <= k <= BMAX ==> Weight(c, k) == FULL
  {
    if g <= k <= BMAX {
      NothingAbove(c, g, k);
    }
  }
}
