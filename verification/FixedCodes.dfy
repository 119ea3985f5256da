/** The fixed codes of DEFLATE: what section 3.2.2 of RFC 1951 makes of their lengths is the table of section 3.2.6. */
module FixedCodes {
  import opened Words
  import opened BitReverse
  import opened HuffmanCode
  import opened InflateSpec

  lemma {:induction false} CountCopies(n: nat, x: nat, k: nat)
    ensures CountLen(Copies(n, x), k) == if k == x then n else 0
  {
    if n > 0 {
      CountCopies(n - 1, x, k);
      assert Copies(n, x)[..n - 1] == Copies(n - 1, x);
    }
  }

  lemma {:induction false} KraftCopies(n: nat, x: nat, k: nat)
    requires k <= BMAX
    ensures KraftUpTo(Copies(n, x), k) == if 1 <= x <= k then Shl(n, BMAX - x) else 0
  {
    hide Copies;
    if k > 0 {
      KraftCopies(n, x, k - 1);
      CountCopies(n, x, k);
      ShlOne(BMAX - k);
    }
  }

  lemma {:induction false} KraftAdds(a: seq<nat>, b: seq<nat>, k: nat)
    requires k <= BMAX
    ensures KraftUpTo(a + b, k) == KraftUpTo(a, k) + KraftUpTo(b, k)
  {
    if k > 0 {
      KraftAdds(a, b, k - 1);
      CountSplits(a, b, k);
      ShlSum(CountLen(a, k), CountLen(b, k), BMAX - k);
    }
  }

  lemma {:induction false} ShlTimes(x: nat, n: nat)
    ensures Shl(x, n) == x * Pow2(n)
  {
    if n > 0 {
      ShlTimes(x, n - 1);
    }
  }

  /** The fixed literal/length code is complete; the fixed distance code leaves two of 32 codes over. */
  lemma FixedKraft()
    ensures Complete(FIXED_LIT) && Kraft(FIXED_DIST) == 61440
  {
    hide Copies, Shl, KraftUpTo;
    PowersToDistance();
    hide Pow2;
    var a, b, c, d := Copies(144, 8), Copies(112, 9), Copies(24, 7), Copies(8, 8);
    KraftAdds(a, b, BMAX);
    KraftAdds(a + b, c, BMAX);
    KraftAdds(a + b + c, d, BMAX);
    KraftCopies(144, 8, BMAX);
    KraftCopies(112, 9, BMAX);
    KraftCopies(24, 7, BMAX);
    KraftCopies(8, 8, BMAX);
    KraftCopies(30, 5, BMAX);
    ShlTimes(144, 8);
    ShlTimes(112, 7);
    ShlTimes(24, 9);
    ShlTimes(8, 8);
    ShlTimes(30, 11);
  }

  lemma FixedSizes()
    ensures |FIXED_LIT| == 288 && forall s :: 0 <= s < 288 ==> 7 <= FIXED_LIT[s] <= 9
    ensures |FIXED_DIST| == 30 && forall s :: 0 <= s < 30 ==> FIXED_DIST[s] == 5
  {
    hide Copies;
  }

  // ----- the codes themselves

  lemma FixedCount(k: nat)
    ensures CountLen(FIXED_LIT, k) == if k == 7 then 24 else if k == 8 then 152 else if k == 9 then 112 else 0
    ensures CountLen(FIXED_DIST, k) == if k == 5 then 30 else 0
  {
    hide Copies;
    var a, b, c, d := Copies(144, 8), Copies(112, 9), Copies(24, 7), Copies(8, 8);
    CountSplits(a, b, k);
    CountSplits(a + b, c, k);
    CountSplits(a + b + c, d, k);
    CountCopies(144, 8, k);
    CountCopies(112, 9, k);
    CountCopies(24, 7, k);
    CountCopies(8, 8, k);
    CountCopies(30, 5, k);
  }

  lemma {:induction false} NoShorterCodes(lens: seq<nat>, k: nat)
    requires forall j :: 1 <= j < k ==> CountLen(lens, j) == 0
    ensures NextCode(lens, k) == 0
  {
    if k > 0 {
      NoShorterCodes(lens, k - 1);
    }
  }

  lemma NextAfter(lens: seq<nat>, k: nat)
    requires k >= 1
    ensures NextCode(lens, k + 1) == 2 * (NextCode(lens, k) + CountLen(lens, k))
  {
  }

  lemma FixedNext()
    ensures NextCode(FIXED_LIT, 7) == 0 && NextCode(FIXED_LIT, 8) == 0x30 && NextCode(FIXED_LIT, 9) == 0x190
    ensures NextCode(FIXED_DIST, 5) == 0
  {
    forall k
      ensures CountLen(FIXED_LIT, k) == if k == 7 then 24 else if k == 8 then 152 else if k == 9 then 112 else 0
      ensures CountLen(FIXED_DIST, k) == if k == 5 then 30 else 0
    {
      FixedCount(k);
    }
    hide NextCode, FIXED_LIT, FIXED_DIST, CountLen;
    NoShorterCodes(FIXED_LIT, 7);
    NoShorterCodes(FIXED_DIST, 5);
    NextAfter(FIXED_LIT, 7);
    NextAfter(FIXED_LIT, 8);
  }

  /** The symbols before s, in pieces of equal lengths. */
  lemma FixedFront(s: nat)
    requires s < 288
    ensures |FIXED_LIT| == 288
    ensures var (a, b, c) := (Copies(144, 8), Copies(112, 9), Copies(24, 7));
      FIXED_LIT[..s] ==
        if s < 144 then Copies(s, 8)
        else if s < 256 then a + Copies(s - 144, 9)
        else if s < 280 then a + b + Copies(s - 256, 7)
        else a + b + c + Copies(s - 280, 8)
  {
  }

  lemma FixedRank(s: nat)
    requires s < 288
    ensures |FIXED_LIT| == 288 && FIXED_LIT[s] == if s < 144 then 8 else if s < 256 then 9 else if s < 280 then 7 else 8
    ensures RankOf(FIXED_LIT, s) ==
      if s < 144 then s else if s < 256 then s - 144 else if s < 280 then s - 256 else s - 136
  {
    FixedFront(s);
    FixedSizes();
    var a, b, c, k := Copies(144, 8), Copies(112, 9), Copies(24, 7), FIXED_LIT[s];
    assert FIXED_LIT[s] == if s < 144 then 8 else if s < 256 then 9 else if s < 280 then 7 else 8;
    hide FIXED_LIT, Copies, CountLen;
    CountCopies(144, 8, k);
    CountCopies(112, 9, k);
    CountCopies(24, 7, k);
    if s < 144 {
      CountCopies(s, 8, k);
    } else if s < 256 {
      CountCopies(s - 144, 9, k);
      CountSplits(a, Copies(s - 144, 9), k);
    } else if s < 280 {
      CountCopies(s - 256, 7, k);
      CountSplits(a, b, k);
      CountSplits(a + b, Copies(s - 256, 7), k);
    } else {
      CountCopies(s - 280, 8, k);
      CountSplits(a, b, k);
      CountSplits(a + b, c, k);
      CountSplits(a + b + c, Copies(s - 280, 8), k);
    }
  }

  /** The table of section 3.2.6: codes from 00110000, 110010000, 0000000 and 11000000 on. */
  lemma FixedLitCode(s: nat)
    requires s < 288
    ensures |FIXED_LIT| == 288
    ensures FIXED_LIT[s] == if s < 144 then 8 else if s < 256 then 9 else if s < 280 then 7 else 8
    ensures CodeOf(FIXED_LIT, s) ==
      if s < 144 then 0x30 + s
      else if s < 256 then 0x190 + (s - 144)
      else if s < 280 then s - 256
      else 0xC0 + (s - 280)
  {
    hide FIXED_LIT, NextCode, RankOf;
    FixedRank(s);
    FixedNext();
  }

  /** Distance codes are five-bit numbers. */
  lemma FixedDistCode(s: nat)
    requires s < 30
    ensures |FIXED_DIST| == 30 && FIXED_DIST[s] == 5 && CodeOf(FIXED_DIST, s) == s
  {
    assert FIXED_DIST[..s] == Copies(s, 5);
    CountCopies(s, 5, 5);
    FixedNext();
    hide NextCode;
  }
}
