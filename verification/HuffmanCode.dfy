/** Canonical Huffman codes, as section 3.2.2 of RFC 1951 defines them from a list of code lengths. */
module HuffmanCode {
  import opened Words
  import opened BitReverse

  const BMAX: nat := 16
  const N_MAX: nat := 288

  predicate WfLens(lens: seq<nat>) {
    1 <= |lens| <= N_MAX && forall s :: 0 <= s < |lens| ==> lens[s] <= BMAX
  }

  /** The number of symbols with code length k. */
  function CountLen(lens: seq<nat>, k: nat): (n: nat)
    ensures n <= |lens|
  {
    if lens == [] then 0
    else CountLen(lens[..|lens| - 1], k) + (if lens[|lens| - 1] == k then 1 else 0)
  }

  /** The number of earlier symbols with the same code length. */
  function RankOf(lens: seq<nat>, s: nat): nat
    requires s < |lens|
  {
    CountLen(lens[..s], lens[s])
  }

  /** next_code of RFC 1951: the smallest code of length k. */
  function NextCode(lens: seq<nat>, k: nat): nat {
    if k == 0 then 0 else 2 * (NextCode(lens, k - 1) + (if k == 1 then 0 else CountLen(lens, k - 1)))
  }

  /** The code of a symbol, a number of lens[s] bits. */
  function CodeOf(lens: seq<nat>, s: nat): nat
    requires s < |lens|
  {
    NextCode(lens, lens[s]) + RankOf(lens, s)
  }

  /** The strings of 16 bits taken up by all codes of length up to k; 2^16 in all for a complete code. */
  function KraftUpTo(lens: seq<nat>, k: nat): nat
    requires k <= BMAX
  {
    if k == 0 then 0 else KraftUpTo(lens, k - 1) + Shl(CountLen(lens, k), BMAX - k)
  }

  function Kraft(lens: seq<nat>): nat {
    KraftUpTo(lens, BMAX)
  }

  const FULL: nat := 0x1_0000

  lemma Pow2Of16()
    ensures Pow2(16) == FULL
  {
    assert Pow2(8) == 256;
    Pow2Adds(8, 8);
  }

  predicate Complete(lens: seq<nat>) {
    Kraft(lens) == FULL
  }

  predicate NoCodes(lens: seq<nat>) {
    forall s :: 0 <= s < |lens| ==> lens[s] == 0
  }

  // ----- symbols in the order of their codes

  /** The number of symbols with code lengths 1 to k. */
  function CountUpTo(lens: seq<nat>, k: nat): nat {
    if k == 0 then 0 else CountUpTo(lens, k - 1) + CountLen(lens, k)
  }

  /** Where a symbol stands among all symbols sorted by length, then by number. */
  function IndexOf(lens: seq<nat>, s: nat): nat
    requires s < |lens| && lens[s] > 0
  {
    CountUpTo(lens, lens[s] - 1) + RankOf(lens, s)
  }

  /** The symbol of length k with r others of that length before it. */
  function SymAt(lens: seq<nat>, k: nat, r: nat): (s: nat)
    requires r < CountLen(lens, k)
    ensures s < |lens| && lens[s] == k && RankOf(lens, s) == r
  {
    var front := lens[..|lens| - 1];
    if lens[|lens| - 1] == k && CountLen(front, k) == r then |lens| - 1
    else
      var s := SymAt(front, k, r);
      assert front[..s] == lens[..s];
      s
  }

  lemma {:induction false} CountSplits(lens: seq<nat>, more: seq<nat>, k: nat)
    ensures CountLen(lens + more, k) == CountLen(lens, k) + CountLen(more, k)
  {
    if more == [] {
      assert lens + more == lens;
    } else {
      CountSplits(lens, more[..|more| - 1], k);
      assert (lens + more)[..|lens + more| - 1] == lens + more[..|more| - 1];
    }
  }

  /** Counts up to a later symbol include the earlier one. */
  lemma CountGrows(lens: seq<nat>, s: nat, t: nat, k: nat)
    requires s <= t <= |lens|
    ensures CountLen(lens[..s], k) <= CountLen(lens[..t], k) <= CountLen(lens, k)
    ensures s < t && lens[s] == k ==> CountLen(lens[..s], k) < CountLen(lens[..t], k)
  {
    assert lens[..t] == lens[..s] + lens[s..t];
    assert lens == lens[..t] + lens[t..];
    CountSplits(lens[..s], lens[s..t], k);
    CountSplits(lens[..t], lens[t..], k);
    if s < t {
      assert lens[s..t] == [lens[s]] + lens[s + 1..t];
      CountSplits([lens[s]], lens[s + 1..t], k);
    }
  }

  lemma RankBound(lens: seq<nat>, s: nat)
    requires s < |lens|
    ensures RankOf(lens, s) < CountLen(lens, lens[s])
  {
    CountGrows(lens, s, s + 1, lens[s]);
    CountGrows(lens, s + 1, |lens|, lens[s]);
  }

  lemma SymAtRank(lens: seq<nat>, s: nat)
    requires s < |lens|
    ensures RankOf(lens, s) < CountLen(lens, lens[s]) && SymAt(lens, lens[s], RankOf(lens, s)) == s
  {
    RankBound(lens, s);
    var t := SymAt(lens, lens[s], RankOf(lens, s));
    if s < t {
      CountGrows(lens, s, t, lens[s]);
    } else if t < s {
      CountGrows(lens, t, s, lens[s]);
    }
  }

  lemma {:induction false} CountUpToGrows(lens: seq<nat>, j: nat, k: nat)
    requires j <= k
    ensures CountUpTo(lens, j) <= CountUpTo(lens, k)
  {
    if j < k {
      CountUpToGrows(lens, j, k - 1);
    }
  }

  /** The order of the indices: by length first, and by symbol number for equal lengths. */
  lemma IndexOrders(lens: seq<nat>, s: nat, t: nat)
    requires s < |lens| && t < |lens| && 0 < lens[s] && 0 < lens[t]
    ensures IndexOf(lens, s) < IndexOf(lens, t) <==> lens[s] < lens[t] || (lens[s] == lens[t] && s < t)
  {
    RankBound(lens, s);
    RankBound(lens, t);
    if lens[s] < lens[t] {
      CountUpToGrows(lens, lens[s], lens[t] - 1);
    } else if lens[t] < lens[s] {
      CountUpToGrows(lens, lens[t], lens[s] - 1);
    } else if s < t {
      CountGrows(lens, s, t, lens[s]);
    } else if t < s {
      CountGrows(lens, t, s, lens[s]);
    }
  }

  /** All lengths together: every symbol with a code has an index below the number of such symbols. */
  lemma {:induction false} CountsAddUp(lens: seq<nat>)
    requires forall s :: 0 <= s < |lens| ==> lens[s] <= BMAX
    ensures CountUpTo(lens, BMAX) + CountLen(lens, 0) == |lens|
  {
    if lens == [] {
      NoneOf(BMAX);
    } else {
      var front := lens[..|lens| - 1];
      CountsAddUp(front);
      OneMore(lens, BMAX);
    }
  }

  lemma {:induction false} NoneOf(k: nat)
    ensures CountUpTo([], k) == 0
  {
    if k > 0 {
      NoneOf(k - 1);
    }
  }

  lemma {:induction false} OneMore(lens: seq<nat>, k: nat)
    requires lens != []
    ensures var last, front := lens[|lens| - 1], lens[..|lens| - 1];
      CountUpTo(lens, k) == CountUpTo(front, k) + (if 1 <= last <= k then 1 else 0)
  {
    if k > 0 {
      OneMore(lens, k - 1);
    }
  }

  lemma IndexBound(lens: seq<nat>, s: nat)
    requires s < |lens| && 0 < lens[s] <= BMAX
    ensures IndexOf(lens, s) < CountUpTo(lens, lens[s]) <= CountUpTo(lens, BMAX)
  {
    RankBound(lens, s);
    CountUpToGrows(lens, lens[s], BMAX);
  }

  // ----- codes as intervals

  /** Where the codes of a symbol begin among the 2^16 strings of 16 bits. */
  function StartOf(lens: seq<nat>, k: nat, r: nat): nat
    requires 1 <= k <= BMAX
  {
    KraftUpTo(lens, k - 1) + Shl(r, BMAX - k)
  }

  lemma {:induction false} NextCodeIsKraft(lens: seq<nat>, k: nat)
    requires 1 <= k <= BMAX
    ensures Shl(NextCode(lens, k), BMAX - k) == KraftUpTo(lens, k - 1)
  {
    if k == 1 {
      ShlOne(BMAX - 1);
    } else {
      NextCodeIsKraft(lens, k - 1);
      var n, c := NextCode(lens, k - 1), CountLen(lens, k - 1);
      ShlSum(n, c, BMAX - (k - 1));
      ShlAdds(n + c, 1, BMAX - k);
      assert Shl(n + c, 1) == 2 * (n + c);
    }
  }

  /** A bit string begins with the code of s exactly when its value lies in the interval of s. */
  lemma CodeIsInterval(lens: seq<nat>, s: nat, b: nat)
    requires s < |lens| && 1 <= lens[s] <= BMAX
    ensures var k := lens[s];
      var start := StartOf(lens, k, RankOf(lens, s));
      Rev(b, k) == CodeOf(lens, s) <==> start <= Rev(b, 16) < start + Pow2(BMAX - k)
  {
    hide Shl, Rev, KraftUpTo, NextCode, Pow2, RankOf;
    var k := lens[s];
    NextCodeIsKraft(lens, k);
    ShlSum(NextCode(lens, k), RankOf(lens, s), BMAX - k);
    RevPrefix(b, k, CodeOf(lens, s));
  }

  lemma {:induction false} KraftGrows(lens: seq<nat>, j: nat, k: nat)
    requires j <= k <= BMAX
    ensures KraftUpTo(lens, j) <= KraftUpTo(lens, k)
  {
    if j < k {
      KraftGrows(lens, j, k - 1);
    }
  }

  /** In the order of their codes, the interval of a symbol ends before that of a later one begins. */
  lemma IntervalsInOrder(lens: seq<nat>, s: nat, t: nat)
    requires s < |lens| && t < |lens| && 1 <= lens[s] <= BMAX && 1 <= lens[t] <= BMAX
    requires lens[s] < lens[t] || (lens[s] == lens[t] && s < t)
    ensures StartOf(lens, lens[s], RankOf(lens, s)) + Pow2(BMAX - lens[s]) <= StartOf(lens, lens[t], RankOf(lens, t))
  {
    hide Shl, KraftUpTo, Pow2, CountLen;
    var k := lens[s];
    if k == lens[t] {
      CountGrows(lens, s, t, k);
      ShlApart(RankOf(lens, s), RankOf(lens, t), BMAX - k);
    } else {
      EndOfInterval(lens, s);
      KraftGrows(lens, k, lens[t] - 1);
    }
  }

  lemma EndOfInterval(lens: seq<nat>, s: nat)
    requires s < |lens| && 1 <= lens[s] <= BMAX
    ensures StartOf(lens, lens[s], RankOf(lens, s)) + Pow2(BMAX - lens[s]) <= KraftUpTo(lens, lens[s]) <= Kraft(lens)
  {
    hide Shl, Pow2, RankOf, CountLen;
    RankBound(lens, s);
    ShlApart(RankOf(lens, s), CountLen(lens, lens[s]), BMAX - lens[s]);
    KraftGrows(lens, lens[s], BMAX);
  }

  /** No code is the beginning of another: a bit string begins with at most one code. */
  lemma PrefixFree(lens: seq<nat>, s: nat, t: nat, b: nat)
    requires s < |lens| && t < |lens| && 1 <= lens[s] <= BMAX && 1 <= lens[t] <= BMAX
    requires Rev(b, lens[s]) == CodeOf(lens, s) && Rev(b, lens[t]) == CodeOf(lens, t)
    ensures s == t
  {
    hide Shl, KraftUpTo, Pow2, CountLen, Rev, CodeOf, RankOf, StartOf;
    CodeIsInterval(lens, s, b);
    CodeIsInterval(lens, t, b);
    if lens[s] < lens[t] || (lens[s] == lens[t] && s < t) {
      IntervalsInOrder(lens, s, t);
    } else if s != t {
      IntervalsInOrder(lens, t, s);
    }
  }

  /** A code has as many bits as its length says, as long as the set is not oversubscribed. */
  lemma CodeFits(lens: seq<nat>, s: nat)
    requires s < |lens| && 1 <= lens[s] <= BMAX && Kraft(lens) <= FULL
    ensures CodeOf(lens, s) < Pow2(lens[s])
  {
    hide Shl, KraftUpTo, Pow2, CountLen, RankOf, NextCode;
    var k := lens[s];
    EndOfInterval(lens, s);
    NextCodeIsKraft(lens, k);
    ShlSum(NextCode(lens, k), RankOf(lens, s), BMAX - k);
    if CodeOf(lens, s) >= Pow2(k) {
      ShlGrows(Pow2(k), CodeOf(lens, s), BMAX - k);
      ShlPow(k, BMAX - k);
      Pow2Of16();
      assert false;
    }
  }
}
