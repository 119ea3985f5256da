/** The counting passes of huft_build: counts by length, bounds, filling out, and the sorted symbols. */
module HuftSort {
  import opened Words
  import opened BitReverse
  import opened HuffmanCode
  import opened HuftCounts

  /** c[k] is the number of codes of length k; c[0] counts the symbols without a code. */
  method CountLengths(lens: seq<nat>) returns (c: array<nat>)
    requires WfLens(lens)
    ensures fresh(c) && c.Length == BMAX + 1
    ensures forall k :: 0 <= k <= BMAX ==> c[k] == CountLen(lens, k)
  {
    c := new nat[BMAX + 1](_ => 0);
    var i := 0;
    while i < |lens|
      invariant 0 <= i <= |lens|
      invariant forall k :: 0 <= k <= BMAX ==> c[k] == CountLen(lens[..i], k)
    {
      assert lens[..i + 1][..i] == lens[..i];
      c[lens[i]] := c[lens[i]] + 1;
      i := i + 1;
    }
    assert lens[..i] == lens;
  }

  /** Shortest and longest code length, and the table width m bounded by them. */
  method LengthBounds(c: array<nat>, m: nat) returns (l: nat, k: nat, g: nat)
    requires c.Length == BMAX + 1 && exists i :: 1 <= i <= BMAX && c[i] > 0
    ensures 1 <= k <= g <= BMAX && c[k] > 0 && c[g] > 0
    ensures forall i :: 1 <= i < k ==> c[i] == 0
    ensures forall i :: g < i <= BMAX ==> c[i] == 0
    ensures k <= l <= g && (k <= m <= g ==> l == m) && (m < k ==> l == k) && (m > g ==> l == g)
  {
    l := m;
    k := 1;
    while k <= BMAX && c[k] == 0
      invariant 1 <= k <= BMAX + 1
      invariant forall i :: 1 <= i < k ==> c[i] == 0
    {
      k := k + 1;
    }
    if l < k {
      l := k;
    }
    g := BMAX;
    while g != 0 && c[g] == 0
      invariant g <= BMAX
      invariant forall i :: g < i <= BMAX ==> c[i] == 0
    {
      g := g - 1;
    }
    if l > g {
      l := g;
    }
  }

  lemma {:induction false} NothingBelow(c: seq<nat>, k: nat)
    requires k < |c| == BMAX + 1 && forall i :: 1 <= i <= k ==> c[i] == 0
    ensures Weight(c, k) == 0 && Codes(c, k) == 0
  {
    if k > 0 {
      NothingBelow(c, k - 1);
      ShlOne(BMAX - k);
    }
  }

  /**
    The number of dummy codes of length g that complete the set; ok is false exactly when the codes
    take up more than all bit strings.
   */
  method DummyCodes(c: array<nat>, k: nat, g: nat) returns (ok: bool, y: nat)
    requires c.Length == BMAX + 1 && 1 <= k <= g <= BMAX
    requires forall i :: 1 <= i < k ==> c[i] == 0
    requires forall i :: g < i <= BMAX ==> c[i] == 0
    ensures ok <==> Weight(c[..], BMAX) <= FULL
    ensures ok ==> Shl(y, BMAX - g) == FULL - Weight(c[..], BMAX)
  {
    hide *;
    ghost var cs := c[..];
    NothingBelow(cs, k - 1);
    NothingAbove(cs, g, BMAX);
    WeightGrows(cs, g, BMAX);
    ShlOfPow(k);
    y := Pow2(k);
    var j := k;
    while j < g
      invariant k <= j <= g && Shl(y, BMAX - j) == FULL - Weight(cs, j - 1)
    {
      TakeOff(cs, j, y);
      WeightGrows(cs, j, g);
      if y < c[j] {
        return false, 0;
      }
      y := y - c[j];
      ShlDouble(y, BMAX - j - 1);
      j := j + 1;
      y := 2 * y;
    }
    TakeOff(cs, g, y);
    if y < c[g] {
      return false, 0;
    }
    ok, y := true, y - c[g];
  }

  lemma ShlOfPow(k: nat)
    requires k <= BMAX
    ensures Shl(Pow2(k), BMAX - k) == FULL
  {
    ShlPow(k, BMAX - k);
    Pow2Of16();
  }

  /** Taking the codes of length j off the patterns left of that length. */
  lemma TakeOff(c: seq<nat>, j: nat, y: nat)
    requires 1 <= j < |c| == BMAX + 1 && Shl(y, BMAX - j) == FULL - Weight(c, j - 1)
    ensures if y < c[j] then Weight(c, j) > FULL else Shl(y - c[j], BMAX - j) == FULL - Weight(c, j)
  {
    hide Weight, Shl, Pow2;
    WeightStep(c, j);
    PowPositive(BMAX - j);
    if y < c[j] {
      ShlApart(y, c[j], BMAX - j);
    } else {
      ShlSum(y - c[j], c[j], BMAX - j);
    }
  }

  /** Where the symbols of each length start among the sorted ones. */
  method Offsets(lens: seq<nat>, c: array<nat>, g: nat) returns (x: array<nat>)
    requires c.Length == BMAX + 1 && 1 <= g <= BMAX
    requires forall i :: 1 <= i < g ==> c[i] == CountLen(lens, i)
    ensures fresh(x) && x.Length == BMAX + 1 && forall k :: 1 <= k <= g ==> x[k] == CountUpTo(lens, k - 1)
  {
    x := new nat[BMAX + 1];
    var j := 0;
    x[1] := j;
    var i := 1;
    while i < g
      invariant 1 <= i <= g && j == CountUpTo(lens, i - 1)
      invariant forall k :: 1 <= k <= i ==> x[k] == CountUpTo(lens, k - 1)
    {
      j := j + c[i];
      x[i + 1] := j;
      i := i + 1;
    }
  }

  lemma CountStep(lens: seq<nat>, s: nat, k: nat)
    requires s < |lens|
    ensures CountLen(lens[..s + 1], k) == CountLen(lens[..s], k) + (if lens[s] == k then 1 else 0)
  {
    assert lens[..s + 1][..s] == lens[..s];
  }

  ghost predicate Placed(lens: seq<nat>, v: seq<nat>, t: nat)
    requires t < |lens|
  {
    lens[t] > 0 ==> IndexOf(lens, t) < |v| && v[IndexOf(lens, t)] == t
  }

  /** The values in order of bit length: a stable counting sort of the symbols that have a code. */
  method SortSymbols(lens: seq<nat>, c: array<nat>, g: nat) returns (v: array<nat>)
    requires WfLens(lens) && c.Length == BMAX + 1 && 1 <= g <= BMAX
    requires forall i :: 1 <= i < g ==> c[i] == CountLen(lens, i)
    requires forall s :: 0 <= s < |lens| ==> lens[s] <= g
    ensures fresh(v) && v.Length == N_MAX
    ensures forall s :: 0 <= s < |lens| ==> Placed(lens, v[..], s)
  {
    CountsAddUp(lens);
    v := new nat[N_MAX];
    var x := Offsets(lens, c, g);
    var s := 0;
    NothingYet(lens);
    hide IndexOf, CountUpTo, Placed, CountLen;
    while s < |lens|
      invariant 0 <= s <= |lens|
      invariant forall k :: 1 <= k <= g ==> x[k] == CountUpTo(lens, k - 1) + CountLen(lens[..s], k)
      invariant forall t :: 0 <= t < s ==> Placed(lens, v[..], t)
    {
      var j := lens[s];
      forall k | 1 <= k <= g
        ensures CountLen(lens[..s + 1], k) == CountLen(lens[..s], k) + (if lens[s] == k then 1 else 0)
      {
        CountStep(lens, s, k);
      }
      if j != 0 {
        PlaceOf(lens, s);
        PlaceNext(lens, v[..], v[..][x[j] := s], s);
        v[x[j]] := s;
        x[j] := x[j] + 1;
      }
      s := s + 1;
    }
  }

  lemma NothingYet(lens: seq<nat>)
    ensures forall k :: CountLen(lens[..0], k) == 0
  {
    assert lens[..0] == [];
  }

  lemma PlaceNext(lens: seq<nat>, v: seq<nat>, v2: seq<nat>, s: nat)
    requires s < |lens| && lens[s] > 0 && IndexOf(lens, s) < |v| && v2 == v[IndexOf(lens, s) := s]
    requires forall t :: 0 <= t < s ==> Placed(lens, v, t)
    ensures forall t :: 0 <= t <= s ==> Placed(lens, v2, t)
  {
    OthersElsewhere(lens, s);
    hide IndexOf;
    forall t | 0 <= t < s
      ensures Placed(lens, v2, t)
    {
      assert Placed(lens, v, t);
    }
  }

  lemma PlaceOf(lens: seq<nat>, s: nat)
    requires WfLens(lens) && s < |lens| && lens[s] > 0
    ensures CountUpTo(lens, lens[s] - 1) + CountLen(lens[..s], lens[s]) == IndexOf(lens, s) < N_MAX
  {
    IndexBound(lens, s);
    CountsAddUp(lens);
  }

  lemma OthersElsewhere(lens: seq<nat>, s: nat)
    requires s < |lens| && lens[s] > 0
    ensures forall t :: 0 <= t < s && lens[t] > 0 ==> IndexOf(lens, t) != IndexOf(lens, s)
  {
    forall t | 0 <= t < s && lens[t] > 0
      ensures IndexOf(lens, t) != IndexOf(lens, s)
    {
      IndexOrders(lens, s, t);
      IndexOrders(lens, t, s);
    }
  }
}
