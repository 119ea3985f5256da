/**
  How much memory the tables of huft_build take. At each depth the tables stand for disjoint
  intervals of the strings, and a table has no more entries than its interval has codes.
 */
module HuftRoom {
  import opened Words
  import opened BitReverse
  import opened HuffmanCode
  import opened HuftCounts
  import opened HuftStack
  import opened HuftInvariant

  /** The number of depths, l bits apart, at which codes of up to g bits can need a table. */
  function Depths(l: nat, g: nat): (n: nat)
    requires l >= 1
    ensures n >= 1
  {
    if g <= l then 1 else 1 + Depths(l, g - l)
  }

  /** Entries that are enough for all tables of a set of codes of up to g bits, dummy entries included. */
  function Room(l: nat, g: nat): nat
    requires l >= 1 && g >= 1
  {
    Depths(l, g) * (3 * Pow2(g - 1))
  }

  lemma {:induction false} DepthIsCounted(l: nat, g: nat, t: nat)
    requires l >= 1 && W(l, t) < g
    ensures t < Depths(l, g)
  {
    if t > 0 {
      DepthIsCounted(l, g - l, t - 1);
    }
  }

  lemma {:induction false} DepthsMonotone(l: nat, l2: nat, g: nat, g2: nat)
    requires 1 <= l <= l2 && g2 <= g
    ensures Depths(l2, g2) <= Depths(l, g)
    decreases g
  {
    if g2 > l2 {
      DepthsMonotone(l, l2, g - l, g2 - l2);
    }
  }

  /** Wider first tables and shorter codes need no more. */
  lemma RoomMonotone(l: nat, l2: nat, g: nat, g2: nat)
    requires 1 <= l && 1 <= g2 <= g && (l <= l2 || g2 <= l2)
    ensures l2 >= 1 && Room(l2, g2) <= Room(l, g)
  {
    if l <= l2 {
      DepthsMonotone(l, l2, g, g2);
    }
    Pow2Grows(g2 - 1, g - 1);
    Products(Depths(l2, g2), Depths(l, g), 3 * Pow2(g2 - 1), 3 * Pow2(g - 1));
  }

  lemma Products(a: nat, b: nat, x: nat, y: nat)
    requires a <= b && x <= y
    ensures a * x <= b * y
  {
  }

  // ----- how far the tables reach

  /** Where the interval of a table at depth w ends. */
  function IntervalEnd(v: Level, w: nat): nat {
    if w <= 16 then End(v, w) else 0
  }

  /** The ends of the intervals of the tables on the stack, added up. */
  function Reached(s: seq<Level>, l: nat): nat {
    if s == [] then 0 else Reached(s[..|s| - 1], l) + IntervalEnd(s[|s| - 1], W(l, |s| - 1))
  }

  /**
    The entries used so far, in strings: at most one and a half for each string that the tables of
    some depth stand for. Depths of the stack have come to the end of their table, the others to p.
   */
  ghost predicate Frugal(s: seq<Level>, l: nat, g: nat, p: nat, used: nat) {
    && l >= 1 && 1 <= g <= BMAX && |s| <= Depths(l, g)
    && Shl(2 * used, BMAX - g) <= 3 * (Reached(s, l) + (Depths(l, g) - |s|) * p)
  }

  lemma Times(n: nat, p: nat)
    ensures (n + 1) * p == n * p + p
  {
  }

  lemma FrugalStart(l: nat, g: nat)
    requires l >= 1 && 1 <= g <= BMAX
    ensures Frugal([], l, g, 0, 0)
  {
    ShlOne(BMAX - g);
  }

  lemma FrugalMoves(s: seq<Level>, l: nat, g: nat, p: nat, p2: nat, used: nat)
    requires Frugal(s, l, g, p, used) && p <= p2
    ensures Frugal(s, l, g, p2, used)
  {
    Products(Depths(l, g) - |s|, Depths(l, g) - |s|, p, p2);
  }

  /** A new table of j bits begins a new interval of its depth. */
  lemma FrugalPush(s: seq<Level>, l: nat, g: nat, p: nat, used: nat, v: Level, j: nat)
    requires Frugal(s, l, g, p, used) && First(v) == p
    requires 1 <= j && W(l, |s|) + j <= g
    ensures Frugal(s + [v], l, g, p, used + 1 + Pow2(j))
  {
    hide Shl, Reached, Depths, Rev, W, Pow2;
    var w, n := W(l, |s|), BMAX - g;
    DepthIsCounted(l, g, |s|) by { PowPositive(j); }
    ReachedMore(s, l, v);
    TableInStrings(j, g - w, n);
    ShlSum(2 * used, 2 + 2 * Pow2(j), n);
    OneDepthLess(Shl(2 * used, n), Shl(2 + 2 * Pow2(j), n), Reached(s, l), Depths(l, g) - |s| - 1, p, Pow2(16 - w));
  }

  lemma OneDepthLess(a: int, b: int, r: int, d: nat, p: nat, q: int)
    requires a <= 3 * (r + (d + 1) * p) && b <= 3 * q
    ensures a + b <= 3 * (r + (p + q) + d * p)
  {
    Times(d, p);
  }

  lemma ReachedMore(s: seq<Level>, l: nat, v: Level)
    ensures Reached(s + [v], l) == Reached(s, l) + IntervalEnd(v, W(l, |s|))
  {
    hide W, IntervalEnd;
    assert (s + [v])[..|s|] == s;
  }

  /** A table of j bits with its dummy entry. */
  lemma TableInStrings(j: nat, d: nat, n: nat)
    requires 1 <= j <= d
    ensures Shl(2 + 2 * Pow2(j), n) <= 3 * Pow2(d + n)
  {
    hide Shl, Pow2;
    Pow2Grows(1, j);
    Pow2Grows(j, d);
    assert Pow2(1) == 2 by { PowOne(); }
    ShlGrows(2 + 2 * Pow2(j), Pow2(d) + Pow2(d) + Pow2(d), n);
    ShlSum(Pow2(d) + Pow2(d), Pow2(d), n);
    ShlSum(Pow2(d), Pow2(d), n);
    ShlPow(d, n);
  }

  lemma PowOne()
    ensures Pow2(1) == 2
  {
  }

  /** The last table is left when the codes have come to the end of its interval. */
  lemma FrugalPop(s: seq<Level>, l: nat, g: nat, p: nat, used: nat)
    requires Frugal(s, l, g, p, used) && s != [] && p == IntervalEnd(s[|s| - 1], W(l, |s| - 1))
    ensures Frugal(s[..|s| - 1], l, g, p, used)
  {
    Times(Depths(l, g) - |s|, p);
  }

  // ----- the bound

  /** No interval ends beyond the last string. */
  ghost predicate EndsInside(s: seq<Level>, l: nat) {
    forall t :: 0 <= t < |s| ==> IntervalEnd(s[t], W(l, t)) <= FULL
  }

  lemma ShapeEndsInside(s: seq<Level>, l: nat, hp: nat)
    requires Shape(s, l, hp)
    ensures EndsInside(s, l)
  {
    hide Rev, Pow2, W;
    forall t | 0 <= t < |s|
      ensures IntervalEnd(s[t], W(l, t)) <= FULL
    {
      assert LevelOk(s, l, t);
      IntervalInside(s[t].x, W(l, t));
    }
  }

  lemma {:induction false} ReachedBound(s: seq<Level>, l: nat)
    requires EndsInside(s, l)
    ensures Reached(s, l) <= |s| * FULL
  {
    if s != [] {
      var s2 := s[..|s| - 1];
      assert forall t :: 0 <= t < |s2| ==> s2[t] == s[t];
      ReachedBound(s2, l);
    }
  }

  lemma {:induction false} ShlTimes(m: nat, x: nat, n: nat)
    ensures Shl(m * x, n) == m * Shl(x, n)
  {
    if m == 0 {
      ShlOne(n);
    } else {
      ShlTimes(m - 1, x, n);
      Times(m - 1, x);
      Times(m - 1, Shl(x, n));
      ShlSum((m - 1) * x, x, n);
    }
  }

  lemma UsedAtMostRoom(s: seq<Level>, l: nat, g: nat, p: nat, used: nat)
    requires Frugal(s, l, g, p, used) && EndsInside(s, l) && p <= FULL
    ensures used <= Room(l, g)
  {
    hide Shl, Depths, Reached, EndsInside, Pow2;
    var d, n := Depths(l, g), BMAX - g;
    ReachedBound(s, l);
    Products(d - |s|, d - |s|, p, FULL);
    assert Shl(2 * used, n) <= 3 * (d * FULL);
    ShlPow(g, n);
    Pow2Of16();
    ShlTimes(3 * d, Pow2(g), n);
    assert 3 * d * Pow2(g) == 2 * Room(l, g) by { RoomDoubled(d, g); }
    if 2 * used > 3 * d * Pow2(g) {
      ShlApart(3 * d * Pow2(g), 2 * used, n);
    }
  }

  lemma RoomDoubled(d: nat, g: nat)
    requires g >= 1
    ensures 3 * d * Pow2(g) == 2 * (d * (3 * Pow2(g - 1)))
  {
  }
}
