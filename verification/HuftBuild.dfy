/** huft_build of zload/inflate.c: decoding tables from code lengths. */
module HuftBuild {
  import opened Words
  import opened BitReverse
  import opened HuffmanCode
  import opened HuftCounts
  import opened HuftTable
  import opened HuftStack
  import opened HuftInvariant
  import opened HuftEntered
  import opened HuftRoom
  import opened HuftSort
  import opened HuftLoop

  // ----- what is promised

  /** m is m0, brought up to the shortest and down to the longest code length. */
  ghost predicate WidthFor(lens: seq<nat>, m0: nat, m: nat) {
    && (exists s :: 0 <= s < |lens| && 0 < lens[s] <= m) && (exists s :: 0 <= s < |lens| && m <= lens[s])
    && (m < m0 ==> forall s :: 0 <= s < |lens| ==> lens[s] <= m)
    && (m0 < m ==> forall s :: 0 <= s < |lens| && lens[s] > 0 ==> m <= lens[s])
  }

  /** g is the longest length. */
  ghost predicate Longest(lens: seq<nat>, g: nat) {
    (exists s :: 0 <= s < |lens| && lens[s] == g) && forall s :: 0 <= s < |lens| ==> lens[s] <= g
  }

  /** c counts the lengths, with codes of the longest length g filled in until they use up all strings. */
  ghost predicate FillsOut(lens: seq<nat>, c: seq<nat>, g: nat) {
    && Longest(lens, g) && Filling(c, g)
    && (forall j :: 1 <= j < g ==> c[j] == CountLen(lens, j)) && c[g] >= CountLen(lens, g)
  }

  /** No table below the first gets more than m bits. */
  ghost predicate Decodable(lens: seq<nat>, m: nat) {
    forall c: seq<nat>, g: nat :: FillsOut(lens, c, g) ==> Narrow(c, g, m)
  }

  /** Sets without codes of more than 2 m bits, and complete sets of at most 2^m codes. */
  lemma ShortOrFewDecodes(lens: seq<nat>, m: nat)
    requires WfLens(lens) && 1 <= m && exists s :: 0 <= s < |lens| && 0 < lens[s] <= m
    requires exists s :: 0 <= s < |lens| && m <= lens[s]
    requires (forall s :: 0 <= s < |lens| ==> lens[s] <= 2 * m) || (Complete(lens) && CountUpTo(lens, BMAX) <= Pow2(m))
    ensures Decodable(lens, m)
  {
    hide Weight, Shl, Codes, Pow2, CountLen, KraftUpTo, CountUpTo, Narrow, Complete;
    forall c: seq<nat>, g: nat | FillsOut(lens, c, g)
      ensures Narrow(c, g, m)
    {
      SomeWeight(lens, c, g, m);
      if g > 2 * m {
        FilledExactly(lens, c, g);
      }
      ShortOrFewIsNarrow(c, g, m);
    }
  }

  lemma SomeWeight(lens: seq<nat>, c: seq<nat>, g: nat, m: nat)
    requires WfLens(lens) && FillsOut(lens, c, g) && 1 <= m <= g
    requires exists s :: 0 <= s < |lens| && 0 < lens[s] <= m
    ensures Weight(c, m) > 0
  {
    hide Weight, Shl;
    var s :| 0 <= s < |lens| && 0 < lens[s] <= m;
    var k := lens[s];
    RankBound(lens, s);
    WeightStep(c, k);
    WeightGrows(c, k, m);
    ShlGrows(1, c[k], BMAX - k);
    ShlOne(BMAX - k);
    PowPositive(BMAX - k);
  }

  /** Nothing is filled in to a complete set. */
  lemma FilledExactly(lens: seq<nat>, c: seq<nat>, g: nat)
    requires WfLens(lens) && FillsOut(lens, c, g) && Complete(lens)
    ensures Codes(c, BMAX) == CountUpTo(lens, BMAX)
  {
    hide Weight, Shl, Codes, KraftUpTo, CountLen, CountUpTo;
    var d := c[g := CountLen(lens, g)];
    SameBelow(c, d, g - 1);
    WeightStep(c, g);
    WeightStep(d, g);
    NothingAbove(c, g, BMAX);
    NothingAbove(d, g, BMAX);
    forall j | g < j <= BMAX
      ensures d[j] == CountLen(lens, j)
    {
      NoneThatLong(lens, j);
    }
    SameCounts(d, lens, BMAX);
    PowPositive(BMAX - g);
    if d[g] < c[g] {
      ShlApart(d[g], c[g], BMAX - g);
    }
  }

  /**
    The condition is not empty: with first tables of 1 bit, the codes 0, 100, 101, 110, 111 have a
    table of 2 bits below the first.
   */
  lemma WideTableExample()
    ensures var lens := [1, 3, 3, 3, 3]; WfLens(lens) && Complete(lens) && !Decodable(lens, 1)
  {
    var lens: seq<nat>, c: seq<nat> := [1, 3, 3, 3, 3], [0, 1, 0, 4, 0, 0, 0, 0, 0, 0, 0, 0, 0, 0, 0, 0, 0];
    ExampleFills(lens, c);
    ExampleWidens(c);
    hide FillsOut, Narrow, Complete;
    assert FillsOut(lens, c, 3) && !Narrow(c, 3, 1);
  }

  lemma ExampleFills(lens: seq<nat>, c: seq<nat>)
    requires lens == [1, 3, 3, 3, 3] && |c| == BMAX + 1 && forall j :: 0 <= j <= BMAX ==> c[j] == ExampleCount(j)
    ensures FillsOut(lens, c, 3) && Complete(lens)
  {
    ExampleWeights(c);
    hide Weight, Shl, Low, Pow2, KraftUpTo, CountLen, Codes, CountUpTo;
    forall j | 0 <= j <= BMAX
      ensures c[j] == CountLen(lens, j)
    {
      ExampleCounts(j);
    }
    assert lens[1] == 3 && c[3] == 4;
    assert forall j :: 3 < j <= BMAX ==> c[j] == 0;
    hide ExampleCount;
    NothingAbove(c, 3, BMAX);
    SameCounts(c, lens, BMAX);
  }

  lemma ExampleWidens(c: seq<nat>)
    requires |c| == BMAX + 1 && forall j :: 0 <= j <= BMAX ==> c[j] == ExampleCount(j)
    ensures !Narrow(c, 3, 1)
  {
    ExampleWeights(c);
    assert c[3] == 4;
    hide Weight, Shl, Low, Pow2, W, Pos, ExampleCount;
    WZero(1);
    PosNext(c, 3, 0);
    OpensAt(c, 3, 0, W(1, 1), 1);
    assert Widens(c, 3, 0, W(1, 1), 1);
  }

  lemma OpensAt(c: seq<nat>, k: nat, r: nat, w: nat, a: nat)
    requires w < k < |c| == BMAX + 1 && Pos(c, k, r) == Shl(a, BMAX - w)
    ensures Opens(c, k, r, w)
  {
    hide Weight, Shl, Low, Pow2, Pos;
    PowPositive(BMAX - w);
    Compose(0, a, BMAX - w);
  }

  function ExampleCount(j: nat): nat {
    if j == 1 then 1 else if j == 3 then 4 else 0
  }

  lemma ExampleCounts(k: nat)
    ensures CountLen([1, 3, 3, 3, 3], k) == ExampleCount(k)
  {
    assert [1, 3, 3, 3, 3][..4] == [1, 3, 3, 3];
    assert [1, 3, 3, 3][..3] == [1, 3, 3];
    assert [1, 3, 3][..2] == [1, 3];
    assert [1, 3][..1] == [1];
    assert [1][..0] == [];
    assert CountLen([1], k) == if k == 1 then 1 else 0;
    assert CountLen([1, 3], k) == CountLen([1], k) + if k == 3 then 1 else 0;
    assert CountLen([1, 3, 3], k) == CountLen([1, 3], k) + if k == 3 then 1 else 0;
    assert CountLen([1, 3, 3, 3], k) == CountLen([1, 3, 3], k) + if k == 3 then 1 else 0;
  }

  lemma ExampleWeights(c: seq<nat>)
    requires |c| == BMAX + 1 && forall j :: 0 <= j <= BMAX ==> c[j] == ExampleCount(j)
    ensures Weight(c, 2) == Shl(1, 15) && Weight(c, 3) == FULL
  {
    assert Pow2(1) == 2 && Pow2(2) == 4;
    hide Shl, Pow2;
    ShlOne(14);
    ShlOne(15);
    ShlSum(1, 1, 15);
    ShlPow(1, 15);
    ShlPow(2, 13);
    Pow2Of16();
    assert Weight(c, 1) == Shl(1, 15) && Weight(c, 2) == Weight(c, 1) + Shl(0, 14);
  }

  /** The lookup of b does not leave the entries that were written. */
  ghost predicate StaysWritten(mem: seq<Huft>, written: set<nat>, t: nat, m: nat, b: nat) {
    Resolves(mem, written, t, m, b, Lookup(mem, t, m, b))
  }

  /** Bits that begin with the code of symbol s are looked up to the entry of s, with the length of its code. */
  ghost predicate SymbolDecodes(mem: seq<Huft>, written: set<nat>, cs: CodeSet, t: nat, m: nat, s: nat, b: nat)
    requires WfCodeSet(cs) && s < |cs.lens|
  {
    cs.lens[s] > 0 && Rev(b, cs.lens[s]) == CodeOf(cs.lens, s) ==>
      Lookup(mem, t, m, b) == SymFound(cs, s) && StaysWritten(mem, written, t, m, b)
  }

  /** Bits that begin with no code are looked up to the mark for unused codes. */
  ghost predicate UnusedMarked(mem: seq<Huft>, written: set<nat>, lens: seq<nat>, t: nat, m: nat, b: nat) {
    Rev(b, 16) >= Kraft(lens) ==> Lookup(mem, t, m, b).e == UNUSED && StaysWritten(mem, written, t, m, b)
  }

  ghost predicate TablesDecode(mem: seq<Huft>, written: set<nat>, cs: CodeSet, t: nat, m: nat)
    requires WfCodeSet(cs)
  {
    && (forall s: nat, b: nat :: s < |cs.lens| ==> SymbolDecodes(mem, written, cs, t, m, s, b))
    && (CountLen(cs.lens, 0) == 0 ==> forall b: nat :: UnusedMarked(mem, written, cs.lens, t, m, b))
  }

  /** Every entry of the first level that a lookup can start with was written. */
  ghost predicate FirstLevelWritten(written: set<nat>, t: nat, m: nat) {
    forall a :: t <= a < t + Pow2(m) ==> a in written
  }

  lemma FirstLevelInPlace(mem: seq<Huft>, written: set<nat>, heads: seq<nat>, cs: CodeSet, c: seq<nat>, g: nat,
      l: nat, st: Work)
    requires WfCodeSet(cs) && 1 <= g < |c| == BMAX + 1 && Filling(c, g) && st.s != [] && Shape(st.s, l, st.hp)
    requires Decodes(mem, written, heads, cs, c, l, g, c[g], st)
    ensures FirstLevelWritten(written, st.root, l)
  {
    hide Weight, Shl, Rev, Pow2;
    PosNext(c, g, 0);
    Pow2Of16();
    assert LevelOk(st.s, l, 0);
    forall a | st.root <= a < st.root + Pow2(l)
      ensures a in written
    {
      var q := a - st.root;
      assert Addr(st.s[0], q) == a;
      assert Start(st.s[0].x, 0, q) < FULL;
    }
  }

  /** Later tables, elsewhere in memory, leave the tables as they are. */
  lemma TablesStay(mem: seq<Huft>, mem2: seq<Huft>, written: set<nat>, cs: CodeSet, t: nat, m: nat)
    requires WfCodeSet(cs) && TablesDecode(mem, written, cs, t, m) && SameOn(mem, mem2, written)
    ensures TablesDecode(mem2, written, cs, t, m)
  {
    hide Lookup, Resolves, SameOn, WfCodeSet, SymFound, CodeOf, Rev, Kraft, CountLen;
    forall s: nat, b: nat | s < |cs.lens|
      ensures SymbolDecodes(mem2, written, cs, t, m, s, b)
    {
      assert SymbolDecodes(mem, written, cs, t, m, s, b);
      LookupStays(mem, mem2, written, t, m, b);
    }
    if CountLen(cs.lens, 0) == 0 {
      forall b: nat
        ensures UnusedMarked(mem2, written, cs.lens, t, m, b)
      {
        assert UnusedMarked(mem, written, cs.lens, t, m, b);
        LookupStays(mem, mem2, written, t, m, b);
      }
    }
  }

  lemma LookupStays(mem: seq<Huft>, mem2: seq<Huft>, written: set<nat>, t: nat, m: nat, b: nat)
    requires SameOn(mem, mem2, written)
    ensures StaysWritten(mem, written, t, m, b) ==>
      StaysWritten(mem2, written, t, m, b) && Lookup(mem2, t, m, b) == Lookup(mem, t, m, b)
  {
    hide Lookup, Resolves, SameOn;
    if StaysWritten(mem, written, t, m, b) {
      ResolvesStays(mem, mem2, written, written, t, m, b, Lookup(mem, t, m, b));
      ResolvesIsLookup(mem2, written, t, m, b, Lookup(mem, t, m, b));
    }
  }

  // ----- every bit string begins with a code of the filled-out set

  lemma {:induction false} FindCode(c: seq<nat>, k: nat, x: nat) returns (k2: nat, r2: nat)
    requires k < |c| == BMAX + 1 && x < Weight(c, k)
    ensures 1 <= k2 <= k && r2 < c[k2] && Pos(c, k2, r2) <= x < Pos(c, k2, r2) + Pow2(BMAX - k2)
    decreases k
  {
    if x < Weight(c, k - 1) {
      k2, r2 := FindCode(c, k - 1, x);
    } else {
      WeightStep(c, k);
      hide Shl, Shr, Low, Weight, Pow2;
      var d := x - Weight(c, k - 1);
      k2, r2 := k, Shr(d, BMAX - k);
      Recompose(d, BMAX - k);
      if c[k] <= r2 {
        ShlGrows(c[k], r2, BMAX - k);
      }
    }
  }

  lemma SymbolInPlace(mem: seq<Huft>, written: set<nat>, heads: seq<nat>, cs: CodeSet, c: seq<nat>, g: nat,
      v: seq<nat>, l: nat, st: Work, s: nat, b: nat)
    requires WfCodeSet(cs) && Sorted(cs.lens, c, g, v) && s < |cs.lens|
    requires Decodes(mem, written, heads, cs, c, l, g, c[g], st)
    ensures SymbolDecodes(mem, written, cs, st.root, l, s, b)
  {
    hide Rev, Shl, Low, Weight, Pow2, Lookup, Resolves, Placed, SymAt, RankOf, CodeOf, KraftUpTo, Linked, FilledTo,
        SymFound;
    var lens := cs.lens;
    if lens[s] > 0 && Rev(b, lens[s]) == CodeOf(lens, s) {
      var k, r := lens[s], RankOf(lens, s);
      SymAtRank(lens, s);
      CodeIsInterval(lens, s, b);
      SameCounts(c, lens, k - 1);
      assert Before(k, r, g, c[g]);
      assert CodeDone(mem, written, st.root, l, cs, c, k, r, b);
    }
  }

  lemma UnusedInPlace(mem: seq<Huft>, written: set<nat>, heads: seq<nat>, cs: CodeSet, c: seq<nat>, g: nat,
      v: seq<nat>, l: nat, st: Work, b: nat)
    requires WfCodeSet(cs) && Sorted(cs.lens, c, g, v) && Decodes(mem, written, heads, cs, c, l, g, c[g], st)
    requires Filling(c, g) && CountLen(cs.lens, 0) == 0
    ensures UnusedMarked(mem, written, cs.lens, st.root, l, b)
  {
    hide Rev, Shl, Low, Weight, Pow2, Lookup, Resolves, Placed, SymAt, CodeOf, KraftUpTo, Linked, FilledTo, SymFound,
        CountLen;
    var lens := cs.lens;
    Pow2Of16();
    if Rev(b, 16) >= Kraft(lens) {
      var k, r := FindCode(c, g, Rev(b, 16));
      SameCounts(c, lens, k - 1);
      CodesBelowKraft(lens, c, k, r);
      assert Before(k, r, g, c[g]);
      assert CodeDone(mem, written, st.root, l, cs, c, k, r, b);
    }
  }

  /** The code of a symbol lies below the end of all codes. */
  lemma CodesBelowKraft(lens: seq<nat>, c: seq<nat>, k: nat, r: nat)
    requires 1 <= k < |c| == BMAX + 1 && Weight(c, k - 1) == KraftUpTo(lens, k - 1)
    ensures r < CountLen(lens, k) ==> Pos(c, k, r) + Pow2(BMAX - k) <= Kraft(lens)
  {
    KraftGrows(lens, k, BMAX);
    if r < CountLen(lens, k) {
      ShlApart(r, CountLen(lens, k), BMAX - k);
    }
  }

  lemma AllDecode(mem: seq<Huft>, written: set<nat>, heads: seq<nat>, cs: CodeSet, c: seq<nat>, g: nat, v: seq<nat>,
      l: nat, st: Work)
    requires WfCodeSet(cs) && Sorted(cs.lens, c, g, v) && Decodes(mem, written, heads, cs, c, l, g, c[g], st)
    requires Filling(c, g)
    ensures TablesDecode(mem, written, cs, st.root, l)
    ensures forall a :: a in written ==> a < st.hp
    ensures st.s != [] && Shape(st.s, l, st.hp) ==> FirstLevelWritten(written, st.root, l)
  {
    if st.s != [] && Shape(st.s, l, st.hp) {
      FirstLevelInPlace(mem, written, heads, cs, c, g, l, st) by { assert 1 <= g < |c|; }
    }
    assert Decoded(mem, written, cs, c, l, g, c[g], Pos(c, g, c[g]), st);
    hide Decodes, Decoded, Filling, Sorted, SymbolDecodes, UnusedMarked, StaysWritten, CountLen, Complete;
    forall s: nat, b: nat | s < |cs.lens|
      ensures SymbolDecodes(mem, written, cs, st.root, l, s, b)
    {
      SymbolInPlace(mem, written, heads, cs, c, g, v, l, st, s, b);
    }
    if CountLen(cs.lens, 0) == 0 {
      forall b: nat
        ensures UnusedMarked(mem, written, cs.lens, st.root, l, b)
      {
        UnusedInPlace(mem, written, heads, cs, c, g, v, l, st, b);
      }
    }
  }

  // ----- the counts and the lengths

  lemma {:induction false} SomeLength(lens: seq<nat>, k: nat)
    requires CountUpTo(lens, k) > 0
    ensures exists j :: 1 <= j <= k && CountLen(lens, j) > 0
  {
    if CountLen(lens, k) == 0 || k == 0 {
      SomeLength(lens, k - 1);
    }
  }

  /** All symbols are without a code exactly when c[0] counts them all. */
  lemma NullInput(lens: seq<nat>)
    requires WfLens(lens)
    ensures CountLen(lens, 0) == |lens| <==> NoCodes(lens)
    ensures CountLen(lens, 0) == |lens| || exists j :: 1 <= j <= BMAX && CountLen(lens, j) > 0
  {
    CountsAddUp(lens);
    if CountLen(lens, 0) == |lens| {
      forall s | 0 <= s < |lens|
        ensures lens[s] == 0
      {
        if lens[s] > 0 {
          IndexBound(lens, s);
        }
      }
    } else {
      SomeLength(lens, BMAX);
      var j :| 1 <= j <= BMAX && CountLen(lens, j) > 0;
      assert lens[SymAt(lens, j, 0)] == j;
    }
  }

  /** k and g are the shortest and the longest length. */
  ghost predicate Bounds(lens: seq<nat>, k: nat, g: nat) {
    && 1 <= k <= g <= BMAX && CountLen(lens, k) > 0 && CountLen(lens, g) > 0
    && (forall i :: 1 <= i < k ==> CountLen(lens, i) == 0)
    && (forall i :: g < i <= BMAX ==> CountLen(lens, i) == 0)
  }

  lemma BoundsOfLengths(lens: seq<nat>, k: nat, g: nat)
    requires WfLens(lens) && Bounds(lens, k, g)
    ensures forall s :: 0 <= s < |lens| ==> lens[s] <= g && (lens[s] > 0 ==> k <= lens[s])
    ensures exists s :: 0 <= s < |lens| && lens[s] == k
    ensures exists s :: 0 <= s < |lens| && lens[s] == g
  {
    forall s | 0 <= s < |lens|
      ensures lens[s] <= g && (lens[s] > 0 ==> k <= lens[s])
    {
      RankBound(lens, s);
    }
    assert lens[SymAt(lens, k, 0)] == k;
    assert lens[SymAt(lens, g, 0)] == g;
  }

  /** The tables stay within the room for their depths, and memory is short only when it has less than that. */
  ghost predicate RoomTaken(lens: seq<nat>, m: nat, g: nat, size: nat, hp0: nat, hp: nat, code: nat) {
    && 1 <= m && 1 <= g && Longest(lens, g)
    && hp <= hp0 + Room(m, g) && (code == 3 ==> hp0 + Room(m, g) > size)
  }

  lemma LongestBound(lens: seq<nat>, k: nat, g: nat)
    requires WfLens(lens) && Bounds(lens, k, g)
    ensures 1 <= g && Longest(lens, g)
  {
    BoundsOfLengths(lens, k, g);
  }

  lemma WidthIsFor(lens: seq<nat>, k: nat, g: nat, m0: nat, l: nat)
    requires WfLens(lens) && Bounds(lens, k, g)
    requires k <= l <= g && (k <= m0 <= g ==> l == m0) && (m0 < k ==> l == k) && (m0 > g ==> l == g)
    ensures WidthFor(lens, m0, l)
  {
    BoundsOfLengths(lens, k, g);
  }

  /** The counts with c[g] filled out. */
  lemma FilledOut(lens: seq<nat>, c: seq<nat>, k: nat, g: nat, l: nat, y: nat, c2: seq<nat>)
    requires WfLens(lens) && Bounds(lens, k, g) && |c| == BMAX + 1 && k <= l <= g
    requires forall j :: 0 <= j <= BMAX ==> c[j] == CountLen(lens, j)
    requires Weight(c, BMAX) <= FULL && Shl(y, BMAX - g) == FULL - Weight(c, BMAX) && c2 == c[g := c[g] + y]
    ensures Filling(c2, g) && Counter(c2, g, l, k, 0, 0) && Codes(c2, k - 1) == 0
    ensures y == 0 <==> Complete(lens)
    ensures Decodable(lens, l) ==> Narrow(c2, g, l)
  {
    hide Weight, Shl, Codes, KraftUpTo, CountLen, CountUpTo, Rev, Pow2, Narrow;
    SameCounts(c, lens, BMAX);
    SameBelow(c, c2, g - 1);
    NothingAbove(c, g, BMAX);
    NothingAbove(c2, g, BMAX);
    WeightStep(c, g);
    WeightStep(c2, g);
    ShlSum(c[g], y, BMAX - g);
    ShlOne(BMAX - g);
    NothingBelow(c2, k - 1);
    WeightGrows(c2, k, l);
    WeightStep(c2, k);
    PowPositive(k);
    PosNext(c2, k, 0);
    RevZero(16);
    BoundsOfLengths(lens, k, g);
    assert FillsOut(lens, c2, g);
  }

  /**
    huft_build. hp0 is the first free place of the memory. The results are those of the original:
    0, or 1 for an incomplete set of codes, or 2 for bad lengths, or 3 for lack of memory.
   */
  method Build(cs: CodeSet, t0: nat, m0: nat, mem: array<Huft>, hp0: nat)
    returns (code: nat, t: nat, m: nat, hp: nat, freed: seq<nat>, ghost heads: seq<nat>, ghost written: set<nat>)
    requires WfCodeSet(cs) && 1 <= hp0 <= mem.Length
    modifies mem
    ensures mem[..hp0] == old(mem[..hp0])
    ensures NoCodes(cs.lens) ==> code == 0 && t == NULL && m == 0 && hp == hp0 && mem[..] == old(mem[..])
    ensures !NoCodes(cs.lens) ==> WidthFor(cs.lens, m0, m)
    ensures !NoCodes(cs.lens) ==> (code == 2 <==> Kraft(cs.lens) > FULL)
    ensures code <= 3 && (code == 2 ==> hp == hp0 && t == t0 && mem[..] == old(mem[..]))
    ensures code == 1 ==> Kraft(cs.lens) < FULL && exists s :: 0 <= s < |cs.lens| && cs.lens[s] > 1
    ensures !NoCodes(cs.lens) && code == 0 && !Complete(cs.lens) ==>
      Kraft(cs.lens) < FULL && forall s :: 0 <= s < |cs.lens| ==> cs.lens[s] <= 1
    ensures code == 3 ==> freed == heads
    ensures !NoCodes(cs.lens) && code <= 1 ==> heads != []
    ensures heads != [] ==> Listed(mem[..], hp0, hp, t, heads[|heads| - 1], heads)
    ensures !NoCodes(cs.lens) && code <= 1 && Decodable(cs.lens, m) ==>
      TablesDecode(mem[..], written, cs, t, m) && FirstLevelWritten(written, t, m)
    ensures forall a :: a in written ==> a < hp
    ensures hp0 <= hp <= mem.Length
    ensures !NoCodes(cs.lens) && code != 2 ==> exists g :: RoomTaken(cs.lens, m, g, mem.Length, hp0, hp, code)
  {
    hide Filling, Counter, Narrow, Decodable, Longest, Room, Decodes, Shape, FirstLevelWritten, Sorted, Listed, Apart,
        Bounds, WidthFor, NoCodes, Pow2, Weight, Shl, Rev, TablesDecode, KraftUpTo, CountLen, Codes, Ready;
    t, hp, freed, heads, written := t0, hp0, [], [], {};
    var c := CountLengths(cs.lens);
    NullInput(cs.lens);
    if c[0] == |cs.lens| {
      return 0, NULL, 0, hp, freed, heads, written;
    }
    var l, k, g := LengthBounds(c, m0);
    m := l;
    assert Bounds(cs.lens, k, g) by { BoundsFromCounts(cs.lens, c[..], k, g); }
    LongestBound(cs.lens, k, g);
    WidthIsFor(cs.lens, k, g, m0, l);
    SameCounts(c[..], cs.lens, BMAX);
    ghost var counts := c[..];
    var ok, y := DummyCodes(c, k, g);
    if !ok {
      code := 2;
      return;
    }
    c[g] := c[g] + y;
    FilledOut(cs.lens, counts, k, g, l, y, c[..]);
    BoundsOfLengths(cs.lens, k, g);
    var v := SortSymbols(cs.lens, c, g);
    assert Sorted(cs.lens, c[..], g, v[..]) by { SortedFromCounts(cs.lens, counts, c[..], k, g, y, v[..]); }
    var w: int := 0;
    w := w - l;
    var st := Work([], w, 0, NULL, 0, hp, NULL, t0);
    ReadyToStart(mem[..], c[..], g, l, k, st);
    var st2;
    ok, st2, heads, written := EnterAll(mem, cs, c[..], v, g, l, k, st, hp0, Decodable(cs.lens, l));
    hp := st2.hp;
    if !ok {
      FirstTable(mem[..], hp0, st2, heads);
      if st2.s != [] {
        t := st2.root;
        freed := HuftFree(mem, st2.s[0].u, hp0, hp, st2.tail, heads);
      }
      written := {};
      code := 3;
      assert RoomTaken(cs.lens, m, g, mem.Length, hp0, hp, code);
      return;
    }
    t := st2.root;
    FirstTable(mem[..], hp0, st2, heads);
    if Decodable(cs.lens, l) {
      FillingOf(c[..], g, l, k, st);
      ShapeOf(mem[..], hp0, heads, c[..], g, l, st2);
      AllDecode(mem[..], written, heads, cs, c[..], g, v[..], l, st2);
    } else {
      written := {};
    }
    code := if y != 0 && g != 1 then 1 else 0;
    assert RoomTaken(cs.lens, m, g, mem.Length, hp0, hp, code);
  }

  lemma BoundsFromCounts(lens: seq<nat>, c: seq<nat>, k: nat, g: nat)
    requires |c| == BMAX + 1 && (forall j :: 0 <= j <= BMAX ==> c[j] == CountLen(lens, j))
    requires 1 <= k <= g <= BMAX && c[k] > 0 && c[g] > 0
    requires forall i :: 1 <= i < k ==> c[i] == 0
    requires forall i :: g < i <= BMAX ==> c[i] == 0
    ensures Bounds(lens, k, g)
  {
    forall i | 1 <= i < k
      ensures CountLen(lens, i) == 0
    {
      assert c[i] == 0;
    }
    forall i | g < i <= BMAX
      ensures CountLen(lens, i) == 0
    {
      assert c[i] == 0;
    }
  }

  lemma SortedFromCounts(lens: seq<nat>, c: seq<nat>, c2: seq<nat>, k: nat, g: nat, y: nat, v: seq<nat>)
    requires WfLens(lens) && Bounds(lens, k, g) && |c| == BMAX + 1 && |v| == N_MAX
    requires forall j :: 0 <= j <= BMAX ==> c[j] == CountLen(lens, j)
    requires c2 == c[g := c[g] + y] && forall s :: 0 <= s < |lens| ==> Placed(lens, v, s)
    ensures Sorted(lens, c2, g, v)
  {
    BoundsOfLengths(lens, k, g);
  }

  lemma ReadyToStart(mem: seq<Huft>, c: seq<nat>, g: nat, l: nat, k: nat, st: Work)
    requires Counter(c, g, l, k, 0, 0) && st.s == [] && st.w == 0 - l && st.i == 0 && st.tail == NULL
    requires 1 <= st.hp <= |mem|
    ensures Ready(mem, st.hp, [], c, g, l, k, 0, st)
  {
    hide Counter;
    WZero(l);
  }

  lemma ShapeOf(mem: seq<Huft>, base: nat, heads: seq<nat>, c: seq<nat>, g: nat, l: nat, st: Work)
    requires 1 <= g < |c| && Ready(mem, base, heads, c, g, l, g, c[g], st) && st.s != []
    ensures Shape(st.s, l, st.hp)
  {
    hide Counter, Listed, Apart;
  }

  lemma FillingOf(c: seq<nat>, g: nat, l: nat, k: nat, st: Work)
    requires Counter(c, g, l, k, 0, 0)
    ensures Filling(c, g)
  {
  }

  lemma FirstTable(mem: seq<Huft>, base: nat, st: Work, heads: seq<nat>)
    requires Listed(mem, base, st.hp, st.root, st.tail, heads) && Apart(st.s, base, heads)
    ensures st.s != [] <==> heads != []
    ensures st.s != [] ==> st.s[0].u == st.root && st.tail == heads[|heads| - 1]
    ensures base <= st.hp <= |mem|
  {
  }
}
