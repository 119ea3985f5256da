/** What huft_build keeps from code to code: its code counter, its table stack, the entries made so far. */
module HuftInvariant {
  import opened Words
  import opened BitReverse
  import opened HuffmanCode
  import opened HuftCounts
  import opened HuftTable
  import opened HuftStack

  /** The inputs b, n, s, d and e of huft_build. */
  datatype CodeSet = CodeSet(lens: seq<nat>, simple: nat, base: seq<nat>, extra: seq<nat>)

  ghost predicate WfCodeSet(cs: CodeSet) {
    && WfLens(cs.lens)
    && (|cs.lens| > cs.simple ==> |cs.base| >= |cs.lens| - cs.simple && |cs.extra| >= |cs.lens| - cs.simple)
    && forall i :: 0 <= i < |cs.extra| ==> cs.extra[i] <= 16 || cs.extra[i] == UNUSED
  }

  /** The table entry a symbol must decode to. */
  function SymFound(cs: CodeSet, s: nat): Found
    requires WfCodeSet(cs) && s < |cs.lens|
  {
    if s < cs.simple then Found(if s < 256 then 16 else 15, cs.lens[s], s)
    else Found(cs.extra[s - cs.simple], cs.lens[s], cs.base[s - cs.simple])
  }

  /**
    The locals of huft_build that change from code to code: the stacks u[] and x[] (with the sizes
    of the tables on them), w, i, q, z, the top of the heap, and where the table list ends and starts.
    h is |s| - 1.
   */
  datatype Work = Work(s: seq<Level>, w: int, i: nat, q: nat, z: nat, hp: nat, tail: nat, root: nat)

  // ----- the code counter

  /** Code number r of length k is next: in reading order, i is the place where its strings begin. */
  ghost predicate Counter(c: seq<nat>, g: nat, l: nat, k: nat, r: nat, i: nat) {
    && Filling(c, g) && 1 <= l <= g && Weight(c, l) > 0 && 1 <= k <= g && r <= c[k]
    && i < Pow2(k)
    && (if Pos(c, k, r) < FULL then Rev(i, 16) == Pos(c, k, r) else i == 0)
  }

  lemma NextIsInside(c: seq<nat>, g: nat, l: nat, k: nat, r: nat, i: nat)
    requires Counter(c, g, l, k, r, i) && r < c[k]
    ensures Rev(i, 16) == Pos(c, k, r) && Rev(i, 16) + Pow2(16 - k) <= FULL
  {
    hide Weight, Rev, Shl, Pow2;
    PosBound(c, g, k, r);
    PowPositive(BMAX - k);
  }

  // ----- the stack

  /** The last table is as wide as any, or the codes that start below it end within its bits. */
  ghost predicate TopFits(c: seq<nat>, s: seq<Level>, l: nat) {
    && |c| == BMAX + 1 && s != []
    && var v, w := s[|s| - 1], W(l, |s| - 1);
       w + v.wid <= BMAX && (v.wid >= l || Weight(c, w + v.wid) >= End(v, w))
  }

  ghost predicate Tables(c: seq<nat>, l: nat, k: nat, st: Work) {
    && Shape(st.s, l, st.hp) && Under(st.s, l, st.i) && TopFits(c, st.s, l)
    && W(l, |st.s| - 1) < k && st.i < Pow2(W(l, |st.s|))
    && (k <= W(l, |st.s|) ==> st.q == st.s[|st.s| - 1].u && st.z == st.s[|st.s| - 1].size)
  }

  ghost predicate Stacked(c: seq<nat>, l: nat, k: nat, st: Work) {
    st.w == W(l, |st.s|) - l && (if st.s == [] then st.i == 0 else Tables(c, l, k, st))
  }

  /** A number below 2^w stands for the first of an interval of strings. */
  lemma IntervalInside(i: nat, w: nat)
    requires w <= 16 && i < Pow2(w)
    ensures Rev(i, 16) + Pow2(16 - w) <= FULL
  {
    hide Rev, Shl, Pow2;
    RevShort(i, w, 16 - w);
    ShlApart(Rev(i, w), Pow2(w), 16 - w);
    ShlPow(w, 16 - w);
    Pow2Of16();
  }

  /** The strings of the last table. */
  lemma TopInterval(s: seq<Level>, l: nat, hp: nat, i: nat)
    requires Shape(s, l, hp) && Under(s, l, i)
    ensures W(l, |s| - 1) <= 16 && First(s[|s| - 1]) <= Rev(i, 16) < End(s[|s| - 1], W(l, |s| - 1))
  {
    hide Rev, Shl, Shr, Low, Pow2, W;
    assert LevelOk(s, l, |s| - 1);
    PrefixInterval(i, s[|s| - 1].x, W(l, |s| - 1));
  }

  /** A code that is longer than its table is wide has a table of at least l bits. */
  lemma LongCodeWideTable(c: seq<nat>, g: nat, l: nat, k: nat, r: nat, st: Work)
    requires Counter(c, g, l, k, r, st.i) && r < c[k] && Tables(c, l, k, st)
    ensures k > W(l, |st.s| - 1) + st.s[|st.s| - 1].wid ==> st.s[|st.s| - 1].wid >= l
  {
    hide Rev, Shl, Shr, Low, Pow2, W, Weight, Shape, Under;
    TopInterval(st.s, l, st.hp, st.i);
    NextIsInside(c, g, l, k, r, st.i);
    var top := W(l, |st.s| - 1) + st.s[|st.s| - 1].wid;
    if k > top {
      WeightGrows(c, top, k - 1);
    }
  }

  /** Adding a table of j bits at the depth of the next code. */
  lemma PushTables(c: seq<nat>, g: nat, l: nat, k: nat, r: nat, st: Work, v: Level, st2: Work)
    requires Counter(c, g, l, k, r, st.i) && r < c[k] && Stacked(c, l, k, st) && W(l, |st.s|) < k
    requires v.x == st.i && v.u == st.hp + 1 && v.wid >= 1 && v.size >= Pow2(v.wid) && (st.s == [] ==> v.wid == l)
    requires W(l, |st.s|) + v.wid <= BMAX
    requires v.wid >= l || Weight(c, W(l, |st.s|) + v.wid) >= Rev(st.i, 16) + Pow2(16 - W(l, |st.s|))
    requires st2.s == st.s + [v] && st2.w == st.w + l && st2.i == st.i && st2.q == v.u && st2.z == v.size
    requires st2.hp == v.u + v.size
    ensures Stacked(c, l, k, st2)
  {
    hide Rev, Shl, Shr, Low, Pow2, Weight, W;
    WAdds(l, |st.s|);
    ShortHasNoRest(st.i, W(l, |st.s|)) by { WZero(l); if st.s == [] { PowPositive(0); } }
    WZero(l);
    Pow2Grows(W(l, |st.s|), W(l, |st2.s|));
    if st.s == [] {
      PowPositive(0);
      assert st2.s == [v];
      assert LevelOk(st2.s, l, 0);
      NoShift(st.i);
      UnderTop(st2.s, l, st2.hp, st.i);
    } else {
      LongCodeWideTable(c, g, l, k, r, st);
      WAdds(l, |st.s| - 1);
      TopFitsDepth(c, l, k, st);
      PushShape(st.s, l, st.hp, v, st2.hp);
      UnderTop(st2.s, l, st2.hp, st.i);
    }
  }

  lemma WZero(l: nat)
    ensures W(l, 0) == 0 && W(l, 1) == l
  {
    assert W(l, 1) == W(l, 0) + l;
  }

  lemma TopFitsDepth(c: seq<nat>, l: nat, k: nat, st: Work)
    requires Tables(c, l, k, st) && W(l, |st.s|) < k
    ensures st.s[|st.s| - 1].wid >= l || W(l, |st.s| - 1) + st.s[|st.s| - 1].wid < k
    ensures Low(st.i, W(l, |st.s| - 1)) == st.s[|st.s| - 1].x
  {
    hide Rev, Shl, Shr, Low, Pow2, Weight, W, Shape;
    WAdds(l, |st.s| - 1);
  }

  // ----- backing up over finished tables

  /** The codes have come to place p, which is at most the end of the last table. */
  ghost predicate Backing(c: seq<nat>, l: nat, k: nat, p: nat, st: Work) {
    && Shape(st.s, l, st.hp) && TopFits(c, st.s, l) && st.w == W(l, |st.s|) - l
    && W(l, |st.s| - 1) < k <= 16 && st.i < Pow2(k) && st.i < Pow2(W(l, |st.s|))
    && (if p < FULL then Rev(st.i, 16) == p else st.i == 0)
    && W(l, |st.s| - 1) <= 16 && First(st.s[|st.s| - 1]) < p <= End(st.s[|st.s| - 1], W(l, |st.s| - 1))
    && (k <= W(l, |st.s|) ==> st.q == st.s[|st.s| - 1].u && st.z == st.s[|st.s| - 1].size)
  }

  function Popped(st: Work, l: nat): Work
    requires st.s != []
  {
    st.(s := st.s[..|st.s| - 1], w := st.w - l)
  }

  /** A place that is a multiple of 2^(16-w) belongs to a number of w bits. */
  lemma AlignedShort(i: nat, x: nat, w: nat)
    requires w <= 16 && i < Pow2(16) && x < Pow2(w) && Rev(i, 16) == Rev(x, 16) + Pow2(16 - w)
    ensures i < Pow2(w)
  {
    hide Rev, Shl, Shr, Low, Pow2;
    var j := 16 - w;
    RevShort(x, w, j);
    RevSplit(i, w, j);
    var a, b := Rev(i, w), Rev(x, w);
    ShlSum(b, 1, j);
    ShlOne(j);
    if a < b + 1 {
      ShlApart(a, b + 1, j);
    } else if a > b + 1 {
      ShlApart(b + 1, a, j);
    }
    Recompose(i, w);
    ShrSmall(i, w, j);
    RevZero(j);
    PowPositive(j);
    RevInjective(Shr(i, w), 0, j);
    ShlOne(w);
  }

  /** A table that does not hold the next code is finished exactly; the one above it is not passed over. */
  lemma PopBacking(c: seq<nat>, l: nat, k: nat, p: nat, st: Work)
    requires Backing(c, l, k, p, st) && Low(st.i, W(l, |st.s| - 1)) != st.s[|st.s| - 1].x
    ensures p == End(st.s[|st.s| - 1], W(l, |st.s| - 1))
    ensures |st.s| > 1 && Backing(c, l, k, p, Popped(st, l))
  {
    hide Rev, Shl, Shr, Low, Pow2, W, Weight;
    var s, h := st.s, |st.s| - 1;
    var w := W(l, h);
    assert LevelOk(s, l, h);
    IntervalInside(s[h].x, w);
    PrefixInterval(st.i, s[h].x, w);
    assert p == End(s[h], w);
    if p < FULL {
      Pow2Grows(k, 16);
      AlignedShort(st.i, s[h].x, w);
    } else {
      PowPositive(w);
    }
    WZero(l);
    NoShift(st.i);
    assert |s| > 1;
    assert ChildOk(s, l, h) && LevelOk(s, l, h - 1);
    WAdds(l, h - 1);
    WAdds(l, h);
    CodeEndsInside(s[h].x, w, s[h - 1].x, W(l, h - 1));
    PopShape(s, l, st.hp);
  }

  /** Backing up ends at the table that the next code hangs below. */
  lemma BackingDone(c: seq<nat>, l: nat, k: nat, p: nat, st: Work)
    requires Backing(c, l, k, p, st) && Low(st.i, W(l, |st.s| - 1)) == st.s[|st.s| - 1].x
    ensures Stacked(c, l, k, st)
  {
    hide Rev, Shl, Shr, Low, Pow2, W, Weight;
    UnderTop(st.s, l, st.hp, st.i);
  }

  /** After a code of length k has been entered. */
  lemma StartBacking(c: seq<nat>, g: nat, l: nat, k: nat, r: nat, st: Work, i2: nat)
    requires Counter(c, g, l, k, r, st.i) && r < c[k] && Stacked(c, l, k, st) && st.s != [] && k <= W(l, |st.s|)
    requires i2 < Pow2(k)
    requires if Rev(st.i, 16) + Pow2(16 - k) < FULL then Rev(i2, 16) == Rev(st.i, 16) + Pow2(16 - k) else i2 == 0
    ensures Backing(c, l, k, Pos(c, k, r + 1), st.(i := i2))
    ensures Counter(c, g, l, k, r + 1, i2)
  {
    hide Rev, Shl, Shr, Low, Pow2, W, Weight;
    var s, h := st.s, |st.s| - 1;
    NextIsInside(c, g, l, k, r, st.i);
    PosNext(c, k, r);
    assert LevelOk(s, l, h);
    CodeEndsInside(st.i, k, s[h].x, W(l, h));
    PowPositive(16 - k);
    Pow2Grows(k, W(l, |s|));
  }

  /** The codes of length k are done. */
  lemma NextLength(c: seq<nat>, g: nat, l: nat, k: nat, st: Work)
    requires k < |c| && Counter(c, g, l, k, c[k], st.i) && Stacked(c, l, k, st) && k < g
    ensures Counter(c, g, l, k + 1, 0, st.i) && Stacked(c, l, k + 1, st)
  {
    hide Rev, Shl, Shr, Low, W, Weight, Pow2;
    PosNext(c, k, 0);
    PosNext(c, k + 1, 0);
    Pow2Grows(k, k + 1);
  }
}
