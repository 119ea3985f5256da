/** The entries made so far decode the codes entered so far, and the list of tables holds every table. */
module HuftEntered {
  import opened Words
  import opened BitReverse
  import opened HuffmanCode
  import opened HuftCounts
  import opened HuftTable
  import opened HuftStack
  import opened HuftInvariant

  /** Code number r of length k is the first of an interval of strings with w bits in common. */
  ghost predicate Opens(c: seq<nat>, k: nat, r: nat, w: nat)
    requires 1 <= k < |c| == BMAX + 1
  {
    w < k && Low(Pos(c, k, r), BMAX - w) == 0
  }

  /** No table below the root gets more than l bits, whichever code makes it. */
  ghost predicate Narrow(c: seq<nat>, g: nat, l: nat)
    requires |c| == BMAX + 1 && g <= BMAX
  {
    forall k: nat, r: nat, t: nat {:trigger Opens(c, k, r, W(l, t))} ::
      1 <= k <= g && r < c[k] && t >= 1 && Opens(c, k, r, W(l, t)) ==> !Widens(c, k, r, W(l, t), l)
  }

  lemma IntervalEndsInside(p: nat, w: nat)
    requires w <= BMAX && p < FULL && Low(p, BMAX - w) == 0
    ensures p + Pow2(BMAX - w) <= FULL
  {
    hide Low, Shr, Shl, Pow2;
    var n := BMAX - w;
    Recompose(p, n);
    ShlPow(w, n);
    Pow2Of16();
    if Shr(p, n) < Pow2(w) {
      ShlApart(Shr(p, n), Pow2(w), n);
    } else {
      ShlGrows(Pow2(w), Shr(p, n), n);
    }
  }

  /** No table is too wide when no code is longer than 2 l, or when there are at most 2^l codes. */
  lemma ShortOrFewIsNarrow(c: seq<nat>, g: nat, l: nat)
    requires Filling(c, g) && 1 <= l <= g && Weight(c, l) > 0
    requires g <= 2 * l || Codes(c, BMAX) <= Pow2(l)
    ensures Narrow(c, g, l)
  {
    hide Rev, Shl, Shr, Low, Pow2, Weight, W, Pos, Codes;
    forall k: nat, r: nat, t: nat {:trigger Opens(c, k, r, W(l, t))} |
      1 <= k <= g && r < c[k] && t >= 1 && Opens(c, k, r, W(l, t))
      ensures !Widens(c, k, r, W(l, t), l)
    {
      var w := W(l, t);
      WZero(l);
      WGrows(l, 1, t);
      PosBound(c, g, k, r);
      PowPositive(BMAX - k);
      IntervalEndsInside(Pos(c, k, r), w);
      if k >= w + l && g > 2 * l {
        SomethingBefore(c, l, k, r);
        DeepSubtreeNeedsManyCodes(c, g, k, r, w, l);
      }
    }
  }

  /** The right entry for code number r of length k: its symbol's, or none for a code that fills out the set. */
  ghost predicate EntryOk(cs: CodeSet, k: nat, r: nat, f: Found)
    requires WfCodeSet(cs)
  {
    if r < CountLen(cs.lens, k) then f == SymFound(cs, SymAt(cs.lens, k, r))
    else f.e == UNUSED && f.bits == k
  }

  /**
    A code of a symbol, or one that fills out a set in which every symbol has a code. Other codes
    get entries made from places of v[] that were never set.
   */
  predicate Known(cs: CodeSet, k: nat, r: nat) {
    r < CountLen(cs.lens, k) || CountLen(cs.lens, 0) == 0
  }

  /** A bit string that begins with code number r of length k walks to the right entry. */
  ghost predicate CodeDone(mem: seq<Huft>, filled: set<nat>, root: nat, l: nat, cs: CodeSet, c: seq<nat>, k: nat,
      r: nat, b: nat)
    requires |c| == BMAX + 1 && 1 <= k <= BMAX && WfCodeSet(cs)
  {
    Known(cs, k, r) && Pos(c, k, r) <= Rev(b, 16) < Pos(c, k, r) + Pow2(16 - k) ==>
      var f := Lookup(mem, root, l, b);
      Resolves(mem, filled, root, l, b, f) && EntryOk(cs, k, r, f)
  }

  predicate Before(k: nat, r: nat, k2: nat, r2: nat) {
    k < k2 || (k == k2 && r < r2)
  }

  ghost predicate Entered(mem: seq<Huft>, filled: set<nat>, root: nat, l: nat, cs: CodeSet, c: seq<nat>, k: nat, r: nat)
    requires |c| == BMAX + 1 && WfCodeSet(cs)
  {
    forall k2: nat, r2: nat, b: nat :: 1 <= k2 <= BMAX && r2 < c[k2] && Before(k2, r2, k, r) ==>
      CodeDone(mem, filled, root, l, cs, c, k2, r2, b)
  }

  ghost predicate Decoded(mem: seq<Huft>, filled: set<nat>, cs: CodeSet, c: seq<nat>, l: nat, k: nat, r: nat, p: nat,
      st: Work)
    requires |c| == BMAX + 1 && WfCodeSet(cs)
  {
    && st.hp <= |mem| && (forall a :: a in filled ==> a < st.hp)
    && (if st.s == [] then filled == {}
        else
          && st.root == st.s[0].u && st.s[|st.s| - 1].wid <= l
          && Linked(mem, filled, st.s, l) && FilledTo(filled, st.s, l, p))
    && Entered(mem, filled, st.root, l, cs, c, k, r)
  }

  // ----- memory changes

  lemma EnteredStays(mem: seq<Huft>, mem2: seq<Huft>, filled: set<nat>, filled2: set<nat>, root: nat, l: nat,
      cs: CodeSet, c: seq<nat>, k: nat, r: nat)
    requires |c| == BMAX + 1 && WfCodeSet(cs) && Entered(mem, filled, root, l, cs, c, k, r)
    requires SameOn(mem, mem2, filled) && filled <= filled2
    ensures Entered(mem2, filled2, root, l, cs, c, k, r)
  {
    hide Rev, Shl, Low, Pow2, Weight, Lookup, Resolves, EntryOk, SameOn, Pos, WfCodeSet, Known;
    forall k2: nat, r2: nat, b: nat | 1 <= k2 <= BMAX && r2 < c[k2] && Before(k2, r2, k, r)
      ensures CodeDone(mem2, filled2, root, l, cs, c, k2, r2, b)
    {
      assert CodeDone(mem, filled, root, l, cs, c, k2, r2, b);
      if Known(cs, k2, r2) && Pos(c, k2, r2) <= Rev(b, 16) < Pos(c, k2, r2) + Pow2(16 - k2) {
        var f := Lookup(mem, root, l, b);
        ResolvesStays(mem, mem2, filled, filled2, root, l, b, f);
        ResolvesIsLookup(mem2, filled2, root, l, b, f);
      }
    }
  }

  /** Before the first code nothing has been entered. */
  lemma NothingEntered(mem: seq<Huft>, filled: set<nat>, root: nat, l: nat, cs: CodeSet, c: seq<nat>, k: nat, r: nat)
    requires |c| == BMAX + 1 && WfCodeSet(cs) && 1 <= k <= BMAX && Pos(c, k, r) == 0
    ensures Entered(mem, filled, root, l, cs, c, k, r)
  {
    forall k2: nat, r2: nat | 1 <= k2 <= BMAX && Before(k2, r2, k, r)
      ensures r2 >= c[k2]
    {
      if k2 < k {
        WeightGrows(c, k2, k - 1);
        WeightStep(c, k2);
      }
    }
  }

  /** The entry that is going to lead to a new table is still free. */
  lemma LinkIsFree(filled: set<nat>, s: seq<Level>, l: nat, hp: nat, i: nat)
    requires Shape(s, l, hp) && FilledTo(filled, s, l, Rev(i, 16)) && Low(i, W(l, |s| - 1)) == s[|s| - 1].x
    requires i < Pow2(W(l, |s|)) && s[|s| - 1].wid >= l && W(l, |s| - 1) <= 16
    ensures Shr(i, W(l, |s| - 1)) < s[|s| - 1].size
    ensures s[|s| - 1].u + Shr(i, W(l, |s| - 1)) !in filled
  {
    hide Rev, Shl, Shr, Low, Pow2, W;
    var h := |s| - 1;
    assert LevelOk(s, l, h);
    LinkInside(i, l, h);
    Pow2Grows(l, s[h].wid);
    var q := Shr(i, W(l, h));
    Recompose(i, W(l, h));
    assert Addr(s[h], q) !in filled;
  }

  lemma LinkInside(i: nat, l: nat, h: nat)
    requires i < Pow2(W(l, h + 1))
    ensures Shr(i, W(l, h)) < Pow2(l)
  {
    hide Rev, Shl, Shr, Low, Pow2;
    WAdds(l, h);
    ShrSmall(i, W(l, h), l);
  }

  /** Linking in a new table. */
  lemma PushDecoded(mem: seq<Huft>, mem2: seq<Huft>, filled: set<nat>, filled2: set<nat>, cs: CodeSet, c: seq<nat>,
      g: nat, l: nat, k: nat, r: nat, st: Work, v: Level, st2: Work)
    requires |c| == BMAX + 1 && WfCodeSet(cs) && Counter(c, g, l, k, r, st.i) && r < c[k] && W(l, |st.s|) < k
    requires Stacked(c, l, k, st) && Stacked(c, l, k, st2)
    requires Decoded(mem, filled, cs, c, l, k, r, Pos(c, k, r), st) && SameOn(mem, mem2, filled)
    requires v.x == st.i && v.u == st.hp + 1 && v.wid <= l && st2.s == st.s + [v] && st2.i == st.i && st2.hp <= |mem|
    requires st2.hp > v.u && st2.root == if st.s == [] then v.u else st.root
    requires filled2 == (if st.s == [] then {} else filled + {st.s[|st.s| - 1].u + Shr(st.i, W(l, |st.s| - 1))})
    requires st.s != [] ==>
      var a := st.s[|st.s| - 1].u + Shr(st.i, W(l, |st.s| - 1));
      a < |mem2| && mem2[a] == Huft(16 + v.wid, l, v.u)
    ensures Decoded(mem2, filled2, cs, c, l, k, r, Pos(c, k, r), st2)
  {
    hide Rev, Shl, Shr, Low, Pow2, Weight, W, Pos, Entered;
    NextIsInside(c, g, l, k, r, st.i);
    if st.s == [] {
      RevZero(16);
      NothingEntered(mem2, filled2, st2.root, l, cs, c, k, r);
      assert st2.s == [v];
      assert FilledTo(filled2, st2.s, l, 0);
    } else {
      var s, h := st.s, |st.s| - 1;
      LongCodeWideTable(c, g, l, k, r, st);
      TopFitsDepth(c, l, k, st);
      assert W(l, |s|) <= 16;
      LinkInside(st.i, l, h);
      assert LevelOk(s, l, h);
      TablesBelow(s, l, st.hp, h);
      LinkIsFree(filled, s, l, st.hp, st.i);
      PushFilled(filled, s, l, st.hp, v);
      PushLinked(mem, mem2, filled, s, l, v);
      EnteredStays(mem, mem2, filled, filled2, st.root, l, cs, c, k, r);
      assert st2.s[0] == s[0];
    }
  }

  /** Leaving a finished table. */
  lemma PopDecoded(mem: seq<Huft>, filled: set<nat>, cs: CodeSet, c: seq<nat>, l: nat, k: nat, r: nat, p: nat, st: Work)
    requires |c| == BMAX + 1 && WfCodeSet(cs) && Backing(c, l, k, p, st) && |st.s| > 1
    requires Decoded(mem, filled, cs, c, l, k, r, p, st)
    ensures Decoded(mem, filled, cs, c, l, k, r, p, Popped(st, l))
  {
    hide Rev, Shl, Shr, Low, Pow2, Weight, W, Pos, Entered;
    PopLinked(mem, filled, st.s, l);
    PopFilled(filled, st.s, l, st.hp, p);
    assert LinkOk(mem, filled, st.s, l, |st.s| - 2);
  }

  /** The codes before code number r of length k are decoded. */
  ghost predicate DecodedBefore(mem: seq<Huft>, filled: set<nat>, cs: CodeSet, c: seq<nat>, l: nat, k: nat, r: nat,
      st: Work)
  {
    |c| == BMAX + 1 && 1 <= k <= BMAX && WfCodeSet(cs) && Decoded(mem, filled, cs, c, l, k, r, Pos(c, k, r), st)
  }

  /** Code number r of length k is next, and its table is there. */
  ghost predicate CodeAt(c: seq<nat>, g: nat, l: nat, k: nat, r: nat, st: Work) {
    && |c| == BMAX + 1 && Counter(c, g, l, k, r, st.i) && r < c[k]
    && Stacked(c, l, k, st) && st.s != [] && W(l, |st.s| - 1) <= k <= W(l, |st.s|)
  }

  /** mem2 is mem with the entry e in all places of the code, which is right for it if it is known. */
  ghost predicate Writes(mem: seq<Huft>, mem2: seq<Huft>, filled: set<nat>, filled2: set<nat>, cs: CodeSet, l: nat,
      k: nat, r: nat, st: Work, e: Huft)
  {
    && WfCodeSet(cs) && st.s != [] && W(l, |st.s| - 1) <= k
    && FillsCode(mem, mem2, st.s[|st.s| - 1], st.i, W(l, |st.s| - 1), k, e)
    && (Known(cs, k, r) ==> !IsLink(e) && e.b == k - W(l, |st.s| - 1) && EntryOk(cs, k, r, Found(e.e, k, e.v)))
    && filled2 == filled + Taken(st.s[|st.s| - 1], st.i, W(l, |st.s| - 1), k)
  }

  /** Entering a code: its strings now decode, and all earlier ones still do. */
  lemma EnterDecoded(mem: seq<Huft>, mem2: seq<Huft>, filled: set<nat>, filled2: set<nat>, cs: CodeSet, c: seq<nat>,
      g: nat, l: nat, k: nat, r: nat, st: Work, e: Huft)
    requires |c| == BMAX + 1 && WfCodeSet(cs) && CodeAt(c, g, l, k, r, st)
    requires DecodedBefore(mem, filled, cs, c, l, k, r, st) && Writes(mem, mem2, filled, filled2, cs, l, k, r, st, e)
    ensures DecodedBefore(mem2, filled2, cs, c, l, k, r + 1, st)
  {
    hide Rev, Shl, Shr, Low, Pow2, Weight, W, Pos, EntryOk, FillsCode, Known;
    var s, h := st.s, |st.s| - 1;
    WAdds(l, h);
    NextIsInside(c, g, l, k, r, st.i);
    LongCodeWideTable(c, g, l, k, r, st);
    PosNext(c, k, r);
    FillIsFresh(mem, mem2, filled, s, l, st.hp, st.i, k, e);
    StillLinked(mem, mem2, filled, filled2, s, l);
    AfterFill(mem, filled, s, l, st.hp, st.i, k);
    EnteredStays(mem, mem2, filled, filled2, st.root, l, cs, c, k, r);
    TakenBelow(s, l, st.hp, st.i, k);
    OneMoreEntered(mem, mem2, filled, filled2, cs, c, g, l, k, r, st, e);
  }

  ghost predicate Inside(addrs: set<nat>, v: Level) {
    forall a :: a in addrs ==> v.u <= a < v.u + v.size
  }

  lemma TakenBelow(s: seq<Level>, l: nat, hp: nat, i: nat, k: nat)
    requires Shape(s, l, hp) && W(l, |s| - 1) <= k
    ensures Inside(Taken(s[|s| - 1], i, W(l, |s| - 1), k), s[|s| - 1]) && s[|s| - 1].u + s[|s| - 1].size <= hp
  {
    hide Rev, Shl, Shr, Low, Pow2, W;
    assert LevelOk(s, l, |s| - 1);
    TablesBelow(s, l, hp, |s| - 1);
  }

  lemma OneMoreEntered(mem: seq<Huft>, mem2: seq<Huft>, filled: set<nat>, filled2: set<nat>, cs: CodeSet, c: seq<nat>,
      g: nat, l: nat, k: nat, r: nat, st: Work, e: Huft)
    requires |c| == BMAX + 1 && WfCodeSet(cs) && CodeAt(c, g, l, k, r, st)
    requires DecodedBefore(mem, filled, cs, c, l, k, r, st) && Writes(mem, mem2, filled, filled2, cs, l, k, r, st, e)
    requires Entered(mem2, filled2, st.root, l, cs, c, k, r)
    ensures Entered(mem2, filled2, st.root, l, cs, c, k, r + 1)
  {
    hide Rev, Shl, Shr, Low, Pow2, Weight, W, Pos, EntryOk, FillsCode, Lookup, Resolves, Shape, Known;
    forall k2: nat, r2: nat, b: nat | 1 <= k2 <= BMAX && r2 < c[k2] && Before(k2, r2, k, r + 1)
      ensures CodeDone(mem2, filled2, st.root, l, cs, c, k2, r2, b)
    {
      if k2 == k && r2 == r {
        if Known(cs, k, r) && Pos(c, k, r) <= Rev(b, 16) < Pos(c, k, r) + Pow2(16 - k) {
          var h := |st.s| - 1;
          WAdds(l, h);
          NextIsInside(c, g, l, k, r, st.i);
          LongCodeWideTable(c, g, l, k, r, st);
          PrefixInterval(b, st.i, k);
          CodeResolves(mem, mem2, filled, st.s, l, st.hp, st.i, k, e, b);
          ResolvesIsLookup(mem2, filled2, st.root, l, b, Found(e.e, k, e.v));
        }
      } else {
        assert Before(k2, r2, k, r);
      }
    }
  }

  lemma DecodedNextLength(mem: seq<Huft>, filled: set<nat>, cs: CodeSet, c: seq<nat>, l: nat, k: nat, st: Work)
    requires |c| == BMAX + 1 && WfCodeSet(cs) && 1 <= k < BMAX
    requires Decoded(mem, filled, cs, c, l, k, c[k], Pos(c, k, c[k]), st)
    ensures Decoded(mem, filled, cs, c, l, k + 1, 0, Pos(c, k + 1, 0), st)
  {
    hide Rev, Shl, Shr, Low, Pow2, Weight, W, Lookup, Resolves, CodeDone;
    PosNext(c, k, 0);
    PosNext(c, k + 1, 0);
    forall k2: nat, r2: nat, b: nat | 1 <= k2 <= BMAX && r2 < c[k2] && Before(k2, r2, k + 1, 0)
      ensures CodeDone(mem, filled, st.root, l, cs, c, k2, r2, b)
    {
      assert Before(k2, r2, k, c[k]);
    }
  }

  /** A table below the root is made for the first code of its interval. */
  lemma TableOpens(c: seq<nat>, g: nat, l: nat, k: nat, r: nat, st: Work)
    requires Counter(c, g, l, k, r, st.i) && r < c[k] && Stacked(c, l, k, st) && W(l, |st.s|) < k
    ensures Opens(c, k, r, W(l, |st.s|))
  {
    hide Rev, Shl, Shr, Low, Pow2, Weight, W, Pos;
    var w := W(l, |st.s|);
    NextIsInside(c, g, l, k, r, st.i);
    if st.s == [] {
      WZero(l);
      PowPositive(w);
    }
    PowPositive(BMAX - w);
    RevShort(st.i, w, BMAX - w);
    Compose(0, Rev(st.i, w), BMAX - w);
  }

  /** In a narrow set a table below the root gets at most l bits. */
  lemma TablesAreNarrow(c: seq<nat>, g: nat, l: nat, k: nat, r: nat, st: Work, j: nat)
    requires Counter(c, g, l, k, r, st.i) && r < c[k] && Stacked(c, l, k, st) && st.s != [] && W(l, |st.s|) < k
    requires Narrow(c, g, l) && SizedFor(c, k, r, W(l, |st.s|), l, j)
    ensures j <= l
  {
    hide Rev, Shl, Shr, Low, Pow2, Weight, W, Pos, Opens, Widens, SizedFor, Stacked;
    TableOpens(c, g, l, k, r, st);
    WiderExactlyWhen(c, k, r, W(l, |st.s|), l, j);
  }

  lemma SomethingBefore(c: seq<nat>, l: nat, k: nat, r: nat)
    requires l < k < |c| == BMAX + 1 && Weight(c, l) > 0
    ensures Pos(c, k, r) > 0
  {
    WeightGrows(c, l, k - 1);
  }
}
