/**
  The table stack of huft_build: the tables on the path to the code being entered, each with the code
  bits that lead to it, and which of the entries are filled.
 */
module HuftStack {
  import opened Words
  import opened BitReverse
  import opened HuftTable

  /**
    A table on the stack. It starts at u and has size entries, the first 2^wid of which a walk can
    address; x is the pattern of the code bits before it.
   */
  datatype Level = Level(u: nat, size: nat, wid: nat, x: nat)

  /** Bits decoded before level t: w == l * t. */
  function W(l: nat, t: nat): nat {
    if t == 0 then 0 else W(l, t - 1) + l
  }

  /** The value of the first bit string that leads to entry q of a table at depth w. */
  function Start(x: nat, w: nat, q: nat): nat {
    Rev(x + Shl(q, w), 16)
  }

  function First(v: Level): nat {
    Rev(v.x, 16)
  }

  function End(v: Level, w: nat): nat
    requires w <= 16
  {
    Rev(v.x, 16) + Pow2(16 - w)
  }

  ghost predicate LevelOk(s: seq<Level>, l: nat, t: nat)
    requires t < |s|
  {
    && W(l, t) + s[t].wid <= 16 && 1 <= s[t].wid
    && s[t].x < Pow2(W(l, t))
    && Pow2(s[t].wid) <= s[t].size && 1 <= s[t].u
  }

  /** Level t hangs below level t - 1. */
  ghost predicate ChildOk(s: seq<Level>, l: nat, t: nat)
    requires 0 < t < |s|
  {
    && s[t - 1].wid >= l
    && Low(s[t].x, W(l, t - 1)) == s[t - 1].x
    && s[t - 1].u + s[t - 1].size < s[t].u
  }

  /** The address of entry q. */
  function Addr(v: Level, q: nat): nat {
    v.u + q
  }

  /** The shape of the stack: prefixes, depths and places of the tables. */
  ghost predicate Shape(s: seq<Level>, l: nat, hp: nat) {
    && 1 <= l && 1 <= |s| && s[0].x == 0 && s[0].wid == l
    && (forall t :: 0 <= t < |s| ==> LevelOk(s, l, t))
    && (forall t :: 0 < t < |s| ==> ChildOk(s, l, t))
    && s[|s| - 1].u + s[|s| - 1].size <= hp
  }

  /** The code bits i lie below every table of the stack. */
  ghost predicate Under(s: seq<Level>, l: nat, i: nat) {
    forall t :: 0 <= t < |s| ==> Low(i, W(l, t)) == s[t].x
  }

  /** The entry of level t that leads to level t + 1. */
  function LinkIndex(s: seq<Level>, l: nat, t: nat): nat
    requires t + 1 < |s|
  {
    Shr(s[t + 1].x, W(l, t))
  }

  /** Level t has exactly l bits, and its entry for the code being entered points to level t + 1. */
  ghost predicate LinkOk(mem: seq<Huft>, filled: set<nat>, s: seq<Level>, l: nat, t: nat)
    requires t + 1 < |s|
  {
    && s[t].wid == l && s[t + 1].wid <= l
    && LinkIndex(s, l, t) < Pow2(l)
    && var a := s[t].u + LinkIndex(s, l, t);
       a < |mem| && a in filled && mem[a] == Huft(16 + s[t + 1].wid, l, s[t + 1].u)
  }

  ghost predicate Linked(mem: seq<Huft>, filled: set<nat>, s: seq<Level>, l: nat) {
    forall t :: 0 <= t < |s| - 1 ==> LinkOk(mem, filled, s, l, t)
  }

  /** An entry of a stack table is filled when its strings come before value p, or when it leads on. */
  ghost predicate FilledTo(filled: set<nat>, s: seq<Level>, l: nat, p: nat) {
    forall t, q {:trigger Addr(s[t], q)} :: 0 <= t < |s| && 0 <= q < s[t].size ==>
      (Addr(s[t], q) in filled <==>
        q < Pow2(s[t].wid) && (Start(s[t].x, W(l, t), q) < p || (t + 1 < |s| && q == LinkIndex(s, l, t))))
  }

  // ----- depth

  lemma {:induction false} WAdds(l: nat, t: nat)
    ensures W(l, t + 1) == W(l, t) + l
  {
  }

  lemma {:induction false} WGrows(l: nat, s: nat, t: nat)
    requires s <= t
    ensures W(l, s) <= W(l, t)
  {
    if s < t {
      WGrows(l, s, t - 1);
    }
  }

  /** The pattern of a table extends the patterns of all tables above it. */
  lemma {:induction false} PatternsNest(s: seq<Level>, l: nat, hp: nat, t: nat, h: nat)
    requires Shape(s, l, hp) && t <= h < |s|
    ensures Low(s[h].x, W(l, t)) == s[t].x
    decreases h
  {
    hide Low, Shr, Shl, Rev, Pow2;
    assert LevelOk(s, l, h);
    if t == h {
      ShortHasNoRest(s[h].x, W(l, h));
    } else {
      assert ChildOk(s, l, h);
      PatternsNest(s, l, hp, t, h - 1);
      WGrows(l, t, h - 1);
      LowOfLow(s[h].x, W(l, t), W(l, h - 1));
    }
  }

  /** It is enough to lie below the last table. */
  lemma UnderTop(s: seq<Level>, l: nat, hp: nat, i: nat)
    requires Shape(s, l, hp) && Low(i, W(l, |s| - 1)) == s[|s| - 1].x
    ensures Under(s, l, i)
  {
    hide Low, Shr, Shl, Rev, Pow2;
    forall t | 0 <= t < |s|
      ensures Low(i, W(l, t)) == s[t].x
    {
      PatternsNest(s, l, hp, t, |s| - 1);
      WGrows(l, t, |s| - 1);
      LowOfLow(i, W(l, t), W(l, |s| - 1));
    }
  }

  // ----- walking down the stack

  /** A walk from level t of a bit string below level t + 1 passes to level t + 1. */
  lemma StepDown(mem: seq<Huft>, filled: set<nat>, s: seq<Level>, l: nat, hp: nat, t: nat, b: nat, want: Found)
    requires Shape(s, l, hp) && Linked(mem, filled, s, l) && t + 1 < |s| && hp <= |mem|
    requires Low(b, W(l, t + 1)) == s[t + 1].x
    requires Resolves(mem, filled, s[t + 1].u, s[t + 1].wid, Shr(b, W(l, t + 1)), want)
    ensures Resolves(mem, filled, s[t].u, s[t].wid, Shr(b, W(l, t)), want.(bits := want.bits + l))
  {
    hide Low, Shr, Shl, Rev, Pow2;
    assert LinkOk(mem, filled, s, l, t);
    assert LevelOk(s, l, t + 1) && ChildOk(s, l, t + 1);
    var w := W(l, t);
    WAdds(l, t);
    ShrOfLow(b, w, l);
    ShrAdds(b, w, l);
    TablesBelow(s, l, hp, t + 1);
  }

  lemma {:induction false} TablesBelow(s: seq<Level>, l: nat, hp: nat, t: nat)
    requires Shape(s, l, hp) && t < |s|
    ensures s[t].u + s[t].size <= hp
    decreases |s| - t
  {
    hide Low, Shr, Shl, Rev, Pow2;
    if t + 1 < |s| {
      assert ChildOk(s, l, t + 1);
      TablesBelow(s, l, hp, t + 1);
    }
  }

  lemma {:induction false} WalkDown(mem: seq<Huft>, filled: set<nat>, s: seq<Level>, l: nat, hp: nat, t: nat, b: nat,
      want: Found)
    requires Shape(s, l, hp) && Linked(mem, filled, s, l) && t < |s| && hp <= |mem| && Under(s, l, b)
    requires Resolves(mem, filled, s[t].u, s[t].wid, Shr(b, W(l, t)), want)
    ensures Resolves(mem, filled, s[0].u, l, b, want.(bits := want.bits + W(l, t)))
    decreases t
  {
    hide Low, Shr, Shl, Rev, Pow2;
    NoShift(b);
    if t > 0 {
      StepDown(mem, filled, s, l, hp, t - 1, b, want);
      WAdds(l, t - 1);
      WalkDown(mem, filled, s, l, hp, t - 1, b, want.(bits := want.bits + l));
    }
  }

  // ----- filling the entries of one code

  /** The entries of the last table that a k-bit code with bits i takes up. */
  predicate Takes(q: nat, i: nat, w: nat, k: nat)
    requires w <= k
  {
    Low(q, k - w) == Shr(i, w)
  }

  /** They are those whose bit strings begin with the code. */
  lemma TakesInterval(x: nat, w: nat, q: nat, i: nat, k: nat)
    requires w <= k <= 16 && x < Pow2(w) && i < Pow2(k) && Low(i, w) == x
    ensures Takes(q, i, w, k) <==> Rev(i, 16) <= Start(x, w, q) < Rev(i, 16) + Pow2(16 - k)
  {
    hide Low, Shr, Shl, Rev, Pow2;
    var y := x + Shl(q, w);
    PrefixInterval(y, i, k);
    Compose(x, q, w);
    LowSplit(y, w, k - w);
    Recompose(i, w);
    if Low(q, k - w) != Shr(i, w) {
      if Low(q, k - w) < Shr(i, w) {
        ShlApart(Low(q, k - w), Shr(i, w), w);
      } else {
        ShlApart(Shr(i, w), Low(q, k - w), w);
      }
    }
  }

  ghost function Taken(v: Level, i: nat, w: nat, k: nat): set<nat>
    requires w <= k
  {
    set q | 0 <= q < Pow2(v.wid) && Takes(q, i, w, k) :: Addr(v, q)
  }

  /** mem2 is mem with the entry r at every place of the last table that the code takes up. */
  ghost predicate FillsCode(mem: seq<Huft>, mem2: seq<Huft>, v: Level, i: nat, w: nat, k: nat, r: Huft)
    requires w <= k
  {
    && |mem2| == |mem| && v.u + v.size <= |mem|
    && (forall a :: 0 <= a < |mem| && !(v.u <= a < v.u + v.size && Takes(a - v.u, i, w, k)) ==> mem2[a] == mem[a])
    && (forall a :: v.u <= a < v.u + v.size && Takes(a - v.u, i, w, k) ==> mem2[a] == r)
  }

  /** The code overwrites nothing that is already filled. */
  lemma FillIsFresh(mem: seq<Huft>, mem2: seq<Huft>, filled: set<nat>, s: seq<Level>, l: nat, hp: nat, i: nat, k: nat,
      r: Huft)
    requires Shape(s, l, hp) && FilledTo(filled, s, l, Rev(i, 16)) && Low(i, W(l, |s| - 1)) == s[|s| - 1].x
    requires W(l, |s| - 1) <= k <= 16 && i < Pow2(k)
    requires FillsCode(mem, mem2, s[|s| - 1], i, W(l, |s| - 1), k, r)
    ensures SameOn(mem, mem2, filled)
  {
    hide Low, Shr, Shl, Rev, Pow2;
    var v, w := s[|s| - 1], W(l, |s| - 1);
    forall a | a in filled && a < |mem|
      ensures mem2[a] == mem[a]
    {
      if v.u <= a < v.u + v.size {
        var q := a - v.u;
        assert Addr(s[|s| - 1], q) in filled;
        TakesInterval(v.x, w, q, i, k);
      }
    }
  }

  // ----- intervals of tables and codes

  /** A k-bit code below a pattern of w bits ends no later than the pattern's strings. */
  lemma CodeEndsInside(i: nat, k: nat, x: nat, w: nat)
    requires w <= k <= 16 && i < Pow2(k) && x < Pow2(w) && Low(i, w) == x
    ensures Rev(x, 16) <= Rev(i, 16) && Rev(i, 16) + Pow2(16 - k) <= Rev(x, 16) + Pow2(16 - w)
  {
    hide Low, Shr, Shl, Rev, Pow2;
    RevShort(i, k, 16 - k);
    RevShort(x, w, 16 - w);
    RevSplit(i, w, k - w);
    RevOfLow(i, w, w);
    var a, b := Rev(i, w), Rev(Shr(i, w), k - w);
    ShlSum(Shl(a, k - w), b, 16 - k);
    ShlAdds(a, k - w, 16 - k);
    ShlPow(k - w, 16 - k);
    ShlApart(b, Pow2(k - w), 16 - k);
  }

  lemma PatternFirst(x: nat, w: nat, q: nat)
    requires w <= 16 && x < Pow2(w)
    ensures Rev(x, 16) <= Start(x, w, q) < Rev(x, 16) + Pow2(16 - w)
  {
    hide Low, Shr, Shl, Rev, Pow2;
    Compose(x, q, w);
    PrefixInterval(x + Shl(q, w), x, w);
  }

  /** Of the entries of a table only the one that leads on covers strings of the next table. */
  lemma OtherEntry(s: seq<Level>, l: nat, hp: nat, t: nat, q: nat)
    requires Shape(s, l, hp) && t + 1 < |s| && s[t].wid == l && q < Pow2(l)
    requires W(l, t + 1) <= 16
    requires First(s[t + 1]) <= Start(s[t].x, W(l, t), q) < First(s[t + 1]) + Pow2(16 - W(l, t + 1))
    ensures q == LinkIndex(s, l, t)
  {
    hide Low, Shr, Shl, Rev, Pow2;
    assert LevelOk(s, l, t) && LevelOk(s, l, t + 1);
    var w, y := W(l, t), s[t].x + Shl(q, W(l, t));
    WAdds(l, t);
    PrefixInterval(y, s[t + 1].x, w + l);
    Compose(s[t].x, q, w);
    LowSplit(y, w, l);
    ShortHasNoRest(q, l);
  }

  lemma LinkStart(s: seq<Level>, l: nat, hp: nat, t: nat)
    requires Shape(s, l, hp) && t + 1 < |s|
    ensures Start(s[t].x, W(l, t), LinkIndex(s, l, t)) == First(s[t + 1])
  {
    hide Low, Shr, Shl, Rev, Pow2;
    assert ChildOk(s, l, t + 1);
    Recompose(s[t + 1].x, W(l, t));
  }

  lemma {:induction false} RegionsApart(s: seq<Level>, l: nat, hp: nat, t: nat, h: nat)
    requires Shape(s, l, hp) && t < h < |s|
    ensures s[t].u + s[t].size < s[h].u
    decreases h - t
  {
    hide Low, Shr, Shl, Rev, Pow2, LevelOk;
    assert ChildOk(s, l, t + 1);
    if t + 1 < h {
      RegionsApart(s, l, hp, t + 1, h);
    }
  }

  // ----- entering a code

  /** Entering a k-bit code moves the filled part on by the code's interval, at every level. */
  lemma AfterFill(mem: seq<Huft>, filled: set<nat>, s: seq<Level>, l: nat, hp: nat, i: nat, k: nat)
    requires Shape(s, l, hp) && Linked(mem, filled, s, l) && Under(s, l, i) && FilledTo(filled, s, l, Rev(i, 16))
    requires W(l, |s| - 1) <= k <= 16 && i < Pow2(k)
    ensures FilledTo(filled + Taken(s[|s| - 1], i, W(l, |s| - 1), k), s, l, Rev(i, 16) + Pow2(16 - k))
  {
    hide Low, Shr, Shl, Rev, Pow2, Start;
    var h := |s| - 1;
    var taken := Taken(s[h], i, W(l, h), k);
    forall t, q {:trigger Addr(s[t], q)} | 0 <= t < |s| && 0 <= q < s[t].size
      ensures Addr(s[t], q) in filled + taken <==>
        q < Pow2(s[t].wid) &&
        (Start(s[t].x, W(l, t), q) < Rev(i, 16) + Pow2(16 - k) || (t + 1 < |s| && q == LinkIndex(s, l, t)))
    {
      assert LevelOk(s, l, t);
      assert Addr(s[t], q) in filled <==>
        q < Pow2(s[t].wid) && (Start(s[t].x, W(l, t), q) < Rev(i, 16) || (t + 1 < |s| && q == LinkIndex(s, l, t)));
      if t == h {
        TakesInterval(s[h].x, W(l, h), q, i, k);
        assert Addr(s[h], q) in taken <==> q < Pow2(s[h].wid) && Takes(q, i, W(l, h), k);
      } else {
        RegionsApart(s, l, hp, t, h);
        AboveTheCode(mem, filled, s, l, hp, i, k, t, q);
      }
    }
  }

  /** Above the last table, an entry other than the one that leads on starts before or after the code's table. */
  lemma AboveTheCode(mem: seq<Huft>, filled: set<nat>, s: seq<Level>, l: nat, hp: nat, i: nat, k: nat, t: nat, q: nat)
    requires Shape(s, l, hp) && Linked(mem, filled, s, l) && Under(s, l, i) && t + 1 < |s|
    requires W(l, |s| - 1) <= k <= 16 && i < Pow2(k)
    ensures q < Pow2(s[t].wid) && q != LinkIndex(s, l, t) ==>
      (Start(s[t].x, W(l, t), q) < Rev(i, 16) <==> Start(s[t].x, W(l, t), q) < Rev(i, 16) + Pow2(16 - k))
  {
    hide Low, Shr, Shl, Rev, Pow2, Start;
    assert LinkOk(mem, filled, s, l, t) && LevelOk(s, l, t + 1);
    WGrows(l, t + 1, |s| - 1);
    CodeEndsInside(i, k, s[t + 1].x, W(l, t + 1));
    if q < Pow2(s[t].wid) && q != LinkIndex(s, l, t) {
      if First(s[t + 1]) <= Start(s[t].x, W(l, t), q) < First(s[t + 1]) + Pow2(16 - W(l, t + 1)) {
        OtherEntry(s, l, hp, t, q);
      }
    }
  }

  /** Every bit string that begins with the code now walks to its entry. */
  lemma CodeResolves(mem: seq<Huft>, mem2: seq<Huft>, filled: set<nat>, s: seq<Level>, l: nat, hp: nat, i: nat,
      k: nat, r: Huft, b: nat)
    requires Shape(s, l, hp) && Linked(mem, filled, s, l) && FilledTo(filled, s, l, Rev(i, 16)) && hp <= |mem|
    requires W(l, |s| - 1) < k <= 16 && k <= W(l, |s| - 1) + s[|s| - 1].wid && i < Pow2(k)
    requires Low(i, W(l, |s| - 1)) == s[|s| - 1].x && Low(b, k) == i
    requires FillsCode(mem, mem2, s[|s| - 1], i, W(l, |s| - 1), k, r) && !IsLink(r) && r.b == k - W(l, |s| - 1)
    ensures Resolves(mem2, filled + Taken(s[|s| - 1], i, W(l, |s| - 1), k), s[0].u, l, b, Found(r.e, k, r.v))
  {
    hide Low, Shr, Shl, Rev, Pow2, Start;
    var h := |s| - 1;
    var v, w := s[h], W(l, h);
    var filled2 := filled + Taken(v, i, w, k);
    assert LevelOk(s, l, h);
    TablesBelow(s, l, hp, h);
    FillIsFresh(mem, mem2, filled, s, l, hp, i, k, r);
    StillLinked(mem, mem2, filled, filled2, s, l);
    LowOfLow(b, w, k);
    UnderTop(s, l, hp, b);
    var q := Low(Shr(b, w), v.wid);
    LowOfLow(Shr(b, w), k - w, v.wid);
    ShrOfLow(b, w, k - w);
    assert Takes(q, i, w, k);
    assert Addr(v, q) in filled2;
    assert mem2[v.u + q] == r;
    assert Resolves(mem2, filled2, v.u, v.wid, Shr(b, w), Found(r.e, k - w, r.v));
    WalkDown(mem2, filled2, s, l, hp, h, b, Found(r.e, k - w, r.v));
  }

  lemma StillLinked(mem: seq<Huft>, mem2: seq<Huft>, filled: set<nat>, filled2: set<nat>, s: seq<Level>, l: nat)
    requires Linked(mem, filled, s, l) && SameOn(mem, mem2, filled) && filled <= filled2
    ensures Linked(mem2, filled2, s, l)
  {
    hide Low, Shr, Shl, Rev, Pow2;
    forall t | 0 <= t < |s| - 1
      ensures LinkOk(mem2, filled2, s, l, t)
    {
      assert LinkOk(mem, filled, s, l, t);
    }
  }

  // ----- leaving and entering tables

  lemma PopShape(s: seq<Level>, l: nat, hp: nat)
    requires Shape(s, l, hp) && |s| > 1
    ensures Shape(s[..|s| - 1], l, hp)
  {
    hide Low, Shr, Shl, Rev, Pow2, W;
    var s2 := s[..|s| - 1];
    forall t | 0 <= t < |s2|
      ensures LevelOk(s2, l, t)
    {
      assert LevelOk(s, l, t);
    }
    forall t | 0 < t < |s2|
      ensures ChildOk(s2, l, t)
    {
      assert ChildOk(s, l, t);
    }
    assert ChildOk(s, l, |s| - 1);
    TablesBelow(s, l, hp, |s| - 2);
  }

  lemma PopLinked(mem: seq<Huft>, filled: set<nat>, s: seq<Level>, l: nat)
    requires Linked(mem, filled, s, l) && |s| > 1
    ensures Linked(mem, filled, s[..|s| - 1], l)
  {
    hide Low, Shr, Shl, Rev, Pow2;
    var s2 := s[..|s| - 1];
    forall t | 0 <= t < |s2| - 1
      ensures LinkOk(mem, filled, s2, l, t)
    {
      assert LinkOk(mem, filled, s, l, t);
    }
  }

  /** When the codes have passed a table's last string, the table can be left. */
  lemma PopFilled(filled: set<nat>, s: seq<Level>, l: nat, hp: nat, p: nat)
    requires Shape(s, l, hp) && FilledTo(filled, s, l, p) && |s| > 1 && First(s[|s| - 1]) < p
    ensures FilledTo(filled, s[..|s| - 1], l, p)
  {
    hide Low, Shr, Shl, Rev, Pow2, Start, LevelOk, ChildOk;
    var s2 := s[..|s| - 1];
    LinkStart(s, l, hp, |s| - 2);
    forall t, q {:trigger Addr(s2[t], q)} | 0 <= t < |s2| && 0 <= q < s2[t].size
      ensures Addr(s2[t], q) in filled <==>
        q < Pow2(s2[t].wid) &&
        (Start(s2[t].x, W(l, t), q) < p || (t + 1 < |s2| && q == LinkIndex(s2, l, t)))
    {
      assert Addr(s[t], q) in filled <==>
        q < Pow2(s[t].wid) && (Start(s[t].x, W(l, t), q) < p || (t + 1 < |s| && q == LinkIndex(s, l, t)));
    }
  }

  lemma PushShape(s: seq<Level>, l: nat, hp: nat, v: Level, hp2: nat)
    requires Shape(s, l, hp) && s[|s| - 1].wid >= l
    requires hp < v.u && v.u + v.size <= hp2
    requires v.x < Pow2(W(l, |s|)) && Low(v.x, W(l, |s| - 1)) == s[|s| - 1].x
    requires W(l, |s|) + v.wid <= 16 && 1 <= v.wid && Pow2(v.wid) <= v.size
    ensures Shape(s + [v], l, hp2)
  {
    hide Low, Shr, Shl, Rev, Pow2, W;
    var s2 := s + [v];
    forall t | 0 <= t < |s2|
      ensures LevelOk(s2, l, t)
    {
      if t < |s| {
        assert LevelOk(s, l, t);
      }
    }
    forall t | 0 < t < |s2|
      ensures ChildOk(s2, l, t)
    {
      if t < |s| {
        assert ChildOk(s, l, t);
      }
    }
  }

  /** A new table starts empty, and the entry that leads to it is filled from now on. */
  lemma PushFilled(filled: set<nat>, s: seq<Level>, l: nat, hp: nat, v: Level)
    requires Shape(s, l, hp) && FilledTo(filled, s, l, Rev(v.x, 16)) && forall a :: a in filled ==> a < hp
    requires hp < v.u && s[|s| - 1].wid == l && W(l, |s|) <= 16
    requires v.x < Pow2(W(l, |s|)) && Low(v.x, W(l, |s| - 1)) == s[|s| - 1].x
    ensures Shr(v.x, W(l, |s| - 1)) < Pow2(l)
    ensures FilledTo(filled + {s[|s| - 1].u + Shr(v.x, W(l, |s| - 1))}, s + [v], l, Rev(v.x, 16))
  {
    hide Low, Shr, Shl, Rev, Pow2, Start, ChildOk;
    var h := |s| - 1;
    var s2, link := s + [v], Shr(v.x, W(l, h));
    WAdds(l, h);
    ShortHasNoRest(v.x, W(l, h) + l);
    ShrOfLow(v.x, W(l, h), l);
    assert LevelOk(s, l, h);
    TablesBelow(s, l, hp, h);
    forall t, q {:trigger Addr(s2[t], q)} | 0 <= t < |s2| && 0 <= q < s2[t].size
      ensures Addr(s2[t], q) in filled + {s[h].u + link} <==>
        q < Pow2(s2[t].wid) &&
        (Start(s2[t].x, W(l, t), q) < Rev(v.x, 16) || (t + 1 < |s2| && q == LinkIndex(s2, l, t)))
    {
      if t <= h {
        assert Addr(s[t], q) in filled <==>
          q < Pow2(s[t].wid) && (Start(s[t].x, W(l, t), q) < Rev(v.x, 16) || (t + 1 < |s| && q == LinkIndex(s, l, t)));
        if t < h {
          RegionsApart(s, l, hp, t, h);
        }
      } else {
        PatternFirst(v.x, W(l, |s|), q);
      }
    }
  }

  lemma PushLinked(mem: seq<Huft>, mem2: seq<Huft>, filled: set<nat>, s: seq<Level>, l: nat, v: Level)
    requires |s| > 0 && Linked(mem, filled, s, l) && SameOn(mem, mem2, filled)
    requires s[|s| - 1].wid == l && v.wid <= l && Shr(v.x, W(l, |s| - 1)) < Pow2(l)
    requires var a := s[|s| - 1].u + Shr(v.x, W(l, |s| - 1));
      a < |mem2| && mem2[a] == Huft(16 + v.wid, l, v.u)
    ensures Linked(mem2, filled + {s[|s| - 1].u + Shr(v.x, W(l, |s| - 1))}, s + [v], l)
  {
    hide Low, Shr, Shl, Rev, Pow2, W;
    var h := |s| - 1;
    var s2, filled2 := s + [v], filled + {s[h].u + Shr(v.x, W(l, h))};
    forall t | 0 <= t < |s2| - 1
      ensures LinkOk(mem2, filled2, s2, l, t)
    {
      if t < h {
        assert LinkOk(mem, filled, s, l, t);
      }
    }
  }
}
