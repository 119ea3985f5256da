/** The main loop of huft_build of zload/inflate.c, which makes the tables code by code, and huft_free. */
module HuftLoop {
  import opened Words
  import opened BitReverse
  import opened HuffmanCode
  import opened HuftCounts
  import opened HuftTable
  import opened HuftStack
  import opened HuftInvariant
  import opened HuftEntered
  import opened HuftRoom
  import CodeCounter
  import opened HuftSort

  // ----- the list of tables

  /** A dummy entry lies between base and hp, and points to the next table, the entry after the next dummy entry. */
  ghost predicate Chained(mem: seq<Huft>, base: nat, hp: nat, heads: seq<nat>, n: nat)
    requires n < |heads|
  {
    && base <= heads[n] < hp && heads[n] < |mem|
    && mem[heads[n]].v == if n + 1 < |heads| then heads[n + 1] + 1 else NULL
  }

  /** A table is allocated after all those before it. */
  ghost predicate Later(heads: seq<nat>, n: nat, m: nat)
    requires n < |heads| && m < |heads|
  {
    n < m ==> heads[n] < heads[m]
  }

  /** The 2^j entries of a table follow its dummy entry at head and end at next. */
  ghost predicate TableAt(head: nat, next: nat, j: nat) {
    1 <= j <= BMAX && next == head + 1 + Pow2(j)
  }

  /** Where the table after table n begins, or where the memory in use ends. */
  function NextHead(heads: seq<nat>, n: nat, hp: nat): nat {
    if n + 1 < |heads| then heads[n + 1] else hp
  }

  ghost predicate Adjacent(heads: seq<nat>, n: nat, hp: nat)
    requires n < |heads|
  {
    exists j :: TableAt(heads[n], NextHead(heads, n, hp), j)
  }

  /** The tables and their dummy entries, and nothing else, take up the memory from base to hp. */
  ghost predicate Tiled(base: nat, hp: nat, heads: seq<nat>) {
    && (if heads == [] then hp == base else heads[0] == base)
    && forall n :: 0 <= n < |heads| ==> Adjacent(heads, n, hp)
  }

  /** heads are the dummy entries of the tables allocated so far, in the order of the list that starts at root. */
  ghost predicate Listed(mem: seq<Huft>, base: nat, hp: nat, root: nat, tail: nat, heads: seq<nat>) {
    && 1 <= base <= hp <= |mem|
    && (forall n :: 0 <= n < |heads| ==> Chained(mem, base, hp, heads, n))
    && (forall n, m :: 0 <= n < |heads| && 0 <= m < |heads| ==> Later(heads, n, m))
    && tail == (if heads == [] then NULL else heads[|heads| - 1])
    && (heads != [] ==> root == heads[0] + 1)
    && Tiled(base, hp, heads)
  }

  ghost predicate Outside(v: Level, d: nat) {
    d < v.u || d >= v.u + v.size
  }

  /** No dummy entry lies in a table of the stack; the first table of both is the same. */
  ghost predicate Apart(s: seq<Level>, base: nat, heads: seq<nat>) {
    && (s != [] <==> heads != []) && (s != [] ==> base < s[0].u == heads[0] + 1)
    && forall t, d {:trigger Outside(s[t], d)} :: 0 <= t < |s| && d in heads ==> Outside(s[t], d)
  }

  ghost predicate HeadsFree(filled: set<nat>, heads: seq<nat>) {
    forall d :: d in heads ==> d !in filled
  }

  /** Nothing but the new dummy entry and the one at the end of the list has changed. */
  ghost predicate OnlyDummies(mem: seq<Huft>, mem2: seq<Huft>, st: Work) {
    && |mem2| == |mem|
    && forall a :: 0 <= a < |mem| && a != st.hp && (st.tail == NULL || a != st.tail) ==> mem2[a] == mem[a]
  }

  /** The allocation of a table of z entries after a dummy entry, and its place at the end of the list. */
  method Allocate(mem: array<Huft>, z: nat, st: Work, ghost j: nat, ghost base: nat, ghost heads: seq<nat>)
    returns (ok: bool, st2: Work)
    requires Listed(mem[..], base, st.hp, st.root, st.tail, heads) && 1 <= j <= BMAX && z == Pow2(j)
    modifies mem
    ensures !ok ==> st.hp + z + 1 > mem.Length && mem[..] == old(mem[..]) && st2 == st
    ensures ok ==>
      && st2 == st.(q := st.hp + 1, z := z, hp := st.hp + 1 + z, tail := st.hp,
          root := if heads == [] then st.hp + 1 else st.root)
      && Listed(mem[..], base, st2.hp, st2.root, st2.tail, heads + [st.hp])
    ensures OnlyDummies(old(mem[..]), mem[..], st)
  {
    if st.hp + z + 1 > mem.Length {
      return false, st;
    }
    hide Tiled, Pow2;
    var q := st.hp;
    ghost var before := mem[..];
    st2 := st.(hp := st.hp + z + 1);
    EndOfList(before, base, st, heads);
    if st.tail == NULL {
      st2 := st2.(root := q + 1);
    } else {
      mem[st.tail] := mem[st.tail].(v := q + 1);
    }
    st2 := st2.(tail := q);
    mem[q] := mem[q].(v := NULL);
    st2 := st2.(q := q + 1, z := z);
    ok := true;
    ListGrows(before, mem[..], base, st, z, j, heads);
  }

  lemma EndOfList(mem: seq<Huft>, base: nat, st: Work, heads: seq<nat>)
    requires Listed(mem, base, st.hp, st.root, st.tail, heads)
    ensures st.tail == NULL <==> heads == []
    ensures st.tail != NULL ==> st.tail in heads
    ensures st.tail < st.hp && (st.tail != NULL ==> base <= st.tail)
  {
    if heads != [] {
      assert Chained(mem, base, st.hp, heads, |heads| - 1);
    }
  }

  lemma ListGrows(mem: seq<Huft>, mem2: seq<Huft>, base: nat, st: Work, z: nat, j: nat, heads: seq<nat>)
    requires Listed(mem, base, st.hp, st.root, st.tail, heads) && |mem2| == |mem| && st.hp + z + 1 <= |mem|
    requires 1 <= j <= BMAX && z == Pow2(j)
    requires OnlyDummies(mem, mem2, st) && mem2[st.hp].v == NULL
    requires heads != [] ==> st.tail < |mem| && mem2[st.tail].v == st.hp + 1
    ensures Listed(mem2, base, st.hp + 1 + z, if heads == [] then st.hp + 1 else st.root, st.hp, heads + [st.hp])
  {
    hide Adjacent, Pow2;
    EndOfList(mem, base, st, heads);
    var heads2, hp2 := heads + [st.hp], st.hp + 1 + z;
    forall n | 0 <= n < |heads2|
      ensures Chained(mem2, base, hp2, heads2, n)
    {
      if n < |heads| {
        assert Chained(mem, base, st.hp, heads, n);
        assert Later(heads, n, |heads| - 1);
      }
    }
    TilesGrow(base, st.hp, heads, j);
    forall n, m | 0 <= n < |heads2| && 0 <= m < |heads2|
      ensures Later(heads2, n, m)
    {
      if n < |heads| {
        assert Chained(mem, base, st.hp, heads, n);
        if m < |heads| {
          assert Later(heads, n, m);
        }
      }
    }
  }

  lemma TilesGrow(base: nat, hp: nat, heads: seq<nat>, j: nat)
    requires Tiled(base, hp, heads) && 1 <= j <= BMAX
    ensures Tiled(base, hp + 1 + Pow2(j), heads + [hp])
  {
    var heads2, hp2 := heads + [hp], hp + 1 + Pow2(j);
    forall n | 0 <= n < |heads2|
      ensures Adjacent(heads2, n, hp2)
    {
      assert NextHead(heads2, n, hp2) == if n < |heads| then NextHead(heads, n, hp) else hp2;
      if n == |heads| {
        assert TableAt(heads2[n], hp2, j);
      } else {
        assert Adjacent(heads, n, hp);
        var i :| TableAt(heads[n], NextHead(heads, n, hp), i);
        assert TableAt(heads2[n], NextHead(heads2, n, hp2), i);
      }
    }
  }

  /** huft_free: every table of the list is released, each once, by the address of its dummy entry. */
  method HuftFree(mem: array<Huft>, t: nat, ghost base: nat, ghost hp: nat, ghost tail: nat, ghost heads: seq<nat>)
    returns (freed: seq<nat>)
    requires Listed(mem[..], base, hp, t, tail, heads) && (heads == [] ==> t == NULL)
    ensures freed == heads
  {
    var p := t;
    freed := [];
    while p != NULL
      invariant |freed| <= |heads| && freed == heads[..|freed|]
      invariant p == if |freed| < |heads| then heads[|freed|] + 1 else NULL
      decreases |heads| - |freed|
    {
      assert Chained(mem[..], base, hp, heads, |freed|);
      p := p - 1;
      var q := mem[p].v;
      freed := freed + [p];
      p := q;
    }
  }

  // ----- a new table

  /** Between two codes: the counter, the stack and the list of tables belong together. */
  ghost predicate Ready(mem: seq<Huft>, base: nat, heads: seq<nat>, c: seq<nat>, g: nat, l: nat, k: nat, r: nat,
      st: Work)
  {
    && Counter(c, g, l, k, r, st.i) && Stacked(c, l, k, st)
    && Listed(mem, base, st.hp, st.root, st.tail, heads) && Apart(st.s, base, heads)
  }

  /** The entries made so far decode the codes before code number r of length k. */
  ghost predicate Decodes(mem: seq<Huft>, filled: set<nat>, heads: seq<nat>, cs: CodeSet, c: seq<nat>, l: nat, k: nat,
      r: nat, st: Work)
    requires 1 <= k < |c| == BMAX + 1 && WfCodeSet(cs)
  {
    Decoded(mem, filled, cs, c, l, k, r, Pos(c, k, r), st) && HeadsFree(filled, heads)
  }

  lemma RootIsWide(c: seq<nat>, g: nat, l: nat, j: nat)
    requires Filling(c, g) && l <= g && (j >= l || (j <= BMAX && Weight(c, j) >= FULL))
    ensures j >= l
  {
    WeightStep(c, g);
    PowPositive(BMAX - g);
    ShlOne(BMAX - g);
    ShlGrows(1, c[g], BMAX - g);
    if j < l {
      WeightGrows(c, j, g - 1);
    }
  }

  /** The table that starts at the next code, of j bits (of l, at the root). */
  function NewLevel(st: Work, l: nat, j: nat): Level {
    Level(st.hp + 1, Pow2(j), if st.s == [] then l else j, st.i)
  }

  /** The entry that is to lead to the next table: in range, and not a dummy entry. */
  lemma LinkPlace(mem: seq<Huft>, base: nat, heads: seq<nat>, c: seq<nat>, g: nat, l: nat, k: nat, r: nat, st: Work)
    requires Ready(mem, base, heads, c, g, l, k, r, st) && st.s != [] && r < c[k] && W(l, |st.s|) < k
    ensures var v, q := st.s[|st.s| - 1], Shr(st.i, W(l, |st.s| - 1));
      q < Pow2(l) && q < v.size && base < v.u + q < st.hp <= |mem| && v.u + q !in heads
  {
    hide Rev, Shl, Shr, Low, Pow2, Weight, W, Pos, Counter;
    var s, h := st.s, |st.s| - 1;
    LongCodeWideTable(c, g, l, k, r, st);
    TopFitsDepth(c, l, k, st);
    LinkInside(st.i, l, h);
    assert LevelOk(s, l, h);
    Pow2Grows(l, s[h].wid);
    TablesBelow(s, l, st.hp, h);
    if h > 0 {
      RegionsApart(s, l, st.hp, 0, h);
    }
    assert Outside(s[h], s[h].u + Shr(st.i, W(l, h))) ==> false;
  }

  lemma ApartGrows(mem: seq<Huft>, base: nat, heads: seq<nat>, l: nat, st: Work, v: Level)
    requires Apart(st.s, base, heads) && Listed(mem, base, st.hp, st.root, st.tail, heads)
    requires (st.s != [] ==> Shape(st.s, l, st.hp)) && v.u == st.hp + 1
    ensures Apart(st.s + [v], base, heads + [st.hp])
  {
    hide Rev, Shl, Shr, Low, Pow2, W;
    var s2, heads2 := st.s + [v], heads + [st.hp];
    forall t, d {:trigger Outside(s2[t], d)} | 0 <= t < |s2| && d in heads2
      ensures Outside(s2[t], d)
    {
      if t < |st.s| {
        TablesBelow(st.s, l, st.hp, t);
        if d in heads {
          assert Outside(st.s[t], d);
        }
      } else if d in heads {
        var n :| 0 <= n < |heads| && heads[n] == d;
        assert Chained(mem, base, st.hp, heads, n);
      }
    }
  }

  /** Writing an entry that is no dummy entry leaves the list alone. */
  lemma ListStays(mem: seq<Huft>, mem2: seq<Huft>, base: nat, hp: nat, root: nat, tail: nat, heads: seq<nat>)
    requires Listed(mem, base, hp, root, tail, heads) && |mem2| == |mem|
    requires forall d :: d in heads && d < |mem| ==> mem2[d] == mem[d]
    ensures Listed(mem2, base, hp, root, tail, heads)
  {
    forall n | 0 <= n < |heads|
      ensures Chained(mem2, base, hp, heads, n)
    {
      assert Chained(mem, base, hp, heads, n);
    }
  }

  /** One turn of the loop that makes tables up to the required level. */
  method AddTable(mem: array<Huft>, ghost cs: CodeSet, c: seq<nat>, g: nat, l: nat, k: nat, a: nat, st: Work,
      ghost base: nat, ghost heads: seq<nat>, ghost filled: set<nat>, ghost good: bool)
    returns (ok: bool, st2: Work, ghost filled2: set<nat>)
    requires WfCodeSet(cs) && 1 <= k < |c| == BMAX + 1 && a < c[k] && k > st.w + l && 1 <= l
    requires Ready(mem[..], base, heads, c, g, l, k, c[k] - 1 - a, st)
    requires Filling(c, g) && Saves(c, g, l, k, c[k] - 1 - a, st, base)
    requires good ==> Narrow(c, g, l) && Decodes(mem[..], filled, heads, cs, c, l, k, c[k] - 1 - a, st)
    modifies mem
    ensures !ok ==> st2 == st && mem[..] == old(mem[..]) && base + Room(l, g) > mem.Length
    ensures ok ==> Ready(mem[..], base, heads + [st.hp], c, g, l, k, c[k] - 1 - a, st2)
    ensures ok ==> |st2.s| == |st.s| + 1 && st2.i == st.i && st2.w == st.w + l
    ensures ok ==> Saves(c, g, l, k, c[k] - 1 - a, st2, base)
    ensures ok && good ==> Decodes(mem[..], filled2, heads + [st.hp], cs, c, l, k, c[k] - 1 - a, st2)
    ensures mem[..base] == old(mem[..base])
  {
    hide Rev, Shl, Shr, Low, Pow2, Weight, W, Pos, Counter, Stacked, Listed, Apart, Narrow, Decodes, Saves, Room;
    ghost var before, r := mem[..], c[k] - 1 - a;
    var w := st.w + l;
    filled2 := filled;
    DepthOfNext(c, g, l, k, r, st);
    var j := TableBits(c, k, a, w, l, g);
    var z := Pow2(j);
    TableSaves(before, base, heads, c, g, l, k, r, st, j);
    ok, st2 := Allocate(mem, z, st, j, base, heads);
    if !ok {
      return;
    }
    ghost var listed := mem[..];
    if st.s != [] {
      LinkPlace(before, base, heads, c, g, l, k, r, st);
      var q := Shr(st.i, w - l);
      mem[st.s[|st.s| - 1].u + q] := Huft(16 + j, l, st2.q);
      filled2 := filled + {st.s[|st.s| - 1].u + q};
    } else {
      filled2 := {};
    }
    st2 := st2.(s := st.s + [NewLevel(st, l, j)], w := w);
    assert Linking(before, listed, mem[..], base, heads, l, st, j, st2);
    TableAdded(before, listed, mem[..], base, heads, c, g, l, k, r, st, j, st2);
    if good {
      TableDecodes(before, listed, mem[..], base, heads, filled, filled2, cs, c, g, l, k, r, st, j, st2);
    }
  }

  /** The memory used so far is accounted for by the strings dealt with. */
  ghost predicate Saves(c: seq<nat>, g: nat, l: nat, k: nat, r: nat, st: Work, base: nat)
    requires 1 <= k < |c| == BMAX + 1
  {
    base <= st.hp && Frugal(st.s, l, g, Pos(c, k, r), st.hp - base)
  }

  /** A new table is accounted for, and fits into the room for all. */
  lemma TableSaves(mem: seq<Huft>, base: nat, heads: seq<nat>, c: seq<nat>, g: nat, l: nat, k: nat, r: nat, st: Work,
      j: nat)
    requires 1 <= k < |c| == BMAX + 1 && r < c[k] && st.w + l < k && 1 <= l
    requires Ready(mem, base, heads, c, g, l, k, r, st) && Saves(c, g, l, k, r, st, base)
    requires 1 <= j && W(l, |st.s|) + j <= g
    ensures st.hp + 1 + Pow2(j) <= base + Room(l, g)
    ensures forall st2: Work :: st2.s == st.s + [NewLevel(st, l, j)] && st2.hp == st.hp + 1 + Pow2(j) ==>
      Saves(c, g, l, k, r, st2, base)
  {
    hide Rev, Shl, Pow2, Weight, W, Pos, Counter, Frugal, Listed, Apart, Room;
    DepthOfNext(c, g, l, k, r, st);
    var v := NewLevel(st, l, j);
    FrugalPush(st.s, l, g, Pos(c, k, r), st.hp - base, v, j);
    if st.s != [] {
      ShapeEndsInside(st.s, l, st.hp);
    }
    assert EndsInside(st.s + [v], l);
    UsedAtMostRoom(st.s + [v], l, g, Pos(c, k, r), st.hp - base + 1 + Pow2(j));
  }

  lemma DepthOfNext(c: seq<nat>, g: nat, l: nat, k: nat, r: nat, st: Work)
    requires Counter(c, g, l, k, r, st.i) && Stacked(c, l, k, st) && r < c[k] && st.w + l < k
    ensures st.w + l == W(l, |st.s|) && Filling(c, g) && k <= g && st.i < Pow2(W(l, |st.s|))
    ensures Pos(c, k, r) == Rev(st.i, 16) && Pos(c, k, r) + Pow2(BMAX - W(l, |st.s|)) <= FULL
    ensures st.s != [] ==> st.w == W(l, |st.s| - 1)
  {
    hide Rev, Shl, Shr, Low, Pow2, Weight, W, Pos;
    NextIsInside(c, g, l, k, r, st.i);
    WZero(l);
    if st.s == [] {
      PowPositive(0);
    } else {
      WAdds(l, |st.s| - 1);
    }
    IntervalInside(st.i, W(l, |st.s|));
  }

  /** The state after a new table: st with the table on the stack, in the list, and linked to. */
  function WithTable(st: Work, l: nat, j: nat, heads: seq<nat>): Work {
    var root := if heads == [] then st.hp + 1 else st.root;
    Work(st.s + [NewLevel(st, l, j)], st.w + l, st.i, st.hp + 1, Pow2(j), st.hp + 1 + Pow2(j), st.hp, root)
  }

  function LinkAddr(st: Work, l: nat): nat
    requires st.s != []
  {
    st.s[|st.s| - 1].u + Shr(st.i, W(l, |st.s| - 1))
  }

  /** listed is before with the new table in the list; after is that with the link to it. */
  ghost predicate Linking(before: seq<Huft>, listed: seq<Huft>, after: seq<Huft>, base: nat, heads: seq<nat>, l: nat,
      st: Work, j: nat, st2: Work)
  {
    && |before| == |listed| == |after| && st2 == WithTable(st, l, j, heads)
    && Listed(listed, base, st2.hp, st2.root, st2.tail, heads + [st.hp])
    && OnlyDummies(before, listed, st)
    && (if st.s == [] then after == listed
        else LinkAddr(st, l) < |listed| && after == listed[LinkAddr(st, l) := Huft(16 + j, l, st.hp + 1)])
  }

  lemma TableAdded(before: seq<Huft>, listed: seq<Huft>, after: seq<Huft>, base: nat, heads: seq<nat>, c: seq<nat>,
      g: nat, l: nat, k: nat, r: nat, st: Work, j: nat, st2: Work)
    requires 1 <= k < |c| == BMAX + 1 && r < c[k] && st.w + l < k && W(l, |st.s|) <= BMAX
    requires Ready(before, base, heads, c, g, l, k, r, st) && SizedFor(c, k, r, W(l, |st.s|), l, j)
    requires Linking(before, listed, after, base, heads, l, st, j, st2)
    ensures Ready(after, base, heads + [st.hp], c, g, l, k, r, st2)
    ensures after[..base] == before[..base]
  {
    hide Rev, Shl, Shr, Low, Pow2, Weight, W, Pos, Counter, Shape, Under, TopFits, Chained, Outside, Tiled;
    DepthOfNext(c, g, l, k, r, st);
    ApartGrows(before, base, heads, l, st, NewLevel(st, l, j));
    EndOfList(before, base, st, heads);
    if st.s == [] {
      RootIsWide(c, g, l, j) by { CounterBounds(c, g, l, k, r, st.i); WZero(l); WholeInterval(); }
      Pow2Grows(l, j);
    } else {
      LinkPlace(before, base, heads, c, g, l, k, r, st);
      ListStays(listed, after, base, st2.hp, st2.root, st2.tail, heads + [st.hp]);
    }
    CounterBounds(c, g, l, k, r, st.i);
    PushTables(c, g, l, k, r, st, NewLevel(st, l, j), st2);
  }

  lemma WholeInterval()
    ensures Pow2(16) == FULL && Pow2(0) == 1
  {
    Pow2Of16();
  }

  lemma CounterBounds(c: seq<nat>, g: nat, l: nat, k: nat, r: nat, i: nat)
    requires Counter(c, g, l, k, r, i)
    ensures 1 <= l <= g <= BMAX && 1 <= k <= g && Filling(c, g)
  {
  }

  lemma TableDecodes(before: seq<Huft>, listed: seq<Huft>, after: seq<Huft>, base: nat, heads: seq<nat>,
      filled: set<nat>, filled2: set<nat>, cs: CodeSet, c: seq<nat>, g: nat, l: nat, k: nat, r: nat, st: Work, j: nat,
      st2: Work)
    requires WfCodeSet(cs) && 1 <= k < |c| == BMAX + 1 && r < c[k] && st.w + l < k && W(l, |st.s|) <= BMAX
    requires Ready(before, base, heads, c, g, l, k, r, st) && SizedFor(c, k, r, W(l, |st.s|), l, j)
    requires Linking(before, listed, after, base, heads, l, st, j, st2)
    requires Ready(after, base, heads + [st.hp], c, g, l, k, r, st2)
    requires Narrow(c, g, l) && Decodes(before, filled, heads, cs, c, l, k, r, st)
    requires filled2 == if st.s == [] then {} else filled + {LinkAddr(st, l)}
    ensures Decodes(after, filled2, heads + [st.hp], cs, c, l, k, r, st2)
  {
    hide Rev, Shl, Shr, Low, Pow2, Weight, W, Pos, Counter, Shape, Under, TopFits, Chained, Outside, Entered, Narrow,
        Linked, FilledTo, Tables;
    DepthOfNext(c, g, l, k, r, st);
    CounterBounds(c, g, l, k, r, st.i);
    PowPositive(j);
    if st.s != [] {
      LinkPlace(before, base, heads, c, g, l, k, r, st);
      TablesAreNarrow(c, g, l, k, r, st, j);
      LinkNotFilled(before, filled, base, heads, cs, c, g, l, k, r, st);
    }
    EndOfList(before, base, st, heads);
    PushDecoded(before, after, filled, filled2, cs, c, g, l, k, r, st, NewLevel(st, l, j), st2);
  }

  lemma LinkNotFilled(mem: seq<Huft>, filled: set<nat>, base: nat, heads: seq<nat>, cs: CodeSet, c: seq<nat>, g: nat,
      l: nat, k: nat, r: nat, st: Work)
    requires WfCodeSet(cs) && 1 <= k < |c| == BMAX + 1 && r < c[k] && st.w + l < k && st.s != []
    requires Ready(mem, base, heads, c, g, l, k, r, st) && Decodes(mem, filled, heads, cs, c, l, k, r, st)
    ensures LinkAddr(st, l) !in filled
  {
    hide Rev, Shl, Shr, Low, Pow2, Weight, W, Pos, Counter, Entered, Linked, FilledTo, Shape;
    DepthOfNext(c, g, l, k, r, st);
    LongCodeWideTable(c, g, l, k, r, st);
    TopFitsDepth(c, l, k, st);
    LinkIsFree(filled, st.s, l, st.hp, st.i);
  }

  // ----- entering a code

  /** c counts the lengths, with c[g] filled out, and v holds the symbols in the order of their codes. */
  ghost predicate Sorted(lens: seq<nat>, c: seq<nat>, g: nat, v: seq<nat>) {
    && |c| == BMAX + 1 && 1 <= g <= BMAX && |v| == N_MAX
    && (forall j :: 1 <= j < g ==> c[j] == CountLen(lens, j)) && c[g] >= CountLen(lens, g)
    && (forall s :: 0 <= s < |lens| ==> lens[s] <= g)
    && (forall s :: 0 <= s < |lens| ==> Placed(lens, v, s))
  }

  /** Where p points before code number r of length k: at its place in v, but never beyond n values. */
  function PlaceIn(c: seq<nat>, k: nat, r: nat, n: nat): nat
    requires 1 <= k < |c| == BMAX + 1
  {
    if Codes(c, k - 1) + r <= n then Codes(c, k - 1) + r else n
  }

  /** e is the entry of the symbol at place p of v, or that of no symbol. */
  ghost predicate EntryFor(cs: CodeSet, v: seq<nat>, p: nat, e: Huft)
    requires WfCodeSet(cs) && |v| == N_MAX
  {
    if p >= |cs.lens| then e.e == UNUSED
    else v[p] < |cs.lens| ==> Found(e.e, cs.lens[v[p]], e.v) == SymFound(cs, v[p])
  }

  /**
    The table entry r for the next value in v. Values beyond those sorted into v were never set;
    what is read for them is left open.
   */
  method MakeEntry(cs: CodeSet, v: array<nat>, p: nat, bits: nat, r0: Huft) returns (r: Huft, p2: nat)
    requires WfCodeSet(cs) && v.Length == N_MAX
    ensures r.b == bits && p2 == if p < |cs.lens| then p + 1 else p
    ensures EntryFor(cs, v[..], p, r)
  {
    r := r0.(b := bits);
    p2 := p;
    if p >= |cs.lens| {
      r := r.(e := UNUSED);
    } else if v[p] < cs.simple {
      r := r.(e := if v[p] < 256 then 16 else 15, v := v[p]);
      p2 := p + 1;
    } else {
      if v[p] - cs.simple < |cs.extra| && v[p] - cs.simple < |cs.base| {
        r := r.(e := cs.extra[v[p] - cs.simple], v := cs.base[v[p] - cs.simple]);
      } else {
        var unset: Huft := *;
        r := unset.(b := bits);
      }
      p2 := p + 1;
    }
  }

  /** The values come in the order of the codes. */
  lemma EntryFits(cs: CodeSet, c: seq<nat>, g: nat, v: seq<nat>, k: nat, r: nat, p: nat, e: Huft)
    requires WfCodeSet(cs) && Sorted(cs.lens, c, g, v) && 1 <= k <= g && r < c[k] && Known(cs, k, r)
    requires p == PlaceIn(c, k, r, |cs.lens|)
    requires EntryFor(cs, v, p, e)
    ensures !IsLink(e) && EntryOk(cs, k, r, Found(e.e, k, e.v))
  {
    var lens := cs.lens;
    SameCounts(c, lens, k - 1);
    CountsAddUp(lens);
    if r < CountLen(lens, k) {
      var s := SymAt(lens, k, r);
      IndexBound(lens, s);
      assert Placed(lens, v, s);
    } else {
      assert k == g;
      NoLongerCodes(lens, g, BMAX);
    }
  }

  lemma {:induction false} NoLongerCodes(lens: seq<nat>, g: nat, k: nat)
    requires g <= k && forall s :: 0 <= s < |lens| ==> lens[s] <= g
    ensures CountUpTo(lens, k) == CountUpTo(lens, g)
  {
    if g < k {
      NoneThatLong(lens, k);
      NoLongerCodes(lens, g, k - 1);
    }
  }

  lemma {:induction false} NoneThatLong(lens: seq<nat>, k: nat)
    requires forall s :: 0 <= s < |lens| ==> lens[s] < k
    ensures CountLen(lens, k) == 0
  {
    if lens != [] {
      NoneThatLong(lens[..|lens| - 1], k);
    }
  }

  /** Between two places that a code takes up there is no other. */
  lemma NextPlace(q: nat, j: nat, n: nat)
    requires Low(q, n) == Low(j, n) && j < q
    ensures j + Pow2(n) <= q
  {
    hide Low, Shl, Shr, Pow2;
    Recompose(q, n);
    Recompose(j, n);
    if Shr(q, n) <= Shr(j, n) {
      ShlGrows(Shr(q, n), Shr(j, n), n);
    } else {
      ShlApart(Shr(j, n), Shr(q, n), n);
    }
  }

  lemma PlaceAfter(j: nat, n: nat)
    ensures Low(j + Pow2(n), n) == Low(j, n)
  {
    hide Low, Shl, Shr, Pow2;
    Recompose(j, n);
    ShlSum(Shr(j, n), 1, n);
    ShlOne(n);
    Compose(Low(j, n), Shr(j, n) + 1, n);
  }

  /** The places before entry j are done. */
  ghost predicate FillingTo(mem: seq<Huft>, mem2: seq<Huft>, q: nat, z: nat, j: nat, i: nat, w: nat, k: nat, r: Huft)
    requires w <= k
  {
    && |mem2| == |mem|
    && forall a :: 0 <= a < |mem| ==>
      mem2[a] == if q <= a < q + z && a < q + j && Takes(a - q, i, w, k) then r else mem[a]
  }

  lemma FillStep(mem: seq<Huft>, mem2: seq<Huft>, q: nat, z: nat, j: nat, i: nat, w: nat, k: nat, r: Huft)
    requires w <= k && FillingTo(mem, mem2, q, z, j, i, w, k, r)
    requires j < z && q + z <= |mem| && Low(j, k - w) == Shr(i, w)
    ensures FillingTo(mem, mem2[q + j := r], q, z, j + Pow2(k - w), i, w, k, r)
  {
    hide Low, Shr, Pow2, Takes;
    var mem3 := mem2[q + j := r];
    PowPositive(k - w);
    forall a | 0 <= a < |mem|
      ensures mem3[a] == if q <= a < q + z && a < q + j + Pow2(k - w) && Takes(a - q, i, w, k) then r else mem[a]
    {
      if a >= q {
        OnlyHere(a - q, j, i, w, k);
      }
    }
  }

  lemma OnlyHere(n: nat, j: nat, i: nat, w: nat, k: nat)
    requires w <= k && Low(j, k - w) == Shr(i, w)
    ensures Takes(j, i, w, k) && (j < n < j + Pow2(k - w) ==> !Takes(n, i, w, k))
  {
    hide Low, Shr, Pow2;
    if j < n && Takes(n, i, w, k) {
      NextPlace(n, j, k - w);
    }
  }

  lemma FillStart(mem: seq<Huft>, q: nat, z: nat, i: nat, w: nat, k: nat, r: Huft)
    requires w <= k && i < Pow2(k)
    ensures Low(Shr(i, w), k - w) == Shr(i, w)
    ensures FillingTo(mem, mem, q, z, Shr(i, w), i, w, k, r)
  {
    ShrSmall(i, w, k - w);
    ShortHasNoRest(Shr(i, w), k - w);
    hide Shr, Pow2;
    forall n: nat | n < Shr(i, w)
      ensures !Takes(n, i, w, k)
    {
      assert Low(n, k - w) <= n;
    }
  }

  /** Fill code-like entries with r. */
  method FillEntries(mem: array<Huft>, q: nat, z: nat, i: nat, w: nat, k: nat, r: Huft, ghost v: Level)
    requires w <= k && i < Pow2(k) && q + z <= mem.Length && v.u == q && v.size == z
    modifies mem
    ensures FillsCode(old(mem[..]), mem[..], v, i, w, k, r)
  {
    ghost var before := mem[..];
    var f := Pow2(k - w);
    var j := Shr(i, w);
    FillStart(before, q, z, i, w, k, r);
    hide Low, Shr, Pow2, FillingTo;
    while j < z
      invariant Low(j, k - w) == Shr(i, w) && FillingTo(before, mem[..], q, z, j, i, w, k, r)
      decreases z - j
    {
      FillStep(before, mem[..], q, z, j, i, w, k, r);
      PlaceAfter(j, k - w);
      PowPositive(k - w);
      mem[q + j] := r;
      j := j + f;
    }
    FillDone(before, mem[..], v, j, i, w, k, r);
  }

  lemma FillDone(mem: seq<Huft>, mem2: seq<Huft>, v: Level, j: nat, i: nat, w: nat, k: nat, r: Huft)
    requires w <= k && v.u + v.size <= |mem| && FillingTo(mem, mem2, v.u, v.size, j, i, w, k, r) && j >= v.size
    ensures FillsCode(mem, mem2, v, i, w, k, r)
  {
    hide Takes;
  }

  lemma BackingDepth(c: seq<nat>, l: nat, k: nat, p: nat, st: Work)
    requires Backing(c, l, k, p, st)
    ensures st.s != [] && st.w == W(l, |st.s| - 1)
  {
    hide Low, Shr, Pow2, W, Rev, TopFits;
    WAdds(l, |st.s| - 1);
  }

  /** Back up over finished tables. */
  method BackUp(c: seq<nat>, g: nat, l: nat, k: nat, st: Work, ghost p: nat, ghost mem: seq<Huft>,
      ghost filled: set<nat>, ghost cs: CodeSet, ghost r: nat, ghost used: nat, ghost good: bool)
    returns (st2: Work)
    requires WfCodeSet(cs) && |c| == BMAX + 1 && Backing(c, l, k, p, st) && Frugal(st.s, l, g, p, used)
    requires good ==> Decoded(mem, filled, cs, c, l, k, r, p, st)
    ensures Stacked(c, l, k, st2) && st2.s != [] && st2.s <= st.s && st2 == st.(s := st2.s, w := st2.w)
    ensures good ==> Decoded(mem, filled, cs, c, l, k, r, p, st2)
    ensures Frugal(st2.s, l, g, p, used)
  {
    hide Low, Shr, Pow2, Decoded, W, Rev, TopFits, Shape, Frugal;
    st2 := st;
    BackingDepth(c, l, k, p, st2);
    while Low(st2.i, st2.w) != st2.s[|st2.s| - 1].x
      invariant Backing(c, l, k, p, st2) && st2.s != [] && st2.s <= st.s && st2 == st.(s := st2.s, w := st2.w)
      invariant st2.w == W(l, |st2.s| - 1)
      invariant good ==> Decoded(mem, filled, cs, c, l, k, r, p, st2)
      invariant Frugal(st2.s, l, g, p, used)
      decreases |st2.s|
    {
      PopBacking(c, l, k, p, st2);
      FrugalPop(st2.s, l, g, p, used);
      if good {
        PopDecoded(mem, filled, cs, c, l, k, r, p, st2);
      }
      st2 := Popped(st2, l);
      BackingDepth(c, l, k, p, st2);
    }
    BackingDone(c, l, k, p, st2);
  }

  /** One code: its entry, its places in the table, and the next code. */
  method WriteCode(mem: array<Huft>, cs: CodeSet, c: seq<nat>, v: array<nat>, g: nat, l: nat, k: nat, ghost n: nat,
      st: Work, p: nat, r0: Huft, ghost base: nat, ghost heads: seq<nat>, ghost filled: set<nat>, ghost good: bool)
    returns (i: nat, p2: nat, r: Huft, ghost filled2: set<nat>)
    requires WfCodeSet(cs) && Sorted(cs.lens, c, g, v[..]) && v.Length == N_MAX && 1 <= k <= g && n < c[k]
    requires p == PlaceIn(c, k, n, |cs.lens|) && st.s != [] && k <= st.w + l
    requires Ready(mem[..], base, heads, c, g, l, k, n, st)
    requires good ==> Decodes(mem[..], filled, heads, cs, c, l, k, n, st)
    modifies mem
    ensures Backing(c, l, k, Pos(c, k, n + 1), st.(i := i)) && Counter(c, g, l, k, n + 1, i)
    ensures Listed(mem[..], base, st.hp, st.root, st.tail, heads)
    ensures p2 == PlaceIn(c, k, n + 1, |cs.lens|)
    ensures good ==>
      Decoded(mem[..], filled2, cs, c, l, k, n + 1, Pos(c, k, n + 1), st.(i := i)) && HeadsFree(filled2, heads)
    ensures mem[..base] == old(mem[..base])
  {
    hide *;
    ghost var before := mem[..];
    CodePlace(before, base, heads, c, g, l, k, n, st);
    r, p2 := MakeEntry(cs, v, p, k - st.w, r0);
    if Known(cs, k, n) {
      EntryFits(cs, c, g, v[..], k, n, p, r);
    }
    FillEntries(mem, st.q, st.z, st.i, st.w, k, r, st.s[|st.s| - 1]);
    i := CodeCounter.NextReversed(st.i, k);
    filled2 := filled + Taken(st.s[|st.s| - 1], st.i, st.w, k);
    CodeWritten(before, mem[..], base, heads, filled, filled2, cs, c, g, l, k, n, st, i, r, good);
    PlaceMoves(c, k, n, |cs.lens|);
  }

  /** The entry r in all places of a code, and the counter at the next code. */
  lemma CodeWritten(mem: seq<Huft>, mem2: seq<Huft>, base: nat, heads: seq<nat>, filled: set<nat>, filled2: set<nat>,
      cs: CodeSet, c: seq<nat>, g: nat, l: nat, k: nat, n: nat, st: Work, i: nat, r: Huft, good: bool)
    requires WfCodeSet(cs) && |c| == BMAX + 1 && 1 <= k <= BMAX && n < c[k] && st.s != [] && st.w <= k <= st.w + l
    requires Ready(mem, base, heads, c, g, l, k, n, st)
    requires good ==> Decodes(mem, filled, heads, cs, c, l, k, n, st)
    requires FillsCode(mem, mem2, st.s[|st.s| - 1], st.i, st.w, k, r) && r.b == k - st.w
    requires Known(cs, k, n) ==> !IsLink(r) && EntryOk(cs, k, n, Found(r.e, k, r.v))
    requires filled2 == filled + Taken(st.s[|st.s| - 1], st.i, st.w, k)
    requires i < Pow2(k)
    requires if Rev(st.i, 16) + Pow2(16 - k) < FULL then Rev(i, 16) == Rev(st.i, 16) + Pow2(16 - k) else i == 0
    ensures Backing(c, l, k, Pos(c, k, n + 1), st.(i := i)) && Counter(c, g, l, k, n + 1, i)
    ensures Listed(mem2, base, st.hp, st.root, st.tail, heads) && mem2[..base] == mem[..base]
    ensures good ==>
      Decoded(mem2, filled2, cs, c, l, k, n + 1, Pos(c, k, n + 1), st.(i := i)) && HeadsFree(filled2, heads)
  {
    assert Counter(c, g, l, k, n, st.i) && Stacked(c, l, k, st);
    hide *;
    CodePlace(mem, base, heads, c, g, l, k, n, st);
    StartBacking(c, g, l, k, n, st, i);
    if good {
      EnterDecodes(mem, mem2, filled, filled2, heads, cs, c, g, l, k, n, st, i, r, base);
    }
    FillKeepsList(mem, mem2, base, heads, c, g, l, k, n, st, r);
  }

  /** One code, and back up over the tables it finishes. */
  method EnterCode(mem: array<Huft>, cs: CodeSet, c: seq<nat>, v: array<nat>, g: nat, l: nat, k: nat, ghost n: nat,
      st: Work, p: nat, r0: Huft, ghost base: nat, ghost heads: seq<nat>, ghost filled: set<nat>, ghost good: bool)
    returns (st2: Work, p2: nat, r: Huft, ghost filled2: set<nat>)
    requires WfCodeSet(cs) && Sorted(cs.lens, c, g, v[..]) && v.Length == N_MAX && 1 <= k <= g && n < c[k]
    requires p == PlaceIn(c, k, n, |cs.lens|) && st.s != [] && k <= st.w + l
    requires Ready(mem[..], base, heads, c, g, l, k, n, st) && Saves(c, g, l, k, n, st, base)
    requires good ==> Decodes(mem[..], filled, heads, cs, c, l, k, n, st)
    modifies mem
    ensures Ready(mem[..], base, heads, c, g, l, k, n + 1, st2) && st2.s != []
    ensures Saves(c, g, l, k, n + 1, st2, base)
    ensures p2 == PlaceIn(c, k, n + 1, |cs.lens|) && st2.hp == st.hp
    ensures good ==> Decodes(mem[..], filled2, heads, cs, c, l, k, n + 1, st2)
    ensures mem[..base] == old(mem[..base])
  {
    hide *;
    SavesMoves(mem[..], base, heads, c, g, l, k, n, st);
    var i;
    i, p2, r, filled2 := WriteCode(mem, cs, c, v, g, l, k, n, st, p, r0, base, heads, filled, good);
    st2 := BackUp(c, g, l, k, st.(i := i), Pos(c, k, n + 1), mem[..], filled2, cs, n + 1, st.hp - base, good);
    StillReady(mem[..], base, heads, c, g, l, k, n + 1, st.(i := i), st2);
    JoinDecodes(mem[..], filled2, heads, cs, c, l, k, n + 1, st2, good);
    SavesAs(c, g, l, k, n + 1, st2, base);
  }

  lemma SavesAs(c: seq<nat>, g: nat, l: nat, k: nat, r: nat, st: Work, base: nat)
    requires 1 <= k < |c| == BMAX + 1 && base <= st.hp && Frugal(st.s, l, g, Pos(c, k, r), st.hp - base)
    ensures Saves(c, g, l, k, r, st, base)
  {
  }

  lemma SavesMoves(mem: seq<Huft>, base: nat, heads: seq<nat>, c: seq<nat>, g: nat, l: nat, k: nat, n: nat, st: Work)
    requires Ready(mem, base, heads, c, g, l, k, n, st) && Saves(c, g, l, k, n, st, base)
    ensures |c| == BMAX + 1 && k <= BMAX && Apart(st.s, base, heads) && base <= st.hp && base <= |mem|
    ensures Frugal(st.s, l, g, Pos(c, k, n + 1), st.hp - base)
  {
    hide Pos, Frugal, Stacked, Apart, Chained, Later, Tiled, Weight, Rev;
    PosNext(c, k, n);
    FrugalMoves(st.s, l, g, Pos(c, k, n), Pos(c, k, n + 1), st.hp - base);
  }

  /** The table of the next code, as the locals have it. */
  lemma CodePlace(mem: seq<Huft>, base: nat, heads: seq<nat>, c: seq<nat>, g: nat, l: nat, k: nat, n: nat, st: Work)
    requires Ready(mem, base, heads, c, g, l, k, n, st) && st.s != [] && k <= st.w + l && n < c[k]
    ensures |c| == BMAX + 1 && st.w == W(l, |st.s| - 1) < k <= W(l, |st.s|) == st.w + l && k <= BMAX
    ensures st.q == st.s[|st.s| - 1].u && st.z == st.s[|st.s| - 1].size && st.q + st.z <= |mem|
    ensures st.i < Pow2(k) && Rev(st.i, 16) == Pos(c, k, n)
  {
    hide Rev, Shl, Shr, Low, Pow2, Weight, W, Pos;
    WAdds(l, |st.s| - 1);
    NextIsInside(c, g, l, k, n, st.i);
    TablesBelow(st.s, l, st.hp, |st.s| - 1);
  }

  lemma PlaceMoves(c: seq<nat>, k: nat, n: nat, m: nat)
    requires 1 <= k < |c| == BMAX + 1
    ensures PlaceIn(c, k, n + 1, m) ==
      if PlaceIn(c, k, n, m) < m then PlaceIn(c, k, n, m) + 1 else PlaceIn(c, k, n, m)
    ensures k < BMAX ==> PlaceIn(c, k, c[k], m) == PlaceIn(c, k + 1, 0, m)
  {
  }

  lemma EnterDecodes(mem: seq<Huft>, mem2: seq<Huft>, filled: set<nat>, filled2: set<nat>, heads: seq<nat>,
      cs: CodeSet, c: seq<nat>, g: nat, l: nat, k: nat, n: nat, st: Work, i: nat, r: Huft, base: nat)
    requires WfCodeSet(cs) && |c| == BMAX + 1 && 1 <= k <= BMAX && n < c[k] && st.s != [] && k <= W(l, |st.s|)
    requires Ready(mem, base, heads, c, g, l, k, n, st) && Decodes(mem, filled, heads, cs, c, l, k, n, st)
    requires W(l, |st.s| - 1) <= k && FillsCode(mem, mem2, st.s[|st.s| - 1], st.i, W(l, |st.s| - 1), k, r)
    requires r.b == k - W(l, |st.s| - 1) && (Known(cs, k, n) ==> !IsLink(r) && EntryOk(cs, k, n, Found(r.e, k, r.v)))
    requires filled2 == filled + Taken(st.s[|st.s| - 1], st.i, W(l, |st.s| - 1), k)
    ensures Decoded(mem2, filled2, cs, c, l, k, n + 1, Pos(c, k, n + 1), st.(i := i))
    ensures HeadsFree(filled2, heads)
  {
    hide Rev, Shl, Shr, Low, Pow2, Weight, W, Pos, Counter, Listed, EntryOk, FillsCode, Known, IsLink, Taken, Shape,
        Linked, FilledTo, Entered;
    EnterDecoded(mem, mem2, filled, filled2, cs, c, g, l, k, n, st, r);
    TakenBelow(st.s, l, st.hp, st.i, k);
    forall d | d in heads
      ensures d !in filled2
    {
      assert Outside(st.s[|st.s| - 1], d);
    }
  }

  lemma FillKeepsList(mem: seq<Huft>, mem2: seq<Huft>, base: nat, heads: seq<nat>, c: seq<nat>, g: nat, l: nat,
      k: nat, n: nat, st: Work, r: Huft)
    requires Ready(mem, base, heads, c, g, l, k, n, st) && st.s != []
    requires W(l, |st.s| - 1) <= k && FillsCode(mem, mem2, st.s[|st.s| - 1], st.i, W(l, |st.s| - 1), k, r)
    ensures Listed(mem2, base, st.hp, st.root, st.tail, heads)
    ensures mem2[..base] == mem[..base]
  {
    hide Rev, Shl, Shr, Low, Pow2, Weight, W, Counter, Takes;
    var h := |st.s| - 1;
    if h > 0 {
      RegionsApart(st.s, l, st.hp, 0, h);
    }
    forall d | d in heads && d < |mem|
      ensures mem2[d] == mem[d]
    {
      assert Outside(st.s[h], d);
    }
    ListStays(mem, mem2, base, st.hp, st.root, st.tail, heads);
  }

  lemma StillReady(mem: seq<Huft>, base: nat, heads: seq<nat>, c: seq<nat>, g: nat, l: nat, k: nat, n: nat, st: Work,
      st2: Work)
    requires Counter(c, g, l, k, n, st2.i) && Stacked(c, l, k, st2) && st2 == st.(s := st2.s, w := st2.w)
    requires Listed(mem, base, st.hp, st.root, st.tail, heads) && Apart(st.s, base, heads)
    requires st2.s != [] && st2.s <= st.s
    ensures Ready(mem, base, heads, c, g, l, k, n, st2)
  {
    hide Counter, Stacked, Listed, Outside;
    forall t, d {:trigger Outside(st2.s[t], d)} | 0 <= t < |st2.s| && d in heads
      ensures Outside(st2.s[t], d)
    {
      assert Outside(st.s[t], d);
    }
  }

  lemma JoinDecodes(mem: seq<Huft>, filled: set<nat>, heads: seq<nat>, cs: CodeSet, c: seq<nat>, l: nat, k: nat,
      n: nat, st: Work, good: bool)
    requires WfCodeSet(cs) && 1 <= k < |c| == BMAX + 1
    requires good ==> Decoded(mem, filled, cs, c, l, k, n, Pos(c, k, n), st) && HeadsFree(filled, heads)
    ensures good ==> Decodes(mem, filled, heads, cs, c, l, k, n, st)
  {
  }

  // ----- all codes

  /** Make tables up to the required level. */
  method MakeTables(mem: array<Huft>, ghost cs: CodeSet, c: seq<nat>, g: nat, l: nat, k: nat, a: nat, st: Work,
      ghost base: nat, ghost heads: seq<nat>, ghost filled: set<nat>, ghost good: bool)
    returns (ok: bool, st2: Work, ghost heads2: seq<nat>, ghost filled2: set<nat>)
    requires WfCodeSet(cs) && 1 <= k < |c| == BMAX + 1 && a < c[k] && l >= 1 && base <= mem.Length && Filling(c, g)
    requires Ready(mem[..], base, heads, c, g, l, k, c[k] - 1 - a, st) && Saves(c, g, l, k, c[k] - 1 - a, st, base)
    requires good ==> Narrow(c, g, l) && Decodes(mem[..], filled, heads, cs, c, l, k, c[k] - 1 - a, st)
    modifies mem
    ensures Ready(mem[..], base, heads2, c, g, l, k, c[k] - 1 - a, st2) && Saves(c, g, l, k, c[k] - 1 - a, st2, base)
    ensures !ok ==> base + Room(l, g) > mem.Length
    ensures ok ==> k <= st2.w + l && (st.s != [] || st.w + l == 0 ==> st2.s != [])
    ensures ok && good ==> Decodes(mem[..], filled2, heads2, cs, c, l, k, c[k] - 1 - a, st2)
    ensures mem[..base] == old(mem[..base])
  {
    hide Pow2, Pos, Ready, Decodes, Narrow, Saves, Room, Filling;
    ok, st2, heads2, filled2 := true, st, heads, filled;
    ReadyStacked(mem[..], base, heads, c, g, l, k, c[k] - 1 - a, st);
    StartDepth(c, l, k, st);
    while k > st2.w + l
      invariant Ready(mem[..], base, heads2, c, g, l, k, c[k] - 1 - a, st2)
      invariant Saves(c, g, l, k, c[k] - 1 - a, st2, base)
      invariant good ==> Decodes(mem[..], filled2, heads2, cs, c, l, k, c[k] - 1 - a, st2)
      invariant st2 == st || st2.s != []
      invariant mem[..base] == old(mem[..base])
      decreases k - st2.w
    {
      ghost var top := st2.hp;
      ok, st2, filled2 := AddTable(mem, cs, c, g, l, k, a, st2, base, heads2, filled2, good);
      if !ok {
        return;
      }
      heads2 := heads2 + [top];
    }
  }

  /** The codes of length k. */
  method EnterLength(mem: array<Huft>, cs: CodeSet, c: seq<nat>, v: array<nat>, g: nat, l: nat, k: nat, st: Work,
      p: nat, r: Huft, ghost base: nat, ghost heads: seq<nat>, ghost filled: set<nat>, ghost good: bool)
    returns (ok: bool, st2: Work, p2: nat, r2: Huft, ghost heads2: seq<nat>, ghost filled2: set<nat>)
    requires WfCodeSet(cs) && Sorted(cs.lens, c, g, v[..]) && v.Length == N_MAX && 1 <= k <= g < |c| == BMAX + 1
    requires 1 <= l && base <= mem.Length && Filling(c, g) && Saves(c, g, l, k, 0, st, base)
    requires Ready(mem[..], base, heads, c, g, l, k, 0, st) && p == PlaceIn(c, k, 0, |cs.lens|)
    requires good ==> Narrow(c, g, l) && Decodes(mem[..], filled, heads, cs, c, l, k, 0, st)
    modifies mem
    ensures st2.hp <= base + Room(l, g) && (!ok ==> base + Room(l, g) > mem.Length)
    ensures ok ==> Saves(c, g, l, k, c[k], st2, base)
    ensures !ok ==> Listed(mem[..], base, st2.hp, st2.root, st2.tail, heads2) && Apart(st2.s, base, heads2)
    ensures ok ==> Ready(mem[..], base, heads2, c, g, l, k, c[k], st2) && p2 == PlaceIn(c, k, c[k], |cs.lens|)
    ensures ok && good ==> Decodes(mem[..], filled2, heads2, cs, c, l, k, c[k], st2)
    ensures ok && (c[k] > 0 || st.s != []) ==> st2.s != []
    ensures mem[..base] == old(mem[..base])
  {
    hide Pow2, Pos, Decodes, Narrow, Counter, Stacked, Listed, Apart, PlaceIn, W, Saves, Room, Filling;
    ok, st2, p2, r2, heads2, filled2 := true, st, p, r, heads, filled;
    var a: nat := c[k];
    ghost var values := v[..];
    while a != 0
      invariant a <= c[k]
      invariant Ready(mem[..], base, heads2, c, g, l, k, c[k] - a, st2) && p2 == PlaceIn(c, k, c[k] - a, |cs.lens|)
      invariant good ==> Decodes(mem[..], filled2, heads2, cs, c, l, k, c[k] - a, st2)
      invariant a < c[k] || st.s != [] ==> st2.s != []
      invariant v[..] == values && mem[..base] == old(mem[..base])
      invariant Saves(c, g, l, k, c[k] - a, st2, base)
    {
      a := a - 1;
      EmptyDepth(c, l, k, st2);
      ok, st2, heads2, filled2 := MakeTables(mem, cs, c, g, l, k, a, st2, base, heads2, filled2, good);
      if !ok {
        RoomSuffices(mem[..], base, heads2, c, g, l, k, c[k] - 1 - a, st2);
        return;
      }
      st2, p2, r2, filled2 := EnterCode(mem, cs, c, v, g, l, k, c[k] - 1 - a, st2, p2, r2, base, heads2, filled2, good);
    }
    RoomSuffices(mem[..], base, heads2, c, g, l, k, c[k], st2);
  }

  lemma RoomSuffices(mem: seq<Huft>, base: nat, heads: seq<nat>, c: seq<nat>, g: nat, l: nat, k: nat, r: nat, st: Work)
    requires 1 <= k < |c| == BMAX + 1 && Ready(mem, base, heads, c, g, l, k, r, st) && Saves(c, g, l, k, r, st, base)
    requires 1 <= l && 1 <= g
    ensures st.hp <= base + Room(l, g)
  {
    hide Rev, Shl, Pow2, Weight, W, Frugal, Listed, Apart, Room;
    if st.s != [] {
      ShapeEndsInside(st.s, l, st.hp);
    }
    PosNext(c, k, 0);
    PosInside(c, g, k, r) by { assert Counter(c, g, l, k, r, st.i); }
    UsedAtMostRoom(st.s, l, g, Pos(c, k, r), st.hp - base);
  }

  lemma PosInside(c: seq<nat>, g: nat, k: nat, r: nat)
    requires Filling(c, g) && 1 <= k <= g && r <= c[k]
    ensures Pos(c, k, r) <= FULL
  {
    hide Weight, Shl;
    PosNext(c, k, 0);
    ShlGrows(r, c[k], BMAX - k);
    WeightGrows(c, k, g);
  }

  lemma ReadyStacked(mem: seq<Huft>, base: nat, heads: seq<nat>, c: seq<nat>, g: nat, l: nat, k: nat, r: nat, st: Work)
    requires Ready(mem, base, heads, c, g, l, k, r, st)
    ensures Stacked(c, l, k, st) && k <= 16
  {
    hide Stacked, Listed, Apart;
  }

  lemma StartDepth(c: seq<nat>, l: nat, k: nat, st: Work)
    requires Stacked(c, l, k, st)
    ensures st.w + l >= 0
  {
    hide Tables;
  }

  lemma EmptyDepth(c: seq<nat>, l: nat, k: nat, st: Work)
    requires Stacked(c, l, k, st)
    ensures st.s == [] ==> st.w + l == 0
  {
    WZero(l);
  }

  /** Generate the codes and for each, make the table entries. */
  method EnterAll(mem: array<Huft>, cs: CodeSet, c: seq<nat>, v: array<nat>, g: nat, l: nat, k0: nat, st: Work,
      ghost base: nat, ghost good: bool)
    returns (ok: bool, st2: Work, ghost heads: seq<nat>, ghost filled: set<nat>)
    requires WfCodeSet(cs) && Sorted(cs.lens, c, g, v[..]) && v.Length == N_MAX && 1 <= k0 <= g < |c| == BMAX + 1
    requires 1 <= l && base <= mem.Length && Filling(c, g) && st.s == [] && st.hp == base
    requires Ready(mem[..], base, [], c, g, l, k0, 0, st) && Codes(c, k0 - 1) == 0
    requires good ==> Narrow(c, g, l)
    modifies mem
    ensures st2.hp <= base + Room(l, g) && (!ok ==> base + Room(l, g) > mem.Length)
    ensures Listed(mem[..], base, st2.hp, st2.root, st2.tail, heads) && Apart(st2.s, base, heads)
    ensures ok ==> st2.s != [] && Ready(mem[..], base, heads, c, g, l, g, c[g], st2)
    ensures ok && good ==> Decodes(mem[..], filled, heads, cs, c, l, g, c[g], st2)
    ensures mem[..base] == old(mem[..base])
  {
    hide Pow2, Pos, Decodes, Narrow, Counter, Stacked, Listed, Apart, PlaceIn, Sorted, W, Frugal, Room, Shl, Weight;
    ok, st2, heads, filled := true, st, [], {};
    StartDecodes(mem[..], base, cs, c, g, l, k0, st);
    PlaceStart(c, k0, |cs.lens|);
    var k, p := k0, 0;
    var r: Huft := *;
    ghost var at, n := k0, 0;
    ghost var values := v[..];
    StartSaves(c, g, l, k0, st, base);
    while k <= g
      invariant k0 <= at <= g && v[..] == values && mem[..base] == old(mem[..base])
      invariant if k <= g then at == k && n == 0 else at == g && k == g + 1 && n == c[g] && st2.s != []
      invariant Saves(c, g, l, at, n, st2, base) && (k > g ==> st2.hp <= base + Room(l, g))
      invariant Ready(mem[..], base, heads, c, g, l, at, n, st2) && p == PlaceIn(c, at, n, |cs.lens|)
      invariant good ==> Decodes(mem[..], filled, heads, cs, c, l, at, n, st2)
    {
      ok, st2, p, r, heads, filled := EnterLength(mem, cs, c, v, g, l, k, st2, p, r, base, heads, filled, good);
      if !ok {
        return;
      }
      n := c[k];
      if k < g {
        NextLength(c, g, l, k, st2);
        PlaceMoves(c, k, 0, |cs.lens|);
        if good {
          NextLengthDecodes(mem[..], filled, heads, cs, c, l, k, st2);
        }
        assert Pos(c, k + 1, 0) == Pos(c, k, c[k]) by { PosNext(c, k, 0); PosNext(c, k + 1, 0); }
        at, n := k + 1, 0;
      }
      k := k + 1;
    }
  }

  lemma StartSaves(c: seq<nat>, g: nat, l: nat, k: nat, st: Work, base: nat)
    requires Filling(c, g) && 1 <= k <= g && 1 <= l && Codes(c, k - 1) == 0 && st.s == [] && st.hp == base
    ensures Saves(c, g, l, k, 0, st, base)
  {
    PosNext(c, k, 0);
    NoCodesNoWeight(c, k - 1);
    FrugalStart(l, g);
  }

  lemma PlaceStart(c: seq<nat>, k: nat, n: nat)
    requires 1 <= k < |c| == BMAX + 1 && Codes(c, k - 1) == 0
    ensures PlaceIn(c, k, 0, n) == 0
  {
  }

  lemma StartDecodes(mem: seq<Huft>, base: nat, cs: CodeSet, c: seq<nat>, g: nat, l: nat, k: nat, st: Work)
    requires WfCodeSet(cs) && 1 <= k < |c| == BMAX + 1 && Codes(c, k - 1) == 0
    requires Ready(mem, base, [], c, g, l, k, 0, st)
    ensures Decodes(mem, {}, [], cs, c, l, k, 0, st)
  {
    hide Rev, Shl, Shr, Low, Pow2, W, Weight, Entered;
    PosNext(c, k, 0);
    NoCodesNoWeight(c, k - 1);
    NothingEntered(mem, {}, st.root, l, cs, c, k, 0);
  }

  lemma NextLengthDecodes(mem: seq<Huft>, filled: set<nat>, heads: seq<nat>, cs: CodeSet, c: seq<nat>, l: nat, k: nat,
      st: Work)
    requires WfCodeSet(cs) && 1 <= k < BMAX < |c| == BMAX + 1 && Decodes(mem, filled, heads, cs, c, l, k, c[k], st)
    ensures Decodes(mem, filled, heads, cs, c, l, k + 1, 0, st)
  {
    DecodedNextLength(mem, filled, cs, c, l, k, st);
  }
}
