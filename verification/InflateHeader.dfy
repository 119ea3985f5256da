/** The header of a dynamic block: inflate_dynamic of zload/inflate.c up to the code lengths, and huft_build on them. */
module InflateHeader {
  import opened Words
  import opened BitReverse
  import opened HuffmanCode
  import opened HuftTable
  import opened HuftInvariant
  import opened HuftBuild
  import opened BitInput
  import opened InflateSpec
  import opened InflateCodes
  import HuftLoop
  import HuftRoom

  // ----- tables for the code lengths of a block

  /** Code lengths for which tables of m0 bits at the first level, and narrower below, will do. */
  ghost predicate FitsWidth(lens: seq<nat>, m0: nat) {
    && ((forall s :: 0 <= s < |lens| ==> lens[s] <= 2 * m0) || |lens| <= Pow2(m0))
    && (forall s :: 0 <= s < |lens| ==> lens[s] <= 15 && (m0 >= 6 || lens[s] <= m0))
  }

  /** Table entries that are enough for one set of codes of a block: three depths, 6 bits apart. */
  const ENOUGH: nat := 147456

  lemma EnoughRoom(lens: seq<nat>, m0: nat, m: nat, g: nat)
    requires FitsWidth(lens, m0) && WidthFor(lens, m0, m) && 1 <= g && Longest(lens, g)
    ensures 1 <= m && HuftRoom.Room(m, g) <= ENOUGH
  {
    assert HuftRoom.Depths(6, 15) == 3;
    assert Pow2(7) == 128;
    Pow2Adds(7, 7);
    assert HuftRoom.Room(6, 15) == ENOUGH;
    if m >= 6 {
      HuftRoom.RoomMonotone(6, m, 15, g);
    } else {
      assert g <= m;
      HuftRoom.RoomMonotone(6, m, 15, g);
    }
  }

  lemma WidthDecodes(lens: seq<nat>, m0: nat, m: nat)
    requires WfLens(lens) && WidthFor(lens, m0, m) && FitsWidth(lens, m0)
    requires Accepted(lens) || forall s :: 0 <= s < |lens| ==> lens[s] <= 2 * m0
    ensures m <= 16 && (NoCodes(lens) || Decodable(lens, m))
  {
    hide Decodable, Pow2, CountLen, CountUpTo, Complete;
    CountsAddUp(lens);
    if m0 <= m {
      Pow2Grows(m0, m);
    }
    if !NoCodes(lens) {
      assert (forall s :: 0 <= s < |lens| ==> lens[s] <= 2 * m) || (Complete(lens) && CountUpTo(lens, BMAX) <= Pow2(m));
      ShortOrFewDecodes(lens, m);
    }
  }

  lemma AcceptedBy(lens: seq<nat>, code: nat)
    requires NoCodes(lens) ==> code == OK
    requires !NoCodes(lens) ==> (code == 2 <==> Kraft(lens) > FULL)
    requires code == 1 ==> Kraft(lens) < FULL && exists s :: 0 <= s < |lens| && lens[s] > 1
    requires !NoCodes(lens) && code == OK && !Complete(lens) ==>
      Kraft(lens) < FULL && forall s :: 0 <= s < |lens| ==> lens[s] <= 1
    requires code <= 2
    ensures code == OK <==> Accepted(lens)
  {
    hide Kraft;
  }

  /** huft_build, for code lengths that fit: 0 exactly for the sets that the specification accepts. */
  method BuildTables(cs: CodeSet, t0: nat, m0: nat, mem: array<Huft>, hp0: nat)
    returns (code: nat, t: nat, m: nat, hp: nat, ghost written: set<nat>)
    requires WfCodeSet(cs) && 1 <= hp0 <= mem.Length && FitsWidth(cs.lens, m0)
    modifies mem
    ensures mem[..hp0] == old(mem[..hp0]) && hp0 <= hp <= mem.Length && code <= 3
    ensures code != NO_MEMORY ==> (code == OK <==> Accepted(cs.lens)) && (code == 2 ==> Kraft(cs.lens) > FULL)
    ensures hp <= hp0 + ENOUGH && (code == NO_MEMORY ==> hp0 + ENOUGH > mem.Length)
    ensures code == OK || (code == 1 && forall s :: 0 <= s < |cs.lens| ==> cs.lens[s] <= 2 * m0) ==>
      Tabled(mem[..], written, cs, t, m) && (NoCodes(cs.lens) || WidthFor(cs.lens, m0, m))
    ensures forall a :: a in written ==> a < hp
  {
    hide Pow2, Kraft, TablesDecode, Decodable, FitsWidth, WidthFor, Accepted, HuftLoop.Listed, Complete, Longest,
        HuftRoom.Room;
    var freed;
    ghost var heads;
    code, t, m, hp, freed, heads, written := Build(cs, t0, m0, mem, hp0);
    if !NoCodes(cs.lens) && code != 2 {
      ghost var g: nat :| RoomTaken(cs.lens, m, g, mem.Length, hp0, hp, code);
      EnoughRoom(cs.lens, m0, m, g);
    }
    if code != NO_MEMORY {
      AcceptedBy(cs.lens, code);
    }
    if !NoCodes(cs.lens) && (code == OK || (code == 1 && forall s :: 0 <= s < |cs.lens| ==> cs.lens[s] <= 2 * m0)) {
      WidthDecodes(cs.lens, m0, m);
    }
  }

  /** Later tables leave earlier ones as they are. */
  lemma TabledStays(mem: seq<Huft>, mem2: seq<Huft>, written: set<nat>, cs: CodeSet, t: nat, m: nat, hp: nat)
    requires Tabled(mem, written, cs, t, m) && forall a :: a in written ==> a < hp
    requires hp <= |mem| == |mem2| && mem2[..hp] == mem[..hp]
    ensures Tabled(mem2, written, cs, t, m)
  {
    assert SameOn(mem, mem2, written) by {
      forall a | a in written && a < |mem|
        ensures mem2[a] == mem[a]
      {
        assert mem2[..hp][a] == mem[..hp][a];
      }
    }
    hide SameOn, TablesDecode;
    if !NoCodes(cs.lens) {
      TablesStay(mem, mem2, written, cs, t, m);
    }
  }

  // ----- the lengths of the bit length codes

  /** Where each symbol stands in the order of transmission. */
  const PLACE: seq<nat> := [3, 17, 15, 13, 11, 9, 7, 5, 4, 6, 8, 10, 12, 14, 16, 18, 0, 1, 2]

  lemma BorderPlaces()
    ensures |PLACE| == |BORDER| == 19
    ensures forall i :: 0 <= i < 19 ==> BORDER[i] < 19 && PLACE[BORDER[i]] == i
    ensures forall x :: 0 <= x < 19 ==> PLACE[x] < 19 && BORDER[PLACE[x]] == x
  {
  }

  lemma {:induction false} BitLengthsAt(b: Bits, j: nat, x: nat)
    requires j <= 19 && 3 * j <= b.n && x < 19
    ensures PLACE[x] < 19 && BitLengths(b, j)[x] == if PLACE[x] < j then Peek(Drop(b, 3 * PLACE[x]), 3) else 0
  {
    BorderPlaces();
    if j > 0 {
      BitLengthsAt(b, j - 1, x);
      hide Low, Shr;
    }
  }

  lemma DropMore(b: Bits, j: nat)
    requires 3 * j + 3 <= b.n
    ensures Drop(Drop(b, 3 * j), 3) == Drop(b, 3 * (j + 1))
  {
    DropAdds(b, 3 * j, 3);
  }

  /** Element x of the lengths has been set. */
  ghost predicate BitLengthSet(ll: seq<nat>, b: Bits, nb: nat, j: nat, x: nat)
    requires nb <= 19 && 3 * nb <= b.n && |ll| >= 19 && x < 19 && |PLACE| == 19
  {
    PLACE[x] < j ==> ll[x] == BitLengths(b, nb)[x]
  }

  lemma SetOneMore(ll: seq<nat>, ll2: seq<nat>, b: Bits, nb: nat, j: nat, j2: nat, y: nat)
    requires j2 == j + 1 && nb <= 19 && 3 * nb <= b.n && |ll| >= 19 && j < 19
    requires |PLACE| == |BORDER| == 19 && BORDER[j] < 19
    requires forall x :: 0 <= x < 19 ==> BitLengthSet(ll, b, nb, j, x)
    requires ll2 == ll[BORDER[j] := y] && y == if j < nb then Peek(Drop(b, 3 * j), 3) else 0
    ensures forall x :: 0 <= x < 19 ==> BitLengthSet(ll2, b, nb, j2, x)
  {
    hide BitLengths, Low, Shr;
    BorderPlaces();
    BitLengthsAt(b, nb, BORDER[j]);
    forall x | 0 <= x < 19
      ensures BitLengthSet(ll2, b, nb, j2, x)
    {
      assert BitLengthSet(ll, b, nb, j, x);
    }
  }

  /** The lengths up to place j of the order of transmission are set. */
  ghost predicate SetTo(ll: seq<nat>, b: Bits, nb: nat, j: nat)
    requires nb <= 19 && 3 * nb <= b.n && |ll| >= 19 && |PLACE| == 19
  {
    forall x :: 0 <= x < 19 ==> BitLengthSet(ll, b, nb, j, x)
  }

  /** One length: NEEDBITS(3), ll[border[j]] = b & 7, DUMPBITS(3). */
  method ReadBitLength(r: BitReader, ll: array<nat>, ghost b: Bits, nb: nat, j: nat) returns (ok: bool)
    requires r.Valid() && ll.Length >= 19 && j < nb <= 19 && 3 * j <= b.n && r.Rest() == Drop(b, 3 * j) && |PLACE| == 19
    requires 3 * nb <= b.n ==> SetTo(ll[..], b, nb, j)
    modifies r, ll
    ensures r.Valid() && (ok <==> 3 * (j + 1) <= b.n)
    ensures ok ==> r.Rest() == Drop(b, 3 * (j + 1)) && (3 * nb <= b.n ==> SetTo(ll[..], b, nb, j + 1))
  {
    hide BitLengths, Low, Shr, BitLengthSet, Shl, Pow2;
    BorderPlaces();
    ok := r.NeedBits(3);
    if !ok {
      return;
    }
    ghost var before := ll[..];
    ghost var y := Peek(Drop(b, 3 * j), 3);
    ll[BORDER[j]] := r.Mask(3);
    r.DumpBits(3);
    DropMore(b, j);
    assert ll[..] == before[BORDER[j] := y];
    if 3 * nb <= b.n {
      SetOneMore(before, ll[..], b, nb, j, j + 1, y);
    }
  }

  /** Read in bit-length-code lengths. */
  method ReadBitLengths(r: BitReader, ll: array<nat>, nb: nat) returns (ok: bool)
    requires r.Valid() && ll.Length >= 19 && nb <= 19
    modifies r, ll
    ensures r.Valid()
    ensures ok <==> 3 * nb <= old(r.Rest()).n
    ensures ok ==> r.Rest() == Drop(old(r.Rest()), 3 * nb) && ll[..19] == BitLengths(old(r.Rest()), nb)
  {
    hide BitLengths, Low, Shr, BitLengthSet, Shl, Pow2;
    ghost var b := r.Rest();
    BorderPlaces();
    NoShift(b.v);
    NoneSet(ll[..], b, nb);
    var j := 0;
    while j < nb
      invariant 0 <= j <= nb && r.Valid() && 3 * j <= b.n && r.Rest() == Drop(b, 3 * j)
      invariant 3 * nb <= b.n ==> SetTo(ll[..], b, nb, j)
    {
      ok := ReadBitLength(r, ll, b, nb, j);
      if !ok {
        return;
      }
      j := j + 1;
    }
    while j < 19
      modifies ll
      invariant nb <= j <= 19 && SetTo(ll[..], b, nb, j)
    {
      SetOneMore(ll[..], ll[..][BORDER[j] := 0], b, nb, j, j + 1, 0);
      ll[BORDER[j]] := 0;
      j := j + 1;
    }
    ok := true;
    AllSet(ll[..], b, nb);
  }

  lemma NoneSet(ll: seq<nat>, b: Bits, nb: nat)
    requires nb <= 19 && |ll| >= 19 && |PLACE| == 19
    ensures 3 * nb <= b.n ==> SetTo(ll, b, nb, 0)
  {
  }

  lemma AllSet(ll: seq<nat>, b: Bits, nb: nat)
    requires nb <= 19 && 3 * nb <= b.n && |ll| >= 19 && |PLACE| == 19 && SetTo(ll, b, nb, 19)
    ensures ll[..19] == BitLengths(b, nb)
  {
    hide BitLengths;
    BorderPlaces();
    forall x | 0 <= x < 19
      ensures ll[x] == BitLengths(b, nb)[x]
    {
      assert BitLengthSet(ll, b, nb, 19, x);
    }
  }

  // ----- the run-length coded lengths

  /** The bit length code: no symbol has a code longer than the table is wide, so one lookup finds it. */
  ghost predicate OneLevel(lens: seq<nat>, m: nat) {
    |lens| == 19 && Accepted(lens) && forall s :: 0 <= s < |lens| ==> lens[s] <= m
  }

  lemma WideEnough(lens: seq<nat>, m: nat)
    requires WfLens(lens) && |lens| == 19 && Accepted(lens) && (forall s :: 0 <= s < 19 ==> lens[s] <= 7)
    requires NoCodes(lens) || WidthFor(lens, 7, m)
    ensures OneLevel(lens, m)
  {
  }

  /** What the next bits mean, when an accepted set says that they are bad: there is no code at all. */
  lemma BadMeansNoCode(lens: seq<nat>, b: Bits)
    requires WfLens(lens) && |lens| >= 2 && Accepted(lens) && NextSymbol(lens, b) == NoSymbol(Bad)
    ensures NoCodes(lens)
  {
    hide Rev, CodeOf, Kraft;
    BeyondAllCodes(lens, b.v);
    RevBelowFull(b.v);
    if !NoCodes(lens) && !Complete(lens) {
      TwoBitsAreFull(lens);
    }
  }

  /** Two or more codes of one bit leave nothing over. */
  lemma TwoBitsAreFull(lens: seq<nat>)
    requires WfLens(lens) && |lens| >= 2 && CountLen(lens, 0) == 0 && forall s :: 0 <= s < |lens| ==> lens[s] <= 1
    ensures Kraft(lens) >= FULL
  {
    hide Shl, Pow2;
    CountsAddUp(lens);
    HuftLoop.NoLongerCodes(lens, 1, BMAX);
    assert CountUpTo(lens, 1) == CountUpTo(lens, 0) + CountLen(lens, 1);
    KraftGrows(lens, 1, BMAX);
    assert KraftUpTo(lens, 1) == KraftUpTo(lens, 0) + Shl(CountLen(lens, 1), 15);
    ShlGrows(2, CountLen(lens, 1), 15);
    ShlPow(1, 15);
    Pow2Of16();
    assert Pow2(1) == 2 by { PowOne(); }
  }

  lemma PowOne()
    ensures Pow2(1) == 2
  {
  }

  ghost predicate LengthsAgree(spec: LengthsRead, code: nat, lens: seq<nat>, rest: Bits) {
    match spec
    case GotLengths(ls, b) => (code == OK && lens == ls && rest == b) || (code == ENDED && b.n < 16)
    case NoLengths(Bad) => code == ERROR || code == ENDED
    case NoLengths(Ended) => code == ENDED
    case NoLengths(Undefined) => code == OK || code == ERROR || code == ENDED
  }

  /** The value of one table entry, and its bits dumped: j = (td = tl + (b & m))->b; DUMPBITS(j); j = td->v.n. */
  method ReadEntry(r: BitReader, mem: array<Huft>, tl: nat, m: nat, ghost written: set<nat>, ghost bl: seq<nat>)
    returns (code: nat, j: nat)
    requires r.Valid() && Tabled(mem[..], written, BitSet(bl), tl, m) && OneLevel(bl, m)
    modifies r
    ensures r.Valid() && (code == OK || code == ERROR || code == ENDED)
    ensures code == OK ==> r.Rest().n <= old(r.Rest()).n
    ensures match NextSymbol(bl, old(r.Rest()))
      case Symbol(s, rest) => (code == OK && j == s && r.Rest() == rest) || (code == ENDED && rest.n < 16)
      case NoSymbol(Bad) => code == ERROR || code == ENDED
      case NoSymbol(Ended) => code == ENDED
      case NoSymbol(Undefined) => true
  {
    hide Shl, Pow2, Shr, Low, Lookup, TablesDecode, Accepted, NextSymbol;
    ghost var b := r.Rest();
    ghost var f := Lookup(mem[..], tl, m, b.v);
    j := 0;
    SymbolLookup(mem[..], written, BitSet(bl), tl, m, b);
    EntryFound(mem[..], tl, m, bl, b, f);
    var ok := r.NeedBits(m);
    if !ok {
      return ENDED, j;
    }
    var a := tl + r.Mask(m);
    if a >= mem.Length || !(1 <= mem[a].b <= m) {
      return ERROR, j;
    }
    var td := mem[a];
    r.DumpBits(td.b);
    return OK, td.v;
  }

  /** In a set of codes no longer than the first table, the first entry is the one looked up. */
  lemma EntryFound(mem: seq<Huft>, t: nat, m: nat, bl: seq<nat>, b: Bits, f: Found)
    requires WfCodeSet(BitSet(bl)) && OneLevel(bl, m) && f == Lookup(mem, t, m, b.v) && FoundAgrees(BitSet(bl), b, f)
    requires NoCodes(bl) ==> m == 0
    ensures match NextSymbol(bl, b)
      case Symbol(s, rest) =>
        && t + Low(b.v, m) < |mem| && mem[t + Low(b.v, m)] == Huft(16, bl[s], s)
        && 1 <= bl[s] <= m && rest == Drop(b, bl[s])
      case NoSymbol(Bad) => m == 0
      case NoSymbol(Ended) => b.n < m
      case NoSymbol(Undefined) => true
  {
    hide Shl, Pow2, Shr, Low, Lookup;
    match NextSymbol(bl, b) {
      case Symbol(s, rest) =>
        FirstLevel(mem, t, m, b.v);
      case NoSymbol(Bad) =>
        BadMeansNoCode(bl, b);
      case NoSymbol(Ended) =>
      case NoSymbol(Undefined) =>
    }
  }

  /** while (j--) ll[i++] = x; */
  method Fill(ll: array<nat>, i0: nat, j0: nat, x: nat) returns (i: nat)
    requires i0 + j0 <= ll.Length
    modifies ll
    ensures i == i0 + j0 && ll[..i] == old(ll[..i0]) + Copies(j0, x)
  {
    i := i0;
    var j: nat := j0;
    while j != 0
      invariant j <= j0 && i == i0 + (j0 - j)
      invariant forall n :: 0 <= n < i0 ==> ll[n] == old(ll[n])
      invariant forall n :: i0 <= n < i ==> ll[n] == x
    {
      j := j - 1;
      ll[i] := x;
      i := i + 1;
    }
  }

  /** A repeat code: its extra bits, the check, and the copies. */
  method Repeat(r: BitReader, ll: array<nat>, i0: nat, n: nat, x: nat, least: nat, bits: nat)
    returns (code: nat, i: nat)
    requires r.Valid() && i0 <= n <= ll.Length && bits <= 16
    modifies r, ll
    ensures r.Valid() && (code == OK ==> i0 + least <= i <= n && r.Rest().n <= old(r.Rest()).n)
    ensures var spec := Repeated(old(ll[..i0]), n, x, least, bits, old(r.Rest()));
      LengthsAgree(spec, code, if i <= ll.Length then ll[..i] else [], r.Rest())
  {
    hide Shl, Pow2, Shr, Low;
    i := i0;
    var ok := r.NeedBits(bits);
    if !ok {
      return ENDED, i;
    }
    var j := least + r.Mask(bits);
    r.DumpBits(bits);
    if i + j > n {
      return ERROR, i;
    }
    i := Fill(ll, i, j, x);
    code := OK;
  }

  /** One turn of the loop: one bit length symbol. l is the last length. */
  method AddSymbol(r: BitReader, ll: array<nat>, i0: nat, n: nat, j: nat, l0: nat) returns (code: nat, i: nat, l: nat)
    requires r.Valid() && i0 < n <= ll.Length && Short15(ll[..i0]) && l0 == Last(ll[..i0])
    modifies r, ll
    ensures r.Valid() && (code == OK || code == ERROR || code == ENDED)
    ensures code == OK ==> i0 < i <= n && Short15(ll[..i]) && l == Last(ll[..i]) && r.Rest().n <= old(r.Rest()).n
    ensures j < 19 ==>
      var spec := AddLengths(old(ll[..i0]), n, j, old(r.Rest()));
      LengthsAgree(spec, code, if i <= ll.Length then ll[..i] else [], r.Rest())
  {
    hide Shl, Pow2, Shr, Low;
    ghost var before := ll[..i0];
    i, l := i0, l0;
    if j < 16 {
      ll[i] := j;
      l := j;
      i := i + 1;
      code := OK;
      assert ll[..i] == before + [j];
    } else if j == 16 {
      code, i := Repeat(r, ll, i, n, l, 3, 2);
    } else if j == 17 {
      code, i := Repeat(r, ll, i, n, 0, 3, 3);
      l := 0;
    } else {
      code, i := Repeat(r, ll, i, n, 0, 11, 7);
      l := 0;
    }
  }

  /** Read in literal and distance code lengths. */
  method ReadLengths(r: BitReader, mem: array<Huft>, ll: array<nat>, n: nat, tl: nat, m: nat, ghost written: set<nat>,
      ghost bl: seq<nat>)
    returns (code: nat)
    requires r.Valid() && Tabled(mem[..], written, BitSet(bl), tl, m) && OneLevel(bl, m) && n <= ll.Length
    modifies r, ll
    ensures r.Valid() && (code == OK || code == ERROR || code == ENDED) && (code == OK ==> Short15(ll[..n]))
    ensures LengthsAgree(Lengths(bl, n, [], old(r.Rest())), code, ll[..n], r.Rest())
    ensures code == OK ==> r.Rest().n <= old(r.Rest()).n
  {
    hide Shl, Pow2, Shr, Low, Tabled, Short15, NextSymbol, AddLengths;
    ghost var table := mem[..];
    var i, l := 0, 0;
    assert ll[..i] == [];
    NoLengthsYet();
    ghost var spec := Lengths(bl, n, [], r.Rest());
    while i < n
      invariant r.Valid() && 0 <= i <= n && mem[..] == table && Short15(ll[..i]) && l == Last(ll[..i])
      invariant r.Rest().n <= old(r.Rest()).n
      invariant spec == NoLengths(Undefined) || Lengths(bl, n, ll[..i], r.Rest()) == spec
    {
      var j;
      code, j := ReadEntry(r, mem, tl, m, written, bl);
      if code != OK {
        return;
      }
      code, i, l := AddSymbol(r, ll, i, n, j, l);
      if code != OK {
        return;
      }
    }
    code := OK;
  }

  lemma NoLengthsYet()
    ensures Short15([])
  {
  }

  // ----- the whole header

  ghost predicate CodesAgree(spec: CodesRead, code: nat, lit: seq<nat>, dist: seq<nat>, rest: Bits) {
    match spec
    case GotCodes(l, d, b) =>
      (code == OK && lit == l && dist == d && rest == b) || (code == ENDED && b.n < 16) || code == NO_MEMORY
    case NoCodesRead(Bad) => code != OK
    case NoCodesRead(Ended) => code == ENDED || code == NO_MEMORY
    case NoCodesRead(Undefined) => true
  }

  /** What huft_build left: the tables for both codes of a block. */
  datatype Tables = Tables(tl: nat, td: nat, bl: nat, bd: nat)

  /** The two code sets and the entries written for them, for the specification. */
  datatype Known = Known(lit: seq<nat>, dist: seq<nat>, wl: set<nat>, wd: set<nat>)

  ghost predicate Ready(mem: seq<Huft>, t: Tables, k: Known) {
    BothTabled(mem, k.wl, k.wd, k.lit, k.dist, t.tl, t.td, t.bl, t.bd)
  }

  /** Build the decoding tables for literal/length and distance codes. */
  method BuildBoth(mem: array<Huft>, hp0: nat, lit: seq<nat>, dist: seq<nat>, m1: nat, m2: nat)
    returns (code: nat, t: Tables, ghost k: Known)
    requires WfCodes(lit, dist) && 1 <= hp0 <= mem.Length && FitsWidth(lit, m1) && FitsWidth(dist, m2)
    modifies mem
    ensures code <= 3 && k.lit == lit && k.dist == dist
    ensures code == NO_MEMORY ==> hp0 + 2 * ENOUGH > mem.Length
    ensures code != NO_MEMORY ==> (code == OK <==> Accepted(lit) && Accepted(dist))
    ensures code == OK ==> Ready(mem[..], t, k)
  {
    hide Pow2, TablesDecode, Accepted, FitsWidth, WidthFor, NoCodes;
    t := Tables(NULL, NULL, m1, m2);
    ghost var wl, wd: set<nat> := {}, {};
    k := Known(lit, dist, {}, {});
    SetsAreWf(lit, dist);
    var tl, bl, hp;
    code, tl, bl, hp, wl := BuildTables(LitSet(lit), NULL, m1, mem, hp0);
    if code != OK {
      return;
    }
    ghost var after := mem[..];
    var td, bd, hp2;
    code, td, bd, hp2, wd := BuildTables(DistSet(dist), NULL, m2, mem, hp);
    if code != OK {
      return;
    }
    TabledStays(after, mem[..], wl, LitSet(lit), tl, bl, hp);
    t := Tables(tl, td, bl, bd);
    k := Known(lit, dist, wl, wd);
  }

  lemma SetsAreWf(lit: seq<nat>, dist: seq<nat>)
    requires WfCodes(lit, dist)
    ensures WfCodeSet(LitSet(lit)) && WfCodeSet(DistSet(dist)) && LitSet(lit).lens == lit && DistSet(dist).lens == dist
  {
    forall i | 0 <= i < |CPLEXT|
      ensures CPLEXT[i] <= 16 || CPLEXT[i] == UNUSED
    {
      if CPLEXT[i] != NEVER {
        LengthRange(i);
      }
    }
    forall i | 0 <= i < |CPDEXT|
      ensures CPDEXT[i] <= 16
    {
      DistanceRange(i);
    }
  }

  /** The numbers of literal/length, distance and bit length codes. */
  method ReadNumbers(r: BitReader) returns (ok: bool, nl: nat, nd: nat, nb: nat)
    requires r.Valid()
    modifies r
    ensures r.Valid() && (ok <==> old(r.Rest()).n >= 14)
    ensures ok ==> var b := old(r.Rest());
      && nl == 257 + Peek(b, 5) && nd == 1 + Peek(Drop(b, 5), 5) && nb == 4 + Peek(Drop(Drop(b, 5), 5), 4) <= 19
      && r.Rest() == Drop(Drop(Drop(b, 5), 5), 4)
  {
    hide Shl, Shr, Low;
    PowersToDistance();
    hide Pow2;
    nl, nd, nb := 0, 0, 0;
    ok := r.NeedBits(5);
    if !ok {
      return;
    }
    nl := 257 + r.Mask(5);
    r.DumpBits(5);
    ok := r.NeedBits(5);
    if !ok {
      return;
    }
    nd := 1 + r.Mask(5);
    r.DumpBits(5);
    ok := r.NeedBits(4);
    if !ok {
      return;
    }
    nb := 4 + r.Mask(4);
    r.DumpBits(4);
  }

  /** Build decoding table for trees--single level, 7 bit lookup, and read in the lengths with it. */
  method ReadLengthsWith(r: BitReader, mem: array<Huft>, hp0: nat, ll: array<nat>, n: nat, ghost bl: seq<nat>)
    returns (code: nat, hp: nat)
    requires r.Valid() && 1 <= hp0 <= mem.Length && n <= ll.Length && ll.Length >= 19 && bl == ll[..19]
    requires forall i :: 0 <= i < 19 ==> bl[i] <= 7
    modifies r, mem, ll
    ensures r.Valid() && code <= 4 && 1 <= hp <= mem.Length && hp <= hp0 + ENOUGH
    ensures code == NO_MEMORY ==> hp0 + ENOUGH > mem.Length
    ensures code == OK ==> Accepted(bl) && Short15(ll[..n]) && r.Rest().n <= old(r.Rest()).n
    ensures
      if Accepted(bl)
      then code == NO_MEMORY || LengthsAgree(Lengths(bl, n, [], old(r.Rest())), code, ll[..n], r.Rest())
      else code == 1 || code == 2 || code == NO_MEMORY
  {
    hide Shl, Pow2, Shr, Low, Accepted, Lengths, NextSymbol, FitsWidth, WidthFor, Tabled, OneLevel;
    BitSetFits(bl);
    var tl, m;
    ghost var written;
    code, tl, m, hp, written := BuildTables(BitSet(ll[..19]), NULL, 7, mem, hp0);
    if code != OK {
      return;
    }
    WideEnough(bl, m);
    code := ReadLengths(r, mem, ll, n, tl, m, written, bl);
  }

  lemma BitSetFits(bl: seq<nat>)
    requires |bl| == 19 && forall i :: 0 <= i < 19 ==> bl[i] <= 7
    ensures WfCodeSet(BitSet(bl)) && FitsWidth(bl, 7) && WfLens(bl) && BitSet(bl).lens == bl
  {
  }

  lemma LengthsFit(lens: seq<nat>, nl: nat)
    requires Short15(lens) && 257 <= nl <= 286 && nl < |lens| <= nl + 30
    ensures WfCodes(lens[..nl], lens[nl..]) && FitsWidth(lens[..nl], LBITS) && FitsWidth(lens[nl..], DBITS)
  {
    assert Pow2(5) == 32;
    Pow2Grows(5, DBITS);
  }

  const LBITS: nat := 9
  const DBITS: nat := 6

  /** Memory that is enough for the tables of any block. */
  const BLOCK_ENOUGH: nat := 3 * ENOUGH

  /** inflate_dynamic up to the decoding tables. */
  method ReadCodes(r: BitReader, mem: array<Huft>, hp0: nat) returns (code: nat, t: Tables, ghost k: Known)
    requires r.Valid() && 1 <= hp0 <= mem.Length
    modifies r, mem
    ensures r.Valid() && code <= 4 && (code == OK ==> Ready(mem[..], t, k) && r.Rest().n <= old(r.Rest()).n)
    ensures code == NO_MEMORY ==> hp0 + BLOCK_ENOUGH > mem.Length
    ensures CodesAgree(DynamicCodes(old(r.Rest())), code, k.lit, k.dist, r.Rest())
  {
    hide Shl, Pow2, Shr, Low, Accepted, NextSymbol, TablesDecode, BitLengths, Lengths, FitsWidth, Ready, WfLens,
        BitReader.Valid, BitReader.Rest;
    t, k := Tables(NULL, NULL, 0, 0), Known([], [], {}, {});
    var ok, nl, nd, nb := ReadNumbers(r);
    if !ok {
      return ENDED, t, k;
    }
    ghost var b := r.Rest();
    if nl > 286 || nd > 30 {
      return ERROR, t, k;
    }
    var ll := new nat[316];
    ok := ReadBitLengths(r, ll, nb);
    if !ok {
      return ENDED, t, k;
    }
    ghost var bl := ll[..19];
    var hp;
    code, hp := ReadLengthsWith(r, mem, hp0, ll, nl + nd, bl);
    if code != OK {
      return;
    }
    var lens := ll[..nl + nd];
    LengthsFit(lens, nl);
    assert lens[..nl] == ll[..nl] && lens[nl..] == ll[nl..nl + nd];
    code, t, k := BuildBoth(mem, hp, ll[..nl], ll[nl..nl + nd], LBITS, DBITS);
  }
}
