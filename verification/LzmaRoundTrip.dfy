/** The decoder reads what the encoder of module LzmaEncoder writes: the symbols of a stream, and its text. */
module LzmaRoundTrip {
  import opened Words
  import opened Lz77
  import opened RangeCoder
  import opened LzmaSymbol
  import opened LzmaRun
  import opened LzmaBits
  import opened LzmaDummy
  import opened LzmaModel
  import opened LzmaTheorems
  import E = LzmaEncoder

  // ----- decisions lead from node to node

  /** The decision is one for the bit that is read at the node. */
  ghost predicate Decides(ctx: Ctx, node: Node, d: E.Decision, numProbs: nat)
    requires WfCtx(ctx, numProbs) && Wf(node) && !node.Done?
  {
    d.bit <= 1 && if node.AtDirect? then d.Direct? else d.Model? && d.slot == Slot(ctx, node, numProbs)
  }

  ghost predicate Leads(ctx: Ctx, node: Node, ds: seq<E.Decision>, node2: Node, numProbs: nat)
    requires WfCtx(ctx, numProbs) && Wf(node)
    decreases |ds|
  {
    if ds == [] then node == node2
    else
      && !node.Done? && Decides(ctx, node, ds[0], numProbs)
      && Leads(ctx, Next(ctx, node, ds[0].bit), ds[1..], node2, numProbs)
  }

  lemma {:induction false} LeadsOn(ctx: Ctx, a: Node, xs: seq<E.Decision>, b: Node, ys: seq<E.Decision>, c: Node,
      numProbs: nat)
    requires WfCtx(ctx, numProbs) && Wf(a) && Wf(b) && Leads(ctx, a, xs, b, numProbs) && Leads(ctx, b, ys, c, numProbs)
    ensures Leads(ctx, a, xs + ys, c, numProbs)
    decreases |xs|
  {
    if xs == [] {
      assert xs + ys == ys;
    } else {
      LeadsOn(ctx, Next(ctx, a, xs[0].bit), xs[1..], b, ys, c, numProbs);
      assert (xs + ys)[0] == xs[0] && (xs + ys)[1..] == xs[1..] + ys;
    }
  }

  lemma LeadsFirst(ctx: Ctx, node: Node, d: E.Decision, ds: seq<E.Decision>, node2: Node, numProbs: nat)
    requires WfCtx(ctx, numProbs) && Wf(node) && !node.Done? && Decides(ctx, node, d, numProbs)
    requires Leads(ctx, Next(ctx, node, d.bit), ds, node2, numProbs)
    ensures Leads(ctx, node, [d] + ds, node2, numProbs)
  {
    hide Next, Slot;
    assert ([d] + ds)[1..] == ds;
  }

  lemma LeadsNowhere(ctx: Ctx, node: Node, numProbs: nat)
    requires WfCtx(ctx, numProbs) && Wf(node)
    ensures Leads(ctx, node, [], node, numProbs)
  {
  }

  lemma OneLeads(ctx: Ctx, node: Node, d: E.Decision, numProbs: nat)
    requires WfCtx(ctx, numProbs) && Wf(node) && !node.Done? && Decides(ctx, node, d, numProbs)
    ensures Leads(ctx, node, [d], Next(ctx, node, d.bit), numProbs)
  {
    hide Next, Slot;
    assert [d][1..] == [];
  }

  // ----- the range coder

  ghost predicate SameProbs(probs: seq<Prob>, ps: E.Probs) {
    forall i :: 0 <= i < |probs| ==> probs[i] == E.ProbOf(ps, i)
  }

  /** The state of a decoder that is about to read what is encoded from here on. */
  function Held(ds: seq<E.Decision>, ps: E.Probs, range: nat, tail: seq<Byte>): (rc: Rc)
    requires 0x1_0000 <= range < U32
    ensures Usable(rc) && rc.code < range == rc.range
  {
    var s := E.Send(ds, ps, range);
    Rc(range, s.code, s.rest + tail)
  }

  lemma HeldNormalize(ds: seq<E.Decision>, ps: E.Probs, range: nat, tail: seq<Byte>)
    requires 0x1_0000 <= range < TOP
    ensures var rc := Held(ds, ps, range, tail); !Starved(rc) && Normalize(rc) == Held(ds, ps, range * 256, tail)
  {
    var s := E.Send(ds, ps, range * 256);
    assert ([s.code % 256] + s.rest + tail)[1..] == s.rest + tail;
  }

  lemma HeldDirect(ds: seq<E.Decision>, ps: E.Probs, range: nat, tail: seq<Byte>)
    requires TOP <= range < U32 && ds != [] && ds[0].Direct? && ds[0].bit <= 1
    ensures var rc := Held(ds, ps, range, tail);
      DirectBit(rc) == ds[0].bit && AfterDirect(rc) == Held(ds[1..], ps, range / 2, tail)
  {
  }

  lemma HeldModel(ds: seq<E.Decision>, ps: E.Probs, range: nat, tail: seq<Byte>) returns (ps2: E.Probs)
    requires TOP <= range < U32 && ds != [] && ds[0].Model? && ds[0].bit <= 1
    ensures var rc, p := Held(ds, ps, range, tail), E.ProbOf(ps, ds[0].slot);
      && BitOf(rc, p) == ds[0].bit && ps2 == ps[ds[0].slot := Adapt(p, ds[0].bit)]
      && AfterBit(rc, p) == Held(ds[1..], ps2, AfterBit(rc, p).range, tail)
  {
    var p := E.ProbOf(ps, ds[0].slot);
    ps2 := ps[ds[0].slot := Adapt(p, ds[0].bit)];
    assert E.PartOf(range, p) == Bound(Held(ds, ps, range, tail), p);
    hide E.PartOf;
  }

  lemma WalkDirect(ctx: Ctx, node: Node, ds: seq<E.Decision>, probs: seq<Prob>, ps: E.Probs, range: nat,
      tail: seq<Byte>)
    requires WfCtx(ctx, |probs|) && Wf(node) && node.AtDirect? && ds != [] && Decides(ctx, node, ds[0], |probs|)
    requires TOP <= range < U32
    ensures Real(ctx, node, probs, Held(ds, ps, range, tail))
         == Real(ctx, Next(ctx, node, ds[0].bit), probs, Held(ds[1..], ps, range / 2, tail))
  {
    HeldDirect(ds, ps, range, tail);
    var rc := Held(ds, ps, range, tail);
    assert Normalize(rc) == rc && !Starved(rc);
    hide Real, Held, Next;
    DirectStep(ctx, node, probs, rc);
  }

  lemma WalkModel(ctx: Ctx, node: Node, ds: seq<E.Decision>, probs: seq<Prob>, ps: E.Probs, range: nat,
      tail: seq<Byte>)
    returns (probs1: seq<Prob>, ps1: E.Probs, range1: nat)
    requires WfCtx(ctx, |probs|) && Wf(node) && ReadsSlot(node) && ds != [] && Decides(ctx, node, ds[0], |probs|)
    requires SameProbs(probs, ps) && TOP <= range < U32
    ensures SameProbs(probs1, ps1) && |probs1| == |probs| && 0x1_0000 <= range1 < U32
    ensures Real(ctx, node, probs, Held(ds, ps, range, tail))
         == Real(ctx, Next(ctx, node, ds[0].bit), probs1, Held(ds[1..], ps1, range1, tail))
  {
    var slot, rc := ds[0].slot, Held(ds, ps, range, tail);
    ps1 := HeldModel(ds, ps, range, tail);
    assert Normalize(rc) == rc && !Starved(rc);
    hide Real, Held, Next, Slot, AfterBit, Adapt;
    var p := probs[slot];
    RealStep(ctx, node, probs, rc, slot);
    probs1, range1 := probs[slot := Adapt(p, ds[0].bit)], AfterBit(rc, p).range;
  }

  /** A walk over encoded decisions makes these decisions. */
  lemma {:induction false} WalkDecodes(ctx: Ctx, node: Node, ds: seq<E.Decision>, sym: Sym, more: seq<E.Decision>,
      probs: seq<Prob>, ps: E.Probs, range: nat, tail: seq<Byte>)
    returns (probs2: seq<Prob>, ps2: E.Probs, range2: nat)
    requires WfCtx(ctx, |probs|) && Wf(node) && Leads(ctx, node, ds, Done(sym), |probs|)
    requires SameProbs(probs, ps) && 0x1_0000 <= range < U32
    ensures SameProbs(probs2, ps2) && |probs2| == |probs| && TOP <= range2 < U32
    ensures Real(ctx, node, probs, Held(ds + more, ps, range, tail)) == End(sym, probs2, Held(more, ps2, range2, tail))
    decreases |ds|, range < TOP
  {
    var rc := Held(ds + more, ps, range, tail);
    if range < TOP {
      HeldNormalize(ds + more, ps, range, tail);
      NormalizeEarly(ctx, node, probs, rc);
      probs2, ps2, range2 := WalkDecodes(ctx, node, ds, sym, more, probs, ps, range * 256, tail);
    } else if ds == [] {
      assert ds + more == more;
      probs2, ps2, range2 := probs, ps, range;
    } else {
      assert (ds + more)[0] == ds[0] && (ds + more)[1..] == ds[1..] + more;
      hide Real, Held, Next, Slot, SameProbs, AfterBit, Decides;
      if node.AtDirect? {
        WalkDirect(ctx, node, ds + more, probs, ps, range, tail) by { assert Decides(ctx, node, ds[0], |probs|); }
        probs2, ps2, range2 :=
          WalkDecodes(ctx, Next(ctx, node, ds[0].bit), ds[1..], sym, more, probs, ps, range / 2, tail);
      } else {
        var probs1, ps1, range1 := WalkModel(ctx, node, ds + more, probs, ps, range, tail);
        probs2, ps2, range2 :=
          WalkDecodes(ctx, Next(ctx, node, ds[0].bit), ds[1..], sym, more, probs1, ps1, range1, tail);
      }
    }
  }

  // ----- trees

  /** The place m, with the n bits of v to come, leads to the leaf x of a tree of top leaves. */
  ghost predicate InTree(m: nat, n: nat, v: nat, top: nat, x: nat) {
    v < Pow2(n) && top <= m * Pow2(n) && (m + 1) * Pow2(n) <= 2 * top && top + x == m * Pow2(n) + v
  }

  lemma TreeRoot(n: nat, v: nat)
    requires v < Pow2(n)
    ensures InTree(1, n, v, Pow2(n), v)
  {
  }

  lemma TreeLeaf(m: nat, v: nat, top: nat, x: nat)
    requires InTree(m, 0, v, top, x)
    ensures m == top + x && x < top
  {
    assert Pow2(0) == 1;
  }

  /** One bit further down. */
  lemma TreeDown(m: nat, n: nat, v: nat, top: nat, x: nat) returns (bit: nat, v2: nat)
    requires InTree(m, n, v, top, x) && n >= 1
    ensures bit <= 1 && v == bit * Pow2(n - 1) + v2 && v2 < Pow2(n - 1)
    ensures InTree(2 * m + bit, n - 1, v2, top, x) && m < top && x < top
  {
    var h := Pow2(n - 1);
    assert Pow2(n) == 2 * h;
    hide Pow2;
    bit, v2 := if v < h then 0 else 1, if v < h then v else v - h;
    TreeArithmetic(m, h, bit);
  }

  lemma TreeArithmetic(m: nat, h: nat, bit: nat)
    requires h >= 1 && bit <= 1
    ensures (2 * m + bit) * h == m * (2 * h) + bit * h
    ensures (2 * m + bit + 1) * h <= (m + 1) * (2 * h)
    ensures (m + 1) * (2 * h) == m * (2 * h) + 2 * h
    ensures 2 * m <= m * (2 * h)
  {
    Distributes(2 * m, bit, h);
    Distributes(2 * m + bit, 1, h);
    Distributes(m, 1, 2 * h);
    assert m * h >= m;
    assert m * (2 * h) == 2 * m * h;
  }

  lemma TreeBit(base: nat, m: nat, n: nat, v: nat, bit: nat, v2: nat)
    requires n >= 1 && bit <= 1 && v == bit * Pow2(n - 1) + v2 && v2 < Pow2(n - 1)
    ensures E.Tree(base, m, n, v) == [E.Model(base + m, bit)] + E.Tree(base, 2 * m + bit, n - 1, v2)
  {
    hide Pow2;
    assert bit == if v < Pow2(n - 1) then 0 else 1;
  }

  lemma NoBits(base: nat, m: nat, v: nat)
    ensures E.Tree(base, m, 0, v) == []
  {
  }

  lemma {:induction false} LitTree(ctx: Ctx, m: nat, n: nat, v: nat, x: nat, numProbs: nat)
    requires WfCtx(ctx, numProbs) && InTree(m, n, v, 256, x) && m >= 1
    ensures x < 256 && Leads(ctx, LitFrom(m), E.Tree(ctx.litBase, m, n, v), Done(Lit(x)), numProbs)
    decreases n
  {
    hide Leads, E.Tree, Pow2, InTree;
    if n == 0 {
      TreeLeaf(m, v, 256, x);
      NoBits(ctx.litBase, m, v);
      LeadsNowhere(ctx, LitFrom(m), numProbs);
    } else {
      var bit, v2 := TreeDown(m, n, v, 256, x);
      TreeBit(ctx.litBase, m, n, v, bit, v2);
      LitTree(ctx, 2 * m + bit, n - 1, v2, x, numProbs);
      LeadsFirst(ctx, AtLit(m), E.Model(ctx.litBase + m, bit), E.Tree(ctx.litBase, 2 * m + bit, n - 1, v2),
                 Done(Lit(x)), numProbs);
    }
  }

  lemma {:induction false} LenTree(ctx: Ctx, kind: LenKind, part: nat, m: nat, n: nat, v: nat, x: nat, numProbs: nat)
    requires WfCtx(ctx, numProbs) && WfKind(kind) && part <= 2
    requires InTree(m, n, v, LenLimit(part), x) && 1 <= m < 2 * LenLimit(part)
    ensures x < LenLimit(part)
    ensures Leads(ctx, LenTreeFrom(kind, part, m), E.Tree(LenTreeBase(ctx, kind, part), m, n, v),
                  AfterLen(kind, x + LenOffset(part)), numProbs)
    decreases n
  {
    hide Leads, E.Tree, Pow2, InTree;
    var base := LenTreeBase(ctx, kind, part);
    if n == 0 {
      TreeLeaf(m, v, LenLimit(part), x);
      NoBits(base, m, v);
      LeadsNowhere(ctx, LenTreeFrom(kind, part, m), numProbs);
    } else {
      var bit, v2 := TreeDown(m, n, v, LenLimit(part), x);
      TreeBit(base, m, n, v, bit, v2);
      LenTree(ctx, kind, part, 2 * m + bit, n - 1, v2, x, numProbs);
      LeadsFirst(ctx, AtLenTree(kind, part, m), E.Model(base + m, bit), E.Tree(base, 2 * m + bit, n - 1, v2),
                 AfterLen(kind, x + LenOffset(part)), numProbs);
    }
  }

  lemma {:induction false} SlotTree(ctx: Ctx, len: nat, m: nat, n: nat, v: nat, x: nat, numProbs: nat)
    requires WfCtx(ctx, numProbs) && len <= 271 && InTree(m, n, v, 64, x) && 1 <= m < 128
    ensures x < 64
    ensures Leads(ctx, PosSlotFrom(len, m), E.Tree(PosSlotBase(len), m, n, v), AfterPosSlot(len, x), numProbs)
    decreases n
  {
    hide Leads, E.Tree, Pow2, InTree, AfterPosSlot;
    var base := PosSlotBase(len);
    if n == 0 {
      TreeLeaf(m, v, 64, x);
      NoBits(base, m, v);
      LeadsNowhere(ctx, PosSlotFrom(len, m), numProbs);
    } else {
      var bit, v2 := TreeDown(m, n, v, 64, x);
      TreeBit(base, m, n, v, bit, v2);
      SlotTree(ctx, len, 2 * m + bit, n - 1, v2, x, numProbs);
      LeadsFirst(ctx, AtPosSlot(len, m), E.Model(base + m, bit), E.Tree(base, 2 * m + bit, n - 1, v2),
                 AfterPosSlot(len, x), numProbs);
    }
  }

  /** What the decoder finds out about the byte that the match would have gone on with. */
  lemma MatchedBit(mb: nat, n: nat, w: nat) returns (other: nat, w2: nat)
    requires 1 <= n <= 8 && w < Pow2(n) && mb % 256 == w * Pow2(8 - n)
    ensures other <= 1 && w == other * Pow2(n - 1) + w2 && w2 < Pow2(n - 1)
    ensures mb * 2 / 256 % 2 == other && mb * 2 % 256 == w2 * Pow2(9 - n)
  {
    hide Pow2;
    Halving(n);
    other, w2 := TopBit(mb, Pow2(n - 1), Pow2(8 - n), w);
  }

  lemma Halving(n: nat)
    requires 1 <= n <= 8
    ensures Pow2(n) == 2 * Pow2(n - 1) && Pow2(9 - n) == 2 * Pow2(8 - n) && Pow2(n - 1) * Pow2(8 - n) == 128
  {
    Pow2Adds(n - 1, 8 - n);
    assert Pow2(7) == 128;
  }

  lemma TopBit(mb: nat, half: nat, unit: nat, w: nat) returns (other: nat, w2: nat)
    requires half * unit == 128 && w < 2 * half && mb % 256 == w * unit
    ensures other <= 1 && w == other * half + w2 && w2 < half
    ensures mb * 2 / 256 % 2 == other && mb * 2 % 256 == w2 * (2 * unit)
  {
    other, w2 := if w < half then 0 else 1, if w < half then w else w - half;
    Distributes(other * half, w2, unit);
    StrictlyLess(w2, half, unit);
    TopOfByte(mb, other, w2 * unit);
    Doubled(w2, unit);
  }

  lemma Distributes(a: nat, b: nat, c: nat)
    ensures (a + b) * c == a * c + b * c
  {
  }

  lemma Doubled(a: nat, b: nat)
    ensures a * (2 * b) == 2 * (a * b)
  {
  }

  lemma StrictlyLess(a: nat, b: nat, c: nat)
    requires a < b && c > 0
    ensures a * c < b * c
  {
  }

  lemma TopOfByte(mb: nat, other: nat, low: nat)
    requires other <= 1 && low < 128 && mb % 256 == 128 * other + low
    ensures mb * 2 / 256 % 2 == other && mb * 2 % 256 == 2 * low
  {
    var q := mb / 256;
    assert mb * 2 == 256 * (2 * q + other) + 2 * low;
    DivUnique(mb * 2, 256, 2 * q + other, 2 * low);
  }

  lemma {:induction false} MatchedTree(ctx: Ctx, m: nat, n: nat, v: nat, x: nat, w: nat, mb: nat, same: bool,
      numProbs: nat)
    requires WfCtx(ctx, numProbs) && InTree(m, n, v, 256, x) && m >= 1
    requires n <= 8 && w < Pow2(n) && mb % 256 == w * Pow2(8 - n)
    ensures x < 256
    ensures Leads(ctx, MatchedLitFrom(m, if same then 256 else 0, mb),
                  E.MatchedTree(ctx.litBase, m, n, v, w, same), Done(Lit(x)), numProbs)
    decreases n
  {
    hide Leads, E.MatchedTree, Pow2, InTree, Slot, Next;
    var offs := if same then 256 else 0;
    if n == 0 {
      TreeLeaf(m, v, 256, x);
      NoMatchedBits(ctx.litBase, m, v, w, same);
      LeadsNowhere(ctx, MatchedLitFrom(m, offs, mb), numProbs);
    } else {
      var bit, v2 := TreeDown(m, n, v, 256, x);
      var other, w2 := MatchedBit(mb, n, w);
      MatchedTree(ctx, 2 * m + bit, n - 1, v2, x, w2, mb * 2, same && bit == other, numProbs);
      var d := E.Model(ctx.litBase + (if same then 256 * (1 + other) else 0) + m, bit);
      MatchedTreeBit(ctx.litBase, m, n, v, w, same, bit, other, v2, w2);
      MatchedNode(ctx, m, mb, same, bit, other, numProbs);
      LeadsFirst(ctx, AtMatchedLit(m, offs, mb), d,
                 E.MatchedTree(ctx.litBase, 2 * m + bit, n - 1, v2, w2, same && bit == other), Done(Lit(x)), numProbs);
    }
  }

  lemma MatchedNode(ctx: Ctx, m: nat, mb: nat, same: bool, bit: nat, other: nat, numProbs: nat)
    requires WfCtx(ctx, numProbs) && 1 <= m < 256 && bit <= 1 && other <= 1 && mb * 2 / 256 % 2 == other
    ensures var node := AtMatchedLit(m, if same then 256 else 0, mb);
      && Wf(node)
      && Slot(ctx, node, numProbs) == ctx.litBase + (if same then 256 * (1 + other) else 0) + m
      && Next(ctx, node, bit) == MatchedLitFrom(2 * m + bit, if same && bit == other then 256 else 0, mb * 2)
  {
  }

  lemma NoMatchedBits(base: nat, m: nat, v: nat, w: nat, same: bool)
    ensures E.MatchedTree(base, m, 0, v, w, same) == []
  {
  }

  lemma MatchedTreeBit(base: nat, m: nat, n: nat, v: nat, w: nat, same: bool, bit: nat, other: nat, v2: nat, w2: nat)
    requires n >= 1 && bit <= 1 && other <= 1
    requires v == bit * Pow2(n - 1) + v2 && v2 < Pow2(n - 1) && w == other * Pow2(n - 1) + w2 && w2 < Pow2(n - 1)
    ensures E.MatchedTree(base, m, n, v, w, same) ==
      [E.Model(base + (if same then 256 * (1 + other) else 0) + m, bit)]
      + E.MatchedTree(base, 2 * m + bit, n - 1, v2, w2, same && bit == other)
  {
    var half := Pow2(n - 1);
    hide Pow2;
    assert bit == if v < half then 0 else 1;
    assert other == if w < half then 0 else 1;
  }

  lemma ReverseBit(base: nat, m: nat, n: nat, v: nat)
    requires n >= 1
    ensures E.ReverseTree(base, m, n, v)
         == [E.Model(base + m, v % 2)] + E.ReverseTree(base, 2 * m + v % 2, n - 1, v / 2)
    ensures v < Pow2(n) ==> v / 2 < Pow2(n - 1)
  {
  }

  lemma NoReverseBits(base: nat, m: nat, v: nat)
    ensures E.ReverseTree(base, m, 0, v) == [] && Pow2(0) == 1
  {
  }

  lemma NextMask(dist: nat, mask: nat, v: nat, x: nat)
    requires x == dist + mask * v
    ensures x == (if v % 2 == 0 then dist else dist + mask) + 2 * mask * (v / 2)
  {
    var r, q := v % 2, v / 2;
    assert v == r + 2 * q;
    MaskTimes(mask, r, q);
  }

  lemma MaskTimes(mask: nat, r: nat, q: nat)
    requires r <= 1
    ensures mask * (r + 2 * q) == (if r == 0 then 0 else mask) + 2 * mask * q
  {
    Distributes(r, 2 * q, mask);
    Doubled(mask, q);
  }

  lemma {:induction false} RevTree(ctx: Ctx, len: nat, posSlot: nat, mask: nat, n: nat, i: nat, dist: nat, v: nat,
      x: nat, base: nat, numProbs: nat)
    requires WfCtx(ctx, numProbs) && len <= 271 && ReverseAt(posSlot, mask, n, i, dist)
    requires v < Pow2(n) && x == dist + mask * v
    requires base == if posSlot < 14 then SPEC_POS + SpecBase(posSlot) - posSlot - 1 else ALIGN
    ensures x < U32
    ensures Leads(ctx, ReverseFrom(len, posSlot, mask, i, dist), E.ReverseTree(base, i, n, v), Done(Match(len, x)),
                  numProbs)
    decreases n
  {
    hide Leads, E.ReverseTree, Pow2, Next, Slot, SpecBase, SpecSize;
    ReverseNode(ctx, len, posSlot, mask, n, i, dist, numProbs);
    var node := ReverseFrom(len, posSlot, mask, i, dist);
    NoReverseBits(base, i, v);
    if n == 0 {
      assert v == 0;
      LeadsNowhere(ctx, node, numProbs);
    } else {
      var bit, dist2 := v % 2, if v % 2 == 0 then dist else dist + mask;
      ReverseBit(base, i, n, v);
      ReverseStep(ctx, len, posSlot, mask, n, i, dist, bit);
      NextMask(dist, mask, v, x);
      hide ReverseFrom, ReverseAt;
      RevTree(ctx, len, posSlot, 2 * mask, n - 1, 2 * i + bit, dist2, v / 2, x, base, numProbs);
      LeadsFirst(ctx, node, E.Model(base + i, bit), E.ReverseTree(base, 2 * i + bit, n - 1, v / 2),
                 Done(Match(len, x)), numProbs);
    }
  }

  lemma FirstDirectBit(n: nat, dist: nat, v: nat, x: nat) returns (bit: nat, v2: nat)
    requires n >= 1 && v < Pow2(n) && x == dist * Pow2(n) + v
    ensures bit <= 1 && v2 < Pow2(n - 1) && x == (2 * dist + bit) * Pow2(n - 1) + v2
    ensures E.DirectBits(n, v) == [E.Direct(bit)] + E.DirectBits(n - 1, v2)
  {
    var h := Pow2(n - 1);
    assert Pow2(n) == 2 * h;
    hide Pow2;
    bit, v2 := if v < h then 0 else 1, if v < h then v else v - h;
    TreeArithmetic(dist, h, bit);
  }

  lemma {:induction false} DirectRun(ctx: Ctx, len: nat, left: nat, dist: nat, v: nat, x: nat, numProbs: nat)
    requires WfCtx(ctx, numProbs) && len <= 271 && 1 <= left <= 26
    requires v < Pow2(left) && x == dist * Pow2(left) + v && (dist + 1) * Pow2(left) <= 0x1000_0000
    ensures x < 0x1000_0000
    ensures Leads(ctx, AtDirect(len, left, dist), E.DirectBits(left, v), AtAlign(len, 1, 1, x * 16), numProbs)
    decreases left
  {
    hide Leads, E.DirectBits, Pow2;
    Distributes(dist, 1, Pow2(left));
    var bit, v2 := FirstDirectBit(left, dist, v, x);
    DirectRoom(left, dist, bit);
    if left == 1 {
      NoDirectBits(v2);
      assert Pow2(0) == 1 by { One(); }
      LeadsNowhere(ctx, AtAlign(len, 1, 1, x * 16), numProbs);
    } else {
      DirectRun(ctx, len, left - 1, 2 * dist + bit, v2, x, numProbs);
    }
    LeadsFirst(ctx, AtDirect(len, left, dist), E.Direct(bit), E.DirectBits(left - 1, v2),
               AtAlign(len, 1, 1, x * 16), numProbs);
  }

  lemma One()
    ensures Pow2(0) == 1
  {
  }

  lemma NoDirectBits(v: nat)
    ensures E.DirectBits(0, v) == []
  {
  }

  // ----- lengths

  /** The one or two bits that choose the tree. */
  lemma LenChoice(ctx: Ctx, kind: LenKind, part: nat, tree: seq<E.Decision>, end: Node, numProbs: nat)
    requires WfCtx(ctx, numProbs) && WfKind(kind) && part <= 2
    requires Leads(ctx, AtLenTree(kind, part, 1), tree, end, numProbs)
    ensures var base := LenBase(kind);
      Leads(ctx, AtLenChoice(kind),
            (if part == 0 then [E.Model(base, 0)] else [E.Model(base, 1), E.Model(base + 1, part - 1)]) + tree, end,
            numProbs)
  {
    hide Leads;
    var base := LenBase(kind);
    if part == 0 {
      LeadsFirst(ctx, AtLenChoice(kind), E.Model(base, 0), tree, end, numProbs);
    } else {
      var second := E.Model(base + 1, part - 1);
      LeadsFirst(ctx, AtLenChoice2(kind), second, tree, end, numProbs);
      LeadsFirst(ctx, AtLenChoice(kind), E.Model(base, 1), [second] + tree, end, numProbs);
      assert [E.Model(base, 1), second] + tree == [E.Model(base, 1)] + ([second] + tree);
    }
  }

  lemma LenLeads(ctx: Ctx, kind: LenKind, len: nat, numProbs: nat)
    requires WfCtx(ctx, numProbs) && WfKind(kind) && 2 <= len <= 273
    ensures Leads(ctx, AtLenChoice(kind), E.LenBits(LenBase(kind), ctx.posState, len), AfterLen(kind, len - 2),
                  numProbs)
  {
    hide Leads, E.Tree, AfterLen, E.LenBits;
    var part := if len < 10 then 0 else if len < 18 then 1 else 2;
    var n, v := if part < 2 then 3 else 8, len - 2 - LenOffset(part);
    assert Pow2(3) == 8 && Pow2(8) == 256;
    TreeRoot(n, v);
    LenTree(ctx, kind, part, 1, n, v, v, numProbs);
    LenChoice(ctx, kind, part, E.Tree(LenTreeBase(ctx, kind, part), 1, n, v), AfterLen(kind, len - 2), numProbs);
    LenBitsAre(ctx, kind, len, part, n, v);
  }

  lemma LenBitsAre(ctx: Ctx, kind: LenKind, len: nat, part: nat, n: nat, v: nat)
    requires 2 <= len <= 273 && part == if len < 10 then 0 else if len < 18 then 1 else 2
    requires n == (if part < 2 then 3 else 8) && v == len - 2 - LenOffset(part)
    ensures var base := LenBase(kind);
      E.LenBits(base, ctx.posState, len)
      == (if part == 0 then [E.Model(base, 0)] else [E.Model(base, 1), E.Model(base + 1, part - 1)])
         + E.Tree(LenTreeBase(ctx, kind, part), 1, n, v)
  {
    hide E.Tree;
  }

  // ----- distances

  /** The highest one bit. */
  lemma {:induction false} Log2Bounds(d: nat)
    requires d >= 1
    ensures Pow2(E.Log2(d)) <= d < 2 * Pow2(E.Log2(d))
    ensures d >= 2 ==> E.Log2(d) >= 1
  {
    if d >= 2 {
      Log2Bounds(d / 2);
    }
  }

  lemma {:induction false} Log2AtMost(d: nat, n: nat)
    requires n >= 1 && d < Pow2(n)
    ensures E.Log2(d) < n
  {
    if d >= 2 {
      Log2AtMost(d / 2, n - 1);
    }
  }

  lemma Log2Range(d: nat)
    requires 4 <= d < U32
    ensures 2 <= E.Log2(d) <= 31
  {
    Pow2Of32();
    Log2AtMost(d, 32);
    assert E.Log2(d) == 1 + E.Log2(d / 2) == 2 + E.Log2(d / 2 / 2);
  }

  /** Below its slot's base d has only the low bits. */
  lemma SlotBounds(d: nat)
    requires 4 <= d < U32
    ensures 4 <= E.SlotOf(d) < 64
    ensures
      var slot := E.SlotOf(d);
      var n := slot / 2 - 1;
      var base := (2 + slot % 2) * Pow2(n);
      base <= d < base + Pow2(n)
  {
    Log2Range(d);
    Log2Bounds(d);
    var k := E.Log2(d);
    var h := Pow2(k - 1);
    assert Pow2(k) == 2 * h;
    hide Pow2, E.Log2;
    var odd := if d < 3 * h then 0 else 1;
    assert E.SlotOf(d) == 2 * k + odd;
    hide E.SlotOf;
    HalfAndRest(k, odd);
  }

  lemma HalfAndRest(k: nat, odd: nat)
    requires odd <= 1
    ensures (2 * k + odd) / 2 == k && (2 * k + odd) % 2 == odd
  {
  }

  lemma SlotLeads(ctx: Ctx, len: nat, slot: nat, numProbs: nat)
    requires WfCtx(ctx, numProbs) && 2 <= len <= 273 && slot < 64
    ensures Leads(ctx, AtPosSlot(len - 2, 1), E.Tree(432 + 64 * (if len < 5 then len - 2 else 3), 1, 6, slot),
                  AfterPosSlot(len - 2, slot), numProbs)
  {
    hide Leads, E.Tree, AfterPosSlot;
    assert Pow2(6) == 64;
    TreeRoot(6, slot);
    SlotTree(ctx, len - 2, 1, 6, slot, slot, numProbs);
  }

  lemma SpecSlot(n: nat, odd: nat)
    requires 1 <= n <= 5 && odd <= 1
    ensures var slot := 2 * n + 2 + odd;
      && 4 <= slot < 14 && slot / 2 - 1 == n && slot % 2 == odd
      && SpecSize(slot) == Pow2(n) && SpecBase(slot) == (2 + odd) * Pow2(n)
  {
    SpecSizeIsPower(2 * n + 2 + odd);
  }

  lemma SpecLeads(ctx: Ctx, len: nat, n: nat, odd: nat, base: nat, low: nat, numProbs: nat)
    requires WfCtx(ctx, numProbs) && len <= 271 && 1 <= n <= 5 && odd <= 1
    requires low < Pow2(n) && base == (2 + odd) * Pow2(n) && base + low < U32
    ensures Leads(ctx, AfterPosSlot(len, 2 * n + 2 + odd),
                  E.ReverseTree(688 + base - (2 * n + 2 + odd) - 1, 1, n, low), Done(Match(len, base + low)), numProbs)
  {
    hide Leads, E.ReverseTree, Pow2, SpecBase, SpecSize;
    var slot := 2 * n + 2 + odd;
    SpecSlot(n, odd);
    RevTree(ctx, len, slot, 1, n, 1, base, low, base + low, 688 + base - slot - 1, numProbs);
  }

  lemma AlignLeads(ctx: Ctx, len: nat, x: nat, low: nat, numProbs: nat)
    requires WfCtx(ctx, numProbs) && len <= 271 && x < 0x1000_0000 && low < 16
    ensures Leads(ctx, AtAlign(len, 1, 1, x * 16), E.ReverseTree(802, 1, 4, low), Done(Match(len, x * 16 + low)),
                  numProbs)
  {
    hide Leads, E.ReverseTree;
    assert Pow2(4) == 16;
    RevTree(ctx, len, 14, 1, 4, 1, x * 16, low, x * 16 + low, 802, numProbs);
  }

  lemma SixteenTimes(n: nat, odd: nat, low: nat) returns (x: nat)
    requires n >= 4 && odd <= 1 && low < Pow2(n)
    ensures low / 16 < Pow2(n - 4) && x == (2 + odd) * Pow2(n - 4) + low / 16
    ensures x * 16 + low % 16 == (2 + odd) * Pow2(n) + low
    ensures (2 + odd + 1) * Pow2(n - 4) <= 4 * Pow2(n - 4)
  {
    Pow2Adds(4, n - 4);
    assert Pow2(4) == 16;
    hide Pow2;
    x := AlignedPart(Pow2(n - 4), odd, low);
  }

  lemma AlignedPart(h: nat, odd: nat, low: nat) returns (x: nat)
    requires odd <= 1 && low < 16 * h
    ensures low / 16 < h && x == (2 + odd) * h + low / 16
    ensures x * 16 + low % 16 == (2 + odd) * (16 * h) + low
    ensures (2 + odd + 1) * h <= 4 * h
  {
    x := (2 + odd) * h + low / 16;
    Distributes(2, odd, h);
    Distributes(2, odd, 16 * h);
    assert odd * (16 * h) == 16 * (odd * h);
  }

  lemma DirectLeads(ctx: Ctx, len: nat, n: nat, odd: nat, base: nat, low: nat, numProbs: nat)
    requires WfCtx(ctx, numProbs) && len <= 271 && 6 <= n <= 30 && odd <= 1
    requires low < Pow2(n) && base == (2 + odd) * Pow2(n) && base + low < U32
    ensures Leads(ctx, AfterPosSlot(len, 2 * n + 2 + odd),
                  E.DirectBits(n - 4, low / 16) + E.ReverseTree(802, 1, 4, low % 16), Done(Match(len, base + low)),
                  numProbs)
  {
    hide Leads, E.ReverseTree, E.DirectBits, Pow2;
    var slot := 2 * n + 2 + odd;
    assert slot / 2 - 5 == n - 4 && slot % 2 == odd;
    var x := SixteenTimes(n, odd, low);
    DirectBitsFit(n - 4);
    DirectRun(ctx, len, n - 4, 2 + odd, low / 16, x, numProbs);
    AlignLeads(ctx, len, x, low % 16, numProbs);
    LeadsOn(ctx, AfterPosSlot(len, slot), E.DirectBits(n - 4, low / 16), AtAlign(len, 1, 1, x * 16),
            E.ReverseTree(802, 1, 4, low % 16), Done(Match(len, x * 16 + low % 16)), numProbs);
  }

  /** The bits behind the two highest. */
  function LowBits(n: nat, odd: nat, base: nat, low: nat): seq<E.Decision>
    requires n >= 1 && odd <= 1
  {
    if n < 6 then E.ReverseTree(688 + base - (2 * n + 2 + odd) - 1, 1, n, low)
    else E.DirectBits(n - 4, low / 16) + E.ReverseTree(802, 1, 4, low % 16)
  }

  lemma DistParts(dist: nat, len: nat) returns (n: nat, odd: nat, base: nat, low: nat)
    requires len >= 2 && 5 <= dist <= U32
    ensures 1 <= n <= 30 && odd <= 1 && low < Pow2(n) && base == (2 + odd) * Pow2(n) && base + low == dist - 1
    ensures E.DistBits(dist, len) ==
      E.Tree(432 + 64 * (if len < 5 then len - 2 else 3), 1, 6, 2 * n + 2 + odd) + LowBits(n, odd, base, low)
  {
    hide E.ReverseTree, E.DirectBits, E.Tree;
    hide E.SlotOf, Pow2;
    SlotBounds(dist - 1);
    var slot := E.SlotOf(dist - 1);
    n, odd := slot / 2 - 1, slot % 2;
    assert slot == 2 * n + 2 + odd;
    base := (2 + odd) * Pow2(n);
    low := dist - 1 - base;
  }

  lemma NearLeads(ctx: Ctx, len: nat, dist: nat, numProbs: nat)
    requires WfCtx(ctx, numProbs) && 2 <= len <= 273 && 1 <= dist < 5
    ensures Leads(ctx, AtPosSlot(len - 2, 1), E.DistBits(dist, len), Done(Match(len - 2, dist - 1)), numProbs)
  {
    SlotLeads(ctx, len, dist - 1, numProbs);
    hide Leads, E.Tree;
    var tree := E.Tree(432 + 64 * (if len < 5 then len - 2 else 3), 1, 6, dist - 1);
    assert E.DistBits(dist, len) == tree + [] == tree;
  }

  lemma FarLeads(ctx: Ctx, len: nat, dist: nat, numProbs: nat)
    requires WfCtx(ctx, numProbs) && 2 <= len <= 273 && 5 <= dist <= U32
    ensures Leads(ctx, AtPosSlot(len - 2, 1), E.DistBits(dist, len), Done(Match(len - 2, dist - 1)), numProbs)
  {
    hide Leads, E.Tree, Pow2, AfterPosSlot, E.DistBits, E.ReverseTree, E.DirectBits;
    var n, odd, base, low := DistParts(dist, len);
    SlotLeads(ctx, len, 2 * n + 2 + odd, numProbs);
    if n < 6 {
      SpecLeads(ctx, len - 2, n, odd, base, low, numProbs);
    } else {
      DirectLeads(ctx, len - 2, n, odd, base, low, numProbs);
    }
    LeadsOn(ctx, AtPosSlot(len - 2, 1), E.Tree(432 + 64 * (if len < 5 then len - 2 else 3), 1, 6, 2 * n + 2 + odd),
            AfterPosSlot(len - 2, 2 * n + 2 + odd), LowBits(n, odd, base, low), Done(Match(len - 2, dist - 1)),
            numProbs);
  }

  lemma DistLeads(ctx: Ctx, len: nat, dist: nat, numProbs: nat)
    requires WfCtx(ctx, numProbs) && 2 <= len <= 273 && 1 <= dist <= U32
    ensures Leads(ctx, AtPosSlot(len - 2, 1), E.DistBits(dist, len), Done(Match(len - 2, dist - 1)), numProbs)
  {
    hide Leads, E.DistBits;
    if dist < 5 {
      NearLeads(ctx, len, dist, numProbs);
    } else {
      FarLeads(ctx, len, dist, numProbs);
    }
  }

  // ----- tokens

  lemma LiteralLeads(ctx: Ctx, b: Byte, numProbs: nat)
    requires WfCtx(ctx, numProbs)
    ensures Leads(ctx, AtIsMatch,
                  [E.Model(16 * ctx.state + ctx.posState, 0)] +
                  (if ctx.state < 7 then E.Tree(ctx.litBase, 1, 8, b)
                   else E.MatchedTree(ctx.litBase, 1, 8, b, ctx.matchByte, true)),
                  Done(Lit(b)), numProbs)
  {
    hide Leads, E.Tree, E.MatchedTree;
    assert Pow2(8) == 256 && Pow2(0) == 1;
    hide Pow2;
    TreeRoot(8, b);
    if ctx.state < 7 {
      LitTree(ctx, 1, 8, b, b, numProbs);
    } else {
      MatchedTree(ctx, 1, 8, b, b, ctx.matchByte, ctx.matchByte, true, numProbs);
    }
    LeadsFirst(ctx, AtIsMatch, E.Model(16 * ctx.state + ctx.posState, 0),
               if ctx.state < 7 then E.Tree(ctx.litBase, 1, 8, b)
               else E.MatchedTree(ctx.litBase, 1, 8, b, ctx.matchByte, true), Done(Lit(b)), numProbs);
  }

  lemma MatchLeads(ctx: Ctx, dist: nat, len: nat, numProbs: nat)
    requires WfCtx(ctx, numProbs) && 2 <= len <= 273 && 1 <= dist <= U32
    ensures Leads(ctx, AtIsMatch,
                  [E.Model(16 * ctx.state + ctx.posState, 1), E.Model(192 + ctx.state, 0)] +
                  E.LenBits(818, ctx.posState, len) + E.DistBits(dist, len),
                  Done(Match(len - 2, dist - 1)), numProbs)
  {
    hide Leads, E.LenBits, E.DistBits;
    var end, first, second := Done(Match(len - 2, dist - 1)), E.Model(16 * ctx.state + ctx.posState, 1),
      E.Model(192 + ctx.state, 0);
    var lens, dists := E.LenBits(818, ctx.posState, len), E.DistBits(dist, len);
    LenLeads(ctx, NewMatch, len, numProbs);
    DistLeads(ctx, len, dist, numProbs);
    LeadsOn(ctx, AtLenChoice(NewMatch), lens, AtPosSlot(len - 2, 1), dists, end, numProbs);
    LeadsFirst(ctx, AtIsRep, second, lens + dists, end, numProbs);
    LeadsFirst(ctx, AtIsMatch, first, [second] + (lens + dists), end, numProbs);
    assert [first, second] + lens + dists == [first] + ([second] + (lens + dists));
  }

  lemma RepLeads(ctx: Ctx, idx: nat, len: nat, numProbs: nat)
    requires WfCtx(ctx, numProbs) && 2 <= len <= 273 && idx < 4
    ensures Leads(ctx, AtIsMatch,
                  [E.Model(16 * ctx.state + ctx.posState, 1), E.Model(192 + ctx.state, 1)] +
                  E.RepBits(ctx.state, ctx.posState, idx) + E.LenBits(1332, ctx.posState, len),
                  Done(Rep(idx, len - 2)), numProbs)
  {
    hide Leads, E.LenBits;
    var end, first, second := Done(Rep(idx, len - 2)), E.Model(16 * ctx.state + ctx.posState, 1),
      E.Model(192 + ctx.state, 1);
    var which, lens := E.RepBits(ctx.state, ctx.posState, idx), E.LenBits(1332, ctx.posState, len);
    RepBitsLead(ctx, idx, numProbs);
    LenLeads(ctx, OldMatch(idx), len, numProbs);
    LeadsOn(ctx, AtRepG0, which, AtLenChoice(OldMatch(idx)), lens, end, numProbs);
    hide E.RepBits;
    LeadsFirst(ctx, AtIsRep, second, which + lens, end, numProbs);
    LeadsFirst(ctx, AtIsMatch, first, [second] + (which + lens), end, numProbs);
    assert [first, second] + which + lens == [first] + ([second] + (which + lens));
  }

  lemma RepBitsLead(ctx: Ctx, idx: nat, numProbs: nat)
    requires WfCtx(ctx, numProbs) && idx < 4
    ensures Leads(ctx, AtRepG0, E.RepBits(ctx.state, ctx.posState, idx), AtLenChoice(OldMatch(idx)), numProbs)
  {
    hide Leads;
    var end := AtLenChoice(OldMatch(idx));
    var g0 := E.Model(204 + ctx.state, if idx == 0 then 0 else 1);
    var g1 := E.Model(216 + ctx.state, if idx == 1 then 0 else 1);
    if idx == 0 {
      var long := E.Model(240 + 16 * ctx.state + ctx.posState, 1);
      OneLeads(ctx, AtRep0Long, long, numProbs);
      LeadsFirst(ctx, AtRepG0, g0, [long], end, numProbs);
      assert [g0, long] == [g0] + [long];
    } else if idx == 1 {
      OneLeads(ctx, AtRepG1, g1, numProbs);
      LeadsFirst(ctx, AtRepG0, g0, [g1], end, numProbs);
      assert [g0, g1] == [g0] + [g1];
    } else {
      var g2 := E.Model(228 + ctx.state, if idx == 2 then 0 else 1);
      OneLeads(ctx, AtRepG2, g2, numProbs);
      LeadsFirst(ctx, AtRepG1, g1, [g2], end, numProbs);
      LeadsFirst(ctx, AtRepG0, g0, [g1] + [g2], end, numProbs);
      assert [g0, g1, g2] == [g0] + ([g1] + [g2]);
    }
  }

  lemma ShortRepLeads(ctx: Ctx, numProbs: nat)
    requires WfCtx(ctx, numProbs)
    ensures Leads(ctx, AtIsMatch,
                  [E.Model(16 * ctx.state + ctx.posState, 1), E.Model(192 + ctx.state, 1),
                   E.Model(204 + ctx.state, 0), E.Model(240 + 16 * ctx.state + ctx.posState, 0)],
                  Done(ShortRep), numProbs)
  {
    hide Leads;
    var a, b, c, d := E.Model(16 * ctx.state + ctx.posState, 1), E.Model(192 + ctx.state, 1),
      E.Model(204 + ctx.state, 0), E.Model(240 + 16 * ctx.state + ctx.posState, 0);
    OneLeads(ctx, AtRep0Long, d, numProbs);
    LeadsFirst(ctx, AtRepG0, c, [d], Done(ShortRep), numProbs);
    LeadsFirst(ctx, AtIsRep, b, [c] + [d], Done(ShortRep), numProbs);
    LeadsFirst(ctx, AtIsMatch, a, [b] + ([c] + [d]), Done(ShortRep), numProbs);
    assert [a, b, c, d] == [a] + ([b] + ([c] + [d]));
  }

  /** A decoder between two symbols, and the encoder before the token of the next one. */
  ghost predicate Related(props: Props, d: Dec, c: E.Coder) {
    && WfDec(props, d) && !d.needFlush && !d.needInit && d.remainLen == 0
    && E.WfCoder(c, props.dicSize) && d.out == c.out && d.state == c.state
    && d.reps == Reps(c.recent[0], c.recent[1], c.recent[2], c.recent[3])
  }

  function SymOf(t: E.Token): Sym {
    match t
    case Literal(b) => Lit(b)
    case Match(dist, len) => if dist >= 1 && len >= 2 then Match(len - 2, dist - 1) else ShortRep
    case Rep(idx, len) => if len >= 2 then Rep(idx, len - 2) else ShortRep
    case ShortRep => ShortRep
  }

  lemma SameContext(props: Props, d: Dec, c: E.Coder)
    requires Related(props, d, c)
    ensures var ctx := CtxOf(props, d);
      && ctx.state == c.state && ctx.posState == E.Position(c, props.pb)
      && ctx.litBase == E.LitBase(c, props.lc, props.lp)
      && (c.state >= 7 ==> 1 <= c.recent[0] <= |c.out| && ctx.matchByte == c.out[|c.out| - c.recent[0]])
  {
    hide Pow2;
    SameLitBase(props, c);
  }

  lemma {:induction false} HighBits(n: nat, k: nat)
    ensures E.HighBitsOf(n, k) == n / Pow2(k)
  {
    if k == 0 {
    } else {
      HighBits(n / 2, k - 1);
      HalveFirst(n, Pow2(k - 1));
    }
  }

  lemma HalveFirst(n: nat, p: nat)
    requires p > 0
    ensures n / 2 / p == n / (2 * p)
  {
    var h := n / 2;
    var q, r := h / p, h % p;
    assert h == p * q + r;
    assert n == 2 * p * q + (2 * r + n % 2);
    DivUnique(n, 2 * p, q, 2 * r + n % 2);
  }

  lemma SameLitBase(props: Props, c: E.Coder)
    requires WfProps(props)
    ensures LitBase(props, c.out) == E.LitBase(c, props.lc, props.lp)
  {
    var last := if c.out == [] then 0 else c.out[|c.out| - 1];
    HighBits(last, 8 - props.lc);
    hide E.HighBitsOf;
    if c.out == [] {
      assert 0 % Pow2(props.lp) == 0 && 0 / Pow2(8 - props.lc) == 0;
    }
  }

  /** The bits of a token lead to its symbol. */
  lemma TokenLeads(props: Props, d: Dec, c: E.Coder, t: E.Token)
    requires Related(props, d, c) && E.Allowed(c, props.dicSize, t)
    ensures WfSym(SymOf(t))
    ensures c.state >= 7 ==> 1 <= c.recent[0] <= |c.out|
    ensures Leads(CtxOf(props, d), AtIsMatch, E.TokenBits(c, props.lc, props.lp, props.pb, t), Done(SymOf(t)),
                  |d.probs|)
  {
    var ctx := CtxOf(props, d);
    SameContext(props, d, c);
    assert |c.recent| == 4 && props.dicSize < U32;
    hide *;
    BitsLead(ctx, c, props.dicSize, props.lc, props.lp, props.pb, t, |d.probs|);
  }

  lemma BitsLead(ctx: Ctx, c: E.Coder, dicSize: nat, lc: nat, lp: nat, pb: nat, t: E.Token, numProbs: nat)
    requires WfCtx(ctx, numProbs) && |c.recent| == 4 && dicSize < U32 && E.Allowed(c, dicSize, t)
    requires ctx.state == c.state && ctx.posState == E.Position(c, pb) && ctx.litBase == E.LitBase(c, lc, lp)
    requires c.state >= 7 ==> 1 <= c.recent[0] <= |c.out| && ctx.matchByte == c.out[|c.out| - c.recent[0]]
    ensures WfSym(SymOf(t))
    ensures Leads(ctx, AtIsMatch, E.TokenBits(c, lc, lp, pb, t), Done(SymOf(t)), numProbs)
  {
    hide Leads, E.LenBits, E.DistBits, E.RepBits, E.Tree, E.MatchedTree, E.Position, E.LitBase;
    match t
    case Literal(b) => LiteralLeads(ctx, b, numProbs);
    case Match(dist, len) => MatchLeads(ctx, dist, len, numProbs);
    case Rep(idx, len) => RepLeads(ctx, idx, len, numProbs);
    case ShortRep => ShortRepLeads(ctx, numProbs);
  }

  // ----- the effect of a token

  lemma CopyOne(out: seq<Byte>, dist: nat)
    requires 1 <= dist <= |out|
    ensures CopyMatch(out, dist, 1) == out + [Back(out, dist)]
  {
    assert CopyMatch(out + [Back(out, dist)], dist, 0) == out + [Back(out, dist)];
  }

  /** A repeated distance moves to the front. */
  lemma MovesToFront(recent: seq<nat>, idx: nat)
    requires |recent| == 4 && idx < 4
    ensures var r := [recent[idx]] + recent[..idx] + recent[idx + 1..];
      |r| == 4 && UseRep(Reps(recent[0], recent[1], recent[2], recent[3]), idx) == Reps(r[0], r[1], r[2], r[3])
  {
  }

  lemma ApplyMatch(props: Props, d: Dec, c: E.Coder, t: E.Token, limit: nat)
    requires Related(props, d, c) && E.Allowed(c, props.dicSize, t) && (t.Match? || t.Rep?)
    requires |E.After(c, props.dicSize, t).out| <= limit
    ensures var a := Apply(props, d, SymOf(t));
      && a.Good? && !EndMarker(SymOf(t)) && |a.dec.out| <= limit
      && Related(props, Drain(props, a.dec, limit), E.After(c, props.dicSize, t))
      && RcOf(Drain(props, a.dec, limit), []) == RcOf(d, []) && Drain(props, a.dec, limit).probs == d.probs
  {
    hide CopyMatch;
    if t.Rep? {
      MovesToFront(c.recent, t.idx);
    }
    var a := Apply(props, d, SymOf(t));
    DrainIs(props, a.dec, limit);
    hide Drain;
  }

  lemma ApplyToken(props: Props, d: Dec, c: E.Coder, t: E.Token, limit: nat)
    requires Related(props, d, c) && E.Allowed(c, props.dicSize, t)
    requires |E.After(c, props.dicSize, t).out| <= limit
    ensures var a := Apply(props, d, SymOf(t));
      && a.Good? && !EndMarker(SymOf(t)) && |a.dec.out| <= limit
      && Related(props, Drain(props, a.dec, limit), E.After(c, props.dicSize, t))
      && RcOf(Drain(props, a.dec, limit), []) == RcOf(d, []) && Drain(props, a.dec, limit).probs == d.probs
  {
    if t.Match? || t.Rep? {
      hide *;
      ApplyMatch(props, d, c, t, limit);
    } else if t.ShortRep? {
      CopyOne(c.out, c.recent[0]);
      hide CopyMatch;
    }
  }

  // ----- runs

  /** A decoder that is about to read the decisions ds, and a tail behind them. */
  ghost predicate Reads(props: Props, d: Dec, c: E.Coder, ds: seq<E.Decision>, ps: E.Probs, tail: seq<Byte>,
      input: seq<Byte>) {
    && Related(props, d, c) && SameProbs(d.probs, ps) && TOP <= d.range < U32
    && RcOf(d, input) == Held(ds, ps, d.range, tail)
  }

  /** The next symbol, from decisions that lead to it. */
  lemma SymbolDecodes(props: Props, d: Dec, c: E.Coder, ds: seq<E.Decision>, sym: Sym, more: seq<E.Decision>,
      ps: E.Probs, tail: seq<Byte>, input: seq<Byte>)
    returns (d2: Dec, ps2: E.Probs, input2: seq<Byte>)
    requires Reads(props, d, c, ds + more, ps, tail, input) && WfSym(sym)
    requires Leads(CtxOf(props, d), AtIsMatch, ds, Done(sym), |d.probs|)
    ensures var path := Symbol(props, d, input);
      path.End? && path.sym == sym && d2 == WithPath(d, path) && input2 == path.rc.rest
    ensures Reads(props, d2, c, more, ps2, tail, input2)
  {
    hide Leads, Held, Real, CtxOf;
    var probs2, range2;
    probs2, ps2, range2 := WalkDecodes(CtxOf(props, d), AtIsMatch, ds, sym, more, d.probs, ps, d.range, tail);
    d2, input2 := WithPath(d, Symbol(props, d, input)), Symbol(props, d, input).rc.rest;
  }

  /** One symbol of a run below the limit. */
  lemma RunStep(props: Props, d: Dec, sym: Sym, limit: nat, finishEnd: bool, input: seq<Byte>)
    requires WfDec(props, d) && !d.needFlush && !d.needInit && d.remainLen == 0 && |d.out| < limit
    requires Symbol(props, d, input).End?
    requires var path := Symbol(props, d, input);
      var a := Apply(props, WithPath(d, path), path.sym); a.Good? && |a.dec.out| <= limit
    ensures var path := Symbol(props, d, input);
      Run(props, d, limit, finishEnd, input)
      == Run(props, Apply(props, WithPath(d, path), path.sym).dec, limit, finishEnd, path.rc.rest)
  {
    hide Real, CtxOf;
    assert Run(props, d, limit, finishEnd, input) == RunStarted(props, d, limit, finishEnd, input);
  }

  lemma RunToken(props: Props, d: Dec, c: E.Coder, t: E.Token, more: seq<E.Decision>, ps: E.Probs, tail: seq<Byte>,
      limit: nat, finishEnd: bool, input: seq<Byte>)
    returns (d2: Dec, ps2: E.Probs, input2: seq<Byte>)
    requires Related(props, d, c) && E.Allowed(c, props.dicSize, t)
    requires c.state >= 7 ==> 1 <= c.recent[0] <= |c.out|
    requires Reads(props, d, c, E.TokenBits(c, props.lc, props.lp, props.pb, t) + more, ps, tail, input)
    requires |E.After(c, props.dicSize, t).out| <= limit
    ensures Reads(props, d2, E.After(c, props.dicSize, t), more, ps2, tail, input2) && |d2.out| <= limit
    ensures Run(props, d, limit, finishEnd, input) == Run(props, d2, limit, finishEnd, input2)
  {
    hide Leads, Symbol, Held, Run, E.TokenBits, E.After, Drain, Apply, SameProbs, WfDec;
    TokenLeads(props, d, c, t);
    var bits := E.TokenBits(c, props.lc, props.lp, props.pb, t);
    hide E.Allowed;
    var d1;
    d1, ps2, input2 := SymbolDecodes(props, d, c, bits, SymOf(t), more, ps, tail, input);
    ApplyToken(props, d1, c, t, limit);
    RunStep(props, d, SymOf(t), limit, finishEnd, input);
    var a := Apply(props, d1, SymOf(t));
    DrainThenRun(props, a.dec, limit, limit, finishEnd, input2);
    d2 := Drain(props, a.dec, limit);
  }

  lemma FirstToken(props: Props, c: E.Coder, ts: seq<E.Token>, end: E.Ending)
    requires E.WfCoder(c, props.dicSize) && E.AllAllowed(c, props.dicSize, ts) && E.WfEnding(end) && ts != []
    ensures E.Allowed(c, props.dicSize, ts[0]) && (c.state >= 7 ==> 1 <= c.recent[0] <= |c.out|)
    ensures var c2 := E.After(c, props.dicSize, ts[0]);
      && E.AllAllowed(c2, props.dicSize, ts[1..])
      && E.AfterAll(c, props.dicSize, ts) == E.AfterAll(c2, props.dicSize, ts[1..])
      && E.AllBits(c, props.dicSize, props.lc, props.lp, props.pb, ts, end)
         == E.TokenBits(c, props.lc, props.lp, props.pb, ts[0])
            + E.AllBits(c2, props.dicSize, props.lc, props.lp, props.pb, ts[1..], end)
  {
    hide E.TokenBits, E.After;
  }

  /** The tokens of a stream come out as their text. */
  lemma {:induction false} RunTokens(props: Props, d: Dec, c: E.Coder, ts: seq<E.Token>, end: E.Ending, ps: E.Probs,
      tail: seq<Byte>, limit: nat, finishEnd: bool, input: seq<Byte>)
    returns (d2: Dec, ps2: E.Probs, input2: seq<Byte>)
    requires Related(props, d, c) && E.AllAllowed(c, props.dicSize, ts) && E.WfEnding(end)
    requires |E.AfterAll(c, props.dicSize, ts).out| <= limit
    requires Reads(props, d, c, E.AllBits(c, props.dicSize, props.lc, props.lp, props.pb, ts, end), ps, tail, input)
    ensures var c2 := E.AfterAll(c, props.dicSize, ts);
      Reads(props, d2, c2, E.EndBits(c2, props.pb, end), ps2, tail, input2) && d2.out == c2.out && WfDec(props, d2)
    ensures |d.out| <= limit && |d2.out| <= limit
    ensures Run(props, d, limit, finishEnd, input) == Run(props, d2, limit, finishEnd, input2)
    decreases |ts|
  {
    if ts == [] {
      d2, ps2, input2 := d, ps, input;
    } else {
      FirstToken(props, c, ts, end);
      var c2 := E.After(c, props.dicSize, ts[0]);
      var more := E.AllBits(c2, props.dicSize, props.lc, props.lp, props.pb, ts[1..], end);
      hide Held, Run, E.TokenBits, E.After, E.AfterAll, E.AllBits, E.AllAllowed, E.EndBits, E.Allowed, SameProbs, WfDec;
      assert |d.out| <= |c2.out| <= |E.AfterAll(c2, props.dicSize, ts[1..]).out|;
      var d1, ps1, input1 := RunToken(props, d, c, ts[0], more, ps, tail, limit, finishEnd, input);
      d2, ps2, input2 := RunTokens(props, d1, c2, ts[1..], end, ps1, tail, limit, finishEnd, input1);
    }
  }

  // ----- endings

  /** What a caller sees of an outcome that is no error. */
  ghost predicate Yields(o: Outcome, status: Status, out: seq<Byte>, rest: seq<Byte>) {
    o.Fine? && o.status == status && o.dec.out == out && o.rest == rest
  }

  lemma NothingMore(ps: E.Probs, range: nat, tail: seq<Byte>)
    requires TOP <= range < U32
    ensures Held([], ps, range, tail) == Rc(range, 0, tail)
  {
    assert [] + tail == tail;
  }

  lemma RunStops(props: Props, d: Dec, c: E.Coder, ps: E.Probs, tail: seq<Byte>, finishEnd: bool, input: seq<Byte>)
    requires Related(props, d, c) && Reads(props, d, c, [], ps, tail, input)
    ensures Yields(Run(props, d, |d.out|, finishEnd, input), MaybeFinishedWithoutMark, c.out, tail)
  {
    NothingMore(ps, d.range, tail);
    assert Run(props, d, |d.out|, finishEnd, input) == RunStarted(props, d, |d.out|, finishEnd, input);
  }

  /** A match that is no text: the decoder does not stop before it of itself. */
  lemma CodeIsNotZero(c: E.Coder, pos: nat, dist: nat, len: nat, ps: E.Probs, range: nat, tail: seq<Byte>)
    requires dist >= 1 && len >= 2 && TOP <= range < U32
    ensures Held(E.MatchBits(c, pos, dist, len), ps, range, tail).code > 0
  {
    var ds := E.MatchBits(c, pos, dist, len);
    hide E.LenBits, E.DistBits;
    assert ds[0] == E.Model(16 * c.state + pos, 1);
    hide E.MatchBits;
  }

  lemma CodeGoesOn(props: Props, d: Dec, c: E.Coder, pos: nat, dist: nat, len: nat, ps: E.Probs, tail: seq<Byte>,
      input: seq<Byte>)
    requires dist >= 1 && len >= 2 && Reads(props, d, c, E.MatchBits(c, pos, dist, len), ps, tail, input)
    ensures d.code > 0
  {
    hide Held, E.MatchBits, Related, SameProbs;
    CodeIsNotZero(c, pos, dist, len, ps, d.range, tail);
  }

  lemma NothingLeft(props: Props, d: Dec, c: E.Coder, ps: E.Probs, tail: seq<Byte>, input: seq<Byte>)
    requires Reads(props, d, c, [], ps, tail, input)
    ensures Related(props, d, c) && d.code == 0 && input == tail
  {
    hide Held, Related, SameProbs;
    NothingMore(ps, d.range, tail);
  }

  lemma MatchBitsLead(props: Props, d: Dec, c: E.Coder, dist: nat, len: nat)
    requires Related(props, d, c) && 1 <= dist <= U32 && 2 <= len <= 273
    ensures Leads(CtxOf(props, d), AtIsMatch, E.MatchBits(c, E.Position(c, props.pb), dist, len),
                  Done(Match(len - 2, dist - 1)), |d.probs|)
  {
    SameContext(props, d, c);
    hide CtxOf, E.Position, Leads, E.LenBits, E.DistBits, WfDec;
    MatchLeads(CtxOf(props, d), dist, len, |d.probs|);
  }

  /** The symbol of such a match. */
  lemma EndSymbol(props: Props, d: Dec, c: E.Coder, dist: nat, len: nat, ps: E.Probs, tail: seq<Byte>,
      input: seq<Byte>)
    returns (d2: Dec)
    requires Related(props, d, c) && 1 <= dist <= U32 && 2 <= len <= 273
    requires Reads(props, d, c, E.MatchBits(c, E.Position(c, props.pb), dist, len), ps, tail, input)
    ensures var path := Symbol(props, d, input);
      path.End? && path.sym == Match(len - 2, dist - 1) && d2 == WithPath(d, path) && path.rc.rest == tail
    ensures Related(props, d2, c) && d2.code == 0 && d.code > 0
  {
    var bits := E.MatchBits(c, E.Position(c, props.pb), dist, len);
    hide Symbol, CtxOf, WfDec, E.Position, Reads, Leads, E.MatchBits;
    CodeGoesOn(props, d, c, E.Position(c, props.pb), dist, len, ps, tail, input);
    MatchBitsLead(props, d, c, dist, len);
    assert bits + [] == bits;
    var ps2, input2;
    d2, ps2, input2 := SymbolDecodes(props, d, c, bits, Match(len - 2, dist - 1), [], ps, tail, input);
    NothingLeft(props, d2, c, ps2, tail, input2);
  }

  /** What a run does with it, when it is not read as one. */
  lemma RunHalts(props: Props, d: Dec, c: E.Coder, limit: nat, input: seq<Byte>)
    requires Related(props, d, c) && |d.out| == limit && d.code > 0
    ensures var o := Run(props, d, limit, false, input); o.Fine? && o.status == NotFinished && o.dec.out == c.out
  {
    hide Symbol;
    assert Run(props, d, limit, false, input) == RunStarted(props, d, limit, false, input);
  }

  lemma RunMarker(props: Props, d: Dec, d2: Dec, limit: nat, finishEnd: bool, input: seq<Byte>, tail: seq<Byte>)
    requires WfDec(props, d) && !d.needFlush && !d.needInit && d.remainLen == 0 && |d.out| <= limit
    requires |d.out| < limit || (finishEnd && d.code > 0)
    requires var path := Symbol(props, d, input);
      path.End? && EndMarker(path.sym) && d2 == WithPath(d, path) && path.rc.rest == tail
    requires WfDec(props, d2) && d2.code == 0
    ensures Yields(Run(props, d, limit, finishEnd, input), FinishedWithMark, d.out, tail)
  {
    hide Real, CtxOf, NumProbs;
    assert Run(props, d, limit, finishEnd, input) == RunStarted(props, d, limit, finishEnd, input);
    var a := Apply(props, d2, Symbol(props, d, input).sym);
    assert Yields(Run(props, a.dec, limit, finishEnd, tail), FinishedWithMark, d.out, tail);
  }

  lemma RunTooFar(props: Props, d: Dec, limit: nat, finishEnd: bool, input: seq<Byte>)
    requires WfDec(props, d) && !d.needFlush && !d.needInit && d.remainLen == 0 && |d.out| <= limit
    requires |d.out| < limit || (finishEnd && d.code > 0)
    requires var path := Symbol(props, d, input);
      path.End? && path.sym.Match? && !EndMarker(path.sym) && path.sym.dist >= Avail(props, d.out)
    ensures Run(props, d, limit, finishEnd, input) == DataError(NotSpecified, d.out)
  {
    hide Symbol, NumProbs;
    assert Run(props, d, limit, finishEnd, input) == RunStarted(props, d, limit, finishEnd, input);
  }

  lemma RunEnds(props: Props, d: Dec, c: E.Coder, dist: nat, len: nat, ps: E.Probs, tail: seq<Byte>, limit: nat,
      finishEnd: bool, input: seq<Byte>)
    requires Related(props, d, c) && 1 <= dist <= U32 && 2 <= len <= 273 && |d.out| <= limit
    requires dist == U32 || dist > |c.out| || dist > props.dicSize
    requires Reads(props, d, c, E.MatchBits(c, E.Position(c, props.pb), dist, len), ps, tail, input)
    ensures var o := Run(props, d, limit, finishEnd, input);
      if |c.out| == limit && !finishEnd then o.Fine? && o.status == NotFinished && o.dec.out == c.out
      else if dist == U32 then Yields(o, FinishedWithMark, c.out, tail)
      else o == DataError(NotSpecified, c.out)
  {
    var d2 := EndSymbol(props, d, c, dist, len, ps, tail, input);
    hide Symbol, Reads, E.MatchBits, WfDec, Run;
    if |c.out| == limit && !finishEnd {
      RunHalts(props, d, c, limit, input);
    } else if dist == U32 {
      RunMarker(props, d, d2, limit, finishEnd, input, tail);
    } else {
      RunTooFar(props, d, limit, finishEnd, input);
    }
  }

  // ----- whole streams

  lemma StartReads(props: Props, d: Dec, ds: seq<E.Decision>, tail: seq<Byte>)
    requires WfDec(props, d) && !d.needFlush && d.needInit && d.out == []
    requires var s := E.Send(ds, map[], INIT_RANGE); d.code == s.code && d.range == INIT_RANGE
    ensures Reads(props, Ready(props, d), E.START, ds, map[], tail, E.Send(ds, map[], INIT_RANGE).rest + tail)
  {
    hide E.Send, NumProbs;
  }

  /** A decoder whose probabilities are still to be set yields the same. */
  lemma ReadyYields(props: Props, d: Dec, limit: nat, finishEnd: bool, input: seq<Byte>)
    requires WfDec(props, d) && !d.needFlush && d.needInit && d.out == []
    ensures Drain(props, d, limit) == d
    ensures var o, o2 := RunStarted(props, d, limit, finishEnd, input),
        Run(props, Ready(props, d), limit, finishEnd, input);
      o == o2 || (o2.Fine? && Yields(o, o2.status, o2.dec.out, o2.rest))
  {
    hide Symbol, NumProbs;
    if limit > 0 || (finishEnd && d.code != 0) {
      ReadyThenRun(props, d, limit, finishEnd, input);
    } else {
      var r := Ready(props, d);
      assert Run(props, r, limit, finishEnd, input) == RunStarted(props, r, limit, finishEnd, input);
    }
  }

  lemma FourOctetsRead(x: nat)
    requires x < U32
    ensures BigEndian(E.FourOctets(x)) == x
  {
    var a, b := x / 0x100, x / 0x1_0000;
    assert b == a / 0x100 && x / 0x100_0000 == b / 0x100;
    assert x == 0x100 * a + x % 0x100 && a == 0x100 * b + a % 0x100 && b == 0x100 * (b / 0x100) + b % 0x100;
  }

  /** The first five bytes of a stream. */
  lemma Head(code: nat, rest: seq<Byte>, tail: seq<Byte>)
    requires code < U32
    ensures var input := [0] + E.FourOctets(code) + rest + tail;
      |input| >= 5 && input[0] == 0 && BigEndian(input[..5][1..]) == code && input[5..] == rest + tail
  {
    hide E.FourOctets;
    var input := [0] + E.FourOctets(code) + rest + tail;
    assert input[..5][1..] == E.FourOctets(code) && input[5..] == rest + tail;
    FourOctetsRead(code);
  }

  /** What a stream is decoded to: its text, and how it ends. */
  ghost predicate Ends(o: Outcome, end: E.Ending, text: seq<Byte>, tail: seq<Byte>, limit: nat, finishEnd: bool) {
    if end.Stop? then |text| == limit ==> Yields(o, MaybeFinishedWithoutMark, text, tail)
    else if |text| == limit && !finishEnd then o.Fine? && o.status == NotFinished && o.dec.out == text
    else if end.Marker? then Yields(o, FinishedWithMark, text, tail)
    else o == DataError(NotSpecified, text)
  }

  lemma RunAll(props: Props, d: Dec, ts: seq<E.Token>, end: E.Ending, tail: seq<Byte>, limit: nat, finishEnd: bool,
      input: seq<Byte>)
    requires WfProps(props) && E.AllAllowed(E.START, props.dicSize, ts) && E.WfEnding(end)
    requires |E.TextOf(props.dicSize, ts)| <= limit
    requires E.IsTooFar(end, E.TextOf(props.dicSize, ts), props.dicSize)
    requires Reads(props, d, E.START, E.AllBits(E.START, props.dicSize, props.lc, props.lp, props.pb, ts, end), map[],
                   tail, input)
    ensures WfDec(props, d) && |d.out| <= limit
    ensures Ends(Run(props, d, limit, finishEnd, input), end, E.TextOf(props.dicSize, ts), tail, limit, finishEnd)
  {
    hide E.MatchBits, Held, E.AllBits, E.AllAllowed, Run, WfDec, SameProbs, E.AfterAll;
    var d2, ps2, input2 := RunTokens(props, d, E.START, ts, end, map[], tail, limit, finishEnd, input);
    var c := E.AfterAll(E.START, props.dicSize, ts);
    match end
    case Stop =>
      if limit == |d2.out| {
        RunStops(props, d2, c, ps2, tail, finishEnd, input2);
      }
    case Marker => RunEnds(props, d2, c, U32, 2, ps2, tail, limit, finishEnd, input2);
    case TooFar(dist, len) => RunEnds(props, d2, c, dist, len, ps2, tail, limit, finishEnd, input2);
  }

  lemma {:induction false} StreamDecodes(props: Props, d: Dec, ts: seq<E.Token>, end: E.Ending, tail: seq<Byte>,
      limit: nat, finishEnd: bool)
    requires WfDec(props, d) && IsInitial(d) && E.AllAllowed(E.START, props.dicSize, ts) && E.WfEnding(end)
    requires |E.TextOf(props.dicSize, ts)| <= limit
    requires E.IsTooFar(end, E.TextOf(props.dicSize, ts), props.dicSize)
    ensures var input := E.Encoded(props.dicSize, props.lc, props.lp, props.pb, ts, end) + tail;
      Ends(Run(props, d, limit, finishEnd, input), end, E.TextOf(props.dicSize, ts), tail, limit, finishEnd)
  {
    var ds := E.AllBits(E.START, props.dicSize, props.lc, props.lp, props.pb, ts, end);
    var s := E.Send(ds, map[], INIT_RANGE);
    var input := E.Encoded(props.dicSize, props.lc, props.lp, props.pb, ts, end) + tail;
    assert input == [0] + E.FourOctets(s.code) + s.rest + tail;
    hide E.AllBits, E.Send, E.Encoded, E.FourOctets, E.AllAllowed, E.TextOf, RunStarted, Ready, NumProbs, BigEndian;
    Head(s.code, s.rest, tail);
    var d1 := StartRc(d, input[..5]);
    assert Run(props, d, limit, finishEnd, input) == RunStarted(props, d1, limit, finishEnd, input[5..]);
    hide Run;
    StartReads(props, d1, ds, tail);
    ReadyYields(props, d1, limit, finishEnd, input[5..]);
    hide Reads, WfDec, StartRc;
    RunAll(props, Ready(props, d1), ts, end, tail, limit, finishEnd, input[5..]);
  }

  /** A stream that is cut off anywhere is never taken for finished, and its output so far is right. */
  lemma {:induction false} CutOffNeedsMore(props: Props, d: Dec, ts: seq<E.Token>, end: E.Ending, s1: seq<Byte>,
      s2: seq<Byte>, limit: nat, finishEnd: bool)
    requires WfDec(props, d) && IsInitial(d) && E.AllAllowed(E.START, props.dicSize, ts) && E.WfEnding(end)
    requires s1 + s2 == E.Encoded(props.dicSize, props.lc, props.lp, props.pb, ts, end) && s2 != []
    requires var n := |E.TextOf(props.dicSize, ts)|;
      if end.Stop? then n == limit else end.Marker? && (n < limit || (n == limit && finishEnd))
    ensures var o := Run(props, d, limit, finishEnd, s1);
      o.Fine? && o.status == NeedsMoreInput && o.dec.out <= E.TextOf(props.dicSize, ts)
  {
    hide Run, E.Encoded, E.AllAllowed, E.TextOf, WfDec;
    StreamDecodes(props, d, ts, end, [], limit, finishEnd);
    assert (s1 + s2) + [] == s1 + s2;
    InputSplitIndependence(props, d, limit, finishEnd, s1, s2);
  }
}
