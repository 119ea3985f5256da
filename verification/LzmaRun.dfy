/**
  Runs of the symbol automaton: how the real and the dummy decoder walk it, how many bytes they
  need, and why they see the same bits.
 */
module LzmaRun {
  import opened Words
  import opened RangeCoder
  import opened LzmaSymbol

  datatype Path = Starve | End(sym: Sym, probs: seq<Prob>, rc: Rc)
  datatype DummyPath = DummyStarve | DummyEnd(sym: Sym, rc: Rc)

  /** Decode the rest of a symbol from a node, final NORMALIZE included, adapting probabilities. */
  function Real(ctx: Ctx, node: Node, probs: seq<Prob>, rc: Rc): (path: Path)
    requires WfCtx(ctx, |probs|) && Wf(node) && Usable(rc)
    ensures path.End? ==>
      WfSym(path.sym) && |path.probs| == |probs| && Normal(path.rc) && |path.rc.rest| <= |rc.rest|
    decreases Rank(node)
  {
    if Starved(rc) then Starve else
    var r := Normalize(rc);
    if node.Done? then End(node.sym, probs, r)
    else if node.AtDirect? then
      var bit := DirectBit(r);
      RankDrops(ctx, node, bit);
      Real(ctx, Next(ctx, node, bit), probs, AfterDirect(r))
    else
      var slot := Slot(ctx, node, |probs|);
      var p := probs[slot];
      var bit := BitOf(r, p);
      RankDrops(ctx, node, bit);
      Real(ctx, Next(ctx, node, bit), probs[slot := Adapt(p, bit)], AfterBit(r, p))
  }

  /** The same walk with the probabilities left alone. */
  function Dummy(ctx: Ctx, node: Node, probs: seq<Prob>, rc: Rc): (path: DummyPath)
    requires WfCtx(ctx, |probs|) && Wf(node) && Usable(rc)
    ensures path.DummyEnd? ==> |path.rc.rest| <= |rc.rest|
    decreases Rank(node)
  {
    if Starved(rc) then DummyStarve else
    var r := Normalize(rc);
    if node.Done? then DummyEnd(node.sym, r)
    else if node.AtDirect? then
      var bit := DirectBit(r);
      RankDrops(ctx, node, bit);
      Dummy(ctx, Next(ctx, node, bit), probs, AfterDirect(r))
    else
      var p := probs[Slot(ctx, node, |probs|)];
      var bit := BitOf(r, p);
      RankDrops(ctx, node, bit);
      Dummy(ctx, Next(ctx, node, bit), probs, AfterBit(r, p))
  }

  function Forget(path: Path): DummyPath {
    match path
    case Starve => DummyStarve
    case End(sym, _, rc) => DummyEnd(sym, rc)
  }

  /** Doing the pending NORMALIZE early changes nothing. */
  lemma NormalizeEarly(ctx: Ctx, node: Node, probs: seq<Prob>, rc: Rc)
    requires WfCtx(ctx, |probs|) && Wf(node) && Usable(rc) && !Starved(rc)
    ensures Real(ctx, node, probs, Normalize(rc)) == Real(ctx, node, probs, rc)
  {
  }

  /** One model bit of a run. */
  lemma RealStep(ctx: Ctx, node: Node, probs: seq<Prob>, rc: Rc, slot: nat)
    requires WfCtx(ctx, |probs|) && Wf(node) && Usable(rc)
    requires ReadsSlot(node) && slot == Slot(ctx, node, |probs|)
    ensures Starved(rc) ==> Real(ctx, node, probs, rc).Starve?
    ensures !Starved(rc) ==>
      var r, p := Normalize(rc), probs[slot];
      Real(ctx, Next(ctx, node, BitOf(r, p)), probs[slot := Adapt(p, BitOf(r, p))], AfterBit(r, p))
      == Real(ctx, node, probs, rc)
  {
  }

  /** One direct bit of a run. */
  lemma DirectStep(ctx: Ctx, node: Node, probs: seq<Prob>, rc: Rc)
    requires WfCtx(ctx, |probs|) && Wf(node) && Usable(rc) && node.AtDirect?
    ensures Starved(rc) ==> Real(ctx, node, probs, rc).Starve?
    ensures !Starved(rc) ==>
      var r := Normalize(rc);
      Real(ctx, Next(ctx, node, DirectBit(r)), probs, AfterDirect(r)) == Real(ctx, node, probs, rc)
  {
  }

  // ----- bits still to come

  /** The number of doublings that take i to limit, for limit a power of two up to 256. */
  function Doublings(i: nat, limit: nat): (d: nat)
    ensures d <= 8
  {
    if i >= limit then 0 else if 2 * i >= limit then 1 else if 4 * i >= limit then 2
    else if 8 * i >= limit then 3 else if 16 * i >= limit then 4 else if 32 * i >= limit then 5
    else if 64 * i >= limit then 6 else if 128 * i >= limit then 7 else 8
  }

  /** Model bits still to come on the worst path. */
  function ModelBits(node: Node): nat {
    match node
    case AtIsMatch => 22
    case AtLit(symbol) => Doublings(symbol, 256)
    case AtMatchedLit(symbol, _, _) => Doublings(symbol, 256)
    case AtIsRep => 21
    case AtRepG0 => 13
    case AtRep0Long => 11
    case AtRepG1 => 12
    case AtRepG2 => 11
    case AtLenChoice(kind) => if kind.NewMatch? then 20 else 10
    case AtLenChoice2(kind) => if kind.NewMatch? then 19 else 9
    case AtLenTree(kind, part, i) => Doublings(i, LenLimit(part)) + (if kind.NewMatch? then 10 else 0)
    case AtPosSlot(_, i) => Doublings(i, 64) + 4
    case AtSpec(_, posSlot, mask, _, _) =>
      if mask < SpecSize(posSlot) then Doublings(mask, SpecSize(posSlot)) - 1 else 0
    case AtDirect(_, _, _) => 4
    case AtAlign(_, mask, _, _) => Doublings(mask, 16)
    case Done(_) => 0
  }

  /** Direct bits still to come on that path; a direct bit stands for more than a model bit's share at AtSpec. */
  function DirectBits(node: Node): nat {
    match node
    case AtIsMatch => 26
    case AtIsRep => 26
    case AtLenChoice(kind) => if kind.NewMatch? then 26 else 0
    case AtLenChoice2(kind) => if kind.NewMatch? then 26 else 0
    case AtLenTree(kind, _, _) => if kind.NewMatch? then 26 else 0
    case AtPosSlot(_, _) => 26
    case AtSpec(_, _, _, _, _) => 26
    case AtDirect(_, left, _) => left
    case _ => 0
  }

  function Rank(node: Node): nat {
    ModelBits(node) + DirectBits(node)
  }

  lemma RankDrops(ctx: Ctx, node: Node, bit: nat)
    requires Wf(node) && !node.Done? && bit <= 1
    ensures Rank(Next(ctx, node, bit)) < Rank(node)
  {
    BitsDrop(ctx, node, bit);
  }

  /** One step uses up its own bit; only the last bit of AtSpec is paid for in direct bits. */
  ghost predicate Spends(node: Node, n: Node) {
    && DirectBits(n) <= DirectBits(node)
    && if node.AtDirect? then DirectBits(n) < DirectBits(node) && ModelBits(n) <= ModelBits(node)
       else ModelBits(n) < ModelBits(node) || (n.Done? && DirectBits(node) == 26)
  }

  lemma BitsDrop(ctx: Ctx, node: Node, bit: nat)
    requires Wf(node) && !node.Done? && bit <= 1
    ensures Spends(node, Next(ctx, node, bit))
  {
    if node.AtLenTree? {
      LenTreeDrop(ctx, node, bit);
    } else if node.AtPosSlot? {
      PosSlotDrop(ctx, node, bit);
    } else if node.AtLit? || node.AtMatchedLit? {
      LitDrop(ctx, node, bit);
    } else if node.AtSpec? || node.AtAlign? || node.AtDirect? {
      DistanceDrop(ctx, node, bit);
    } else {
      DecisionDrop(ctx, node, bit);
    }
  }

  lemma DecisionDrop(ctx: Ctx, node: Node, bit: nat)
    requires Wf(node) && bit <= 1
    requires node.AtIsMatch? || node.AtIsRep? || node.AtRepG0? || node.AtRep0Long? || node.AtRepG1? ||
             node.AtRepG2? || node.AtLenChoice? || node.AtLenChoice2?
    ensures Spends(node, Next(ctx, node, bit))
  {
  }

  lemma LitDrop(ctx: Ctx, node: Node, bit: nat)
    requires Wf(node) && (node.AtLit? || node.AtMatchedLit?) && bit <= 1
    ensures Spends(node, Next(ctx, node, bit))
  {
    DoublingsDrop(node.symbol, bit, 256);
  }

  lemma DistanceDrop(ctx: Ctx, node: Node, bit: nat)
    requires Wf(node) && (node.AtSpec? || node.AtAlign? || node.AtDirect?) && bit <= 1
    ensures Spends(node, Next(ctx, node, bit))
  {
    if node.AtSpec? {
      DoublingsDrop(node.mask, 0, SpecSize(node.posSlot));
    } else if node.AtAlign? {
      DoublingsDrop(node.mask, 0, 16);
    }
  }

  lemma LenTreeDrop(ctx: Ctx, node: Node, bit: nat)
    requires Wf(node) && node.AtLenTree? && bit <= 1
    ensures Spends(node, Next(ctx, node, bit))
  {
    DoublingsDrop(node.i, bit, LenLimit(node.part));
    var i := 2 * node.i + bit;
    if i >= LenLimit(node.part) {
      assert Next(ctx, node, bit) == AfterLen(node.kind, i - LenLimit(node.part) + LenOffset(node.part));
    }
  }

  lemma PosSlotDrop(ctx: Ctx, node: Node, bit: nat)
    requires Wf(node) && node.AtPosSlot? && bit <= 1
    ensures Spends(node, Next(ctx, node, bit))
  {
    DoublingsDrop(node.i, bit, 64);
    var i := 2 * node.i + bit;
    if i >= 64 {
      var n := AfterPosSlot(node.len, i - 64);
      assert Next(ctx, node, bit) == n;
      assert ModelBits(n) <= 4 && DirectBits(n) <= 26;
    }
  }

  lemma DoublingsDrop(i: nat, bit: nat, limit: nat)
    requires 1 <= i < limit <= 256 && bit <= 1
    ensures Doublings(2 * i + bit, limit) < Doublings(i, limit)
  {
  }

  // ----- the 20-byte bound

  /** 67^m * 2.02^d: a model bit shrinks the range at most 67-fold, a direct bit at most 2.02-fold. */
  function Shrink(m: nat, d: nat): (r: real)
    ensures r >= 1.0
  {
    if m > 0 then 67.0 * Shrink(m - 1, d) else if d > 0 then 2.02 * Shrink(0, d - 1) else 1.0
  }

  lemma {:induction false} ShrinkDirect(m: nat, d: nat)
    ensures Shrink(m, d + 1) == 2.02 * Shrink(m, d)
  {
    if m > 0 {
      ShrinkDirect(m - 1, d);
    }
  }

  lemma {:induction false} ShrinkMonotone(m: nat, m': nat, d: nat, d': nat)
    requires m <= m' && d <= d'
    ensures Shrink(m, d) <= Shrink(m', d')
    decreases m', d'
  {
    if m < m' {
      ShrinkMonotone(m, m' - 1, d, d');
    } else if d < d' {
      ShrinkMonotone(m, m', d, d' - 1);
      ShrinkDirect(m', d' - 1);
    }
  }

  /** How much the range can shrink from a node to the end of its symbol. */
  function Loss(node: Node): (r: real)
    ensures r >= 1.0
  {
    Shrink(ModelBits(node), DirectBits(node))
  }

  lemma LossPaysForBit(ctx: Ctx, node: Node, bit: nat)
    requires Wf(node) && ReadsSlot(node) && bit <= 1
    ensures Loss(node) >= 67.0 * Loss(Next(ctx, node, bit))
  {
    BitsDrop(ctx, node, bit);
    var n := Next(ctx, node, bit);
    ModelBitPaid(ModelBits(node), DirectBits(node), ModelBits(n), DirectBits(n));
  }

  lemma ModelBitPaid(m: nat, d: nat, m2: nat, d2: nat)
    requires d2 <= d && (m2 < m || (m2 == 0 && d2 == 0 && d == 26))
    ensures Shrink(m, d) >= 67.0 * Shrink(m2, d2)
  {
    if m2 < m {
      ShrinkMonotone(m2 + 1, m, d2, d);
    } else {
      TwentySixDirectBits(m);
    }
  }

  lemma TwentySixDirectBits(m: nat)
    ensures Shrink(m, 26) >= 67.0
  {
    assert Shrink(0, 3) == 8.242408;
    assert Shrink(0, 6) >= 67.0;
    ShrinkMonotone(0, m, 6, 26);
  }

  lemma LossPaysForDirect(ctx: Ctx, node: Node, bit: nat)
    requires Wf(node) && node.AtDirect? && bit <= 1
    ensures Loss(node) >= 2.02 * Loss(Next(ctx, node, bit))
  {
    BitsDrop(ctx, node, bit);
    SpendsDirectBit(node, Next(ctx, node, bit));
  }

  lemma SpendsDirectBit(node: Node, n: Node)
    requires node.AtDirect? && Spends(node, n)
    ensures Loss(node) >= 2.02 * Loss(n)
  {
    ShrinkMonotone(ModelBits(n), ModelBits(node), DirectBits(n) + 1, DirectBits(node));
    ShrinkDirect(ModelBits(n), DirectBits(n));
  }

  /** r * 256^n */
  function Shifted(r: real, n: nat): real
    decreases n
  {
    if n == 0 then r else Shifted(256.0 * r, n - 1)
  }

  lemma {:induction false} ShiftedMonotone(r: real, r': real, n: nat)
    requires r <= r'
    ensures Shifted(r, n) <= Shifted(r', n)
    decreases n
  {
    if n > 0 {
      ShiftedMonotone(256.0 * r, 256.0 * r', n - 1);
    }
  }

  lemma {:induction false} ShiftedGrows(r: real, m: nat, n: nat)
    requires m <= n && r >= 0.0
    ensures Shifted(r, m) <= Shifted(r, n)
    decreases n
  {
    if m > 0 {
      ShiftedGrows(256.0 * r, m - 1, n - 1);
    } else if n > 0 {
      ShiftedGrows(256.0 * r, 0, n - 1);
    }
  }

  lemma {:induction false} Shifted67(r: real, n: nat)
    ensures Shifted(67.0 * r, n) == 67.0 * Shifted(r, n)
    decreases n
  {
    if n > 0 {
      assert 256.0 * (67.0 * r) == 67.0 * (256.0 * r);
      Shifted67(256.0 * r, n - 1);
    }
  }

  lemma {:induction false} Shifted202(r: real, n: nat)
    ensures Shifted(2.02 * r, n) == 2.02 * Shifted(r, n)
    decreases n
  {
    if n > 0 {
      assert 256.0 * (2.02 * r) == 2.02 * (256.0 * r);
      Shifted202(256.0 * r, n - 1);
    }
  }

  lemma Shrink4(m: nat, c: real)
    requires Shrink(m, 26) <= c
    ensures Shrink(m + 4, 26) <= 20151121.0 * c
  {
    assert Shrink(m + 2, 26) <= 4489.0 * c;
  }

  lemma ShrinkDirect4(d: nat, c: real)
    requires Shrink(0, d) <= c
    ensures Shrink(0, d + 4) <= 16.65 * c
  {
    assert Shrink(0, d + 2) <= 4.0804 * c;
  }

  lemma Shifted4(r: real, n: nat)
    ensures Shifted(r, n + 4) == Shifted(4294967296.0 * r, n)
  {
    assert Shifted(r, n + 2) == Shifted(65536.0 * r, n);
    assert Shifted(r, n + 4) == Shifted(65536.0 * r, n + 2);
  }

  /** 22 model bits and 26 direct bits shrink the range by less than 2^160. */
  lemma WorstLoss()
    ensures TOP as real * Loss(AtIsMatch) < Shifted(TOP as real, 20)
  {
    assert Shrink(0, 2) <= 4.0804;
    ShrinkDirect4(2, 4.0804);
    ShrinkDirect4(6, 68.0);
    ShrinkDirect4(10, 1132.2);
    ShrinkDirect4(14, 18852.0);
    ShrinkDirect4(18, 313886.0);
    ShrinkDirect4(22, 5226202.0);
    assert Shrink(0, 26) <= 87016264.0;
    assert Shrink(2, 26) <= 4489.0 * 87016264.0;
    var c := 4489.0 * 87016264.0;
    var k := 20151121.0;
    Shrink4(2, c);
    Shrink4(6, k * c);
    Shrink4(10, k * (k * c));
    Shrink4(14, k * (k * (k * c)));
    Shrink4(18, k * (k * (k * (k * c))));
    var t := TOP as real;
    var w := 4294967296.0;
    Shifted4(t, 16);
    Shifted4(w * t, 12);
    Shifted4(w * (w * t), 8);
    Shifted4(w * (w * (w * t)), 4);
    Shifted4(w * (w * (w * (w * t))), 0);
  }

  /** The bytes a dummy run takes: those it reads, and one it lacks if it starves. */
  function Needs(rc: Rc, path: DummyPath): int {
    if path.DummyStarve? then |rc.rest| + 1 else |rc.rest| - |path.rc.rest|
  }

  /** n > 0 bytes can only be needed when the first n - 1 did not keep the range above TOP. */
  ghost predicate Affordable(range: nat, n: int, loss: real) {
    n > 0 ==> Shifted(range as real, n - 1) < TOP as real * loss
  }

  lemma ModelBitAffords(range: nat, range2: nat, n: int, loss: real, loss2: real)
    requires 67 * range2 >= range && loss >= 67.0 * loss2
    requires Affordable(range2, n, loss2)
    ensures Affordable(range, n, loss)
  {
    if n > 0 {
      ShiftedMonotone(range as real, 67.0 * range2 as real, n - 1);
      Shifted67(range2 as real, n - 1);
    }
  }

  lemma DirectBitAffords(range: nat, range2: nat, n: int, loss: real, loss2: real)
    requires 2 * range2 + 1 >= range >= TOP && loss >= 2.02 * loss2
    requires Affordable(range2, n, loss2)
    ensures Affordable(range, n, loss)
  {
    if n > 0 {
      ShiftedMonotone(range as real, 2.02 * range2 as real, n - 1);
      Shifted202(range2 as real, n - 1);
    }
  }

  lemma NormalizeAffords(rc: Rc, n: int, loss: real)
    requires Usable(rc) && !Starved(rc) && loss >= 1.0 && n >= 0
    requires Affordable(Normalize(rc).range, n, loss)
    ensures Affordable(rc.range, n + |rc.rest| - |Normalize(rc).rest|, loss)
  {
    if rc.range < TOP && n > 0 {
      assert Shifted(rc.range as real, n) == Shifted(256.0 * rc.range as real, n - 1);
    }
  }

  /** The cost of finishing a symbol from a node is covered by what the range can still lose. */
  ghost predicate FewBytes(node: Node, rc: Rc, path: DummyPath) {
    Needs(rc, path) >= 0 && Affordable(rc.range, Needs(rc, path), Loss(node))
  }

  lemma {:induction false} NeedsFewBytes(ctx: Ctx, node: Node, probs: seq<Prob>, rc: Rc)
    requires WfCtx(ctx, |probs|) && Wf(node) && Usable(rc)
    ensures FewBytes(node, rc, Dummy(ctx, node, probs, rc))
    decreases Rank(node)
  {
    if Starved(rc) || node.Done? {
      assert Needs(rc, Dummy(ctx, node, probs, rc)) == if rc.range < TOP then 1 else 0;
    } else {
      var r := Normalize(rc);
      var bit, r2 := StepOf(ctx, node, probs, r);
      RankDrops(ctx, node, bit);
      NeedsFewBytes(ctx, Next(ctx, node, bit), probs, r2);
      var path := Dummy(ctx, Next(ctx, node, bit), probs, r2);
      StepAffords(ctx, node, bit, rc, r2, path);
    }
  }

  lemma StepOf(ctx: Ctx, node: Node, probs: seq<Prob>, r: Rc) returns (bit: nat, r2: Rc)
    requires WfCtx(ctx, |probs|) && Wf(node) && !node.Done? && Normal(r)
    ensures bit <= 1 && Usable(r2) && r2.rest == r.rest
    ensures if node.AtDirect? then 2 * r2.range + 1 >= r.range else 67 * r2.range >= r.range
    ensures forall rc :: Usable(rc) && !Starved(rc) && Normalize(rc) == r ==>
      Dummy(ctx, node, probs, rc) == Dummy(ctx, Next(ctx, node, bit), probs, r2)
  {
    if node.AtDirect? {
      bit, r2 := DirectBit(r), AfterDirect(r);
    } else {
      var p := probs[Slot(ctx, node, |probs|)];
      bit, r2 := BitOf(r, p), AfterBit(r, p);
    }
    RankDrops(ctx, node, bit);
  }

  lemma StepAffords(ctx: Ctx, node: Node, bit: nat, rc: Rc, r2: Rc, path: DummyPath)
    requires Wf(node) && !node.Done? && bit <= 1 && Usable(rc) && !Starved(rc)
    requires r2.rest == Normalize(rc).rest
    requires if node.AtDirect? then 2 * r2.range + 1 >= Normalize(rc).range
             else 67 * r2.range >= Normalize(rc).range
    requires FewBytes(Next(ctx, node, bit), r2, path)
    ensures FewBytes(node, rc, path)
  {
    var r := Normalize(rc);
    var n := Needs(r2, path);
    if node.AtDirect? {
      LossPaysForDirect(ctx, node, bit);
      DirectBitAffords(r.range, r2.range, n, Loss(node), Loss(Next(ctx, node, bit)));
    } else {
      LossPaysForBit(ctx, node, bit);
      ModelBitAffords(r.range, r2.range, n, Loss(node), Loss(Next(ctx, node, bit)));
    }
    NormalizeAffords(rc, n, Loss(node));
  }

  /** LZMA_REQUIRED_INPUT_MAX: from a normalised range one symbol never needs more than 20 bytes. */
  lemma SymbolNeedsAtMost20Bytes(ctx: Ctx, probs: seq<Prob>, rc: Rc)
    requires WfCtx(ctx, |probs|) && Normal(rc)
    ensures Needs(rc, Dummy(ctx, AtIsMatch, probs, rc)) <= 20
    ensures |rc.rest| >= 20 ==> Dummy(ctx, AtIsMatch, probs, rc).DummyEnd?
  {
    NeedsFewBytes(ctx, AtIsMatch, probs, rc);
    TwentyIsEnough(rc.range, Needs(rc, Dummy(ctx, AtIsMatch, probs, rc)));
  }

  lemma TwentyIsEnough(range: nat, n: int)
    requires range >= TOP && Affordable(range, n, Loss(AtIsMatch))
    ensures n <= 20
  {
    if n > 20 {
      WorstLoss();
      ShiftedMonotone(TOP as real, range as real, 20);
      ShiftedGrows(range as real, 20, n - 1);
    }
  }

  // ----- every slot is read at most once per symbol

  /** Orders the slots by when a symbol can visit them. */
  function Key(slot: nat): nat {
    if slot < POS_SLOT then slot
    else if slot < LEN_CODER then slot + 2000
    else if slot < LITERAL then slot
    else 5000 + (slot - LITERAL) % 256
  }

  function NodeKey(ctx: Ctx, node: Node, ghost numProbs: nat): nat
    requires WfCtx(ctx, numProbs) && Wf(node)
  {
    if node.Done? then 10000 else if node.AtDirect? then 2700 else Key(Slot(ctx, node, numProbs))
  }

  ghost predicate AgreeFrom(p: seq<Prob>, q: seq<Prob>, key: nat) {
    |p| == |q| && forall s :: 0 <= s < |p| && Key(s) >= key ==> p[s] == q[s]
  }

  lemma KeyRises(ctx: Ctx, node: Node, bit: nat, numProbs: nat)
    requires WfCtx(ctx, numProbs) && Wf(node) && ReadsSlot(node) && bit <= 1
    ensures NodeKey(ctx, Next(ctx, node, bit), numProbs) > NodeKey(ctx, node, numProbs)
  {
    if node.AtLit? || node.AtMatchedLit? {
      LitKeyRises(ctx, node, bit, numProbs);
    } else if node.AtLenTree? {
      LenTreeKeyRises(ctx, node, bit, numProbs);
    } else if node.AtPosSlot? {
      PosSlotKeyRises(ctx, node, bit, numProbs);
    } else if node.AtSpec? {
      SpecKeyRises(ctx, node, bit, numProbs);
    } else if node.AtAlign? {
      AlignKeyRises(ctx, node, bit, numProbs);
    } else {
      DecisionKeyRises(ctx, node, bit, numProbs);
    }
  }

  lemma LitKey(ctx: Ctx, node: Node, numProbs: nat)
    requires WfCtx(ctx, numProbs) && Wf(node) && (node.AtLit? || node.AtMatchedLit?)
    ensures NodeKey(ctx, node, numProbs) == 5000 + node.symbol
  {
    var hi := if node.AtMatchedLit? then node.offs + MatchBit(node.matchByte * 2, node.offs) else 0;
    assert hi == 256 * (hi / 256);
    assert Slot(ctx, node, numProbs) == ctx.litBase + hi + node.symbol;
    var k := (ctx.litBase - LITERAL) / LIT_SIZE;
    assert ctx.litBase - LITERAL == LIT_SIZE * k;
    LowByte(3 * k + hi / 256, node.symbol);
  }

  lemma LowByte(high: nat, symbol: nat)
    requires symbol < 256
    ensures (256 * high + symbol) % 256 == symbol
  {
  }

  lemma LitKeyRises(ctx: Ctx, node: Node, bit: nat, numProbs: nat)
    requires WfCtx(ctx, numProbs) && Wf(node) && (node.AtLit? || node.AtMatchedLit?) && bit <= 1
    ensures NodeKey(ctx, Next(ctx, node, bit), numProbs) > NodeKey(ctx, node, numProbs)
  {
    LitKey(ctx, node, numProbs);
    if !Next(ctx, node, bit).Done? {
      LitKey(ctx, Next(ctx, node, bit), numProbs);
    }
  }

  lemma LenTreeKeyRises(ctx: Ctx, node: Node, bit: nat, numProbs: nat)
    requires WfCtx(ctx, numProbs) && Wf(node) && node.AtLenTree? && bit <= 1
    ensures NodeKey(ctx, Next(ctx, node, bit), numProbs) > NodeKey(ctx, node, numProbs)
  {
    var i := 2 * node.i + bit;
    if i < LenLimit(node.part) {
      assert Next(ctx, node, bit) == AtLenTree(node.kind, node.part, i);
    } else {
      assert Next(ctx, node, bit) == AfterLen(node.kind, i - LenLimit(node.part) + LenOffset(node.part));
    }
  }

  lemma PosSlotKeyRises(ctx: Ctx, node: Node, bit: nat, numProbs: nat)
    requires WfCtx(ctx, numProbs) && Wf(node) && node.AtPosSlot? && bit <= 1
    ensures NodeKey(ctx, Next(ctx, node, bit), numProbs) > NodeKey(ctx, node, numProbs)
  {
    var i := 2 * node.i + bit;
    assert Slot(ctx, node, numProbs) < SPEC_POS;
    if i < 64 {
      assert Next(ctx, node, bit) == AtPosSlot(node.len, i);
    } else {
      assert Next(ctx, node, bit) == AfterPosSlot(node.len, i - 64);
    }
  }

  lemma SpecKeyRises(ctx: Ctx, node: Node, bit: nat, numProbs: nat)
    requires WfCtx(ctx, numProbs) && Wf(node) && node.AtSpec? && bit <= 1
    ensures NodeKey(ctx, Next(ctx, node, bit), numProbs) > NodeKey(ctx, node, numProbs)
  {
  }

  lemma AlignKeyRises(ctx: Ctx, node: Node, bit: nat, numProbs: nat)
    requires WfCtx(ctx, numProbs) && Wf(node) && node.AtAlign? && bit <= 1
    ensures NodeKey(ctx, Next(ctx, node, bit), numProbs) > NodeKey(ctx, node, numProbs)
  {
  }

  lemma DecisionKeyRises(ctx: Ctx, node: Node, bit: nat, numProbs: nat)
    requires WfCtx(ctx, numProbs) && Wf(node) && bit <= 1
    requires node.AtIsMatch? || node.AtIsRep? || node.AtRepG0? || node.AtRep0Long? || node.AtRepG1? ||
             node.AtRepG2? || node.AtLenChoice? || node.AtLenChoice2?
    ensures NodeKey(ctx, Next(ctx, node, bit), numProbs) > NodeKey(ctx, node, numProbs)
  {
    if node.AtIsMatch? && bit == 0 {
      LitKey(ctx, LitStart(ctx), numProbs);
    }
  }

  lemma DirectKeyStays(ctx: Ctx, node: Node, bit: nat, numProbs: nat)
    requires WfCtx(ctx, numProbs) && Wf(node) && node.AtDirect? && bit <= 1
    ensures NodeKey(ctx, Next(ctx, node, bit), numProbs) >= NodeKey(ctx, node, numProbs)
  {
  }

  /**
    The dummy decoder predicts the real one. Adapting a probability changes nothing that is read
    later in the same symbol, so both walks see the same bits, symbol, range, code and bytes.
   */
  lemma {:induction false} DummyPredictsReal(ctx: Ctx, node: Node, p: seq<Prob>, q: seq<Prob>, rc: Rc)
    requires WfCtx(ctx, |p|) && Wf(node) && Usable(rc)
    requires AgreeFrom(p, q, NodeKey(ctx, node, |p|))
    ensures Forget(Real(ctx, node, p, rc)) == Dummy(ctx, node, q, rc)
    decreases Rank(node)
  {
    if !Starved(rc) && !node.Done? {
      var r := Normalize(rc);
      if node.AtDirect? {
        var bit := DirectBit(r);
        RankDrops(ctx, node, bit);
        DirectKeyStays(ctx, node, bit, |p|);
        DummyPredictsReal(ctx, Next(ctx, node, bit), p, q, AfterDirect(r));
      } else {
        var slot := Slot(ctx, node, |p|);
        var bit := BitOf(r, p[slot]);
        RankDrops(ctx, node, bit);
        KeyRises(ctx, node, bit, |p|);
        assert p[slot] == q[slot];
        DummyPredictsReal(ctx, Next(ctx, node, bit), p[slot := Adapt(p[slot], bit)], q, AfterBit(r, p[slot]));
      }
    }
  }

  // ----- more input does not change a finished symbol

  lemma {:induction false} MoreInputSameSymbol(ctx: Ctx, node: Node, probs: seq<Prob>, rc: Rc, more: seq<Byte>)
    requires WfCtx(ctx, |probs|) && Wf(node) && Usable(rc)
    requires Real(ctx, node, probs, rc).End?
    ensures var path := Real(ctx, node, probs, rc);
      Real(ctx, node, probs, Extend(rc, more)) == path.(rc := Extend(path.rc, more))
    decreases Rank(node)
  {
    ExtendCommutes(rc, more);
    if !node.Done? {
      hide Real, AfterBit, BitOf, Slot, Next;
      var r := Normalize(rc);
      if node.AtDirect? {
        var bit := DirectBit(r);
        RankDrops(ctx, node, bit);
        DirectStep(ctx, node, probs, rc);
        DirectStep(ctx, node, probs, Extend(rc, more));
        MoreInputSameSymbol(ctx, Next(ctx, node, bit), probs, AfterDirect(r), more);
      } else {
        var slot := Slot(ctx, node, |probs|);
        var p := probs[slot];
        var bit := BitOf(r, p);
        RankDrops(ctx, node, bit);
        BitIgnoresRest(r, p, more);
        RealStep(ctx, node, probs, rc, slot);
        RealStep(ctx, node, probs, Extend(rc, more), slot);
        MoreInputSameSymbol(ctx, Next(ctx, node, bit), probs[slot := Adapt(p, bit)], AfterBit(r, p), more);
      }
    }
  }

  /** A symbol is decoded from the bytes it takes: what comes after them may be missing. */
  lemma {:induction false} PrefixSuffices(ctx: Ctx, node: Node, probs: seq<Prob>, rc: Rc, keep: nat)
    requires WfCtx(ctx, |probs|) && Wf(node) && Usable(rc)
    requires Real(ctx, node, probs, rc).End?
    requires |rc.rest| - |Real(ctx, node, probs, rc).rc.rest| <= keep <= |rc.rest|
    ensures Real(ctx, node, probs, Keep(rc, keep)).End?
    decreases Rank(node)
  {
    var r := Normalize(rc);
    var keep2 := keep - (|rc.rest| - |r.rest|);
    if node.Done? {
    } else if node.AtDirect? {
      hide Real, Next, DirectBit, AfterDirect, Normalize;
      var bit := DirectBit(r);
      RankDrops(ctx, node, bit);
      DirectStep(ctx, node, probs, rc);
      KeepDirectStep(ctx, node, probs, rc, keep);
      PrefixSuffices(ctx, Next(ctx, node, bit), probs, AfterDirect(r), keep2);
    } else {
      hide Real, Next, BitOf, AfterBit, Slot, Normalize;
      var slot := Slot(ctx, node, |probs|);
      var p := probs[slot];
      var bit := BitOf(r, p);
      RankDrops(ctx, node, bit);
      RealStep(ctx, node, probs, rc, slot);
      KeepBitStep(ctx, node, probs, rc, keep);
      PrefixSuffices(ctx, Next(ctx, node, bit), probs[slot := Adapt(p, bit)], AfterBit(r, p), keep2);
    }
  }

  lemma KeepDirectStep(ctx: Ctx, node: Node, probs: seq<Prob>, rc: Rc, keep: nat)
    requires WfCtx(ctx, |probs|) && Wf(node) && Usable(rc) && node.AtDirect? && !Starved(rc)
    requires |rc.rest| - |Normalize(rc).rest| <= keep <= |rc.rest|
    ensures var r := Normalize(rc);
      Real(ctx, node, probs, Keep(rc, keep))
      == Real(ctx, Next(ctx, node, DirectBit(r)), probs, Keep(AfterDirect(r), keep - (|rc.rest| - |r.rest|)))
  {
    hide Real, Next;
    KeepCommutes(rc, keep);
    DirectStep(ctx, node, probs, Keep(rc, keep));
  }

  lemma KeepBitStep(ctx: Ctx, node: Node, probs: seq<Prob>, rc: Rc, keep: nat)
    requires WfCtx(ctx, |probs|) && Wf(node) && Usable(rc) && ReadsSlot(node) && !Starved(rc)
    requires |rc.rest| - |Normalize(rc).rest| <= keep <= |rc.rest|
    ensures var r, slot := Normalize(rc), Slot(ctx, node, |probs|);
      var p := probs[slot];
      Real(ctx, node, probs, Keep(rc, keep))
      == Real(ctx, Next(ctx, node, BitOf(r, p)), probs[slot := Adapt(p, BitOf(r, p))],
              Keep(AfterBit(r, p), keep - (|rc.rest| - |r.rest|)))
  {
    hide Real, Next, AfterBit, BitOf, Slot;
    KeepCommutes(rc, keep);
    var slot := Slot(ctx, node, |probs|);
    KeepIgnoresBit(Normalize(rc), probs[slot], keep - (|rc.rest| - |Normalize(rc).rest|));
    RealStep(ctx, node, probs, Keep(rc, keep), slot);
  }
}
