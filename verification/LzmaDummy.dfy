/**
  The _CHECK macros of zload/LzmaDec.c: the same walk, probabilities only read, and every byte
  checked against the end of the input. ok is false where the C code returns DUMMY_ERROR.
 */
module LzmaDummy {
  import opened Words
  import opened RangeCoder
  import opened LzmaSymbol
  import opened LzmaRun
  import opened LzmaBits

  ghost predicate Foresees(ctx: Ctx, node: Node, probs: seq<Prob>, rd: Reader, input: seq<Byte>, path: DummyPath) {
    WfCtx(ctx, |probs|) && Wf(node) && CanRead(rd, input) && Dummy(ctx, node, probs, RcAt(rd, input)) == path
  }

  /** NORMALIZE_CHECK */
  method NormalizeCheck(rd: Reader, input: seq<Byte>) returns (ok: bool, r: Reader)
    requires CanRead(rd, input)
    ensures ok <==> !Starved(RcAt(rd, input))
    ensures ok ==> r.buf <= |input| && RcAt(r, input) == Normalize(RcAt(rd, input))
  {
    ok, r := true, rd;
    if rd.range < TOP {
      if rd.buf >= |input| {
        return false, rd;
      }
      r := NormalizeReader(rd, input);
    }
  }

  /** GET_BIT_CHECK */
  method GetBitCheck(probs: array<Prob>, slot: nat, rd: Reader, input: seq<Byte>, ghost ctx: Ctx, ghost node: Node,
      ghost path: DummyPath)
    returns (ok: bool, bit: nat, r: Reader)
    requires Foresees(ctx, node, probs[..], rd, input, path)
    requires ReadsSlot(node) && slot == Slot(ctx, node, probs.Length)
    ensures bit <= 1
    ensures if ok then Foresees(ctx, Next(ctx, node, bit), probs[..], r, input, path) else path.DummyStarve?
  {
    bit := 0;
    ok, r := NormalizeCheck(rd, input);
    if ok {
      var ttt := probs[slot];
      var bound := r.range / BIT_MODEL_TOTAL * ttt;
      BoundLeavesRoom(r.range, ttt);
      if r.code < bound {
        r := r.(range := bound);
      } else {
        r := r.(range := r.range - bound, code := r.code - bound);
        bit := 1;
      }
      assert RcAt(r, input) == AfterBit(Normalize(RcAt(rd, input)), ttt);
    }
  }

  method DummyLiteral(probs: array<Prob>, prob: nat, rd: Reader, input: seq<Byte>, ghost ctx: Ctx,
      ghost path: DummyPath)
    returns (ok: bool, ghost sym: Sym, r: Reader)
    requires Foresees(ctx, AtLit(1), probs[..], rd, input, path) && prob == ctx.litBase
    ensures sym.Lit?
    ensures if ok then Foresees(ctx, Done(sym), probs[..], r, input, path) else path.DummyStarve?
  {
    hide Dummy;
    var symbol := 1;
    ok, sym, r := true, Lit(0), rd;
    while symbol < 0x100
      invariant 1 <= symbol < 0x200
      invariant Foresees(ctx, LitFrom(symbol), probs[..], r, input, path)
    {
      var bit;
      ok, bit, r := GetBitCheck(probs, prob + symbol, r, input, ctx, AtLit(symbol), path);
      if !ok {
        return;
      }
      symbol := symbol + symbol + bit;
    }
    ok, sym := true, Lit(symbol % 256);
  }

  method DummyMatchedLiteral(probs: array<Prob>, prob: nat, matchByte0: nat, rd: Reader, input: seq<Byte>,
      ghost ctx: Ctx, ghost path: DummyPath)
    returns (ok: bool, ghost sym: Sym, r: Reader)
    requires Foresees(ctx, AtMatchedLit(1, 256, matchByte0), probs[..], rd, input, path) && prob == ctx.litBase
    ensures sym.Lit?
    ensures if ok then Foresees(ctx, Done(sym), probs[..], r, input, path) else path.DummyStarve?
  {
    hide Dummy;
    var offs, matchByte, symbol := 0x100, matchByte0, 1;
    ok, sym, r := true, Lit(0), rd;
    while symbol < 0x100
      invariant 1 <= symbol < 0x200 && (offs == 0 || offs == 0x100)
      invariant Foresees(ctx, MatchedLitFrom(symbol, offs, matchByte), probs[..], r, input, path)
    {
      ghost var node := AtMatchedLit(symbol, offs, matchByte);
      matchByte := matchByte * 2;
      var mask := MatchBit(matchByte, offs);
      var bit;
      ok, bit, r := GetBitCheck(probs, prob + offs + mask + symbol, r, input, ctx, node, path);
      if !ok {
        return;
      }
      symbol := symbol + symbol + bit;
      offs := if bit == 0 then offs - mask else mask;
    }
    ok, sym := true, Lit(symbol % 256);
  }

  method DummyLenTree(probs: array<Prob>, probLen: nat, limit: nat, rd: Reader, input: seq<Byte>, ghost ctx: Ctx,
      ghost kind: LenKind, ghost part: nat, ghost path: DummyPath)
    returns (ok: bool, len: nat, r: Reader)
    requires WfKind(kind) && part <= 2 && limit == LenLimit(part) && probLen == LenTreeBase(ctx, kind, part)
    requires Foresees(ctx, AtLenTree(kind, part, 1), probs[..], rd, input, path)
    ensures len < limit
    ensures if ok then Foresees(ctx, AfterLen(kind, len + LenOffset(part)), probs[..], r, input, path)
            else path.DummyStarve?
  {
    hide Dummy;
    var i := 1;
    ok, len, r := true, 0, rd;
    while i < limit
      invariant 1 <= i < 2 * limit
      invariant Foresees(ctx, LenTreeFrom(kind, part, i), probs[..], r, input, path)
    {
      var bit;
      ok, bit, r := GetBitCheck(probs, probLen + i, r, input, ctx, AtLenTree(kind, part, i), path);
      if !ok {
        return;
      }
      i := i + i + bit;
    }
    ok, len := true, i - limit;
  }

  method DummyLength(probs: array<Prob>, prob: nat, posState: nat, rd: Reader, input: seq<Byte>, ghost ctx: Ctx,
      ghost kind: LenKind, ghost path: DummyPath)
    returns (ok: bool, len: nat, r: Reader)
    requires WfKind(kind) && prob == LenBase(kind) && posState == ctx.posState
    requires Foresees(ctx, AtLenChoice(kind), probs[..], rd, input, path)
    ensures len <= 271
    ensures if ok then Foresees(ctx, AfterLen(kind, len), probs[..], r, input, path) else path.DummyStarve?
  {
    hide Dummy;
    var bit, probLen, offset, limit;
    ghost var part := 0;
    len := 0;
    ok, bit, r := GetBitCheck(probs, prob + LEN_CHOICE, rd, input, ctx, AtLenChoice(kind), path);
    if !ok {
      return;
    }
    if bit == 0 {
      probLen, offset, limit := prob + LEN_LOW + posState * 8, 0, 8;
    } else {
      ok, bit, r := GetBitCheck(probs, prob + LEN_CHOICE2, r, input, ctx, AtLenChoice2(kind), path);
      if !ok {
        return;
      }
      if bit == 0 {
        probLen, offset, limit := prob + LEN_MID + posState * 8, 8, 8;
        part := 1;
      } else {
        probLen, offset, limit := prob + LEN_HIGH, 16, 256;
        part := 2;
      }
    }
    ok, len, r := DummyLenTree(probs, probLen, limit, r, input, ctx, kind, part, path);
    len := len + offset;
  }

  method DummyPosSlot(probs: array<Prob>, len: nat, rd: Reader, input: seq<Byte>, ghost ctx: Ctx, ghost path: DummyPath)
    returns (ok: bool, posSlot: nat, r: Reader)
    requires len <= 271 && Foresees(ctx, AtPosSlot(len, 1), probs[..], rd, input, path)
    ensures posSlot < 64
    ensures if ok then Foresees(ctx, AfterPosSlot(len, posSlot), probs[..], r, input, path) else path.DummyStarve?
  {
    hide Dummy;
    var prob := POS_SLOT + (if len < 4 then len else 3) * 64;
    var i := 1;
    ok, posSlot, r := true, 0, rd;
    while i < 64
      invariant 1 <= i < 128
      invariant Foresees(ctx, PosSlotFrom(len, i), probs[..], r, input, path)
    {
      var bit;
      ok, bit, r := GetBitCheck(probs, prob + i, r, input, ctx, AtPosSlot(len, i), path);
      if !ok {
        return;
      }
      i := i + i + bit;
    }
    ok, posSlot := true, i - 64;
  }

  /** NORMALIZE_CHECK and one direct bit, in the dummy decoder's own arithmetic. */
  method GetDirectBitCheck(rd: Reader, input: seq<Byte>, ghost ctx: Ctx, ghost node: Node, ghost probs: seq<Prob>,
      ghost path: DummyPath)
    returns (ok: bool, ghost bit: nat, r: Reader)
    requires Foresees(ctx, node, probs, rd, input, path) && node.AtDirect?
    ensures bit <= 1
    ensures if ok then Foresees(ctx, Next(ctx, node, bit), probs, r, input, path) else path.DummyStarve?
  {
    bit := 0;
    ok, r := NormalizeCheck(rd, input);
    if ok {
      ghost var rc := RcAt(r, input);
      var range := r.range / 2;
      var mask := if WrapSub(r.code, range) >= 0x8000_0000 then 0 else U32 - 1;
      r := Reader(range, WrapSub(r.code, if mask == 0 then 0 else range), r.buf);
      bit := DirectBit(rc);
      assert RcAt(r, input) == AfterDirect(rc);
    }
  }

  /** The direct bits of position slots from 14; then the align tree follows. */
  method DummyDirect(len: nat, posSlot: nat, rd: Reader, input: seq<Byte>, ghost ctx: Ctx, ghost probs: seq<Prob>,
      ghost path: DummyPath)
    returns (ok: bool, ghost dist: nat, r: Reader)
    requires len <= 271 && 14 <= posSlot < 64 && Foresees(ctx, AfterPosSlot(len, posSlot), probs, rd, input, path)
    ensures if ok then Foresees(ctx, AtAlign(len, 1, 1, dist), probs, r, input, path) else path.DummyStarve?
  {
    hide Dummy;
    var numDirectBits: nat := posSlot / 2 - 1 - 4;
    dist := 2 + posSlot % 2;
    ok, r := true, rd;
    while numDirectBits != 0
      invariant numDirectBits <= 26
      invariant
        var node := if numDirectBits > 0 then AtDirect(len, numDirectBits, dist) else AtAlign(len, 1, 1, dist * 16);
        Foresees(ctx, node, probs, r, input, path)
    {
      ghost var node := AtDirect(len, numDirectBits, dist);
      ghost var bit;
      ok, bit, r := GetDirectBitCheck(r, input, ctx, node, probs, path);
      if !ok {
        return;
      }
      dist := dist * 2 + bit;
      numDirectBits := numDirectBits - 1;
    }
    ok, dist := true, dist * 16;
  }

  /** Where the shared final loop of the dummy decoder stands: in a SpecPos tree or in the align tree. */
  ghost function ReverseFrom(len: nat, posSlot: nat, mask: nat, i: nat, dist: nat): Node
    requires len <= 271 && mask <= i < 2 * mask
    requires if 4 <= posSlot < 14
             then mask in {1, 2, 4, 8, 16, 32} && mask <= SpecSize(posSlot) && dist < SpecBase(posSlot) + mask
             else mask in {1, 2, 4, 8, 16} && dist < U32 - 16 + mask
  {
    if 4 <= posSlot < 14 then SpecFrom(len, posSlot, mask, i, dist) else AlignFrom(len, mask, i, dist)
  }

  ghost function ReverseSize(posSlot: nat): nat {
    if 4 <= posSlot < 14 then SpecSize(posSlot) else 16
  }

  /** n bits are left, mask is the value of the next one, and i its place in the reverse tree. */
  ghost predicate ReverseAt(posSlot: nat, mask: nat, n: nat, i: nat, dist: nat) {
    && 4 <= posSlot < 64 && mask in {1, 2, 4, 8, 16, 32}
    && mask <= ReverseSize(posSlot) == mask * Pow2(n)
    && mask <= i < 2 * mask
    && (if posSlot < 14 then dist < SpecBase(posSlot) + mask else dist < U32 - 16 + mask)
  }

  lemma ReverseNode(ctx: Ctx, len: nat, posSlot: nat, mask: nat, n: nat, i: nat, dist: nat, numProbs: nat)
    requires len <= 271 && ReverseAt(posSlot, mask, n, i, dist) && WfCtx(ctx, numProbs)
    ensures var node := ReverseFrom(len, posSlot, mask, i, dist);
      if n == 0 then node == Done(Match(len, dist))
      else
        && ReadsSlot(node) && Wf(node) && !node.Done?
        && Slot(ctx, node, numProbs) ==
          (if posSlot < 14 then SPEC_POS + SpecBase(posSlot) - posSlot - 1 else ALIGN) + i
  {
    HalvesLeft(mask, n);
    hide Pow2;
  }

  lemma ReverseStep(ctx: Ctx, len: nat, posSlot: nat, mask: nat, n: nat, i: nat, dist: nat, bit: nat)
    requires len <= 271 && ReverseAt(posSlot, mask, n, i, dist) && n > 0 && bit <= 1
    requires Wf(ReverseFrom(len, posSlot, mask, i, dist)) && !ReverseFrom(len, posSlot, mask, i, dist).Done?
    ensures var dist2 := if bit == 0 then dist else dist + mask;
      && ReverseAt(posSlot, 2 * mask, n - 1, 2 * i + bit, dist2)
      && Next(ctx, ReverseFrom(len, posSlot, mask, i, dist), bit)
         == ReverseFrom(len, posSlot, 2 * mask, 2 * i + bit, dist2)
  {
    HalvesLeft(mask, n);
    hide Pow2;
  }

  method DummyReverse(probs: array<Prob>, prob: nat, numDirectBits0: nat, rd: Reader, input: seq<Byte>,
      ghost len: nat, ghost posSlot: nat, ghost dist0: nat, ghost ctx: Ctx, ghost path: DummyPath)
    returns (ok: bool, ghost sym: Sym, r: Reader)
    requires len <= 271 && 4 <= posSlot < 64 && Pow2(numDirectBits0) == ReverseSize(posSlot)
    requires if posSlot < 14 then dist0 == SpecBase(posSlot) && prob == SPEC_POS + SpecBase(posSlot) - posSlot - 1
             else dist0 < U32 - 15 && prob == ALIGN
    requires Foresees(ctx, ReverseFrom(len, posSlot, 1, 1, dist0), probs[..], rd, input, path)
    ensures sym.Match?
    ensures if ok then Foresees(ctx, Done(sym), probs[..], r, input, path) else path.DummyStarve?
  {
    hide Dummy, Pow2, Next, Slot, Wf, SpecSize, SpecBase, ReadsSlot;
    var i: nat, numDirectBits := 1, numDirectBits0;
    ghost var mask: nat, dist: nat := 1, dist0;
    ok, sym, r := true, Match(len, 0), rd;
    while numDirectBits != 0
      invariant ReverseAt(posSlot, mask, numDirectBits, i, dist)
      invariant Foresees(ctx, ReverseFrom(len, posSlot, mask, i, dist), probs[..], r, input, path)
    {
      ReverseNode(ctx, len, posSlot, mask, numDirectBits, i, dist, probs.Length);
      ghost var i1, node := i, ReverseFrom(len, posSlot, mask, i, dist);
      var bit;
      ok, bit, r := GetBitCheck(probs, prob + i, r, input, ctx, node, path);
      if !ok {
        return;
      }
      i := i + i + bit;
      ReverseStep(ctx, len, posSlot, mask, numDirectBits, i1, dist, bit);
      dist := if bit == 0 then dist else dist + mask;
      mask := 2 * mask;
      numDirectBits := numDirectBits - 1;
    }
    ReverseNode(ctx, len, posSlot, mask, 0, i, dist, probs.Length);
    ok, sym := true, Match(len, dist);
  }

  lemma DummyDone(ctx: Ctx, sym: Sym, probs: seq<Prob>, rd: Reader, input: seq<Byte>, path: DummyPath)
    requires Foresees(ctx, Done(sym), probs, rd, input, path)
    ensures path == if Starved(RcAt(rd, input)) then DummyStarve else DummyEnd(sym, Normalize(RcAt(rd, input)))
  {
  }

  /** The new-match branch of LzmaDec_TryDummy: length, position slot, distance bits. */
  method DummyMatch(probs: array<Prob>, posState: nat, rd: Reader, input: seq<Byte>, ghost ctx: Ctx,
      ghost path: DummyPath)
    returns (ok: bool, ghost sym: Sym, r: Reader)
    requires Foresees(ctx, AtLenChoice(NewMatch), probs[..], rd, input, path) && posState == ctx.posState
    ensures sym.Match?
    ensures if ok then Foresees(ctx, Done(sym), probs[..], r, input, path) else path.DummyStarve?
  {
    hide Dummy;
    var len, posSlot;
    sym := Match(0, 0);
    ok, len, r := DummyLength(probs, LEN_CODER, posState, rd, input, ctx, NewMatch, path);
    if !ok {
      return;
    }
    ok, posSlot, r := DummyPosSlot(probs, len, r, input, ctx, path);
    if !ok {
      return;
    }
    sym := Match(len, posSlot);
    if posSlot >= 4 {
      var numDirectBits: nat := posSlot / 2 - 1;
      var prob;
      ghost var dist := SpecBase(posSlot);
      if posSlot < 14 {
        SpecSizeIsPower(posSlot);
        prob := SPEC_POS + (2 + posSlot % 2) * Pow2(numDirectBits) - posSlot - 1;
      } else {
        ok, dist, r := DummyDirect(len, posSlot, r, input, ctx, probs[..], path);
        if !ok {
          return;
        }
        prob, numDirectBits := ALIGN, 4;
        assert Pow2(4) == 16;
      }
      ok, sym, r := DummyReverse(probs, prob, numDirectBits, r, input, len, posSlot, dist, ctx, path);
    }
  }

  /** The repeated-match branch of LzmaDec_TryDummy; which distance it is does not matter here. */
  method DummyRep(probs: array<Prob>, state: nat, posState: nat, rd: Reader, input: seq<Byte>, ghost ctx: Ctx,
      ghost path: DummyPath)
    returns (ok: bool, ghost sym: Sym, r: Reader)
    requires Foresees(ctx, AtRepG0, probs[..], rd, input, path) && state == ctx.state && posState == ctx.posState
    ensures sym.ShortRep? || sym.Rep?
    ensures if ok then Foresees(ctx, Done(sym), probs[..], r, input, path) else path.DummyStarve?
  {
    hide Dummy;
    var bit, len;
    ghost var idx := 0;
    sym := ShortRep;
    ok, bit, r := GetBitCheck(probs, IS_REP_G0 + state, rd, input, ctx, AtRepG0, path);
    if !ok {
      return;
    }
    if bit == 0 {
      ok, bit, r := GetBitCheck(probs, IS_REP0_LONG + state * 16 + posState, r, input, ctx, AtRep0Long, path);
      if !ok || bit == 0 {
        return;
      }
    } else {
      ok, bit, r := GetBitCheck(probs, IS_REP_G1 + state, r, input, ctx, AtRepG1, path);
      if !ok {
        return;
      }
      idx := 1;
      if bit == 1 {
        ok, bit, r := GetBitCheck(probs, IS_REP_G2 + state, r, input, ctx, AtRepG2, path);
        if !ok {
          return;
        }
        idx := 2 + bit;
      }
    }
    ok, len, r := DummyLength(probs, REP_LEN_CODER, posState, r, input, ctx, OldMatch(idx), path);
    sym := Rep(idx, len);
  }
}
