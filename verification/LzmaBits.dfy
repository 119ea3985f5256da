/**
  The bit-reading macros of zload/LzmaDec.c on the probability array, each proved to follow the
  symbol automaton: the bits still to come decode, from the new node, to the same symbol.
 */
module LzmaBits {
  import opened Words
  import opened RangeCoder
  import opened LzmaSymbol
  import opened LzmaRun

  /** The decoder's local variables range, code and buf; buf indexes the current input buffer. */
  datatype Reader = Reader(range: nat, code: nat, buf: nat)

  ghost function RcAt(rd: Reader, input: seq<Byte>): Rc
    requires rd.buf <= |input|
  {
    Rc(rd.range, rd.code, input[rd.buf..])
  }

  ghost predicate CanRead(rd: Reader, input: seq<Byte>) {
    rd.buf <= |input| && Usable(RcAt(rd, input))
  }

  /** The symbol being decoded is whole in the input, and path is what it decodes to. */
  ghost predicate Follows(ctx: Ctx, node: Node, probs: seq<Prob>, rd: Reader, input: seq<Byte>, path: Path) {
    && WfCtx(ctx, |probs|) && Wf(node) && CanRead(rd, input)
    && path.End? && Real(ctx, node, probs, RcAt(rd, input)) == path
  }

  /** NORMALIZE */
  method NormalizeReader(rd: Reader, input: seq<Byte>) returns (r: Reader)
    requires CanRead(rd, input) && !Starved(RcAt(rd, input))
    ensures r.buf <= |input| && RcAt(r, input) == Normalize(RcAt(rd, input))
    ensures rd.buf <= r.buf
  {
    r := rd;
    if rd.range < TOP {
      assert input[rd.buf..][1..] == input[rd.buf + 1..];
      r := Reader(rd.range * 256, rd.code * 256 % U32 + input[rd.buf], rd.buf + 1);
    }
  }

  /** The bit proper: compare code with the bound, then UPDATE_0 or UPDATE_1. */
  method UpdateBit(probs: array<Prob>, slot: nat, rd: Reader, input: seq<Byte>) returns (bit: nat, r: Reader)
    requires slot < probs.Length && rd.buf <= |input| && Normal(RcAt(rd, input))
    modifies probs
    ensures bit == BitOf(RcAt(rd, input), old(probs[slot]))
    ensures r.buf == rd.buf && RcAt(r, input) == AfterBit(RcAt(rd, input), old(probs[slot]))
    ensures probs[..] == old(probs[..])[slot := Adapt(old(probs[slot]), bit)]
  {
    var ttt := probs[slot];
    var bound := rd.range / BIT_MODEL_TOTAL * ttt;
    BoundLeavesRoom(rd.range, ttt);
    if rd.code < bound {
      r := rd.(range := bound);
      probs[slot] := ttt + (BIT_MODEL_TOTAL - ttt) / 32;
      bit := 0;
    } else {
      r := rd.(range := rd.range - bound, code := rd.code - bound);
      probs[slot] := ttt - ttt / 32;
      bit := 1;
    }
  }

  /** GET_BIT: the bit read at a node takes the automaton to its next node. */
  method GetBit(probs: array<Prob>, slot: nat, rd: Reader, input: seq<Byte>, ghost ctx: Ctx, ghost node: Node,
      ghost path: Path)
    returns (bit: nat, r: Reader)
    requires Follows(ctx, node, probs[..], rd, input, path)
    requires ReadsSlot(node) && slot == Slot(ctx, node, probs.Length)
    modifies probs
    ensures bit <= 1 && Follows(ctx, Next(ctx, node, bit), probs[..], r, input, path)
    ensures rd.buf <= r.buf
  {
    hide Real, Next, Slot;
    RealStep(ctx, node, probs[..], RcAt(rd, input), slot);
    r := NormalizeReader(rd, input);
    bit, r := UpdateBit(probs, slot, r, input);
  }

  /** The literal coder: eight bits down a binary tree. */
  method DecodeLiteral(probs: array<Prob>, prob: nat, rd: Reader, input: seq<Byte>, ghost ctx: Ctx, ghost path: Path)
    returns (symbol: nat, r: Reader)
    requires Follows(ctx, AtLit(1), probs[..], rd, input, path) && prob == ctx.litBase
    modifies probs
    ensures Follows(ctx, Done(Lit(symbol % 256)), probs[..], r, input, path)
    ensures rd.buf <= r.buf
  {
    hide Real;
    symbol, r := 1, rd;
    while symbol < 0x100
      invariant 1 <= symbol < 0x200
      invariant rd.buf <= r.buf
      invariant Follows(ctx, LitFrom(symbol), probs[..], r, input, path)
    {
      var bit;
      bit, r := GetBit(probs, prob + symbol, r, input, ctx, AtLit(symbol), path);
      symbol := symbol + symbol + bit;
    }
  }

  /** The literal coder after a match: the byte that would have been copied picks the tree. */
  method DecodeMatchedLiteral(probs: array<Prob>, prob: nat, matchByte0: nat, rd: Reader, input: seq<Byte>,
      ghost ctx: Ctx, ghost path: Path)
    returns (symbol: nat, r: Reader)
    requires Follows(ctx, AtMatchedLit(1, 256, matchByte0), probs[..], rd, input, path) && prob == ctx.litBase
    modifies probs
    ensures Follows(ctx, Done(Lit(symbol % 256)), probs[..], r, input, path)
    ensures rd.buf <= r.buf
  {
    hide Real;
    var offs, matchByte := 0x100, matchByte0;
    symbol, r := 1, rd;
    while symbol < 0x100
      invariant 1 <= symbol < 0x200 && (offs == 0 || offs == 0x100)
      invariant rd.buf <= r.buf
      invariant Follows(ctx, MatchedLitFrom(symbol, offs, matchByte), probs[..], r, input, path)
    {
      ghost var node := AtMatchedLit(symbol, offs, matchByte);
      matchByte := matchByte * 2;
      var mask := MatchBit(matchByte, offs);
      var bit;
      bit, r := GetBit(probs, prob + offs + mask + symbol, r, input, ctx, node, path);
      symbol := symbol + symbol + bit;
      offs := if bit == 0 then offs - mask else mask;
    }
  }

  /** TREE_DECODE over one of the three trees of a length coder. */
  method DecodeLenTree(probs: array<Prob>, probLen: nat, limit: nat, rd: Reader, input: seq<Byte>, ghost ctx: Ctx,
      ghost kind: LenKind, ghost part: nat, ghost path: Path)
    returns (len: nat, r: Reader)
    requires WfKind(kind) && part <= 2 && limit == LenLimit(part) && probLen == LenTreeBase(ctx, kind, part)
    requires Follows(ctx, AtLenTree(kind, part, 1), probs[..], rd, input, path)
    modifies probs
    ensures len < limit && Follows(ctx, AfterLen(kind, len + LenOffset(part)), probs[..], r, input, path)
    ensures rd.buf <= r.buf
  {
    hide Real;
    var i := 1;
    r := rd;
    while i < limit
      invariant 1 <= i < 2 * limit
      invariant rd.buf <= r.buf
      invariant Follows(ctx, LenTreeFrom(kind, part, i), probs[..], r, input, path)
    {
      var bit;
      bit, r := GetBit(probs, probLen + i, r, input, ctx, AtLenTree(kind, part, i), path);
      i := i + i + bit;
    }
    len := i - limit;
  }

  /** The length coder: two choice bits, then a tree of 8, 8 or 256 leaves. */
  method DecodeLength(probs: array<Prob>, prob: nat, posState: nat, rd: Reader, input: seq<Byte>, ghost ctx: Ctx,
      ghost kind: LenKind, ghost path: Path)
    returns (len: nat, r: Reader)
    requires WfKind(kind) && prob == LenBase(kind) && posState == ctx.posState
    requires Follows(ctx, AtLenChoice(kind), probs[..], rd, input, path)
    modifies probs
    ensures len <= 271 && Follows(ctx, AfterLen(kind, len), probs[..], r, input, path)
    ensures rd.buf <= r.buf
  {
    hide Real;
    var bit, probLen, offset, limit;
    ghost var part := 0;
    bit, r := GetBit(probs, prob + LEN_CHOICE, rd, input, ctx, AtLenChoice(kind), path);
    if bit == 0 {
      probLen, offset, limit := prob + LEN_LOW + posState * 8, 0, 8;
    } else {
      bit, r := GetBit(probs, prob + LEN_CHOICE2, r, input, ctx, AtLenChoice2(kind), path);
      if bit == 0 {
        probLen, offset, limit := prob + LEN_MID + posState * 8, 8, 8;
        part := 1;
      } else {
        probLen, offset, limit := prob + LEN_HIGH, 16, 256;
        part := 2;
      }
    }
    len, r := DecodeLenTree(probs, probLen, limit, r, input, ctx, kind, part, path);
    len := len + offset;
  }

  method DecodePosSlot(probs: array<Prob>, len: nat, rd: Reader, input: seq<Byte>, ghost ctx: Ctx, ghost path: Path)
    returns (posSlot: nat, r: Reader)
    requires len <= 271 && Follows(ctx, AtPosSlot(len, 1), probs[..], rd, input, path)
    modifies probs
    ensures posSlot < 64 && Follows(ctx, AfterPosSlot(len, posSlot), probs[..], r, input, path)
    ensures rd.buf <= r.buf
  {
    hide Real;
    var prob := POS_SLOT + (if len < 4 then len else 3) * 64;
    var i := 1;
    r := rd;
    while i < 64
      invariant 1 <= i < 128
      invariant rd.buf <= r.buf
      invariant Follows(ctx, PosSlotFrom(len, i), probs[..], r, input, path)
    {
      var bit;
      bit, r := GetBit(probs, prob + i, r, input, ctx, AtPosSlot(len, i), path);
      i := i + i + bit;
    }
    posSlot := i - 64;
  }

  /** n low distance bits are left, mask is the value of the next one, and i its place in the reverse tree. */
  ghost predicate SpecAt(posSlot: nat, mask: nat, n: nat, i: nat, distance: nat) {
    && 4 <= posSlot < 14 && mask in {1, 2, 4, 8, 16, 32}
    && mask <= SpecSize(posSlot) == mask * Pow2(n)
    && mask <= i < 2 * mask && distance < SpecBase(posSlot) + mask
  }

  lemma SpecStart(len: nat, posSlot: nat)
    requires len <= 271 && 4 <= posSlot < 14
    ensures (2 + posSlot % 2) * Pow2(posSlot / 2 - 1) == SpecBase(posSlot)
    ensures SpecAt(posSlot, 1, posSlot / 2 - 1, 1, SpecBase(posSlot))
    ensures AfterPosSlot(len, posSlot) == SpecFrom(len, posSlot, 1, 1, SpecBase(posSlot))
  {
    SpecSizeIsPower(posSlot);
  }

  lemma SpecNode(ctx: Ctx, len: nat, posSlot: nat, mask: nat, n: nat, i: nat, distance: nat, numProbs: nat)
    requires len <= 271 && SpecAt(posSlot, mask, n, i, distance) && WfCtx(ctx, numProbs)
    ensures if n == 0 then SpecFrom(len, posSlot, mask, i, distance) == Done(Match(len, distance))
            else
              var node := AtSpec(len, posSlot, mask, i, distance);
              && SpecFrom(len, posSlot, mask, i, distance) == node && Wf(node)
              && Slot(ctx, node, numProbs) == SPEC_POS + SpecBase(posSlot) - posSlot - 1 + i
    ensures distance < U32 - 1
  {
    HalvesLeft(mask, n);
  }

  lemma SpecStep(ctx: Ctx, len: nat, posSlot: nat, mask: nat, n: nat, i: nat, distance: nat, bit: nat)
    requires len <= 271 && SpecAt(posSlot, mask, n, i, distance) && n > 0 && bit <= 1
    requires Wf(AtSpec(len, posSlot, mask, i, distance))
    ensures var distance2 := if bit == 1 then distance + mask else distance;
      && SpecAt(posSlot, 2 * mask, n - 1, 2 * i + bit, distance2)
      && Next(ctx, AtSpec(len, posSlot, mask, i, distance), bit)
         == SpecFrom(len, posSlot, 2 * mask, 2 * i + bit, distance2)
  {
    HalvesLeft(mask, n);
    hide Pow2;
  }

  /** The reverse tree of the low distance bits for position slots 4 to 13. */
  method DecodeSpec(probs: array<Prob>, len: nat, posSlot: nat, rd: Reader, input: seq<Byte>, ghost ctx: Ctx,
      ghost path: Path)
    returns (distance: nat, r: Reader)
    requires len <= 271 && 4 <= posSlot < 14 && Follows(ctx, AfterPosSlot(len, posSlot), probs[..], rd, input, path)
    modifies probs
    ensures distance < U32 - 1 && Follows(ctx, Done(Match(len, distance)), probs[..], r, input, path)
    ensures rd.buf <= r.buf
  {
    hide Real, Pow2, Next, Slot, Wf, SpecSize, SpecBase;
    var numDirectBits: nat := posSlot / 2 - 1;
    distance := (2 + posSlot % 2) * Pow2(numDirectBits);
    SpecStart(len, posSlot);
    var prob := SPEC_POS + distance - posSlot - 1;
    var mask: nat, i: nat := 1, 1;
    r := rd;
    while numDirectBits != 0
      invariant SpecAt(posSlot, mask, numDirectBits, i, distance)
      invariant rd.buf <= r.buf
      invariant Follows(ctx, SpecFrom(len, posSlot, mask, i, distance), probs[..], r, input, path)
    {
      SpecNode(ctx, len, posSlot, mask, numDirectBits, i, distance, probs.Length);
      ghost var i1, distance1 := i, distance;
      var bit;
      bit, r := GetBit(probs, prob + i, r, input, ctx, AtSpec(len, posSlot, mask, i, distance), path);
      i := i + i + bit;
      if bit == 1 {
        distance := distance + mask;
      }
      SpecStep(ctx, len, posSlot, mask, numDirectBits, i1, distance1, bit);
      mask := mask * 2;
      numDirectBits := numDirectBits - 1;
    }
    SpecNode(ctx, len, posSlot, mask, 0, i, distance, probs.Length);
  }

  /** mask counts up as the bits left count down. */
  lemma HalvesLeft(mask: nat, n: nat)
    requires mask >= 1
    ensures n == 0 ==> mask * Pow2(n) == mask
    ensures n >= 1 ==> mask * Pow2(n) == 2 * mask * Pow2(n - 1) > mask
  {
  }

  lemma SpecSizeIsPower(posSlot: nat)
    requires 4 <= posSlot < 14
    ensures Pow2(posSlot / 2 - 1) == SpecSize(posSlot)
  {
    assert Pow2(1) == 2 && Pow2(2) == 4 && Pow2(3) == 8 && Pow2(4) == 16 && Pow2(5) == 32;
  }

  /** One branchless direct bit; t is 0 for a one and all ones for a zero, as 32-bit words. */
  method GetDirectBit(rd: Reader, input: seq<Byte>, ghost ctx: Ctx, ghost node: Node, ghost probs: seq<Prob>,
      ghost path: Path)
    returns (bit: nat, r: Reader)
    requires Follows(ctx, node, probs, rd, input, path) && node.AtDirect?
    ensures bit <= 1 && Follows(ctx, Next(ctx, node, bit), probs, r, input, path)
    ensures rd.buf <= r.buf
  {
    hide Real, Next;
    DirectStep(ctx, node, probs, RcAt(rd, input));
    r := NormalizeReader(rd, input);
    var range := r.range / 2;
    var code := WrapSub(r.code, range);
    WrapSubUndone(r.code, range);
    hide WrapSub;
    var t := if code >= 0x8000_0000 then U32 - 1 else 0;
    bit := WrapAdd(t, 1);
    code := WrapAdd(code, if t == 0 then 0 else range);
    r := Reader(range, code, r.buf);
    assert RcAt(r, input) == AfterDirect(Normalize(RcAt(rd, input)));
  }

  /** Direct bits, then the four bits of the align tree, for position slots from 14. */
  method DecodeDirect(probs: array<Prob>, len: nat, posSlot: nat, rd: Reader, input: seq<Byte>, ghost ctx: Ctx,
      ghost path: Path)
    returns (distance: nat, r: Reader)
    requires len <= 271 && 14 <= posSlot < 64 && Follows(ctx, AfterPosSlot(len, posSlot), probs[..], rd, input, path)
    modifies probs
    ensures distance < U32 && Follows(ctx, Done(Match(len, distance)), probs[..], r, input, path)
    ensures rd.buf <= r.buf
  {
    hide Real;
    var numDirectBits: nat := posSlot / 2 - 1 - 4;
    distance := 2 + posSlot % 2;
    r := rd;
    while numDirectBits != 0
      invariant numDirectBits <= 26
      invariant rd.buf <= r.buf
      invariant
        var node :=
          if numDirectBits > 0 then AtDirect(len, numDirectBits, distance) else AtAlign(len, 1, 1, distance * 16);
        Follows(ctx, node, probs[..], r, input, path)
    {
      ghost var node := AtDirect(len, numDirectBits, distance);
      var bit;
      bit, r := GetDirectBit(r, input, ctx, node, probs[..], path);
      distance := distance * 2 + bit;
      numDirectBits := numDirectBits - 1;
    }
    distance := distance * 16;
    distance, r := DecodeAlign(probs, len, distance, r, input, ctx, path);
  }

  method DecodeAlign(probs: array<Prob>, len: nat, distance0: nat, rd: Reader, input: seq<Byte>, ghost ctx: Ctx,
      ghost path: Path)
    returns (distance: nat, r: Reader)
    requires Follows(ctx, AtAlign(len, 1, 1, distance0), probs[..], rd, input, path)
    modifies probs
    ensures distance < U32 && Follows(ctx, Done(Match(len, distance)), probs[..], r, input, path)
    ensures rd.buf <= r.buf
  {
    hide Real;
    var mask, i := 1, 1;
    distance, r := distance0, rd;
    while mask < 16
      invariant mask in {1, 2, 4, 8, 16} && mask <= i < 2 * mask && distance < U32 - 16 + mask
      invariant rd.buf <= r.buf
      invariant Follows(ctx, AlignFrom(len, mask, i, distance), probs[..], r, input, path)
      decreases 16 - mask
    {
      var bit;
      bit, r := GetBit(probs, ALIGN + i, r, input, ctx, AtAlign(len, mask, i, distance), path);
      i := i + i + bit;
      if bit == 1 {
        distance := distance + mask;
      }
      mask := mask * 2;
    }
  }

  /** The whole distance of a new match. */
  method DecodeDistance(probs: array<Prob>, len: nat, rd: Reader, input: seq<Byte>, ghost ctx: Ctx, ghost path: Path)
    returns (distance: nat, r: Reader)
    requires len <= 271 && Follows(ctx, AtPosSlot(len, 1), probs[..], rd, input, path)
    modifies probs
    ensures distance < U32 && Follows(ctx, Done(Match(len, distance)), probs[..], r, input, path)
    ensures rd.buf <= r.buf
  {
    hide Real;
    distance, r := DecodePosSlot(probs, len, rd, input, ctx, path);
    if distance >= 4 {
      var posSlot := distance;
      if posSlot < 14 {
        distance, r := DecodeSpec(probs, len, posSlot, r, input, ctx, path);
      } else {
        distance, r := DecodeDirect(probs, len, posSlot, r, input, ctx, path);
      }
    }
  }
}
