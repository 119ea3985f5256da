/**
  One LZMA symbol as an automaton. A node is a point of LzmaDec_DecodeReal where the next bit is
  about to be read; Slot is the probability it is read with and Next where control goes.
  Real runs the automaton adapting the probabilities, Dummy runs it without touching them.
 */
module LzmaSymbol {
  import opened Words

  // Offsets into the probability table
  const NUM_POS_STATES_MAX: nat := 16
  const NUM_STATES: nat := 12
  const NUM_LIT_STATES: nat := 7

  const IS_MATCH: nat := 0
  const IS_REP: nat := IS_MATCH + NUM_STATES * NUM_POS_STATES_MAX
  const IS_REP_G0: nat := IS_REP + NUM_STATES
  const IS_REP_G1: nat := IS_REP_G0 + NUM_STATES
  const IS_REP_G2: nat := IS_REP_G1 + NUM_STATES
  const IS_REP0_LONG: nat := IS_REP_G2 + NUM_STATES
  const POS_SLOT: nat := IS_REP0_LONG + NUM_STATES * NUM_POS_STATES_MAX
  const SPEC_POS: nat := POS_SLOT + 4 * 64
  const ALIGN: nat := SPEC_POS + 128 - 14
  const LEN_CODER: nat := ALIGN + 16
  const LEN_CHOICE: nat := 0
  const LEN_CHOICE2: nat := 1
  const LEN_LOW: nat := 2
  const LEN_MID: nat := LEN_LOW + NUM_POS_STATES_MAX * 8
  const LEN_HIGH: nat := LEN_MID + NUM_POS_STATES_MAX * 8
  const NUM_LEN_PROBS: nat := LEN_HIGH + 256
  const REP_LEN_CODER: nat := LEN_CODER + NUM_LEN_PROBS
  const LITERAL: nat := REP_LEN_CODER + NUM_LEN_PROBS
  const LIT_SIZE: nat := 768

  const LZMA_BASE_SIZE: nat := 1846

  /** The build-time check of zload/LzmaDec.c: the other probabilities end where LZMA_BASE_SIZE says. */
  lemma LiteralsFollow()
    ensures LITERAL == LZMA_BASE_SIZE
  {
  }

  const END_DISTANCE: nat := 0xFFFF_FFFF

  /** What is fixed while one symbol is decoded. */
  datatype Ctx = Ctx(state: nat, posState: nat, litBase: nat, matchByte: nat)

  /** A decoded symbol; len does not yet include the minimum match length 2. */
  datatype Sym =
    | Lit(b: nat)
    | ShortRep
    | Rep(idx: nat, len: nat)
    | Match(len: nat, dist: nat)

  /** Which length coder is in use, and for which repeated distance. */
  datatype LenKind = NewMatch | OldMatch(idx: nat)

  datatype Node =
    | AtIsMatch
    | AtLit(symbol: nat)
    | AtMatchedLit(symbol: nat, offs: nat, matchByte: nat)
    | AtIsRep
    | AtRepG0
    | AtRep0Long
    | AtRepG1
    | AtRepG2
    | AtLenChoice(kind: LenKind)
    | AtLenChoice2(kind: LenKind)
    | AtLenTree(kind: LenKind, part: nat, i: nat)
    | AtPosSlot(len: nat, i: nat)
    | AtSpec(len: nat, posSlot: nat, mask: nat, i: nat, dist: nat)
    | AtDirect(len: nat, left: nat, dist: nat)
    | AtAlign(len: nat, mask: nat, i: nat, dist: nat)
    | Done(sym: Sym)

  predicate WfCtx(ctx: Ctx, numProbs: nat) {
    && ctx.state < NUM_STATES
    && ctx.posState < NUM_POS_STATES_MAX
    && ctx.matchByte < 256
    && LITERAL <= ctx.litBase
    && ctx.litBase + LIT_SIZE <= numProbs
    && (ctx.litBase - LITERAL) % LIT_SIZE == 0
  }

  predicate WfKind(kind: LenKind) {
    kind.OldMatch? ==> kind.idx <= 3
  }

  predicate WfSym(sym: Sym) {
    match sym
    case Lit(b) => b < 256
    case ShortRep => true
    case Rep(idx, len) => idx <= 3 && len <= 271
    case Match(len, dist) => len <= 271 && dist < U32
  }

  predicate Wf(node: Node) {
    match node
    case AtLit(symbol) => 1 <= symbol < 256
    case AtMatchedLit(symbol, offs, _) => 1 <= symbol < 256 && (offs == 0 || offs == 256)
    case AtLenChoice(kind) => WfKind(kind)
    case AtLenChoice2(kind) => WfKind(kind)
    case AtLenTree(kind, part, i) => WfKind(kind) && part <= 2 && 1 <= i < LenLimit(part)
    case AtPosSlot(len, i) => len <= 271 && 1 <= i < 64
    case AtSpec(len, posSlot, mask, i, dist) =>
      && len <= 271 && 4 <= posSlot < 14
      && mask in {1, 2, 4, 8, 16} && mask < SpecSize(posSlot)
      && mask <= i < 2 * mask
      && dist < SpecBase(posSlot) + mask
    case AtDirect(len, left, dist) =>
      len <= 271 && 1 <= left <= 26 && (dist + 1) * Pow2(left) <= 0x1000_0000
    case AtAlign(len, mask, i, dist) =>
      len <= 271 && mask in {1, 2, 4, 8} && mask <= i < 2 * mask && dist < U32 - 16 + mask
    case Done(sym) => WfSym(sym)
    case _ => true
  }

  function LenLimit(part: nat): nat {
    if part < 2 then 8 else 256
  }

  function LenOffset(part: nat): nat {
    if part == 0 then 0 else if part == 1 then 8 else 16
  }

  function LenBase(kind: LenKind): nat {
    if kind.NewMatch? then LEN_CODER else REP_LEN_CODER
  }

  function LenTreeBase(ctx: Ctx, kind: LenKind, part: nat): nat {
    LenBase(kind) +
    (if part == 0 then LEN_LOW + ctx.posState * 8
     else if part == 1 then LEN_MID + ctx.posState * 8
     else LEN_HIGH)
  }

  function PosSlotBase(len: nat): nat {
    POS_SLOT + (if len < 4 then len else 3) * 64
  }

  /** 1 << numDirectBits for the position slots below 14. */
  function SpecSize(posSlot: nat): nat {
    if posSlot < 6 then 2 else if posSlot < 8 then 4 else if posSlot < 10 then 8
    else if posSlot < 12 then 16 else 32
  }

  function SpecBase(posSlot: nat): nat {
    if posSlot % 2 == 0 then 2 * SpecSize(posSlot) else 3 * SpecSize(posSlot)
  }

  /** (matchByte & offs) for offs either 0 or 0x100. */
  function MatchBit(matchByte: nat, offs: nat): (bit: nat)
    ensures bit == 0 || bit == offs
  {
    if matchByte / 256 % 2 == 1 then offs else 0
  }

  /** Done and AtDirect read no probability. */
  predicate ReadsSlot(node: Node) {
    !node.Done? && !node.AtDirect?
  }

  /** The index of the probability a node reads: inside the table at every node. */
  function Slot(ctx: Ctx, node: Node, ghost numProbs: nat): (s: nat)
    requires WfCtx(ctx, numProbs) && Wf(node) && ReadsSlot(node)
    ensures s < numProbs
  {
    match node
    case AtIsMatch => IS_MATCH + ctx.state * 16 + ctx.posState
    case AtLit(symbol) => ctx.litBase + symbol
    case AtMatchedLit(symbol, offs, matchByte) =>
      ctx.litBase + offs + MatchBit(matchByte * 2, offs) + symbol
    case AtIsRep => IS_REP + ctx.state
    case AtRepG0 => IS_REP_G0 + ctx.state
    case AtRep0Long => IS_REP0_LONG + ctx.state * 16 + ctx.posState
    case AtRepG1 => IS_REP_G1 + ctx.state
    case AtRepG2 => IS_REP_G2 + ctx.state
    case AtLenChoice(kind) => LenBase(kind) + LEN_CHOICE
    case AtLenChoice2(kind) => LenBase(kind) + LEN_CHOICE2
    case AtLenTree(kind, part, i) => LenTreeBase(ctx, kind, part) + i
    case AtPosSlot(len, i) => PosSlotBase(len) + i
    case AtSpec(_, posSlot, _, i, _) => SPEC_POS + SpecBase(posSlot) - posSlot - 1 + i
    case AtAlign(_, _, i, _) => ALIGN + i
  }

  /** Where the automaton goes on a bit. */
  function Next(ctx: Ctx, node: Node, bit: nat): (n: Node)
    requires Wf(node) && !node.Done? && bit <= 1
    ensures Wf(n)
  {
    match node
    case AtIsMatch => if bit == 0 then LitStart(ctx) else AtIsRep
    case AtLit(symbol) => LitFrom(2 * symbol + bit)
    case AtMatchedLit(symbol, offs, matchByte) =>
      var mb := matchByte * 2;
      var b := MatchBit(mb, offs);
      MatchedLitFrom(2 * symbol + bit, if bit == 0 then offs - b else b, mb)
    case AtIsRep => if bit == 0 then AtLenChoice(NewMatch) else AtRepG0
    case AtRepG0 => if bit == 0 then AtRep0Long else AtRepG1
    case AtRep0Long => if bit == 0 then Done(ShortRep) else AtLenChoice(OldMatch(0))
    case AtRepG1 => if bit == 0 then AtLenChoice(OldMatch(1)) else AtRepG2
    case AtRepG2 => AtLenChoice(OldMatch(2 + bit))
    case AtLenChoice(kind) => if bit == 0 then AtLenTree(kind, 0, 1) else AtLenChoice2(kind)
    case AtLenChoice2(kind) => AtLenTree(kind, 1 + bit, 1)
    case AtLenTree(kind, part, i) => LenTreeFrom(kind, part, 2 * i + bit)
    case AtPosSlot(len, i) => PosSlotFrom(len, 2 * i + bit)
    case AtSpec(len, posSlot, mask, i, dist) =>
      SpecFrom(len, posSlot, 2 * mask, 2 * i + bit, if bit == 0 then dist else dist + mask)
    case AtDirect(len, left, dist) => DirectFrom(len, left, dist, bit)
    case AtAlign(len, mask, i, dist) =>
      AlignFrom(len, 2 * mask, 2 * i + bit, if bit == 0 then dist else dist + mask)
  }

  /** After a match, a literal is decoded against the byte the match would have copied next. */
  function LitStart(ctx: Ctx): (n: Node)
    ensures Wf(n)
  {
    if ctx.state < NUM_LIT_STATES then AtLit(1) else AtMatchedLit(1, 256, ctx.matchByte)
  }

  function LitFrom(symbol: nat): (n: Node)
    requires 1 <= symbol
    ensures Wf(n)
  {
    if symbol < 256 then AtLit(symbol) else Done(Lit(symbol % 256))
  }

  function MatchedLitFrom(symbol: nat, offs: nat, matchByte: nat): (n: Node)
    requires 1 <= symbol && (offs == 0 || offs == 256)
    ensures Wf(n)
  {
    if symbol < 256 then AtMatchedLit(symbol, offs, matchByte) else Done(Lit(symbol % 256))
  }

  function LenTreeFrom(kind: LenKind, part: nat, i: nat): (n: Node)
    requires WfKind(kind) && part <= 2 && 1 <= i < 2 * LenLimit(part)
    ensures Wf(n)
  {
    if i < LenLimit(part) then AtLenTree(kind, part, i) else AfterLen(kind, i - LenLimit(part) + LenOffset(part))
  }

  function AfterLen(kind: LenKind, len: nat): (n: Node)
    requires WfKind(kind) && len <= 271
    ensures Wf(n)
  {
    if kind.NewMatch? then AtPosSlot(len, 1) else Done(Rep(kind.idx, len))
  }

  function PosSlotFrom(len: nat, i: nat): (n: Node)
    requires len <= 271 && 1 <= i < 128
    ensures Wf(n)
  {
    if i < 64 then AtPosSlot(len, i) else AfterPosSlot(len, i - 64)
  }

  function AfterPosSlot(len: nat, posSlot: nat): (n: Node)
    requires len <= 271 && posSlot < 64
    ensures Wf(n)
  {
    if posSlot < 4 then Done(Match(len, posSlot))
    else if posSlot < 14 then AtSpec(len, posSlot, 1, 1, SpecBase(posSlot))
    else
      DirectBitsFit(posSlot / 2 - 5);
      AtDirect(len, posSlot / 2 - 5, 2 + posSlot % 2)
  }

  lemma DirectBitsFit(left: nat)
    requires left <= 26
    ensures 4 * Pow2(left) <= 0x1000_0000
  {
    Pow2Grows(left, 26);
    Pow2Of26();
  }

  lemma Pow2Of26()
    ensures Pow2(26) == 0x400_0000
  {
    assert Pow2(6) == 64;
    assert Pow2(10) == 1024;
    Pow2Adds(10, 10);
    Pow2Adds(20, 6);
  }

  function SpecFrom(len: nat, posSlot: nat, mask: nat, i: nat, dist: nat): (n: Node)
    requires len <= 271 && 4 <= posSlot < 14 && mask in {1, 2, 4, 8, 16, 32} && mask <= SpecSize(posSlot)
    requires mask <= i < 2 * mask && dist < SpecBase(posSlot) + mask
    ensures Wf(n)
  {
    if mask < SpecSize(posSlot) then AtSpec(len, posSlot, mask, i, dist) else Done(Match(len, dist))
  }

  /** dist does not hold the bit just read yet, and left still counts it. */
  function DirectFrom(len: nat, left: nat, dist: nat, bit: nat): (n: Node)
    requires len <= 271 && 1 <= left <= 26 && (dist + 1) * Pow2(left) <= 0x1000_0000 && bit <= 1
    ensures Wf(n)
  {
    DirectRoom(left, dist, bit);
    if left > 1 then AtDirect(len, left - 1, 2 * dist + bit) else AtAlign(len, 1, 1, (2 * dist + bit) * 16)
  }

  lemma DirectRoom(left: nat, dist: nat, bit: nat)
    requires 1 <= left && bit <= 1 && (dist + 1) * Pow2(left) <= 0x1000_0000
    ensures (2 * dist + bit + 1) * Pow2(left - 1) <= 0x1000_0000
  {
    var p := Pow2(left - 1);
    assert (dist + 1) * (2 * p) == (2 * dist + 2) * p;
    assert (2 * dist + bit + 1) * p <= (2 * dist + 2) * p;
  }

  function AlignFrom(len: nat, mask: nat, i: nat, dist: nat): (n: Node)
    requires len <= 271 && mask in {1, 2, 4, 8, 16} && mask <= i < 2 * mask && dist < U32 - 16 + mask
    ensures Wf(n)
  {
    if mask < 16 then AtAlign(len, mask, i, dist) else Done(Match(len, dist))
  }
}
