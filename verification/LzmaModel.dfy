/**
  The LZMA decoder one symbol at a time, on an unbounded output. There is no dictionary buffer, no
  dicPos, no checkDicSize and no look-ahead buffer here: module LzmaDecoder shows that the buffered
  decoder computes Run, and the theorems of module LzmaTheorems are about Run.
 */
module LzmaModel {
  import opened Words
  import opened Lz77
  import opened RangeCoder
  import opened LzmaSymbol
  import opened LzmaRun

  const MATCH_MIN_LEN: nat := 2
  const MATCH_SPEC_LEN_START: nat := 274
  const RC_INIT_SIZE: nat := 5
  const INIT_RANGE: nat := 0xFFFF_FFFF

  datatype Props = Props(lc: nat, lp: nat, pb: nat, dicSize: nat)

  datatype Reps = Reps(r0: nat, r1: nat, r2: nat, r3: nat)

  /** remainLen counts the bytes of a match still to copy; MATCH_SPEC_LEN_START means end marker seen. */
  datatype Dec = Dec(
    probs: seq<Prob>, range: nat, code: nat, state: nat, reps: Reps,
    out: seq<Byte>, remainLen: nat, needFlush: bool, needInit: bool)

  datatype Status = NotSpecified | FinishedWithMark | NotFinished | NeedsMoreInput | MaybeFinishedWithoutMark

  /**
    rest is the input not turned into output yet: what the caller keeps and what tempBuf holds. When
    the data is bad, out is what was decoded before.
   */
  datatype Outcome = DataError(status: Status, out: seq<Byte>) | Fine(status: Status, dec: Dec, rest: seq<Byte>)

  predicate WfProps(props: Props) {
    props.lc < 9 && props.lp < 5 && props.pb < 5 && 4096 <= props.dicSize < U32
  }

  function NumProbs(props: Props): nat {
    LZMA_BASE_SIZE + LIT_SIZE * Pow2(props.lc + props.lp)
  }

  /** The bytes a distance may reach back over. */
  function Avail(props: Props, out: seq<Byte>): nat {
    if |out| < props.dicSize then |out| else props.dicSize
  }

  predicate RepOk(props: Props, out: seq<Byte>, rep: nat) {
    1 <= rep && (rep == 1 || rep <= Avail(props, out))
  }

  /** The invariant of every state between calls. */
  predicate WfDec(props: Props, d: Dec) {
    && WfProps(props)
    && |d.probs| == NumProbs(props)
    && d.remainLen <= MATCH_SPEC_LEN_START
    && (d.needFlush ==> d.remainLen == 0)
    && (!d.needFlush ==> TOP <= d.range < U32 && d.code < U32)
    && (d.needInit ==> d.remainLen == 0)
    && (!d.needInit ==>
      && d.state < NUM_STATES
      && RepOk(props, d.out, d.reps.r0) && RepOk(props, d.out, d.reps.r1)
      && RepOk(props, d.out, d.reps.r2) && RepOk(props, d.out, d.reps.r3)
      && (d.state >= NUM_LIT_STATES ==> d.out != [])
      && (0 < d.remainLen < MATCH_SPEC_LEN_START ==> d.out != []))
  }

  /** LzmaDec_Init: everything else is set up when the first bytes arrive. */
  predicate IsInitial(d: Dec) {
    d.out == [] && d.remainLen == 0 && d.needFlush && d.needInit
  }

  // ----- one symbol

  /** Which of the 2^(lc+lp) literal coders is used: low position bits, then high bits of the last byte. */
  function LitContext(props: Props, out: seq<Byte>): (k: nat)
    requires WfProps(props)
    ensures k < Pow2(props.lc + props.lp)
  {
    if out == [] then 0
    else
      LitContextBound(props, |out| % Pow2(props.lp), out[|out| - 1]);
      |out| % Pow2(props.lp) * Pow2(props.lc) + out[|out| - 1] / Pow2(8 - props.lc)
  }

  lemma LitContextBound(props: Props, hi: nat, b: Byte)
    requires WfProps(props) && hi < Pow2(props.lp)
    ensures 0 <= hi * Pow2(props.lc) + b / Pow2(8 - props.lc) < Pow2(props.lc + props.lp)
  {
    Pow2Adds(props.lc, 8 - props.lc);
    Pow2Adds(props.lc, props.lp);
    assert Pow2(8) == 256;
    MixedRadixBound(hi, b, Pow2(props.lc), Pow2(8 - props.lc), Pow2(props.lp));
  }

  lemma MixedRadixBound(hi: nat, b: nat, c: nat, q: nat, l: nat)
    requires hi < l && b < c * q && c > 0 && q > 0
    ensures 0 <= hi * c + b / q < c * l
  {
    assert b / q < c;
    assert (hi + 1) * c <= l * c;
  }

  function LitBase(props: Props, out: seq<Byte>): (b: nat)
    requires WfProps(props)
    ensures LITERAL <= b && b + LIT_SIZE <= NumProbs(props) && (b - LITERAL) % LIT_SIZE == 0
  {
    LITERAL + LIT_SIZE * LitContext(props, out)
  }

  function CtxOf(props: Props, d: Dec): (ctx: Ctx)
    requires WfDec(props, d) && !d.needInit
    ensures WfCtx(ctx, |d.probs|)
  {
    assert Pow2(0) == 1 && Pow2(1) == 2 && Pow2(2) == 4 && Pow2(3) == 8 && Pow2(4) == 16;
    Ctx(d.state, |d.out| % Pow2(props.pb), LitBase(props, d.out),
        if d.state < NUM_LIT_STATES then 0 else d.out[|d.out| - d.reps.r0])
  }

  const LITERAL_NEXT_STATES: seq<nat> := [0, 0, 0, 0, 1, 2, 3, 4, 5, 6, 4, 5]

  function LitNext(state: nat): (s: nat)
    requires state < NUM_STATES
    ensures s < NUM_LIT_STATES
  {
    LITERAL_NEXT_STATES[state]
  }

  /** The move-to-front of the distance a repeated match names. */
  function UseRep(reps: Reps, idx: nat): Reps
    requires idx <= 3
  {
    match idx
    case 0 => reps
    case 1 => Reps(reps.r1, reps.r0, reps.r2, reps.r3)
    case 2 => Reps(reps.r2, reps.r0, reps.r1, reps.r3)
    case _ => Reps(reps.r3, reps.r0, reps.r1, reps.r2)
  }

  function PushRep(reps: Reps, dist: nat): Reps {
    Reps(dist, reps.r0, reps.r1, reps.r2)
  }

  datatype Applied = Bad | Good(dec: Dec)

  /** The effect of a decoded symbol; a match only becomes remainLen, Drain copies it. */
  function Apply(props: Props, d: Dec, sym: Sym): (a: Applied)
    requires WfDec(props, d) && !d.needFlush && !d.needInit && d.remainLen == 0 && WfSym(sym)
    ensures a.Good? ==> WfDec(props, a.dec) && !a.dec.needFlush && !a.dec.needInit
    ensures a.Good? && !EndMarker(sym) ==>
      d.out <= a.dec.out && (|a.dec.out| == |d.out| + 1 || 0 < a.dec.remainLen < MATCH_SPEC_LEN_START)
    ensures a.Good? && EndMarker(sym) ==> a.dec.remainLen == MATCH_SPEC_LEN_START && a.dec.out == d.out
  {
    match sym
    case Lit(b) => Good(d.(out := d.out + [b], state := LitNext(d.state)))
    case ShortRep =>
      if d.out == [] then Bad
      else Good(d.(out := d.out + [Back(d.out, d.reps.r0)], state := if d.state < NUM_LIT_STATES then 9 else 11))
    case Rep(idx, len) =>
      if d.out == [] then Bad
      else Good(d.(reps := UseRep(d.reps, idx), remainLen := len + MATCH_MIN_LEN,
                   state := if d.state < NUM_LIT_STATES then 8 else 11))
    case Match(len, dist) =>
      if dist == END_DISTANCE then Good(d.(remainLen := MATCH_SPEC_LEN_START))
      else if dist >= Avail(props, d.out) then Bad
      else Good(d.(reps := PushRep(d.reps, dist + 1), remainLen := len + MATCH_MIN_LEN,
                   state := if d.state < NUM_LIT_STATES then 7 else 10))
  }

  predicate EndMarker(sym: Sym) {
    sym.Match? && sym.dist == END_DISTANCE
  }

  function RcOf(d: Dec, input: seq<Byte>): Rc {
    Rc(d.range, d.code, input)
  }

  /** The next symbol of the input, or Starve when the input ends inside it. */
  function Symbol(props: Props, d: Dec, input: seq<Byte>): (path: Path)
    requires WfDec(props, d) && !d.needFlush && !d.needInit
  {
    Real(CtxOf(props, d), AtIsMatch, d.probs, RcOf(d, input))
  }

  function WithPath(d: Dec, path: Path): Dec
    requires path.End?
  {
    d.(probs := path.probs, range := path.rc.range, code := path.rc.code)
  }

  // ----- whole runs

  function Min(a: int, b: int): int {
    if a < b then a else b
  }

  /** Copies what is left of a match, as far as the output limit allows (LzmaDec_WriteRem). */
  function Drain(props: Props, d: Dec, limit: nat): (r: Dec)
    requires WfDec(props, d) && |d.out| <= limit
    ensures WfDec(props, r) && |r.out| <= limit && d.out <= r.out
    ensures d.remainLen == 0 || d.remainLen == MATCH_SPEC_LEN_START ==> r == d
    ensures 0 < d.remainLen < MATCH_SPEC_LEN_START && |d.out| < limit ==> |r.out| > |d.out|
    ensures |r.out| < limit ==> r.remainLen == 0 || r.remainLen == MATCH_SPEC_LEN_START
    ensures r.remainLen == MATCH_SPEC_LEN_START <==> d.remainLen == MATCH_SPEC_LEN_START
  {
    if 0 < d.remainLen < MATCH_SPEC_LEN_START then
      var n := Min(d.remainLen, limit - |d.out|);
      d.(out := CopyMatch(d.out, d.reps.r0, n), remainLen := d.remainLen - n)
    else d
  }

  /** Drain, spelled out. */
  lemma DrainIs(props: Props, d: Dec, limit: nat)
    requires WfDec(props, d) && |d.out| <= limit
    ensures WfDec(props, Drain(props, d, limit)) && WfProps(props) && d.remainLen <= MATCH_SPEC_LEN_START
    ensures d.needFlush || d.needInit ==> d.remainLen == 0
    ensures 0 < d.remainLen < MATCH_SPEC_LEN_START ==>
      && 1 <= d.reps.r0 <= |d.out| && d.reps.r0 <= props.dicSize
      && var n := if limit - |d.out| < d.remainLen then limit - |d.out| else d.remainLen;
         && |CopyMatch(d.out, d.reps.r0, n)| == |d.out| + n
         && Drain(props, d, limit) == d.(out := CopyMatch(d.out, d.reps.r0, n), remainLen := d.remainLen - n)
    ensures d.remainLen == 0 || d.remainLen == MATCH_SPEC_LEN_START ==> Drain(props, d, limit) == d
  {
  }

  function BigEndian(b: seq<Byte>): (w: nat)
    requires |b| == 4
    ensures w < U32
  {
    0x100_0000 * b[0] as int + 0x1_0000 * b[1] as int + 0x100 * b[2] as int + b[3]
  }

  /** LzmaDec_InitRc: the first byte is not part of the code. */
  function StartRc(d: Dec, head: seq<Byte>): Dec
    requires |head| == RC_INIT_SIZE
  {
    d.(code := BigEndian(head[1..]), range := INIT_RANGE, needFlush := false)
  }

  /** LzmaDec_InitStateReal. */
  function StartState(props: Props, d: Dec): Dec {
    d.(probs := seq(NumProbs(props), _ => 1024), reps := Reps(1, 1, 1, 1), state := 0, needInit := false)
  }

  function Ready(props: Props, d: Dec): (r: Dec)
    requires WfDec(props, d) && !d.needFlush
    ensures WfDec(props, r) && !r.needFlush && !r.needInit
    ensures !d.needInit ==> r == d
    ensures r.out == d.out && r.remainLen == d.remainLen
  {
    if d.needInit then StartState(props, d) else d
  }

  /**
    Decode until the output holds limit bytes, the input ends inside a symbol, the end marker is
    found or the data is bad. finishEnd is LZMA_FINISH_END: at the limit only an end marker may follow.
   */
  function Run(props: Props, d: Dec, limit: nat, finishEnd: bool, input: seq<Byte>): (o: Outcome)
    requires WfDec(props, d) && |d.out| <= limit
    ensures o.Fine? ==> WfDec(props, o.dec) && d.out <= o.dec.out && |o.dec.out| <= limit
    ensures o.Fine? ==> |o.rest| <= |input|
    decreases d.remainLen != MATCH_SPEC_LEN_START, limit - |Drain(props, d, limit).out|
  {
    var d := Drain(props, d, limit);
    if d.remainLen == MATCH_SPEC_LEN_START then
      if d.code == 0 then Fine(FinishedWithMark, d, input) else DataError(NotSpecified, d.out)
    else if !d.needFlush then RunStarted(props, d, limit, finishEnd, input)
    else if |input| < RC_INIT_SIZE then Fine(NeedsMoreInput, d, input)
    else if input[0] != 0 then DataError(NotSpecified, d.out)
    else RunStarted(props, StartRc(d, input[..RC_INIT_SIZE]), limit, finishEnd, input[RC_INIT_SIZE..])
  }

  /** The part of Run after the range decoder has been started and the pending match drained. */
  function RunStarted(props: Props, d: Dec, limit: nat, finishEnd: bool, input: seq<Byte>): (o: Outcome)
    requires WfDec(props, d) && |d.out| <= limit && !d.needFlush
    requires d.remainLen != MATCH_SPEC_LEN_START && Drain(props, d, limit) == d
    ensures o.Fine? ==> WfDec(props, o.dec) && d.out <= o.dec.out && |o.dec.out| <= limit
    ensures o.Fine? ==> |o.rest| <= |input|
    decreases true, limit - |d.out|, 0
  {
    var full := |d.out| >= limit;
    if full && d.remainLen == 0 && d.code == 0 then Fine(MaybeFinishedWithoutMark, d, input)
    else if full && !finishEnd then Fine(NotFinished, d, input)
    else if full && d.remainLen != 0 then DataError(NotFinished, d.out)
    else
      var d := Ready(props, d);
      var path := Symbol(props, d, input);
      if path.Starve? then Fine(NeedsMoreInput, d, input)
      else if full && !path.sym.Match? then DataError(NotFinished, d.out)
      else if full && !EndMarker(path.sym) then DataError(NotSpecified, d.out)
      else
        var a := Apply(props, WithPath(d, path), path.sym);
        if a.Bad? then DataError(NotSpecified, d.out)
        else Run(props, a.dec, limit, finishEnd, path.rc.rest)
  }
}
