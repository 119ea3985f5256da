/** The buffered, resumable decoder of zload/LzmaDec.c, and its refinement of LzmaModel.Run. */
module LzmaDecoder {
  import opened Words
  import opened Lz77
  import opened RangeCoder
  import opened LzmaSymbol
  import opened LzmaRun
  import opened LzmaBits
  import opened LzmaDummy
  import opened LzmaModel
  import opened LzmaTheorems
  import opened LzmaWindow

  const LZMA_REQUIRED_INPUT_MAX: nat := 20

  datatype SRes = SzOk | SzErrorData

  datatype ELzmaDummy = DUMMY_ERROR | DUMMY_LIT | DUMMY_MATCH | DUMMY_REP

  /** What the dummy decoder reports about a walk. */
  function Report(path: DummyPath): ELzmaDummy {
    match path
    case DummyStarve => DUMMY_ERROR
    case DummyEnd(sym, _) => if sym.Lit? then DUMMY_LIT else if sym.Match? then DUMMY_MATCH else DUMMY_REP
  }

  /** The local variables of LzmaDec_DecodeReal that live across its loop. */
  datatype Locals = Locals(state: nat, reps: Reps, dicPos: nat, processedPos: nat, len: nat, rd: Reader)

  /** checkDicSize as a function of the output. */
  function CheckDicSize(props: Props, out: seq<Byte>): nat {
    if |out| < props.dicSize then 0 else props.dicSize
  }

  // ----- facts about one symbol

  /** The real and the dummy decoder agree on the next symbol. */
  lemma DummyIsSymbol(props: Props, d: Dec, input: seq<Byte>)
    requires WfDec(props, d) && !d.needFlush && !d.needInit
    ensures Forget(Symbol(props, d, input)) == Dummy(CtxOf(props, d), AtIsMatch, d.probs, RcOf(d, input))
  {
    DummyPredictsReal(CtxOf(props, d), AtIsMatch, d.probs, d.probs, RcOf(d, input));
  }

  lemma EnoughInput(props: Props, d: Dec, input: seq<Byte>)
    requires WfDec(props, d) && !d.needFlush && !d.needInit && |input| >= LZMA_REQUIRED_INPUT_MAX
    ensures Symbol(props, d, input).End?
  {
    DummyIsSymbol(props, d, input);
    SymbolNeedsAtMost20Bytes(CtxOf(props, d), d.probs, RcOf(d, input));
  }

  /** One turn of Run, for a state that is ready for a symbol and input that holds it. */
  lemma RunSymbol(props: Props, d: Dec, limit: nat, finishEnd: bool, input: seq<Byte>)
    requires WfDec(props, d) && !d.needFlush && !d.needInit && d.remainLen == 0 && |d.out| <= limit
    requires Symbol(props, d, input).End?
    requires |d.out| == limit ==> finishEnd && d.code != 0 && Symbol(props, d, input).sym.Match?
    ensures var path := Symbol(props, d, input);
      var a := Apply(props, WithPath(d, path), path.sym);
      Run(props, d, limit, finishEnd, input) ==
        if a.Bad? || (|d.out| == limit && !EndMarker(path.sym)) then DataError(NotSpecified, d.out)
        else Run(props, a.dec, limit, finishEnd, path.rc.rest)
  {
  }

  /** From a node after IsRep, only repeated matches are left. */
  predicate OnlyReps(node: Node) {
    match node
    case AtRepG0 => true
    case AtRep0Long => true
    case AtRepG1 => true
    case AtRepG2 => true
    case AtLenChoice(kind) => kind.OldMatch?
    case AtLenChoice2(kind) => kind.OldMatch?
    case AtLenTree(kind, _, _) => kind.OldMatch?
    case Done(sym) => sym.ShortRep? || sym.Rep?
    case _ => false
  }

  lemma {:induction false} RepsStayReps(ctx: Ctx, node: Node, probs: seq<Prob>, rc: Rc)
    requires WfCtx(ctx, |probs|) && Wf(node) && Usable(rc) && OnlyReps(node)
    requires Real(ctx, node, probs, rc).End?
    ensures Real(ctx, node, probs, rc).sym.ShortRep? || Real(ctx, node, probs, rc).sym.Rep?
    decreases Rank(node)
  {
    if !node.Done? {
      var slot := Slot(ctx, node, |probs|);
      RealStep(ctx, node, probs, rc, slot);
      var r, p := Normalize(rc), probs[slot];
      RankDrops(ctx, node, BitOf(r, p));
      RepsStayReps(ctx, Next(ctx, node, BitOf(r, p)), probs[slot := Adapt(p, BitOf(r, p))], AfterBit(r, p));
    }
  }

  lemma SymbolDone(ctx: Ctx, sym: Sym, probs: seq<Prob>, rd: Reader, input: seq<Byte>, path: Path)
    requires Follows(ctx, Done(sym), probs, rd, input, path)
    ensures !Starved(RcAt(rd, input)) && path == End(sym, probs, Normalize(RcAt(rd, input)))
  {
  }

  /** The distance check of the decoder, on the wrapped counter and checkDicSize. */
  lemma DistanceCheck(props: Props, out: seq<Byte>, distance: nat)
    requires WfProps(props)
    ensures distance >= Avail(props, out) <==>
      if CheckDicSize(props, out) == 0 then distance >= Low32(|out|) else distance >= CheckDicSize(props, out)
  {
  }

  /** The literal coder picked by LzmaDec_DecodeReal and LzmaDec_TryDummy. */
  function LiteralProbs(props: Props, dic: array<Byte>, dicPos: nat, processedPos: nat, checkDicSize: nat): nat
    requires dicPos <= dic.Length && (checkDicSize != 0 || processedPos != 0 ==> dic.Length > 0)
    requires props.lc <= 8
    reads dic
  {
    if checkDicSize != 0 || processedPos != 0 then
      LITERAL + LIT_SIZE * (processedPos % Pow2(props.lp) * Pow2(props.lc)
                            + dic[(if dicPos == 0 then dic.Length else dicPos) - 1] / Pow2(8 - props.lc))
    else LITERAL
  }

  lemma LiteralProbsIsLitBase(props: Props, dic: array<Byte>, dicPos: nat, out: seq<Byte>)
    requires WfProps(props) && Window(dic[..], dicPos, out, props.dicSize)
    ensures dicPos <= dic.Length && (out != [] ==> dic.Length > 0)
    ensures Low32(|out|) != 0 ==> out != []
    ensures CheckDicSize(props, out) != 0 || Low32(|out|) != 0 <==> out != []
    ensures LiteralProbs(props, dic, dicPos, Low32(|out|), CheckDicSize(props, out)) == LitBase(props, out)
  {
    if out != [] {
      WindowAt(dic[..], dicPos, out, props.dicSize, 1);
      LowBitsSurviveWrap(|out|, props.lp);
    }
  }

  // ----- one turn of the loop of LzmaDec_DecodeReal

  /**
    The locals of the loop, with the output and probability arrays, stand for the model state d.
    The last NORMALIZE has not been done yet in l.rd; it has in d and rest.
   */
  ghost predicate Tracks(props: Props, l: Locals, d: Dec, dic: seq<Byte>, probs: seq<Prob>, input: seq<Byte>,
      rest: seq<Byte>)
  {
    && WfDec(props, d) && !d.needFlush && !d.needInit && d.probs == probs
    && l.state == d.state && l.reps == d.reps && d.remainLen == Min(l.len, MATCH_SPEC_LEN_START)
    && l.processedPos == Low32(|d.out|)
    && Window(dic, l.dicPos, d.out, props.dicSize)
    && CanRead(l.rd, input) && !Starved(RcAt(l.rd, input))
    && Normalize(RcAt(l.rd, input)) == RcOf(d, rest)
  }

  /** Copying n bytes of the pending match. */
  lemma Copied(props: Props, l0: Locals, a: Dec, probs: seq<Prob>, input: seq<Byte>, rest: seq<Byte>, limit: nat,
      dic0: seq<Byte>, dic: seq<Byte>, n: nat)
    requires Tracks(props, l0, a, dic0, probs, input, rest) && 0 < l0.len < MATCH_SPEC_LEN_START
    requires l0.dicPos < limit <= |dic| && n == if limit - l0.dicPos < l0.len then limit - l0.dicPos else l0.len
    requires Window(dic, l0.dicPos + n, CopyMatch(a.out, a.reps.r0, n), props.dicSize)
    ensures Tracks(props, l0.(dicPos := l0.dicPos + n, processedPos := WrapAdd(l0.processedPos, n), len := l0.len - n),
                   Drain(props, a, |a.out| + (limit - l0.dicPos)), dic, probs, input, rest)
    ensures Drain(props, a, |a.out| + (limit - l0.dicPos)).out == CopyMatch(a.out, a.reps.r0, n)
  {
    hide Window, WrapAdd, Low32, Normalize, Starved, CanRead, RcAt, CopyMatch;
    WrapAddCounts(|a.out|, n);
  }

  /** The distance of a pending match, as the locals have it, lies in the window. */
  lemma MatchInWindow(props: Props, l0: Locals, a: Dec, dic: seq<Byte>, probs: seq<Prob>, input: seq<Byte>,
      rest: seq<Byte>)
    requires Tracks(props, l0, a, dic, probs, input, rest) && 0 < l0.len < MATCH_SPEC_LEN_START
    ensures WfDec(props, a) && l0.reps == a.reps && 1 <= l0.reps.r0 <= |a.out| && l0.reps.r0 <= props.dicSize
    ensures Window(dic, l0.dicPos, a.out, props.dicSize)
    ensures 0 <= Source(l0.dicPos, l0.reps.r0, |dic|) < |dic|
  {
    hide Normalize, Starved, CanRead, RcAt, Low32;
    WindowAt(dic, l0.dicPos, a.out, props.dicSize, l0.reps.r0);
  }

  /** The match part of the loop body after length and distance are known. */
  method FinishMatch(props: Props, dic: array<Byte>, limit: nat, l0: Locals, ghost a: Dec, ghost probs: seq<Prob>,
      ghost input: seq<Byte>, ghost rest: seq<Byte>, ghost m: Mark)
    returns (res: SRes, l: Locals, ghost d2: Dec)
    requires Tracks(props, l0, a, dic[..], probs, input, rest) && 0 < l0.len < MATCH_SPEC_LEN_START
    requires l0.dicPos <= limit <= dic.Length
    requires Wrote(m, dic[..], l0.dicPos, a.out)
    modifies dic
    ensures res == SzErrorData <==> l0.dicPos == limit
    ensures res == SzErrorData ==> dic[..] == old(dic[..])
    ensures res == SzOk ==>
      && l.dicPos <= limit && l.rd == l0.rd
      && d2 == Drain(props, a, |a.out| + (limit - l0.dicPos))
      && Tracks(props, l, d2, dic[..], probs, input, rest)
      && Wrote(m, dic[..], l.dicPos, d2.out)
  {
    hide *;
    l, d2 := l0, a;
    if limit == l0.dicPos {
      return SzErrorData, l, d2;
    }
    res := SzOk;
    MatchInWindow(props, l0, a, dic[..], probs, input, rest);
    ghost var before := dic[..];
    var rem := limit - l0.dicPos;
    var curLen := if rem < l0.len then rem else l0.len;
    var rep0 := l0.reps.r0;
    var pos := Source(l0.dicPos, rep0, dic.Length);
    var processedPos := WrapAdd(l0.processedPos, curLen);
    var len := l0.len - curLen;
    var dicPos;
    if pos + curLen <= dic.Length {
      dicPos := CopyStraight(dic, l0.dicPos, rep0, pos, curLen, m, a.out, props.dicSize);
    } else {
      dicPos := CopyWrapping(dic, l0.dicPos, rep0, pos, curLen, m, a.out, props.dicSize);
    }
    Copied(props, l0, a, probs, input, rest, limit, before, dic[..], curLen);
    l := l0.(dicPos := dicPos, processedPos := processedPos, len := len);
    d2 := Drain(props, a, |a.out| + (limit - l0.dicPos));
  }

  /** A state between two symbols: the locals stand for d, which has no match pending. */
  ghost predicate Between(props: Props, d: Dec, l: Locals, limit: nat, checkDicSize: nat, probs: seq<Prob>,
      dic: seq<Byte>)
  {
    && WfDec(props, d) && !d.needFlush && !d.needInit && d.remainLen == 0 && l.len == 0
    && |d.probs| == |probs|
    && l.state == d.state && l.reps == d.reps && l.processedPos == Low32(|d.out|)
    && checkDicSize == CheckDicSize(props, d.out)
    && l.dicPos <= limit <= |dic|
    && Window(dic, l.dicPos, d.out, props.dicSize)
  }

  /** What a turn achieves: the symbol's effect, copied as far as the limit, or the error it must give. */
  ghost predicate Turned(props: Props, d: Dec, path: Path, limit: nat, l0: Locals, dic: seq<Byte>, probs: seq<Prob>,
      input: seq<Byte>, res: SRes, l: Locals, d2: Dec, m: Mark)
  {
    && WfDec(props, d) && !d.needFlush && !d.needInit && d.remainLen == 0 && l0.dicPos <= limit
    && path.End? && WfSym(path.sym) && |path.probs| == |d.probs| && Normal(path.rc)
    && var a := Apply(props, WithPath(d, path), path.sym);
       if res == SzErrorData then
         (a.Bad? || (l0.dicPos == limit && !EndMarker(path.sym))) && Wrote(m, dic, l0.dicPos, d.out)
       else
         && a.Good? && (l0.dicPos == limit ==> EndMarker(path.sym))
         && l.dicPos <= limit && |a.dec.out| <= |d.out| + (limit - l0.dicPos)
         && d2 == Drain(props, a.dec, |d.out| + (limit - l0.dicPos))
         && Tracks(props, l, d2, dic, probs, input, path.rc.rest)
         && Wrote(m, dic, l.dicPos, d2.out)
  }

  lemma LiteralTurned(props: Props, d: Dec, path: Path, limit: nat, checkDicSize: nat, l0: Locals, probs0: seq<Prob>,
      dic0: seq<Byte>, dic: seq<Byte>, input: seq<Byte>, rd: Reader, b: Byte, m: Mark) returns (d2: Dec)
    requires Between(props, d, l0, limit, checkDicSize, probs0, dic0) && l0.dicPos < limit
    requires CanRead(rd, input) && !Starved(RcAt(rd, input)) && path.End? && path.sym == Lit(b)
    requires |path.probs| == |d.probs| && path.rc == Normalize(RcAt(rd, input))
    requires Window(dic, l0.dicPos + 1, d.out + [b], props.dicSize)
    requires Wrote(m, dic, l0.dicPos + 1, d.out + [b])
    ensures Turned(props, d, path, limit, l0, dic, path.probs, input, SzOk,
                   Locals(LitNext(l0.state), l0.reps, l0.dicPos + 1, WrapAdd(l0.processedPos, 1), 0, rd), d2, m)
  {
    hide Window, Wrote, Normalize, Starved, CanRead, RcAt, Drain, CheckDicSize, WrapAdd, Low32;
    d2 := Apply(props, WithPath(d, path), path.sym).dec;
    WrapAddCounts(|d.out|, 1);
  }

  method LiteralTurn(props: Props, probs: array<Prob>, dic: array<Byte>, limit: nat, checkDicSize: nat,
      input: seq<Byte>, l0: Locals, rd1: Reader, ghost d: Dec, ghost path: Path, ghost m: Mark)
    returns (l: Locals, ghost d2: Dec)
    requires Between(props, d, l0, limit, checkDicSize, probs[..], dic[..]) && Wrote(m, dic[..], l0.dicPos, d.out)
    requires Follows(CtxOf(props, d), LitStart(CtxOf(props, d)), probs[..], rd1, input, path)
    requires l0.dicPos == limit ==> path.sym.Match?
    requires probs as object != dic
    modifies probs, dic
    ensures Turned(props, d, path, limit, l0, dic[..], probs[..], input, SzOk, l, d2, m)
    ensures rd1.buf <= l.rd.buf
  {
    hide Window, Wrote, Real, Source, WrapAdd, Low32, Pow2;
    ghost var ctx, probs0, before := CtxOf(props, d), probs[..], dic[..];
    LiteralProbsIsLitBase(props, dic, l0.dicPos, d.out);
    var prob := LiteralProbs(props, dic, l0.dicPos, l0.processedPos, checkDicSize);
    var symbol, rd;
    if l0.state < NUM_LIT_STATES {
      symbol, rd := DecodeLiteral(probs, prob, rd1, input, ctx, path);
    } else {
      WindowAt(dic[..], l0.dicPos, d.out, props.dicSize, l0.reps.r0);
      var matchByte := dic[Source(l0.dicPos, l0.reps.r0, dic.Length)];
      symbol, rd := DecodeMatchedLiteral(probs, prob, matchByte, rd1, input, ctx, path);
    }
    SymbolDone(ctx, Lit(symbol % 256), probs[..], rd, input, path);
    assert |path.probs| == |d.probs|;
    hide LiteralProbs, CtxOf, Turned, Follows;
    var b: Byte := symbol % 256;
    PutByte(dic, l0.dicPos, b, m, d.out, props.dicSize);
    l := Locals(LitNext(l0.state), l0.reps, l0.dicPos + 1, WrapAdd(l0.processedPos, 1), 0, rd);
    d2 := LiteralTurned(props, d, path, limit, checkDicSize, l0, probs0, before, dic[..], input, rd, b, m);
  }

  /** The locals after a match's distances and state are updated and its length is known. */
  lemma MatchApplied(props: Props, d: Dec, path: Path, limit: nat, checkDicSize: nat, l0: Locals, probs0: seq<Prob>,
      dic: seq<Byte>, input: seq<Byte>, l: Locals) returns (a: Dec)
    requires Between(props, d, l0, limit, checkDicSize, probs0, dic)
    requires CanRead(l.rd, input) && !Starved(RcAt(l.rd, input)) && path.End? && WfSym(path.sym)
    requires |path.probs| == |d.probs| && path.rc == Normalize(RcAt(l.rd, input))
    requires l.dicPos == l0.dicPos && l.processedPos == l0.processedPos
    requires (path.sym.Match? && !EndMarker(path.sym)) || path.sym.Rep?
    requires Apply(props, WithPath(d, path), path.sym).Good?
    requires var a := Apply(props, WithPath(d, path), path.sym).dec;
      l.state == a.state && l.reps == a.reps && l.len == a.remainLen
    ensures a == Apply(props, WithPath(d, path), path.sym).dec && a.out == d.out
    ensures 0 < l.len < MATCH_SPEC_LEN_START
    ensures Tracks(props, l, a, dic, path.probs, input, path.rc.rest)
  {
    hide Window, Normalize, Starved, CanRead, RcAt, Low32, Pow2;
    a := Apply(props, WithPath(d, path), path.sym).dec;
  }

  lemma MatchTurned(props: Props, d: Dec, path: Path, limit: nat, l0: Locals, dic: seq<Byte>, input: seq<Byte>,
      a: Dec, res: SRes, l: Locals, d2: Dec, m: Mark)
    requires WfDec(props, d) && !d.needFlush && !d.needInit && d.remainLen == 0 && l0.dicPos <= limit
    requires path.End? && WfSym(path.sym) && |path.probs| == |d.probs| && Normal(path.rc) && !EndMarker(path.sym)
    requires Apply(props, WithPath(d, path), path.sym) == Good(a) && a.out == d.out
    requires res == SzErrorData <==> l0.dicPos == limit
    requires res == SzErrorData ==> Wrote(m, dic, l0.dicPos, d.out)
    requires res == SzOk ==>
      && l.dicPos <= limit
      && d2 == Drain(props, a, |a.out| + (limit - l0.dicPos))
      && Tracks(props, l, d2, dic, path.probs, input, path.rc.rest)
      && Wrote(m, dic, l.dicPos, d2.out)
    ensures Turned(props, d, path, limit, l0, dic, path.probs, input, res, l, d2, m)
  {
    hide Window, Wrote, Tracks;
  }

  lemma EndTurned(props: Props, d: Dec, path: Path, limit: nat, checkDicSize: nat, l0: Locals, probs0: seq<Prob>,
      dic: seq<Byte>, input: seq<Byte>, rd: Reader, len: nat, m: Mark) returns (d2: Dec)
    requires Between(props, d, l0, limit, checkDicSize, probs0, dic) && Wrote(m, dic, l0.dicPos, d.out)
    requires CanRead(rd, input) && !Starved(RcAt(rd, input)) && path.End?
    requires path.sym == Match(len, END_DISTANCE) && len <= 271
    requires |path.probs| == |d.probs| && path.rc == Normalize(RcAt(rd, input))
    ensures Turned(props, d, path, limit, l0, dic, path.probs, input, SzOk,
                   l0.(len := len + MATCH_SPEC_LEN_START, rd := rd), d2, m)
  {
    hide Window, Wrote, Normalize, Starved, CanRead, RcAt, Low32, CheckDicSize;
    d2 := Apply(props, WithPath(d, path), path.sym).dec;
  }

  method MatchTurn(props: Props, probs: array<Prob>, dic: array<Byte>, limit: nat, checkDicSize: nat, posState: nat,
      input: seq<Byte>, l0: Locals, rd1: Reader, ghost d: Dec, ghost path: Path, ghost m: Mark)
    returns (res: SRes, l: Locals, ghost d2: Dec)
    requires Between(props, d, l0, limit, checkDicSize, probs[..], dic[..]) && Wrote(m, dic[..], l0.dicPos, d.out)
    requires Follows(CtxOf(props, d), AtLenChoice(NewMatch), probs[..], rd1, input, path)
    requires posState == CtxOf(props, d).posState
    requires probs as object != dic
    modifies probs, dic
    ensures Turned(props, d, path, limit, l0, dic[..], probs[..], input, res, l, d2, m)
    ensures res == SzOk ==> rd1.buf <= l.rd.buf
  {
    hide Window, Wrote, Real, Source, WrapAdd, Low32, Pow2;
    ghost var ctx, probs0 := CtxOf(props, d), probs[..];
    var state := l0.state + NUM_STATES;
    var len, distance, rd;
    len, rd := DecodeLength(probs, LEN_CODER, posState, rd1, input, ctx, NewMatch, path);
    distance, rd := DecodeDistance(probs, len, rd, input, ctx, path);
    SymbolDone(ctx, Match(len, distance), probs[..], rd, input, path);
    assert |path.probs| == |d.probs|;
    hide CtxOf, Follows;
    res, l, d2 := SzOk, l0, d;
    if distance == END_DISTANCE {
      l := l0.(len := len + MATCH_SPEC_LEN_START, rd := rd);
      d2 := EndTurned(props, d, path, limit, checkDicSize, l0, probs0, dic[..], input, rd, len, m);
      return;
    }
    var reps := PushRep(l0.reps, distance + 1);
    DistanceCheck(props, d.out, distance);
    if checkDicSize == 0 {
      if distance >= l0.processedPos {
        res := SzErrorData;
        return;
      }
    } else if distance >= checkDicSize {
      res := SzErrorData;
      return;
    }
    state := if state < NUM_STATES + NUM_LIT_STATES then NUM_LIT_STATES else NUM_LIT_STATES + 3;
    l := l0.(state := state, reps := reps, len := len + MATCH_MIN_LEN, rd := rd);
    ghost var a := MatchApplied(props, d, path, limit, checkDicSize, l0, probs0, dic[..], input, l);
    hide Tracks, Between, Drain, Turned;
    res, l, d2 := FinishMatch(props, dic, limit, l, a, probs[..], input, path.rc.rest, m);
    MatchTurned(props, d, path, limit, l0, dic[..], input, a, res, l, d2, m);
  }

  lemma ShortRepTurned(props: Props, d: Dec, path: Path, limit: nat, checkDicSize: nat, l0: Locals, probs0: seq<Prob>,
      dic0: seq<Byte>, dic: seq<Byte>, input: seq<Byte>, rd: Reader, m: Mark) returns (d2: Dec)
    requires Between(props, d, l0, limit, checkDicSize, probs0, dic0) && l0.dicPos < limit && d.out != []
    requires CanRead(rd, input) && !Starved(RcAt(rd, input)) && path.End? && path.sym == ShortRep
    requires |path.probs| == |d.probs| && path.rc == Normalize(RcAt(rd, input))
    requires Window(dic, l0.dicPos + 1, d.out + [Back(d.out, d.reps.r0)], props.dicSize)
    requires Wrote(m, dic, l0.dicPos + 1, d.out + [Back(d.out, d.reps.r0)])
    ensures Turned(props, d, path, limit, l0, dic, path.probs, input, SzOk,
                   Locals(if l0.state < NUM_LIT_STATES then 9 else 11, l0.reps, l0.dicPos + 1,
                       WrapAdd(l0.processedPos, 1), 0, rd), d2, m)
  {
    hide Window, Wrote, Normalize, Starved, CanRead, RcAt, Drain, CheckDicSize, WrapAdd, Low32;
    d2 := Apply(props, WithPath(d, path), path.sym).dec;
    WrapAddCounts(|d.out|, 1);
  }

  /** Which earlier distance a repeated match uses: IsRepG0, IsRep0Long, IsRepG1 and IsRepG2. */
  method DecodeRepIndex(probs: array<Prob>, state: nat, posState: nat, reps0: Reps, rd1: Reader, input: seq<Byte>,
      ghost ctx: Ctx, ghost path: Path)
    returns (short: bool, reps: Reps, rd: Reader, ghost idx: nat)
    requires Follows(ctx, AtRepG0, probs[..], rd1, input, path) && state == ctx.state && posState == ctx.posState
    modifies probs
    ensures idx <= 3 && reps == UseRep(reps0, idx)
    ensures Follows(ctx, if short then Done(ShortRep) else AtLenChoice(OldMatch(idx)), probs[..], rd, input, path)
    ensures (short ==> idx == 0) && rd1.buf <= rd.buf
  {
    hide Real;
    var bit;
    short, reps, idx := false, reps0, 0;
    bit, rd := GetBit(probs, IS_REP_G0 + state, rd1, input, ctx, AtRepG0, path);
    if bit == 0 {
      bit, rd := GetBit(probs, IS_REP0_LONG + state * 16 + posState, rd, input, ctx, AtRep0Long, path);
      short := bit == 0;
    } else {
      var distance;
      bit, rd := GetBit(probs, IS_REP_G1 + state, rd, input, ctx, AtRepG1, path);
      if bit == 0 {
        distance := reps.r1;
        idx := 1;
      } else {
        bit, rd := GetBit(probs, IS_REP_G2 + state, rd, input, ctx, AtRepG2, path);
        idx := 2 + bit;
        if bit == 0 {
          distance := reps.r2;
        } else {
          distance := reps.r3;
          reps := reps.(r3 := reps.r2);
        }
        reps := reps.(r2 := reps.r1);
      }
      reps := reps.(r1 := reps.r0);
      reps := reps.(r0 := distance);
    }
  }

  method RepTurn(props: Props, probs: array<Prob>, dic: array<Byte>, limit: nat, checkDicSize: nat, posState: nat,
      input: seq<Byte>, l0: Locals, rd1: Reader, ghost d: Dec, ghost path: Path, ghost m: Mark)
    returns (res: SRes, l: Locals, ghost d2: Dec)
    requires Between(props, d, l0, limit, checkDicSize, probs[..], dic[..]) && Wrote(m, dic[..], l0.dicPos, d.out)
    requires d.out != [] && Follows(CtxOf(props, d), AtRepG0, probs[..], rd1, input, path)
    requires posState == CtxOf(props, d).posState
    requires l0.dicPos == limit ==> path.sym.Match?
    requires probs as object != dic
    modifies probs, dic
    ensures Turned(props, d, path, limit, l0, dic[..], probs[..], input, res, l, d2, m)
    ensures res == SzOk ==> rd1.buf <= l.rd.buf
  {
    hide Window, Wrote, Real, Source, WrapAdd, Low32, Pow2;
    ghost var ctx, probs0, before := CtxOf(props, d), probs[..], dic[..];
    var short, reps, rd;
    ghost var idx;
    short, reps, rd, idx := DecodeRepIndex(probs, l0.state, posState, l0.reps, rd1, input, ctx, path);
    res, l, d2 := SzOk, l0, d;
    if short {
      SymbolDone(ctx, ShortRep, probs[..], rd, input, path);
      assert |path.probs| == |d.probs|;
      WindowAt(dic[..], l0.dicPos, d.out, props.dicSize, reps.r0);
      var b := dic[Source(l0.dicPos, reps.r0, dic.Length)];
      hide CtxOf, Follows, Turned;
      PutByte(dic, l0.dicPos, b, m, d.out, props.dicSize);
      l := Locals(if l0.state < NUM_LIT_STATES then 9 else 11, l0.reps, l0.dicPos + 1, WrapAdd(l0.processedPos, 1),
          0, rd);
      d2 := ShortRepTurned(props, d, path, limit, checkDicSize, l0, probs0, before, dic[..], input, rd, m);
    } else {
      var state := if l0.state < NUM_LIT_STATES then 8 else 11;
      var len;
      len, rd := DecodeLength(probs, REP_LEN_CODER, posState, rd, input, ctx, OldMatch(idx), path);
      SymbolDone(ctx, Rep(idx, len), probs[..], rd, input, path);
      assert |path.probs| == |d.probs|;
      l := l0.(state := state, reps := reps, len := len + MATCH_MIN_LEN, rd := rd);
      hide CtxOf, Follows;
      ghost var a := MatchApplied(props, d, path, limit, checkDicSize, l0, probs0, dic[..], input, l);
      hide Tracks, Between, Drain, Turned;
      res, l, d2 := FinishMatch(props, dic, limit, l, a, probs[..], input, path.rc.rest, m);
      MatchTurned(props, d, path, limit, l0, dic[..], input, a, res, l, d2, m);
    }
  }

  /** The state at the first bit of a symbol. */
  lemma SymbolStarts(props: Props, l0: Locals, d: Dec, dic: seq<Byte>, probs: seq<Prob>, input: seq<Byte>,
      rest: seq<Byte>, limit: nat, checkDicSize: nat)
    requires Tracks(props, l0, d, dic, probs, input, rest) && d.remainLen == 0
    requires checkDicSize == CheckDicSize(props, d.out) && l0.dicPos <= limit <= |dic| && Symbol(props, d, rest).End?
    ensures Between(props, d, l0, limit, checkDicSize, probs, dic)
    ensures WfDec(props, d) && !d.needFlush && !d.needInit
    ensures var ctx := CtxOf(props, d);
      && Follows(ctx, AtIsMatch, probs, l0.rd, input, Symbol(props, d, rest)) && WfCtx(ctx, |probs|)
      && ctx.state == l0.state && ctx.posState == l0.processedPos % Pow2(props.pb)
    ensures checkDicSize == 0 && l0.processedPos == 0 <==> d.out == []
  {
    hide Window, Real, Starved;
    NormalizeEarly(CtxOf(props, d), AtIsMatch, probs, RcAt(l0.rd, input));
    LowBitsSurviveWrap(|d.out|, props.pb);
  }

  lemma BetweenStays(props: Props, d: Dec, l0: Locals, limit: nat, checkDicSize: nat, probs0: seq<Prob>,
      probs: seq<Prob>, dic: seq<Byte>)
    requires Between(props, d, l0, limit, checkDicSize, probs0, dic) && |probs| == |probs0|
    ensures Between(props, d, l0, limit, checkDicSize, probs, dic)
  {
    hide Window, WfDec, CheckDicSize, Low32;
  }

  /** Before the first byte there is nothing to repeat. */
  lemma NothingToRepeat(props: Props, d: Dec, path: Path, limit: nat, checkDicSize: nat, l0: Locals, dic: seq<Byte>,
      probs0: seq<Prob>, probs: seq<Prob>, input: seq<Byte>, rd: Reader, l: Locals, d2: Dec, m: Mark)
    requires Between(props, d, l0, limit, checkDicSize, probs0, dic) && Wrote(m, dic, l0.dicPos, d.out) && d.out == []
    requires Follows(CtxOf(props, d), AtRepG0, probs, rd, input, path) && |probs| == |probs0|
    ensures Turned(props, d, path, limit, l0, dic, probs, input, SzErrorData, l, d2, m)
  {
    hide Window, Wrote, Real, Tracks, CheckDicSize, Low32;
    RepsStayReps(CtxOf(props, d), AtRepG0, probs, RcAt(rd, input));
  }

  /** The loop body: one symbol, from its first bit to its last copied byte. */
  method DecodeOne(props: Props, probs: array<Prob>, dic: array<Byte>, limit: nat, checkDicSize: nat,
      input: seq<Byte>, l0: Locals, ghost d: Dec, ghost rest: seq<Byte>, ghost m: Mark)
    returns (res: SRes, l: Locals, ghost d2: Dec)
    requires Tracks(props, l0, d, dic[..], probs[..], input, rest) && d.remainLen == 0
    requires checkDicSize == CheckDicSize(props, d.out) && l0.dicPos <= limit <= dic.Length
    requires Symbol(props, d, rest).End? && (l0.dicPos == limit ==> Symbol(props, d, rest).sym.Match?)
    requires Wrote(m, dic[..], l0.dicPos, d.out)
    requires probs as object != dic
    modifies probs, dic
    ensures Turned(props, d, Symbol(props, d, rest), limit, l0, dic[..], probs[..], input, res, l, d2, m)
    ensures res == SzOk ==> l0.rd.buf <= l.rd.buf
  {
    hide Window, Wrote, Real, Tracks, Between, Turned, Follows, CtxOf, Symbol, CheckDicSize, Pow2, WfDec;
    SymbolStarts(props, l0, d, dic[..], probs[..], input, rest, limit, checkDicSize);
    ghost var ctx, path, probs0 := CtxOf(props, d), Symbol(props, d, rest), probs[..];
    var posState := l0.processedPos % Pow2(props.pb);
    var bit, rd;
    bit, rd := GetBit(probs, IS_MATCH + l0.state * 16 + posState, l0.rd, input, ctx, AtIsMatch, path);
    BetweenStays(props, d, l0, limit, checkDicSize, probs0, probs[..], dic[..]);
    if bit == 0 {
      res := SzOk;
      l, d2 := LiteralTurn(props, probs, dic, limit, checkDicSize, input, l0, rd, d, path, m);
      return;
    }
    bit, rd := GetBit(probs, IS_REP + l0.state, rd, input, ctx, AtIsRep, path);
    BetweenStays(props, d, l0, limit, checkDicSize, probs0, probs[..], dic[..]);
    if bit == 0 {
      res, l, d2 := MatchTurn(props, probs, dic, limit, checkDicSize, posState, input, l0, rd, d, path, m);
      return;
    }
    if checkDicSize == 0 && l0.processedPos == 0 {
      NothingToRepeat(props, d, path, limit, checkDicSize, l0, dic[..], probs0, probs[..], input, rd, l0, d, m);
      return SzErrorData, l0, d;
    }
    res, l, d2 := RepTurn(props, probs, dic, limit, checkDicSize, posState, input, l0, rd, d, path, m);
  }

  /** Before a turn: ready for a symbol that is whole in the input, and at the output limit is a match. */
  ghost predicate BeforeTurn(props: Props, d: Dec, rest: seq<Byte>, limit: nat, l0: Locals, m: Mark, outLimit: nat,
      finishEnd: bool)
  {
    && WfDec(props, d) && !d.needFlush && !d.needInit && d.remainLen == 0 && l0.dicPos <= limit
    && |d.out| + (limit - l0.dicPos) <= outLimit && Symbol(props, d, rest).End?
    && (l0.dicPos == limit ==>
          |d.out| == outLimit && finishEnd && d.code != 0 && Symbol(props, d, rest).sym.Match?)
    && l0.dicPos == m.pos + |d.out| - |m.out|
  }

  /** A turn that fails is the error Run gives, and has written nothing. */
  lemma TurnFails(props: Props, d: Dec, rest: seq<Byte>, limit: nat, l0: Locals, dic: seq<Byte>, probs: seq<Prob>,
      input: seq<Byte>, l: Locals, d2: Dec, m: Mark, outLimit: nat, finishEnd: bool)
    requires BeforeTurn(props, d, rest, limit, l0, m, outLimit, finishEnd)
    requires Turned(props, d, Symbol(props, d, rest), limit, l0, dic, probs, input, SzErrorData, l, d2, m)
    ensures Run(props, d, outLimit, finishEnd, rest) == DataError(NotSpecified, d.out)
    ensures WroteWithin(m, dic, d.out, limit)
  {
    hide Window, Real, Run, CtxOf, Symbol, Tracks, Drain, Apply;
    RunSymbol(props, d, outLimit, finishEnd, rest);
    WroteCounts(m, dic, l0.dicPos, d.out);
    hide Wrote;
  }

  /** A turn that does not fail is one step of Run. */
  lemma TurnRuns(props: Props, d: Dec, rest: seq<Byte>, limit: nat, l0: Locals, dic: seq<Byte>, probs: seq<Prob>,
      input: seq<Byte>, l: Locals, d2: Dec, m: Mark, outLimit: nat, finishEnd: bool)
    requires BeforeTurn(props, d, rest, limit, l0, m, outLimit, finishEnd)
    requires Turned(props, d, Symbol(props, d, rest), limit, l0, dic, probs, input, SzOk, l, d2, m)
    ensures Tracks(props, l, d2, dic, probs, input, Symbol(props, d, rest).rc.rest)
    ensures l.dicPos <= limit && Wrote(m, dic, l.dicPos, d2.out)
    ensures |d2.out| + (limit - l.dicPos) == |d.out| + (limit - l0.dicPos)
    ensures l.len < MATCH_SPEC_LEN_START ==> |d.out| < |d2.out| && (l.dicPos < limit ==> l.len == 0)
    ensures Run(props, d2, outLimit, finishEnd, Symbol(props, d, rest).rc.rest)
         == Run(props, d, outLimit, finishEnd, rest)
  {
    hide Window, Real, Run, CtxOf, Symbol, Wrote, Tracks, Drain, Apply;
    var path := Symbol(props, d, rest);
    RunSymbol(props, d, outLimit, finishEnd, rest);
    WroteCounts(m, dic, l.dicPos, d2.out);
    TracksLength(props, l, d2, dic, probs, input, path.rc.rest);
    var a := Apply(props, WithPath(d, path), path.sym).dec;
    DrainThenRun(props, a, |d.out| + (limit - l0.dicPos), outLimit, finishEnd, path.rc.rest);
  }

  lemma TracksLength(props: Props, l: Locals, d: Dec, dic: seq<Byte>, probs: seq<Prob>, input: seq<Byte>,
      rest: seq<Byte>)
    requires Tracks(props, l, d, dic, probs, input, rest)
    ensures d.remainLen == if l.len < MATCH_SPEC_LEN_START then l.len else MATCH_SPEC_LEN_START
  {
    hide Window, WfDec, Normalize, Starved, CanRead, RcAt;
  }

  lemma WroteNothing(m: Mark)
    requires m.pos <= |m.dic|
    ensures Wrote(m, m.dic, m.pos, m.out)
  {
  }

  lemma WroteCounts(m: Mark, dic: seq<Byte>, pos: nat, out: seq<Byte>)
    requires Wrote(m, dic, pos, out)
    ensures pos - m.pos == |out| - |m.out| >= 0 && |dic| == |m.dic|
  {
  }

  /** With a byte to spare before the 20-byte margin, the next symbol is whole even before NORMALIZE. */
  lemma NextIsWhole(props: Props, l: Locals, d: Dec, dic: seq<Byte>, probs: seq<Prob>, input: seq<Byte>,
      rest: seq<Byte>)
    requires Tracks(props, l, d, dic, probs, input, rest)
    requires l.rd.buf + LZMA_REQUIRED_INPUT_MAX < |input|
    ensures Symbol(props, d, rest).End?
  {
    EnoughInput(props, d, rest);
  }

  lemma SymbolShrinks(props: Props, d: Dec, input: seq<Byte>)
    requires WfDec(props, d) && !d.needFlush && !d.needInit && Symbol(props, d, input).End?
    ensures |Symbol(props, d, input).rc.rest| <= |input|
  {
  }

  /** Where the loop may be about to decode a symbol. */
  ghost predicate LoopReady(props: Props, l: Locals, d: Dec, limit: nat, checkDicSize: nat, rest: seq<Byte>,
      outLimit: nat, finishEnd: bool)
  {
    && WfDec(props, d) && !d.needFlush && !d.needInit && d.remainLen == 0
    && checkDicSize == CheckDicSize(props, d.out)
    && l.dicPos <= limit && |d.out| + (limit - l.dicPos) <= outLimit
    && (checkDicSize == 0 ==> |d.out| + (limit - l.dicPos) <= props.dicSize)
    && Symbol(props, d, rest).End?
    && (l.dicPos == limit ==> |d.out| == outLimit && finishEnd && d.code != 0 && Symbol(props, d, rest).sym.Match?)
  }

  /** The do-while loop of LzmaDec_DecodeReal. */
  method DecodeLoop(props: Props, probs: array<Prob>, dic: array<Byte>, limit: nat, checkDicSize: nat, bufLimit: nat,
      input: seq<Byte>, l0: Locals, ghost d0: Dec, ghost rest0: seq<Byte>, ghost m: Mark, ghost outLimit: nat,
      ghost finishEnd: bool)
    returns (res: SRes, l: Locals, ghost d: Dec, ghost rest: seq<Byte>)
    requires Tracks(props, l0, d0, dic[..], probs[..], input, rest0) && l0.len == 0
    requires LoopReady(props, l0, d0, limit, checkDicSize, rest0, outLimit, finishEnd)
    requires limit <= dic.Length && Wrote(m, dic[..], l0.dicPos, d0.out)
    requires bufLimit <= l0.rd.buf || bufLimit + LZMA_REQUIRED_INPUT_MAX <= |input|
    requires probs as object != dic
    modifies probs, dic
    ensures res == SzErrorData ==>
      && Run(props, d0, outLimit, finishEnd, rest0) == DataError(NotSpecified, d.out)
      && WroteWithin(m, dic[..], d.out, limit)
    ensures res == SzOk ==>
      && Tracks(props, l, d, dic[..], probs[..], input, rest)
      && l.dicPos <= limit && Wrote(m, dic[..], l.dicPos, d.out) && |d.out| <= outLimit
      && Run(props, d, outLimit, finishEnd, rest) == Run(props, d0, outLimit, finishEnd, rest0)
      && (l.len < MATCH_SPEC_LEN_START ==> l0.dicPos < l.dicPos && (l.dicPos < limit ==> l.len == 0))
      && l0.rd.buf <= l.rd.buf
      && |rest| <= |Symbol(props, d0, rest0).rc.rest|
  {
    hide Window, Wrote, Real, Run, Symbol, CtxOf, Turned;
    l, d, rest := l0, d0, rest0;
    while true
      invariant Tracks(props, l, d, dic[..], probs[..], input, rest)
      invariant LoopReady(props, l, d, limit, checkDicSize, rest, outLimit, finishEnd)
      invariant Wrote(m, dic[..], l.dicPos, d.out) && l0.dicPos <= l.dicPos
      invariant Run(props, d, outLimit, finishEnd, rest) == Run(props, d0, outLimit, finishEnd, rest0)
      invariant l0.rd.buf <= l.rd.buf
      invariant l.dicPos == l0.dicPos ==> l == l0
      invariant if l.dicPos == l0.dicPos then d == d0 && rest == rest0
                else |rest| <= |Symbol(props, d0, rest0).rc.rest|
      decreases limit - l.dicPos
    {
      ghost var l1, d1, rest1 := l, d, rest;
      WroteCounts(m, dic[..], l1.dicPos, d1.out);
      res, l, d := DecodeOne(props, probs, dic, limit, checkDicSize, input, l, d, rest, m);
      if res == SzErrorData {
        TurnFails(props, d1, rest1, limit, l1, dic[..], probs[..], input, l, d, m, outLimit, finishEnd);
        d := d1;
        return;
      }
      TurnRuns(props, d1, rest1, limit, l1, dic[..], probs[..], input, l, d, m, outLimit, finishEnd);
      rest := Symbol(props, d1, rest1).rc.rest;
      SymbolShrinks(props, d1, rest1);
      if l.len >= MATCH_SPEC_LEN_START || !(l.dicPos < limit && l.rd.buf < bufLimit) {
        return;
      }
      NextIsWhole(props, l, d, dic[..], probs[..], input, rest);
    }
  }

  /** processedPos and checkDicSize after n more bytes. */
  lemma CountOn(props: Props, out: seq<Byte>, out2: seq<Byte>, n: nat)
    requires WfProps(props) && |out2| == |out| + n
    ensures WrapAdd(Low32(|out|), n) == Low32(|out2|)
    ensures CheckDicSize(props, out2) ==
      if CheckDicSize(props, out) == 0 && props.dicSize - Low32(|out|) <= n then props.dicSize
      else CheckDicSize(props, out)
  {
    WrapAddCounts(|out|, n);
  }

  /** The test after DecodeReal sets checkDicSize exactly when the dictionary has filled up. */
  lemma FullDictionary(props: Props, out: seq<Byte>, out2: seq<Byte>, checkDicSize: nat)
    requires WfProps(props) && checkDicSize == CheckDicSize(props, out) && |out| <= |out2|
    requires checkDicSize == 0 ==> |out2| <= props.dicSize
    ensures CheckDicSize(props, out2) == if Low32(|out2|) >= props.dicSize then props.dicSize else checkDicSize
  {
  }

  /** What TryDummy tells about a run that may decode a symbol. */
  lemma SymbolOrStarved(props: Props, d: Dec, limit: nat, finishEnd: bool, input: seq<Byte>)
    requires WfDec(props, d) && !d.needFlush && !d.needInit && d.remainLen == 0 && |d.out| <= limit
    requires |d.out| == limit ==> finishEnd && d.code != 0
    ensures WfProps(props) && |d.probs| == NumProbs(props)
    ensures var report := Report(Dummy(CtxOf(props, d), AtIsMatch, d.probs, RcOf(d, input)));
      var path := Symbol(props, d, input);
      && (|input| >= LZMA_REQUIRED_INPUT_MAX ==> path.End?)
      && (report == DUMMY_ERROR <==> path.Starve?)
      && (path.End? ==> (report == DUMMY_MATCH <==> path.sym.Match?))
      && (path.Starve? ==> Run(props, d, limit, finishEnd, input) == Fine(NeedsMoreInput, d, input))
      && (path.End? && |d.out| == limit && !path.sym.Match? ==>
            Run(props, d, limit, finishEnd, input) == DataError(NotFinished, d.out))
  {
    DummyIsSymbol(props, d, input);
    if |input| >= LZMA_REQUIRED_INPUT_MAX {
      EnoughInput(props, d, input);
    }
  }

  /** Bytes that end inside a symbol are all taken when the symbol is completed. */
  lemma TakesAllKept(props: Props, d: Dec, kept: seq<Byte>, extra: seq<Byte>)
    requires WfDec(props, d) && !d.needFlush && !d.needInit
    requires Symbol(props, d, kept).Starve? && Symbol(props, d, kept + extra).End?
    ensures |extra| > |Symbol(props, d, kept + extra).rc.rest|
  {
    assert Keep(RcOf(d, kept + extra), |kept|) == RcOf(d, kept);
    if |extra| <= |Symbol(props, d, kept + extra).rc.rest| {
      PrefixSuffices(CtxOf(props, d), AtIsMatch, d.probs, RcOf(d, kept + extra), |kept|);
    }
  }

  /** Moving back in the caller's buffer over what was copied to tempBuf but not used. */
  lemma GiveBack(kept: seq<Byte>, src: seq<Byte>, srcLen: nat, lookAhead: nat, input: seq<Byte>, buf: nat)
    requires srcLen + lookAhead <= |src| && input == kept + src[srcLen..srcLen + lookAhead]
    requires |kept| <= buf <= |input|
    ensures src[srcLen + lookAhead - (|input| - buf)..] == input[buf..] + src[srcLen + lookAhead..]
  {
  }

  lemma StartedAtLimit(props: Props, d: Dec, limit: nat, finishEnd: bool, input: seq<Byte>)
    requires WfDec(props, d) && |d.out| == limit && !d.needFlush
    requires d.remainLen != MATCH_SPEC_LEN_START && Drain(props, d, limit) == d
    ensures RunStarted(props, d, limit, finishEnd, input) ==
      if d.remainLen == 0 && d.code == 0 then Fine(MaybeFinishedWithoutMark, d, input)
      else if !finishEnd then Fine(NotFinished, d, input)
      else if d.remainLen != 0 then DataError(NotFinished, d.out)
      else RunStarted(props, d, limit, finishEnd, input)
  {
  }

  lemma AtEndMarker(props: Props, d: Dec, limit: nat, finishEnd: bool, input: seq<Byte>)
    requires WfDec(props, d) && |d.out| <= limit && d.remainLen == MATCH_SPEC_LEN_START
    ensures Run(props, d, limit, finishEnd, input) ==
      if d.code == 0 then Fine(FinishedWithMark, d, input) else DataError(NotSpecified, d.out)
  {
  }

  /** A drained, started run is RunStarted. */
  lemma RunIsStarted(props: Props, d: Dec, limit: nat, finishEnd: bool, input: seq<Byte>)
    requires WfDec(props, d) && |d.out| <= limit && !d.needFlush
    requires d.remainLen != MATCH_SPEC_LEN_START && Drain(props, d, limit) == d
    ensures Run(props, d, limit, finishEnd, input) == RunStarted(props, d, limit, finishEnd, input)
  {
  }

  /** CLzmaDec. The caller owns dic and dicPos between calls. */
  class LzmaDec {
    const props: Props
    const probs: array<Prob>
    const dic: array<Byte>
    const tempBuf: array<Byte>
    var buf: nat
    var range: nat
    var code: nat
    var dicPos: nat
    var processedPos: nat
    var checkDicSize: nat
    var state: nat
    var reps: Reps
    var remainLen: nat
    var needFlush: bool
    var needInitState: bool
    var tempBufSize: nat
    /** Everything decoded since LzmaDec_Init. */
    ghost var out: seq<Byte>

    /** The model state: an end marker counts as such whatever length came with it. */
    ghost function Abs(): Dec
      reads this, probs
    {
      Dec(probs[..], range, code, state, reps, out,
          if remainLen < MATCH_SPEC_LEN_START then remainLen else MATCH_SPEC_LEN_START, needFlush, needInitState)
    }

    /** The allocation: arrays of the right sizes, whatever they hold. */
    ghost predicate Shape() {
      && WfProps(props)
      && probs.Length == NumProbs(props)
      && tempBuf.Length == LZMA_REQUIRED_INPUT_MAX
      && tempBuf != dic && probs as object != dic && probs as object != tempBuf
    }

    /** What holds inside a call as well: the dictionary shows the output, processedPos counts it. */
    ghost predicate Core()
      reads this, probs, dic
    {
      && Shape()
      && WfDec(props, Abs())
      && Window(dic[..], dicPos, out, props.dicSize)
      && processedPos == Low32(|out|)
    }

    /** Input taken from the caller but not decoded yet. */
    ghost function Pending(): seq<Byte>
      reads this, tempBuf
      requires tempBufSize <= tempBuf.Length
    {
      tempBuf[..tempBufSize]
    }

    /** The invariant between calls. Bytes are only kept back when they end inside a symbol. */
    ghost predicate Valid()
      reads this, probs, dic, tempBuf
    {
      && Core()
      && checkDicSize == CheckDicSize(props, out)
      && remainLen <= MATCH_SPEC_LEN_START
      && tempBufSize <= tempBuf.Length
      && (needFlush ==> tempBufSize < RC_INIT_SIZE)
      && (!needFlush && tempBufSize > 0 ==>
            !needInitState && remainLen == 0 && Symbol(props, Abs(), Pending()).Starve?)
    }

    ghost function Marked(): Mark
      reads this, dic
    {
      Mark(dic[..], dicPos, out)
    }

    /**
      How a call leaves the dictionary when the data is bad: it has written the output up to the
      error, no further than the limit, and dicPos may be behind it.
     */
    ghost predicate Failed(m: Mark, limit: nat, o: Outcome, status: Status)
      reads this, dic
    {
      && o.DataError? && o.status == status && WroteWithin(m, dic[..], o.out, limit)
      && m.pos <= dicPos <= m.pos + |o.out| - |m.out|
    }

    /** A failure before an earlier limit is one before a later limit. */
    lemma FailedBefore(m: Mark, limit: nat, limit2: nat, o: Outcome, status: Status)
      requires Failed(m, limit, o, status) && limit <= limit2
      ensures Failed(m, limit2, o, status)
    {
      hide Wrote;
    }

    /** A failure after some progress is a failure since the progress began. */
    lemma FailedSince(m: Mark, m2: Mark, limit: nat, o: Outcome, status: Status)
      requires Wrote(m, m2.dic, m2.pos, m2.out) && Failed(m2, limit, o, status)
      ensures Failed(m, limit, o, status)
    {
      WroteWithinThen(m, m2, dic[..], o.out, limit);
      WroteCounts(m, m2.dic, m2.pos, m2.out);
      hide Wrote;
    }

    /** A failure before anything else is written. */
    lemma FailedNow(m: Mark, limit: nat, o: Outcome, status: Status)
      requires Wrote(m, dic[..], dicPos, out) && dicPos <= limit && o == DataError(status, out)
      ensures Failed(m, limit, o, status)
    {
      WroteCounts(m, dic[..], dicPos, out);
      hide Wrote;
    }

    /** The last NORMALIZE, and the locals back into the structure. */
    method StoreBack(l: Locals, input: seq<Byte>, ghost d: Dec, ghost rest: seq<Byte>)
      requires Shape() && !needFlush && !needInitState && Tracks(props, l, d, dic[..], probs[..], input, rest)
      modifies this`buf, this`range, this`code, this`remainLen, this`dicPos, this`processedPos, this`reps,
          this`state, this`out
      ensures Core() && Abs() == d && buf <= |input| && input[buf..] == rest
      ensures dicPos == l.dicPos && remainLen == l.len && l.rd.buf <= buf
    {
      hide Window;
      var rd := NormalizeReader(l.rd, input);
      buf, range, code := rd.buf, rd.range, rd.code;
      remainLen, dicPos, processedPos, reps, state := l.len, l.dicPos, l.processedPos, l.reps, l.state;
      out := d.out;
      assert RcAt(rd, input) == RcOf(d, rest);
    }

    /** LzmaDec_DecodeReal: symbols until the limit, the input margin or the end marker. */
    method DecodeReal(limit: nat, bufLimit: nat, input: seq<Byte>, ghost outLimit: nat, ghost finishEnd: bool,
        ghost o: Outcome)
      returns (res: SRes)
      requires Core() && !needFlush && !needInitState && remainLen == 0 && buf <= |input|
      requires checkDicSize == CheckDicSize(props, out)
      requires dicPos <= limit <= dic.Length && |out| + (limit - dicPos) <= outLimit
      requires checkDicSize == 0 ==> |out| + (limit - dicPos) <= props.dicSize
      requires Symbol(props, Abs(), input[buf..]).End?
      requires dicPos == limit ==>
        |out| == outLimit && finishEnd && code != 0 && Symbol(props, Abs(), input[buf..]).sym.Match?
      requires bufLimit <= buf || bufLimit + LZMA_REQUIRED_INPUT_MAX <= |input|
      requires Run(props, Abs(), outLimit, finishEnd, input[buf..]) == o
      modifies this`buf, this`range, this`code, this`remainLen, this`dicPos, this`processedPos, this`reps,
          this`state, this`out
      modifies probs, dic
      ensures res == SzErrorData ==> unchanged(this) && Failed(old(Marked()), limit, o, NotSpecified)
      ensures res == SzOk ==>
        && Core() && old(buf) <= buf <= |input| && dicPos <= limit
        && |out| <= outLimit && Run(props, Abs(), outLimit, finishEnd, input[buf..]) == o
        && Wrote(old(Marked()), dic[..], dicPos, out)
        && (remainLen >= MATCH_SPEC_LEN_START || (dicPos > old(dicPos) && (dicPos < limit ==> remainLen == 0)))
        && |input| - buf <= |old(Symbol(props, Abs(), input[buf..])).rc.rest|
    {
      hide Window, Wrote, Real, Run, Symbol, CtxOf, Turned;
      ghost var m, d0, rest0 := Marked(), Abs(), input[buf..];
      var l0 := Locals(state, reps, dicPos, processedPos, 0, Reader(range, code, buf));
      WroteNothing(m);
      var l;
      ghost var d, rest;
      res, l, d, rest := DecodeLoop(props, probs, dic, limit, checkDicSize, bufLimit, input, l0, d0, rest0, m,
          outLimit, finishEnd);
      if res == SzErrorData {
        return;
      }
      StoreBack(l, input, d, rest);
    }

    /** LzmaDec_WriteRem: goes on with a match that an earlier output limit cut. */
    method WriteRem(limit: nat)
      requires Core() && checkDicSize == CheckDicSize(props, out)
      requires dicPos <= limit <= dic.Length
      modifies this`remainLen, this`dicPos, this`processedPos, this`checkDicSize, this`out, dic
      ensures Core() && checkDicSize == CheckDicSize(props, out)
      ensures Abs() == Drain(props, old(Abs()), old(|out|) + (limit - old(dicPos)))
      ensures dicPos <= limit && Wrote(old(Marked()), dic[..], dicPos, out)
      ensures old(remainLen) == 0 || old(remainLen) >= MATCH_SPEC_LEN_START ==> remainLen == old(remainLen)
      ensures remainLen <= old(remainLen)
    {
      hide Window, Wrote, Source, WfDec, Drain, CopyMatch, CheckDicSize, WrapAdd, Low32;
      WroteNothing(Marked());
      DrainIs(props, Abs(), |out| + (limit - dicPos));
      if remainLen != 0 && remainLen < MATCH_SPEC_LEN_START {
        ghost var d, m := Abs(), Marked();
        var len, rep0 := remainLen, reps.r0;
        if limit - dicPos < len {
          len := limit - dicPos;
        }
        var checkDicSize1 := checkDicSize;
        if checkDicSize == 0 && props.dicSize - processedPos <= len {
          checkDicSize1 := props.dicSize;
        }
        ghost var d2 := Drain(props, d, |out| + (limit - dicPos));
        var dicPos1 := CopyBytes(dic, dicPos, rep0, len, m, out, props.dicSize);
        CountOn(props, out, d2.out, len);
        checkDicSize, processedPos, remainLen := checkDicSize1, WrapAdd(processedPos, len), remainLen - len;
        dicPos := dicPos1;
        out := d2.out;
        assert Abs() == d2;
      }
    }

    /** LzmaDec_TryDummy: what the next symbol in the input would be. */
    method TryDummy(input: seq<Byte>) returns (res: ELzmaDummy)
      requires Core() && !needFlush && !needInitState && checkDicSize == CheckDicSize(props, out)
      ensures res == Report(Dummy(CtxOf(props, Abs()), AtIsMatch, probs[..], Rc(range, code, input)))
    {
      hide Window, Dummy, Low32, Pow2, CheckDicSize;
      ghost var ctx := CtxOf(props, Abs());
      ghost var path := Dummy(ctx, AtIsMatch, probs[..], Rc(range, code, input));
      LiteralProbsIsLitBase(props, dic, dicPos, out);
      LowBitsSurviveWrap(|out|, props.pb);
      var posState := processedPos % Pow2(props.pb);
      var rd := Reader(range, code, 0);
      assert RcAt(rd, input) == Rc(range, code, input);
      var ok, bit;
      ok, bit, rd := GetBitCheck(probs, IS_MATCH + state * 16 + posState, rd, input, ctx, AtIsMatch, path);
      if !ok {
        return DUMMY_ERROR;
      }
      ghost var sym;
      if bit == 0 {
        ok, sym, rd := DummyLit(rd, input, ctx, path);
        res := DUMMY_LIT;
      } else {
        ok, bit, rd := GetBitCheck(probs, IS_REP + state, rd, input, ctx, AtIsRep, path);
        if !ok {
          return DUMMY_ERROR;
        }
        if bit == 0 {
          ok, sym, rd := DummyMatch(probs, posState, rd, input, ctx, path);
          res := DUMMY_MATCH;
        } else {
          ok, sym, rd := DummyRep(probs, state, posState, rd, input, ctx, path);
          res := DUMMY_REP;
        }
      }
      if !ok {
        return DUMMY_ERROR;
      }
      DummyDone(ctx, sym, probs[..], rd, input, path);
      ok, rd := NormalizeCheck(rd, input);
      if !ok {
        return DUMMY_ERROR;
      }
    }

    /** The literal branch of LzmaDec_TryDummy. */
    method DummyLit(rd: Reader, input: seq<Byte>, ghost ctx: Ctx, ghost path: DummyPath)
      returns (ok: bool, ghost sym: Sym, r: Reader)
      requires Core() && !needFlush && !needInitState && checkDicSize == CheckDicSize(props, out)
      requires ctx == CtxOf(props, Abs()) && Foresees(ctx, LitStart(ctx), probs[..], rd, input, path)
      ensures sym.Lit?
      ensures if ok then Foresees(ctx, Done(sym), probs[..], r, input, path) else path.DummyStarve?
    {
      hide Window, Dummy, Source;
      LiteralProbsIsLitBase(props, dic, dicPos, out);
      var prob := LiteralProbs(props, dic, dicPos, processedPos, checkDicSize);
      if state < NUM_LIT_STATES {
        ok, sym, r := DummyLiteral(probs, prob, rd, input, ctx, path);
      } else {
        WindowAt(dic[..], dicPos, out, props.dicSize, reps.r0);
        var matchByte := dic[Source(dicPos, reps.r0, dic.Length)];
        ok, sym, r := DummyMatchedLiteral(probs, prob, matchByte, rd, input, ctx, path);
      }
    }

    /** Ready for a symbol: one is whole in the input, and at the output limit it is a match. */
    ghost predicate SymbolReady(input: seq<Byte>, limit: nat, finishEnd: bool)
      reads this, probs, dic
    {
      && Core() && checkDicSize == CheckDicSize(props, out)
      && !needFlush && !needInitState && remainLen == 0
      && buf <= |input| && dicPos <= limit <= dic.Length
      && Symbol(props, Abs(), input[buf..]).End?
      && (dicPos == limit ==> finishEnd && code != 0 && Symbol(props, Abs(), input[buf..]).sym.Match?)
    }

    /** What DecodeReal2 and each of its turns leave when the data is good; m and buf0 are from before. */
    ghost predicate Advanced(m: Mark, buf0: nat, input: seq<Byte>, limit: nat, outLimit: nat)
      reads this, probs, dic
    {
      && Core() && checkDicSize == CheckDicSize(props, out)
      && buf0 <= buf <= |input| && dicPos <= limit && outLimit == |out| + (limit - dicPos)
      && Wrote(m, dic[..], dicPos, out)
      && (remainLen < MATCH_SPEC_LEN_START ==> dicPos > m.pos && (dicPos < limit ==> remainLen == 0))
    }

    /** One turn of the loop of LzmaDec_DecodeReal2. */
    method FillTurn(limit: nat, bufLimit: nat, input: seq<Byte>, ghost outLimit: nat, ghost finishEnd: bool,
        ghost o: Outcome)
      returns (res: SRes)
      requires SymbolReady(input, limit, finishEnd) && outLimit == |out| + (limit - dicPos)
      requires bufLimit <= buf || bufLimit + LZMA_REQUIRED_INPUT_MAX <= |input|
      requires Run(props, Abs(), outLimit, finishEnd, input[buf..]) == o
      modifies this`buf, this`range, this`code, this`remainLen, this`dicPos, this`processedPos, this`reps,
          this`state, this`out
      modifies this`checkDicSize, probs, dic
      ensures res == SzErrorData ==> Failed(old(Marked()), limit, o, NotSpecified)
      ensures res == SzOk ==>
        && Advanced(old(Marked()), old(buf), input, limit, outLimit)
        && Run(props, Abs(), outLimit, finishEnd, input[buf..]) == o
        && |input| - buf <= |old(Symbol(props, Abs(), input[buf..])).rc.rest|
    {
      hide Window, Wrote, Real, Run, Symbol, CtxOf, Drain, WfDec, Pow2, Failed, WrapAdd, CopyMatch;
      var limit2 := limit;
      if checkDicSize == 0 {
        var rem := props.dicSize - processedPos;
        if limit - dicPos > rem {
          limit2 := dicPos + rem;
        }
      }
      ghost var m := Marked();
      res := DecodeReal(limit2, bufLimit, input, outLimit, finishEnd, o);
      if res == SzErrorData {
        FailedBefore(m, limit2, limit, o, NotSpecified);
        return;
      }
      WroteCounts(m, dic[..], dicPos, out);
      ghost var m2, d2 := Marked(), Abs();
      FillAndDrain(limit, m.out);
      WroteThen(m, m2, dic[..], dicPos, out);
      WroteCounts(m, dic[..], dicPos, out);
      DrainThenRun(props, d2, outLimit, outLimit, finishEnd, input[buf..]);
    }

    /** After DecodeReal: note a full dictionary, then go on with a match cut where it filled up. */
    method FillAndDrain(limit: nat, ghost out0: seq<Byte>)
      requires Core() && checkDicSize == CheckDicSize(props, out0) && |out0| <= |out|
      requires checkDicSize == 0 ==> |out| <= props.dicSize
      requires dicPos <= limit <= dic.Length
      modifies this`remainLen, this`dicPos, this`processedPos, this`checkDicSize, this`out, dic
      ensures Core() && checkDicSize == CheckDicSize(props, out)
      ensures Abs() == Drain(props, old(Abs()), old(|out|) + (limit - old(dicPos)))
      ensures dicPos <= limit && Wrote(old(Marked()), dic[..], dicPos, out)
      ensures old(remainLen) == 0 || old(remainLen) >= MATCH_SPEC_LEN_START ==> remainLen == old(remainLen)
      ensures dicPos < limit && remainLen < MATCH_SPEC_LEN_START ==> remainLen == 0
      ensures remainLen <= old(remainLen)
    {
      hide Window, Wrote, WfDec, Drain, CheckDicSize, WrapAdd, Low32, CopyMatch;
      FullDictionary(props, out0, out, checkDicSize);
      DrainIs(props, Abs(), |out| + (limit - dicPos));
      if processedPos >= props.dicSize {
        checkDicSize := props.dicSize;
      }
      ghost var m := Marked();
      WriteRem(limit);
      WroteCounts(m, dic[..], dicPos, out);
    }

    /** LzmaDec_DecodeReal2: stops DecodeReal where the dictionary fills up, and finishes cut matches. */
    method DecodeReal2(limit: nat, bufLimit: nat, input: seq<Byte>, ghost outLimit: nat, ghost finishEnd: bool,
        ghost o: Outcome)
      returns (res: SRes)
      requires SymbolReady(input, limit, finishEnd) && outLimit == |out| + (limit - dicPos)
      requires bufLimit <= buf || bufLimit + LZMA_REQUIRED_INPUT_MAX <= |input|
      requires Run(props, Abs(), outLimit, finishEnd, input[buf..]) == o
      modifies this`buf, this`range, this`code, this`remainLen, this`dicPos, this`processedPos, this`reps,
          this`state, this`out
      modifies this`checkDicSize, probs, dic
      ensures res == SzErrorData ==> Failed(old(Marked()), limit, o, NotSpecified)
      ensures res == SzOk ==>
        && Advanced(old(Marked()), old(buf), input, limit, outLimit)
        && Run(props, Abs(), outLimit, finishEnd, input[buf..]) == o
        && remainLen <= MATCH_SPEC_LEN_START && |input| - buf <= |old(Symbol(props, Abs(), input[buf..])).rc.rest|
    {
      hide Window, Wrote, Real, Run, Symbol, CtxOf, WfDec, Low32, CheckDicSize;
      res := FillTurn(limit, bufLimit, input, outLimit, finishEnd, o);
      ghost var m := old(Marked());
      while res == SzOk && dicPos < limit && buf < bufLimit && remainLen < MATCH_SPEC_LEN_START
        invariant res == SzErrorData ==> Failed(m, limit, o, NotSpecified)
        invariant res == SzOk ==>
          && Advanced(old(Marked()), old(buf), input, limit, outLimit)
          && Run(props, Abs(), outLimit, finishEnd, input[buf..]) == o
          && |input| - buf <= |old(Symbol(props, Abs(), input[buf..])).rc.rest|
        decreases res == SzOk && remainLen < MATCH_SPEC_LEN_START, limit - dicPos
      {
        ghost var m1 := Marked();
        EnoughInput(props, Abs(), input[buf..]);
        res := FillTurn(limit, bufLimit, input, outLimit, finishEnd, o);
        if res == SzOk {
          WroteThen(m, m1, dic[..], dicPos, out);
        } else {
          FailedSince(m, m1, limit, o, NotSpecified);
        }
      }
      if res == SzOk && remainLen > MATCH_SPEC_LEN_START {
        remainLen := MATCH_SPEC_LEN_START;
      }
    }

    /** LzmaDec_InitStateReal */
    method InitStateReal()
      requires Core() && !needFlush && needInitState
      modifies this`reps, this`state, this`needInitState, probs
      ensures Core() && Abs() == Ready(props, old(Abs())) && !needInitState
    {
      hide Window;
      ghost var d := Abs();
      var numProbs := LITERAL + LIT_SIZE * Pow2(props.lc + props.lp);
      var i := 0;
      while i < numProbs
        invariant 0 <= i <= numProbs
        invariant forall j :: 0 <= j < i ==> probs[j] == BIT_MODEL_TOTAL / 2
      {
        probs[i] := BIT_MODEL_TOTAL / 2;
        i := i + 1;
      }
      reps := Reps(1, 1, 1, 1);
      state := 0;
      needInitState := false;
      assert probs[..] == seq(NumProbs(props), _ => 1024);
      assert Abs() == Ready(props, d);
    }

    /** LzmaDec_InitRc, on the five bytes collected in tempBuf. */
    method InitRc(ghost head: seq<Byte>)
      requires Core() && needFlush && |head| == RC_INIT_SIZE && tempBuf[..RC_INIT_SIZE] == head
      modifies this`range, this`code, this`needFlush
      ensures Core() && Abs() == StartRc(old(Abs()), head)
    {
      hide Window;
      assert forall i :: 0 <= i < 5 ==> head[i] == tempBuf[i];
      code := 0x100_0000 * tempBuf[1] as int + 0x1_0000 * tempBuf[2] as int + 0x100 * tempBuf[3] as int + tempBuf[4];
      range := INIT_RANGE;
      needFlush := false;
    }

    /** LzmaDec_Init: whatever the last stream left behind. */
    method Init()
      requires Shape()
      modifies this
      ensures Valid() && IsInitial(Abs()) && dicPos == 0 && Pending() == []
    {
      dicPos := 0;
      needFlush, remainLen, tempBufSize := true, 0, 0;
      processedPos, checkDicSize := 0, 0;
      needInitState := true;
      out := [];
    }

    /** The state in the loop of LzmaDec_DecodeToDic once the range decoder runs and a symbol may follow. */
    ghost predicate MayDecode(outLimit: nat, dicLimit: nat, finishEnd: bool)
      reads this, probs, dic, tempBuf
    {
      && Valid() && !needFlush && !needInitState && remainLen == 0
      && dicPos <= dicLimit <= dic.Length && outLimit == |out| + (dicLimit - dicPos)
      && (dicPos == dicLimit ==> finishEnd && code != 0)
    }

    /** What one turn of that loop must leave: o is the outcome of the whole call, m is from before. */
    ghost predicate Turn(m: Mark, returned: bool, res: SRes, status: Status, src: seq<Byte>, srcLen: nat,
        outLimit: nat, dicLimit: nat, finishEnd: bool, o: Outcome)
      reads this, probs, dic, tempBuf
    {
      if res == SzErrorData then returned && srcLen <= |src| && Failed(m, dicLimit, o, status)
      else
        && Valid() && srcLen <= |src|
        && Wrote(m, dic[..], dicPos, out)
        && dicPos <= dicLimit && outLimit == |out| + (dicLimit - dicPos)
        && if returned then
             && o == Fine(status, Abs(), Pending() + src[srcLen..])
             && status == NeedsMoreInput && srcLen == |src|
           else
             && tempBufSize == 0
             && Run(props, Abs(), outLimit, finishEnd, src[srcLen..]) == o
             && (remainLen == MATCH_SPEC_LEN_START || (dicPos > m.pos && (dicPos < dicLimit ==> remainLen == 0)))
    }

    /** No byte kept back: decode straight from the caller's buffer. */
    method TurnFromSrc(src: seq<Byte>, srcLen0: nat, dicLimit: nat, finishEnd: bool, ghost outLimit: nat,
        ghost o: Outcome)
      returns (returned: bool, res: SRes, status: Status, srcLen: nat)
      requires MayDecode(outLimit, dicLimit, finishEnd) && tempBufSize == 0 && srcLen0 <= |src|
      requires Run(props, Abs(), outLimit, finishEnd, src[srcLen0..]) == o
      modifies this`buf, this`range, this`code, this`remainLen, this`dicPos, this`processedPos, this`reps,
          this`state, this`out
      modifies this`checkDicSize, this`tempBufSize, probs, dic, tempBuf
      ensures Turn(old(Marked()), returned, res, status, src, srcLen, outLimit, dicLimit, finishEnd, o)
    {
      hide Window, Wrote, Real, Run, Symbol, CtxOf, WfDec, Low32, CheckDicSize, Dummy, Report;
      var inSize := |src| - srcLen0;
      var checkEndMarkNow := dicPos >= dicLimit;
      var bufLimit;
      srcLen, status := srcLen0, NotSpecified;
      ghost var d := Abs();
      SymbolOrStarved(props, d, outLimit, finishEnd, src[srcLen0..]);
      WroteNothing(Marked());
      if inSize < LZMA_REQUIRED_INPUT_MAX || checkEndMarkNow {
        var dummyRes := TryDummy(src[srcLen0..]);
        if dummyRes == DUMMY_ERROR {
          KeepInput(src[srcLen0..]);
          returned, res, status, srcLen := true, SzOk, NeedsMoreInput, |src|;
          assert Valid() && Wrote(old(Marked()), dic[..], dicPos, out);
          assert Pending() + src[srcLen..] == src[srcLen0..];
          return;
        }
        if checkEndMarkNow && dummyRes != DUMMY_MATCH {
          return true, SzErrorData, NotFinished, srcLen;
        }
        bufLimit := srcLen0;
      } else {
        bufLimit := |src| - LZMA_REQUIRED_INPUT_MAX;
      }
      buf := srcLen0;
      res := DecodeReal2(dicLimit, bufLimit, src, outLimit, finishEnd, o);
      if res == SzErrorData {
        return true, SzErrorData, NotSpecified, srcLen;
      }
      returned, srcLen := false, buf;
    }

    /** memcpy of an unfinished symbol into tempBuf. */
    method KeepInput(input: seq<Byte>)
      requires Core() && |input| <= LZMA_REQUIRED_INPUT_MAX
      modifies tempBuf, this`tempBufSize
      ensures Core() && tempBufSize == |input| && Pending() == input
      ensures dic[..] == old(dic[..]) && Abs() == old(Abs())
    {
      hide Window;
      tempBufSize := |input|;
      forall i | 0 <= i < |input| {
        tempBuf[i] := input[i];
      }
      assert dic[..] == old(dic[..]) && probs[..] == old(probs[..]);
    }

    /** Tops up tempBuf from the caller's buffer, up to size bytes in all. */
    method TopUp(src: seq<Byte>, srcLen: nat, size: nat) returns (lookAhead: nat)
      requires Core() && tempBufSize <= size <= tempBuf.Length && srcLen <= |src|
      modifies tempBuf, this`tempBufSize
      ensures lookAhead == Min(size - old(tempBufSize), |src| - srcLen)
      ensures tempBufSize == old(tempBufSize) + lookAhead
      ensures Pending() == old(Pending()) + src[srcLen..srcLen + lookAhead]
      ensures Core() && dic[..] == old(dic[..]) && Abs() == old(Abs())
    {
      hide Window, WfDec, NumProbs;
      lookAhead := 0;
      ghost var kept := Pending();
      while tempBufSize < size && lookAhead < |src| - srcLen
        invariant tempBufSize == old(tempBufSize) + lookAhead <= size && srcLen + lookAhead <= |src|
        invariant Pending() == kept + src[srcLen..srcLen + lookAhead]
        invariant dic[..] == old(dic[..]) && probs[..] == old(probs[..])
      {
        tempBuf[tempBufSize] := src[srcLen + lookAhead];
        tempBufSize, lookAhead := tempBufSize + 1, lookAhead + 1;
        assert dic[..] == old(dic[..]) && probs[..] == old(probs[..]);
      }
    }

    /** Bytes kept back: complete their symbol from the caller's buffer, and give back what it leaves. */
    method TurnFromTemp(src: seq<Byte>, srcLen0: nat, dicLimit: nat, finishEnd: bool, ghost outLimit: nat,
        ghost o: Outcome)
      returns (returned: bool, res: SRes, status: Status, srcLen: nat)
      requires MayDecode(outLimit, dicLimit, finishEnd) && tempBufSize > 0 && srcLen0 <= |src|
      requires Run(props, Abs(), outLimit, finishEnd, Pending() + src[srcLen0..]) == o
      modifies this`buf, this`range, this`code, this`remainLen, this`dicPos, this`processedPos, this`reps,
          this`state, this`out
      modifies this`checkDicSize, this`tempBufSize, probs, dic, tempBuf
      ensures Turn(old(Marked()), returned, res, status, src, srcLen, outLimit, dicLimit, finishEnd, o)
    {
      hide Window, Wrote, Real, Run, Symbol, CtxOf, WfDec, Low32, CheckDicSize, Dummy, Report;
      var checkEndMarkNow := dicPos >= dicLimit;
      srcLen, status := srcLen0, NotSpecified;
      ghost var d, kept := Abs(), Pending();
      WroteNothing(Marked());
      var lookAhead := TopUp(src, srcLen0, LZMA_REQUIRED_INPUT_MAX);
      var input := tempBuf[..tempBufSize];
      ghost var more := src[srcLen0 + lookAhead..];
      assert kept + src[srcLen0..] == input + more;
      SymbolOrStarved(props, d, outLimit, finishEnd, input);
      InputSplitIndependence(props, d, outLimit, finishEnd, input, more);
      if tempBufSize < LZMA_REQUIRED_INPUT_MAX || checkEndMarkNow {
        var dummyRes := TryDummy(input);
        if dummyRes == DUMMY_ERROR {
          assert more == [] && input + more == input;
          returned, res, status, srcLen := true, SzOk, NeedsMoreInput, srcLen0 + lookAhead;
          assert Pending() + src[srcLen..] == input;
          return;
        }
        if checkEndMarkNow && dummyRes != DUMMY_MATCH {
          return true, SzErrorData, NotFinished, srcLen;
        }
      }
      res, srcLen := FinishTemp(src, srcLen0, lookAhead, dicLimit, finishEnd, kept, outLimit, o);
      returned := res == SzErrorData;
    }

    /** The symbol is whole in tempBuf: decode it, and move back over the bytes it leaves. */
    method FinishTemp(src: seq<Byte>, srcLen0: nat, lookAhead0: nat, dicLimit: nat, finishEnd: bool,
        ghost kept: seq<Byte>, ghost outLimit: nat, ghost o: Outcome)
      returns (res: SRes, srcLen: nat)
      requires Core() && checkDicSize == CheckDicSize(props, out)
      requires !needFlush && !needInitState && remainLen == 0
      requires dicPos <= dicLimit <= dic.Length && outLimit == |out| + (dicLimit - dicPos)
      requires tempBufSize <= tempBuf.Length && srcLen0 + lookAhead0 <= |src|
      requires Pending() == kept + src[srcLen0..srcLen0 + lookAhead0]
      requires Symbol(props, Abs(), kept).Starve? && Symbol(props, Abs(), Pending()).End?
      requires dicPos == dicLimit ==> finishEnd && code != 0 && Symbol(props, Abs(), Pending()).sym.Match?
      requires Run(props, Abs(), outLimit, finishEnd, Pending() + src[srcLen0 + lookAhead0..]) == o
      modifies this`buf, this`range, this`code, this`remainLen, this`dicPos, this`processedPos, this`reps,
          this`state, this`out
      modifies this`checkDicSize, this`tempBufSize, probs, dic
      ensures Turn(old(Marked()), res == SzErrorData, res, NotSpecified, src, srcLen, outLimit, dicLimit, finishEnd, o)
    {
      hide Window, Wrote, Real, Run, Symbol, CtxOf, WfDec, Low32, CheckDicSize;
      srcLen := srcLen0;
      var input := tempBuf[..tempBufSize];
      ghost var d, more := Abs(), src[srcLen0 + lookAhead0..];
      ghost var o1 := Run(props, d, outLimit, finishEnd, input);
      InputSplitIndependence(props, d, outLimit, finishEnd, input, more);
      TakesAllKept(props, d, kept, src[srcLen0..srcLen0 + lookAhead0]);
      buf := 0;
      assert input[buf..] == input;
      res := DecodeReal2(dicLimit, buf, input, outLimit, finishEnd, o1);
      if res == SzErrorData {
        return;
      }
      InputSplitIndependence(props, Abs(), outLimit, finishEnd, input[buf..], more);
      GiveBack(kept, src, srcLen0, lookAhead0, input, buf);
      var lookAhead: nat := lookAhead0 - (tempBufSize - buf);
      srcLen := srcLen0 + lookAhead;
      tempBufSize := 0;
    }

    /** The start of a turn: collect the five bytes that start the range decoder. */
    method TurnHeader(src: seq<Byte>, srcLen0: nat, ghost outLimit: nat, ghost finishEnd: bool, ghost o: Outcome)
      returns (returned: bool, res: SRes, status: Status, srcLen: nat)
      requires Valid() && needFlush && srcLen0 <= |src| && |out| <= outLimit
      requires Run(props, Abs(), outLimit, finishEnd, Pending() + src[srcLen0..]) == o
      modifies this`range, this`code, this`needFlush, this`tempBufSize, tempBuf
      ensures srcLen <= |src|
      ensures res == SzErrorData ==> returned && o == DataError(status, out) && dic[..] == old(dic[..])
      ensures res == SzOk ==> Valid() && dic[..] == old(dic[..]) && remainLen == 0
      ensures res == SzOk && returned ==>
        status == NeedsMoreInput && srcLen == |src| && o == Fine(status, Abs(), Pending())
      ensures res == SzOk && !returned ==>
        && !needFlush && tempBufSize == 0
        && RunStarted(props, Abs(), outLimit, finishEnd, src[srcLen..]) == o
    {
      hide Window, WfDec, RunStarted, CheckDicSize;
      res, status := SzOk, NotSpecified;
      ghost var d, input := Abs(), Pending() + src[srcLen0..];
      DrainIs(props, d, outLimit);
      var lookAhead := TopUp(src, srcLen0, RC_INIT_SIZE);
      srcLen := srcLen0 + lookAhead;
      assert Pending() + src[srcLen..] == input;
      if tempBufSize < RC_INIT_SIZE {
        assert src[srcLen..] == [] && Pending() == input;
        return true, SzOk, NeedsMoreInput, srcLen;
      }
      ghost var head := Pending();
      assert input[..RC_INIT_SIZE] == head && input[RC_INIT_SIZE..] == src[srcLen..];
      if tempBuf[0] != 0 {
        return true, SzErrorData, NotSpecified, srcLen;
      }
      InitRc(head);
      tempBufSize := 0;
      returned := false;
    }

    /** What the loop of LzmaDec_DecodeToDic keeps: the rest of the call still has outcome o. */
    ghost predicate InLoop(m: Mark, kept: seq<Byte>, src: seq<Byte>, srcLen: nat, outLimit: nat, dicLimit: nat,
        finishEnd: bool, o: Outcome)
      reads this, probs, dic, tempBuf
    {
      && Valid() && srcLen <= |src|
      && dicPos <= dicLimit <= dic.Length && outLimit == |out| + (dicLimit - dicPos)
      && Drain(props, Abs(), outLimit) == Abs()
      && Run(props, Abs(), outLimit, finishEnd, Pending() + src[srcLen..]) == o
      && Wrote(m, dic[..], dicPos, out)
      && (tempBufSize > 0 ==> srcLen == 0 && Pending() == kept)
    }

    /** What LzmaDec_DecodeToDic returns, and how it leaves the decoder. */
    ghost predicate Returns(m: Mark, kept: seq<Byte>, src: seq<Byte>, dicLimit: nat, o: Outcome, res: SRes,
        srcLen: nat, status: Status)
      reads this, probs, dic, tempBuf
    {
      && status == o.status
      && (res == SzErrorData <==> o.DataError?)
      && dicPos <= dicLimit && srcLen <= |src|
      && (o.DataError? ==> Failed(m, dicLimit, o, status))
      && (o.Fine? ==>
            && Valid() && Abs() == o.dec
            && Wrote(m, dic[..], dicPos, out)
            && Pending() + src[srcLen..] == o.rest
            && (status == NeedsMoreInput ==> srcLen == |src|)
            && (status != NeedsMoreInput ==> tempBufSize == 0 || (srcLen == 0 && Pending() == kept)))
    }

    /** The first half of a turn: start the range decoder, test the output limit, initialise the state. */
    method BeginTurn(src: seq<Byte>, srcLen0: nat, dicLimit: nat, finishEnd: bool, ghost m: Mark,
        ghost kept: seq<Byte>, ghost outLimit: nat, ghost o: Outcome)
      returns (returned: bool, res: SRes, status: Status, srcLen: nat)
      requires InLoop(m, kept, src, srcLen0, outLimit, dicLimit, finishEnd, o) && remainLen != MATCH_SPEC_LEN_START
      modifies this`range, this`code, this`needFlush, this`tempBufSize, tempBuf
      modifies this`reps, this`state, this`needInitState, probs
      ensures returned ==> Returns(m, kept, src, dicLimit, o, res, srcLen, status)
      ensures !returned ==>
        && MayDecode(outLimit, dicLimit, finishEnd) && srcLen <= |src|
        && Run(props, Abs(), outLimit, finishEnd, Pending() + src[srcLen..]) == o
        && Wrote(m, dic[..], dicPos, out)
    {
      hide Window, Wrote, WfDec, Run, RunStarted, CheckDicSize, Symbol, Real, CtxOf, Drain;
      returned, res, status, srcLen := false, SzOk, NotSpecified, srcLen0;
      DrainIs(props, Abs(), outLimit);
      if needFlush {
        returned, res, status, srcLen := TurnHeader(src, srcLen0, outLimit, finishEnd, o);
        if returned {
          if res == SzErrorData {
            FailedNow(m, dicLimit, o, status);
          }
          return;
        }
      } else {
        RunIsStarted(props, Abs(), outLimit, finishEnd, Pending() + src[srcLen..]);
      }
      assert Pending() + src[srcLen..] == if tempBufSize == 0 then src[srcLen..] else Pending() + src[srcLen..];
      returned, res, status := TestLimit(dicLimit, finishEnd, Pending() + src[srcLen..], outLimit, o);
      if res == SzErrorData {
        FailedNow(m, dicLimit, o, status);
      }
    }

    /** The tests at the output limit, and LzmaDec_InitStateReal when they let the call go on. */
    method TestLimit(dicLimit: nat, finishEnd: bool, ghost input: seq<Byte>, ghost outLimit: nat, ghost o: Outcome)
      returns (returned: bool, res: SRes, status: Status)
      requires Valid() && !needFlush && remainLen != MATCH_SPEC_LEN_START
      requires dicPos <= dicLimit <= dic.Length && outLimit == |out| + (dicLimit - dicPos)
      requires Drain(props, Abs(), outLimit) == Abs() && RunStarted(props, Abs(), outLimit, finishEnd, input) == o
      modifies this`reps, this`state, this`needInitState, probs
      ensures Valid()
      ensures !returned ==> res == SzOk
      ensures returned ==> status == o.status
      ensures returned ==>
        if res == SzOk then o == Fine(status, Abs(), input) && status != NeedsMoreInput
        else o.DataError? && o.out == out
      ensures !returned ==>
        MayDecode(outLimit, dicLimit, finishEnd) && Run(props, Abs(), outLimit, finishEnd, input) == o
    {
      hide Window, WfDec, Run, RunStarted, CheckDicSize, Symbol, Real, CtxOf, Drain;
      returned, res, status := false, SzOk, NotSpecified;
      DrainIs(props, Abs(), outLimit);
      if dicPos >= dicLimit {
        StartedAtLimit(props, Abs(), outLimit, finishEnd, input);
        if remainLen == 0 && code == 0 {
          return true, SzOk, MaybeFinishedWithoutMark;
        }
        if !finishEnd {
          return true, SzOk, NotFinished;
        }
        if remainLen != 0 {
          return true, SzErrorData, NotFinished;
        }
      }
      ReadyThenRun(props, Abs(), outLimit, finishEnd, input);
      if needInitState {
        InitStateReal();
      }
    }

    /** One turn of the loop of LzmaDec_DecodeToDic. */
    method OneTurn(src: seq<Byte>, srcLen0: nat, dicLimit: nat, finishEnd: bool, ghost m: Mark, ghost kept: seq<Byte>,
        ghost outLimit: nat, ghost o: Outcome)
      returns (returned: bool, res: SRes, status: Status, srcLen: nat)
      requires InLoop(m, kept, src, srcLen0, outLimit, dicLimit, finishEnd, o) && remainLen != MATCH_SPEC_LEN_START
      modifies this`buf, this`range, this`code, this`remainLen, this`dicPos, this`processedPos, this`reps,
          this`state, this`out
      modifies this`checkDicSize, this`tempBufSize, this`needFlush, this`needInitState, probs, dic, tempBuf
      ensures returned ==> Returns(m, kept, src, dicLimit, o, res, srcLen, status)
      ensures !returned ==>
        && InLoop(m, kept, src, srcLen, outLimit, dicLimit, finishEnd, o)
        && (remainLen == MATCH_SPEC_LEN_START || dicPos > old(dicPos))
    {
      hide Window, Wrote, WfDec, Run, RunStarted, CheckDicSize, Symbol, Real, CtxOf, Drain;
      returned, res, status, srcLen := BeginTurn(src, srcLen0, dicLimit, finishEnd, m, kept, outLimit, o);
      if returned {
        return;
      }
      ghost var m1 := Marked();
      if tempBufSize == 0 {
        assert Pending() + src[srcLen..] == src[srcLen..];
        returned, res, status, srcLen := TurnFromSrc(src, srcLen, dicLimit, finishEnd, outLimit, o);
      } else {
        returned, res, status, srcLen := TurnFromTemp(src, srcLen, dicLimit, finishEnd, outLimit, o);
      }
      if res == SzErrorData {
        FailedSince(m, m1, dicLimit, o, status);
        return;
      }
      WroteThen(m, m1, dic[..], dicPos, out);
      if !returned {
        DrainIs(props, Abs(), outLimit);
        assert Pending() + src[srcLen..] == src[srcLen..];
      }
    }

    /**
      LzmaDec_DecodeToDic: whatever was kept back from earlier calls, the result, the status, the
      decoder state, the bytes written and the input left over are those of one Run.
     */
    method DecodeToDic(dicLimit: nat, src: seq<Byte>, finishEnd: bool) returns (res: SRes, srcLen: nat, status: Status)
      requires Valid() && dicPos <= dicLimit <= dic.Length
      modifies this`buf, this`range, this`code, this`remainLen, this`dicPos, this`processedPos, this`reps,
          this`state, this`out
      modifies this`checkDicSize, this`tempBufSize, this`needFlush, this`needInitState, probs, dic, tempBuf
      ensures Returns(old(Marked()), old(Pending()), src, dicLimit,
                      Run(props, old(Abs()), old(|out|) + (dicLimit - old(dicPos)), finishEnd, old(Pending()) + src),
                      res, srcLen, status)
    {
      hide Window, Wrote, WfDec, Run, RunStarted, CheckDicSize, Symbol, Real, CtxOf, Drain, Returns;
      ghost var m, kept, outLimit := Marked(), Pending(), |out| + (dicLimit - dicPos);
      ghost var o := Run(props, Abs(), outLimit, finishEnd, kept + src);
      FinishMatchFirst(dicLimit, src, finishEnd, outLimit);
      srcLen := 0;
      assert src[srcLen..] == src;
      while remainLen != MATCH_SPEC_LEN_START
        invariant InLoop(m, kept, src, srcLen, outLimit, dicLimit, finishEnd, o)
        decreases remainLen != MATCH_SPEC_LEN_START, dicLimit - dicPos
      {
        var returned;
        returned, res, status, srcLen := OneTurn(src, srcLen, dicLimit, finishEnd, m, kept, outLimit, o);
        if returned {
          return;
        }
      }
      res, status := EndOfStream(src, srcLen, dicLimit, finishEnd, m, kept, outLimit, o);
    }

    /** The opening LzmaDec_WriteRem of LzmaDec_DecodeToDic. */
    method FinishMatchFirst(dicLimit: nat, src: seq<Byte>, ghost finishEnd: bool, ghost outLimit: nat)
      requires Valid() && dicPos <= dicLimit <= dic.Length && outLimit == |out| + (dicLimit - dicPos)
      modifies this`remainLen, this`dicPos, this`processedPos, this`checkDicSize, this`out, dic
      ensures Pending() == old(Pending())
      ensures InLoop(old(Marked()), Pending(), src, 0, outLimit, dicLimit, finishEnd,
                     Run(props, old(Abs()), outLimit, finishEnd, Pending() + src[0..]))
    {
      hide Window, Wrote, WfDec, Run, CheckDicSize, Symbol, Drain;
      ghost var m, d := Marked(), Abs();
      DrainIs(props, d, outLimit);
      DrainTwice(props, d, outLimit, outLimit);
      DrainThenRun(props, d, outLimit, outLimit, finishEnd, Pending() + src[0..]);
      WriteRem(dicLimit);
      WroteCounts(m, dic[..], dicPos, out);
    }

    /** The end marker must leave code at 0. */
    method EndOfStream(src: seq<Byte>, srcLen: nat, dicLimit: nat, finishEnd: bool, ghost m: Mark,
        ghost kept: seq<Byte>, ghost outLimit: nat, ghost o: Outcome)
      returns (res: SRes, status: Status)
      requires InLoop(m, kept, src, srcLen, outLimit, dicLimit, finishEnd, o) && remainLen == MATCH_SPEC_LEN_START
      ensures Returns(m, kept, src, dicLimit, o, res, srcLen, status)
    {
      hide Window, Wrote, WfDec, Run, CheckDicSize, Symbol, Drain;
      AtEndMarker(props, Abs(), outLimit, finishEnd, Pending() + src[srcLen..]);
      res := if code == 0 then SzOk else SzErrorData;
      status := if code == 0 then FinishedWithMark else NotSpecified;
      if res == SzErrorData {
        FailedNow(m, dicLimit, o, status);
      }
    }

    /** A caller that finds the dictionary buffer full starts again at its beginning. */
    method Rewind()
      requires Valid() && dicPos == dic.Length && props.dicSize <= dic.Length
      modifies this`dicPos
      ensures Valid() && dicPos == 0 && Abs() == old(Abs()) && Pending() == old(Pending())
    {
      hide Symbol, WfDec;
      WindowRewind(dic[..], out, props.dicSize);
      dicPos := 0;
    }

    /** LzmaDec_Construct and LzmaDec_AllocateProbs, on the caller's output buffer. */
    constructor (props: Props, dic: array<Byte>)
      requires WfProps(props)
      ensures Shape() && this.props == props && this.dic == dic
      ensures fresh(probs) && fresh(tempBuf)
    {
      this.props, this.dic := props, dic;
      probs := new Prob[NumProbs(props)];
      tempBuf := new Byte[LZMA_REQUIRED_INPUT_MAX];
      reps := Reps(0, 0, 0, 0);
    }
  }
}
