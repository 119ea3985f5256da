/** The one-call interface of zload/LzmaDec.c, as the boot loader uses it. */
module LzmaOneCall {
  import opened Words
  import opened Lz77
  import opened LzmaModel
  import opened LzmaWindow
  import opened LzmaDecoder
  import LzmaEncoder
  import LzmaRoundTrip

  datatype DecodeRes = Ok | ErrorData | ErrorInputEof

  /** A decoder with nothing decoded yet, its fields set to fixed values. */
  function Fresh(props: Props): (d: Dec)
    requires WfProps(props)
    ensures WfDec(props, d) && IsInitial(d)
  {
    Dec(seq(NumProbs(props), _ => 1024), 0, 0, 0, Reps(1, 1, 1, 1), [], 0, true, true)
  }

  /** What a caller can see of an outcome. */
  function Visible(o: Outcome): (Status, seq<Byte>, seq<Byte>, bool) {
    if o.DataError? then (o.status, o.out, [], false) else (o.status, o.dec.out, o.rest, true)
  }

  /** What uninitialised memory holds when a stream begins makes no difference to its decoding. */
  lemma InitialStatesAlike(props: Props, d: Dec, e: Dec, limit: nat, finishEnd: bool, input: seq<Byte>)
    requires WfDec(props, d) && IsInitial(d) && WfDec(props, e) && IsInitial(e)
    ensures Visible(Run(props, d, limit, finishEnd, input)) == Visible(Run(props, e, limit, finishEnd, input))
  {
    hide Symbol;
    if |input| >= RC_INIT_SIZE && input[0] == 0 {
      var head, rest := input[..RC_INIT_SIZE], input[RC_INIT_SIZE..];
      var d1, e1 := StartRc(d, head), StartRc(e, head);
      assert Ready(props, d1) == Ready(props, e1);
      if limit > 0 || (finishEnd && d1.code != 0) {
        assert RunStarted(props, d1, limit, finishEnd, rest) == RunStarted(props, e1, limit, finishEnd, rest);
      }
    }
  }

  /** What the single call has decoded, and where it leaves the buffer that held before. */
  ghost predicate Decoded(p: LzmaDec, before: seq<Byte>, src: seq<Byte>, o: Outcome, res: SRes, srcLen: nat,
      status: Status)
    reads p, p.dic
  {
    && p.dicPos <= p.dic.Length == |before| && srcLen <= |src|
    && status == o.status && (res == SzErrorData <==> o.DataError?)
    && (o.DataError? ==>
          p.dicPos <= |o.out| <= p.dic.Length && p.dic[..] == o.out + before[|o.out|..])
    && (o.Fine? ==>
          && p.dicPos == |o.dec.out| && p.dic[..] == o.dec.out + before[p.dicPos..]
          && (status != NeedsMoreInput ==> src[srcLen..] == o.rest))
  }

  /** A call that fills the whole buffer from its beginning, from nothing kept back. */
  lemma WholeBuffer(p: LzmaDec, before: seq<Byte>, src: seq<Byte>, o: Outcome, seen: Outcome, res: SRes, srcLen: nat,
      status: Status)
    requires p.Returns(Mark(before, 0, []), [], src, p.dic.Length, o, res, srcLen, status)
    requires Visible(o) == Visible(seen) && |before| == p.dic.Length
    ensures Decoded(p, before, src, seen, res, srcLen, status)
  {
    hide Window, WfDec;
    if o.Fine? && status != NeedsMoreInput && p.tempBufSize == 0 {
      assert p.Pending() + src[srcLen..] == src[srcLen..];
    }
  }

  /** src begins with the stream of these tokens and this ending. */
  ghost predicate Carries(props: Props, src: seq<Byte>, ts: seq<LzmaEncoder.Token>, end: LzmaEncoder.Ending,
      tail: seq<Byte>) {
    && LzmaEncoder.AllAllowed(LzmaEncoder.START, props.dicSize, ts) && LzmaEncoder.WfEnding(end)
    && LzmaEncoder.IsTooFar(end, LzmaEncoder.TextOf(props.dicSize, ts), props.dicSize)
    && src == LzmaEncoder.Encoded(props.dicSize, props.lc, props.lp, props.pb, ts, end) + tail
  }

  /**
    What becomes of an encoded text that dest has room for. Without an end marker it has to fill dest,
    and with one it must not, unless the decoder is told to look for the marker.
   */
  ghost predicate Restores(props: Props, finishEnd: bool, src: seq<Byte>, res: DecodeRes, srcLen: nat, status: Status,
      destLen: nat, dest: seq<Byte>)
    requires srcLen <= |src| && destLen <= |dest|
  {
    forall ts, end, tail :: Carries(props, src, ts, end, tail) ==>
      var text := LzmaEncoder.TextOf(props.dicSize, ts);
      if end.Stop? then
        |text| == |dest| ==>
          res == Ok && status == MaybeFinishedWithoutMark && dest == text && src[srcLen..] == tail
      else if |text| < |dest| || (|text| == |dest| && finishEnd) then
        if end.Marker? then
          res == Ok && status == FinishedWithMark && dest[..destLen] == text && src[srcLen..] == tail
        else res == ErrorData && text <= dest
      else |text| == |dest| ==> res == Ok && status == NotFinished && dest == text
  }

  lemma RunRestores(props: Props, finishEnd: bool, src: seq<Byte>, o: Outcome, res: DecodeRes, srcLen: nat,
      status: Status, destLen: nat, dest: seq<Byte>, before: seq<Byte>)
    requires WfProps(props) && srcLen <= |src| && |before| == |dest|
    requires |src| < RC_INIT_SIZE || o == Run(props, Fresh(props), |dest|, finishEnd, src)
    requires |src| >= RC_INIT_SIZE ==>
      && status == o.status
      && (res == ErrorData <==> o.DataError?) && (res == ErrorInputEof <==> o.Fine? && o.status == NeedsMoreInput)
      && (o.DataError? ==> destLen <= |o.out| <= |dest| && dest == o.out + before[|o.out|..])
      && (o.Fine? ==> destLen == |o.dec.out| <= |dest| && dest == o.dec.out + before[destLen..])
      && (o.Fine? && res == Ok ==> src[srcLen..] == o.rest)
    requires destLen <= |dest|
    ensures Restores(props, finishEnd, src, res, srcLen, status, destLen, dest)
  {
    hide Run, LzmaEncoder.AllAllowed, LzmaEncoder.TextOf, WfDec;
    forall ts, end, tail | Carries(props, src, ts, end, tail)
      ensures
        var text := LzmaEncoder.TextOf(props.dicSize, ts);
        |text| <= |dest| ==> |src| >= RC_INIT_SIZE && LzmaRoundTrip.Ends(o, end, text, tail, |dest|, finishEnd)
    {
      hide LzmaRoundTrip.Ends;
      if |LzmaEncoder.TextOf(props.dicSize, ts)| <= |dest| {
        LzmaRoundTrip.StreamDecodes(props, Fresh(props), ts, end, tail, |dest|, finishEnd);
      }
    }
    hide Carries, LzmaEncoder.Encoded;
  }

  /**
    LzmaDecode: the whole of dest is the dictionary. It returns what one Run from a fresh state
    yields, and dest begins with exactly the decoded bytes.
   */
  method LzmaDecode(dest: array<Byte>, src: seq<Byte>, props: Props, finishEnd: bool)
    returns (res: DecodeRes, destLen: nat, srcLen: nat, status: Status)
    requires WfProps(props)
    modifies dest
    ensures destLen <= dest.Length && srcLen <= |src|
    ensures |src| < RC_INIT_SIZE ==> res == ErrorInputEof && destLen == srcLen == 0 && dest[..] == old(dest[..])
    ensures |src| >= RC_INIT_SIZE ==>
      var o := Run(props, Fresh(props), dest.Length, finishEnd, src);
      && status == o.status
      && (res == ErrorData <==> o.DataError?)
      && (res == ErrorInputEof <==> o.Fine? && o.status == NeedsMoreInput)
      && (o.DataError? ==>
            && destLen <= |o.out| <= dest.Length
            && dest[..] == o.out + old(dest[..])[|o.out|..])
      && (o.Fine? ==>
            && destLen == |o.dec.out|
            && dest[..] == o.dec.out + old(dest[destLen..])
            && (res == Ok ==> src[srcLen..] == o.rest))
    ensures Restores(props, finishEnd, src, res, srcLen, status, destLen, dest[..])
  {
    hide Window, Run, LzmaDec.Returns, WfDec, Wrote, Restores;
    res, destLen, srcLen, status := ErrorInputEof, 0, 0, NotSpecified;
    ghost var whole := Run(props, Fresh(props), dest.Length, finishEnd, src);
    if |src| < RC_INIT_SIZE {
      RunRestores(props, finishEnd, src, whole, res, srcLen, status, destLen, dest[..], dest[..]);
      return;
    }
    var p := new LzmaDec(props, dest);
    p.Init();
    ghost var d, before := p.Abs(), dest[..];
    InitialStatesAlike(props, d, Fresh(props), dest.Length, finishEnd, src);
    assert p.Pending() + src == src;
    var r;
    r, srcLen, status := p.DecodeToDic(dest.Length, src, finishEnd);
    WholeBuffer(p, before, src, Run(props, d, dest.Length, finishEnd, src),
                Run(props, Fresh(props), dest.Length, finishEnd, src), r, srcLen, status);
    res := if r == SzErrorData then ErrorData else if status == NeedsMoreInput then ErrorInputEof else Ok;
    destLen := p.dicPos;
    RunRestores(props, finishEnd, src, whole, res, srcLen, status, destLen, dest[..], before);
  }
}
