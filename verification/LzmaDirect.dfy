/**
  The two forms of the direct bit over symbols and runs: the sign-bit form that zload/LzmaDec.c
  uses, and the comparison it keeps as a comment.
 */
module LzmaDirect {
  import opened Words
  import opened RangeCoder
  import opened LzmaSymbol
  import opened LzmaRun
  import opened LzmaModel

  // ----- one symbol

  /** Real, with the direct bits decided by comparison. */
  function RealByCompare(ctx: Ctx, node: Node, probs: seq<Prob>, rc: Rc): (path: Path)
    requires WfCtx(ctx, |probs|) && Wf(node) && Usable(rc)
    decreases Rank(node)
  {
    if Starved(rc) then Starve else
    var r := Normalize(rc);
    if node.Done? then End(node.sym, probs, r)
    else if node.AtDirect? then
      var bit := DirectBitByCompare(r);
      RankDrops(ctx, node, bit);
      RealByCompare(ctx, Next(ctx, node, bit), probs, AfterDirectByCompare(r))
    else
      var slot := Slot(ctx, node, |probs|);
      var p := probs[slot];
      var bit := BitOf(r, p);
      RankDrops(ctx, node, bit);
      RealByCompare(ctx, Next(ctx, node, bit), probs[slot := Adapt(p, bit)], AfterBit(r, p))
  }

  /** Some direct bit of the symbol is read when code is the last value below an odd range. */
  predicate MeetsTop(ctx: Ctx, node: Node, probs: seq<Prob>, rc: Rc)
    requires WfCtx(ctx, |probs|) && Wf(node) && Usable(rc)
    decreases Rank(node)
  {
    if Starved(rc) || node.Done? then false else
    var r := Normalize(rc);
    if node.AtDirect? then
      var bit := DirectBit(r);
      RankDrops(ctx, node, bit);
      AtTop(r) || MeetsTop(ctx, Next(ctx, node, bit), probs, AfterDirect(r))
    else
      var slot := Slot(ctx, node, |probs|);
      var p := probs[slot];
      var bit := BitOf(r, p);
      RankDrops(ctx, node, bit);
      MeetsTop(ctx, Next(ctx, node, bit), probs[slot := Adapt(p, bit)], AfterBit(r, p))
  }

  /**
    From a code below the range, both forms decode the same symbol and leave the code below the
    range, unless some direct bit meets the top of an odd range.
   */
  lemma {:induction false} CompareIsReal(ctx: Ctx, node: Node, probs: seq<Prob>, rc: Rc)
    requires WfCtx(ctx, |probs|) && Wf(node) && Usable(rc)
    requires rc.code < rc.range && !MeetsTop(ctx, node, probs, rc)
    ensures var path := Real(ctx, node, probs, rc);
      RealByCompare(ctx, node, probs, rc) == path && (path.End? ==> path.rc.code < path.rc.range)
    decreases Rank(node)
  {
    if !Starved(rc) {
      NormalizeKeepsCodeBelow(rc);
      var r := Normalize(rc);
      if node.AtDirect? {
        var bit := DirectBit(r);
        RankDrops(ctx, node, bit);
        DirectBitAgrees(r);
        DirectKeepsCodeBelow(r);
        CompareIsReal(ctx, Next(ctx, node, bit), probs, AfterDirect(r));
      } else if !node.Done? {
        var slot := Slot(ctx, node, |probs|);
        var p := probs[slot];
        var bit := BitOf(r, p);
        RankDrops(ctx, node, bit);
        CompareIsReal(ctx, Next(ctx, node, bit), probs[slot := Adapt(p, bit)], AfterBit(r, p));
      }
    }
  }

  // ----- whole runs

  /** A state in which a run decodes a symbol, and the input it decodes it from. */
  datatype Turn = Turn(dec: Dec, input: seq<Byte>)

  predicate WfTurn(props: Props, t: Turn) {
    WfDec(props, t.dec) && !t.dec.needFlush && !t.dec.needInit
  }

  /** Where a run decodes its symbols, the last one included if it is bad or incomplete. */
  function Turns(props: Props, d: Dec, limit: nat, finishEnd: bool, input: seq<Byte>): (ts: seq<Turn>)
    requires WfDec(props, d) && |d.out| <= limit
    ensures forall i :: 0 <= i < |ts| ==> WfTurn(props, ts[i])
    decreases d.remainLen != MATCH_SPEC_LEN_START, limit - |Drain(props, d, limit).out|
  {
    var d := Drain(props, d, limit);
    if d.remainLen == MATCH_SPEC_LEN_START then []
    else if !d.needFlush then StartedTurns(props, d, limit, finishEnd, input)
    else if |input| < RC_INIT_SIZE || input[0] != 0 then []
    else StartedTurns(props, StartRc(d, input[..RC_INIT_SIZE]), limit, finishEnd, input[RC_INIT_SIZE..])
  }

  function StartedTurns(props: Props, d: Dec, limit: nat, finishEnd: bool, input: seq<Byte>): (ts: seq<Turn>)
    requires WfDec(props, d) && |d.out| <= limit && !d.needFlush
    requires d.remainLen != MATCH_SPEC_LEN_START && Drain(props, d, limit) == d
    ensures forall i :: 0 <= i < |ts| ==> WfTurn(props, ts[i])
    decreases true, limit - |d.out|, 0
  {
    var full := |d.out| >= limit;
    if full && (d.code == 0 || !finishEnd || d.remainLen != 0) then []
    else
      var d := Ready(props, d);
      var path := Symbol(props, d, input);
      if path.Starve? || (full && !EndMarker(path.sym)) then [Turn(d, input)]
      else
        var a := Apply(props, WithPath(d, path), path.sym);
        if a.Bad? then [Turn(d, input)]
        else [Turn(d, input)] + Turns(props, a.dec, limit, finishEnd, path.rc.rest)
  }

  ghost predicate TurnMeetsTop(props: Props, t: Turn)
    requires WfTurn(props, t)
  {
    MeetsTop(CtxOf(props, t.dec), AtIsMatch, t.dec.probs, RcOf(t.dec, t.input))
  }

  /** Both forms decode the same symbol here, from a code below the range. */
  ghost predicate FormsAgree(props: Props, t: Turn)
    requires WfTurn(props, t)
  {
    && t.dec.code < t.dec.range
    && RealByCompare(CtxOf(props, t.dec), AtIsMatch, t.dec.probs, RcOf(t.dec, t.input)) == Symbol(props, t.dec, t.input)
  }

  ghost predicate NoTop(props: Props, ts: seq<Turn>) {
    forall i :: 0 <= i < |ts| ==> WfTurn(props, ts[i]) && !TurnMeetsTop(props, ts[i])
  }

  ghost predicate AllAgree(props: Props, ts: seq<Turn>) {
    forall i :: 0 <= i < |ts| ==> WfTurn(props, ts[i]) && FormsAgree(props, ts[i])
  }

  /** The code starts below the range unless its four bytes are all 0xFF. */
  lemma StartsBelow(d: Dec, head: seq<Byte>)
    requires |head| == RC_INIT_SIZE
    ensures StartRc(d, head).code < StartRc(d, head).range <==> head[1..] != [0xFF, 0xFF, 0xFF, 0xFF]
  {
    if head[1..] != [0xFF, 0xFF, 0xFF, 0xFF] {
      assert head[1..] == [head[1], head[2], head[3], head[4]];
    }
  }

  /** The code is below the range, or is going to be when the first bytes arrive. */
  ghost predicate Below(d: Dec, input: seq<Byte>) {
    if !d.needFlush then d.code < d.range
    else |input| >= RC_INIT_SIZE ==> input[1..RC_INIT_SIZE] != [0xFF, 0xFF, 0xFF, 0xFF]
  }

  /**
    A run whose code bytes are not all 0xFF keeps its code below its range, and every one of its
    symbols is the same by comparison, unless a direct bit meets the top of an odd range.
   */
  lemma {:induction false} RunByCompare(props: Props, d: Dec, limit: nat, finishEnd: bool, input: seq<Byte>)
    requires WfDec(props, d) && |d.out| <= limit && Below(d, input)
    requires NoTop(props, Turns(props, d, limit, finishEnd, input))
    ensures AllAgree(props, Turns(props, d, limit, finishEnd, input))
    ensures var o := Run(props, d, limit, finishEnd, input);
      o.Fine? && !o.dec.needFlush ==> o.dec.code < o.dec.range
    decreases d.remainLen != MATCH_SPEC_LEN_START, limit - |Drain(props, d, limit).out|, 1
  {
    hide Symbol, TurnMeetsTop, FormsAgree;
    var d1 := Drain(props, d, limit);
    if d1.remainLen == MATCH_SPEC_LEN_START {
    } else if !d1.needFlush {
      StartedByCompare(props, d1, limit, finishEnd, input);
    } else if |input| >= RC_INIT_SIZE && input[0] == 0 {
      var head := input[..RC_INIT_SIZE];
      assert head[1..] == input[1..RC_INIT_SIZE];
      StartsBelow(d1, head);
      StartedByCompare(props, StartRc(d1, head), limit, finishEnd, input[RC_INIT_SIZE..]);
    }
  }

  lemma {:induction false} StartedByCompare(props: Props, d: Dec, limit: nat, finishEnd: bool, input: seq<Byte>)
    requires WfDec(props, d) && |d.out| <= limit && !d.needFlush && d.code < d.range
    requires d.remainLen != MATCH_SPEC_LEN_START && Drain(props, d, limit) == d
    requires NoTop(props, StartedTurns(props, d, limit, finishEnd, input))
    ensures AllAgree(props, StartedTurns(props, d, limit, finishEnd, input))
    ensures var o := RunStarted(props, d, limit, finishEnd, input);
      o.Fine? && !o.dec.needFlush ==> o.dec.code < o.dec.range
    decreases true, limit - |d.out|, 0
  {
    hide Real, CtxOf, Apply, NoTop, AllAgree;
    var full := |d.out| >= limit;
    if !full || (d.code != 0 && finishEnd && d.remainLen == 0) {
      var r := Ready(props, d);
      var t, path := Turn(r, input), Symbol(props, r, input);
      if path.End? && (!full || EndMarker(path.sym)) && Apply(props, WithPath(r, path), path.sym).Good? {
        var a := Apply(props, WithPath(r, path), path.sym).dec;
        var ts := Turns(props, a, limit, finishEnd, path.rc.rest);
        FirstTurn(props, t, ts);
        ApplyKeepsCode(props, WithPath(r, path), path.sym);
        RunByCompare(props, a, limit, finishEnd, path.rc.rest);
        AgreeFirst(props, t, ts);
      } else {
        assert [t] + [] == [t];
        FirstTurn(props, t, []);
        NoTurns(props);
        AgreeFirst(props, t, []);
      }
    } else {
      NoTurns(props);
    }
  }

  lemma NoTurns(props: Props)
    ensures AllAgree(props, [])
  {
  }

  lemma ApplyKeepsCode(props: Props, d: Dec, sym: Sym)
    requires WfDec(props, d) && !d.needFlush && !d.needInit && d.remainLen == 0 && WfSym(sym)
    requires Apply(props, d, sym).Good? && d.code < d.range
    ensures Below(Apply(props, d, sym).dec, [])
  {
  }

  lemma FirstTurn(props: Props, t: Turn, ts: seq<Turn>)
    requires NoTop(props, [t] + ts) && WfTurn(props, t) && t.dec.code < t.dec.range
    ensures NoTop(props, ts) && FormsAgree(props, t)
    ensures var path := Symbol(props, t.dec, t.input); path.End? ==> path.rc.code < path.rc.range
  {
    hide Symbol, TurnMeetsTop, FormsAgree, WfTurn;
    var all := [t] + ts;
    assert all[0] == t;
    forall i | 0 <= i < |ts|
      ensures WfTurn(props, ts[i]) && !TurnMeetsTop(props, ts[i])
    {
      assert all[i + 1] == ts[i];
    }
    TurnAgrees(props, t);
  }

  lemma AgreeFirst(props: Props, t: Turn, ts: seq<Turn>)
    requires WfTurn(props, t) && FormsAgree(props, t) && AllAgree(props, ts)
    ensures AllAgree(props, [t] + ts)
  {
    hide FormsAgree, WfTurn;
  }

  lemma TurnAgrees(props: Props, t: Turn)
    requires WfTurn(props, t) && t.dec.code < t.dec.range && !TurnMeetsTop(props, t)
    ensures FormsAgree(props, t)
    ensures var path := Symbol(props, t.dec, t.input); path.End? ==> path.rc.code < path.rc.range
  {
    CompareIsReal(CtxOf(props, t.dec), AtIsMatch, t.dec.probs, RcOf(t.dec, t.input));
  }
}
