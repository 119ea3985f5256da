/** What does not matter to an LZMA run: how its input is cut, and where its output limits fall. */
module LzmaTheorems {
  import opened Words
  import opened Lz77
  import opened LzmaSymbol
  import opened LzmaRun
  import opened LzmaModel

  lemma DrainTwice(props: Props, d: Dec, limit1: nat, limit2: nat)
    requires WfDec(props, d) && |d.out| <= limit1 <= limit2
    ensures Drain(props, Drain(props, d, limit1), limit2) == Drain(props, d, limit2)
  {
    hide WfDec, Drain, CopyMatch;
    DrainIs(props, d, limit1);
    DrainIs(props, d, limit2);
    var d1 := Drain(props, d, limit1);
    DrainIs(props, d1, limit2);
    if 0 < d.remainLen < MATCH_SPEC_LEN_START {
      var n := d.remainLen - d1.remainLen;
      var n2 := d1.remainLen - Drain(props, d1, limit2).remainLen;
      CopyMatchSplits(d.out, d.reps.r0, n, n2);
    }
  }

  // ----- errors

  /** What was decoded before bad data goes on from what was there, and respects the limit. */
  lemma {:induction false} ErrorOutput(props: Props, d: Dec, limit: nat, finishEnd: bool, input: seq<Byte>)
    requires WfDec(props, d) && |d.out| <= limit && Run(props, d, limit, finishEnd, input).DataError?
    ensures d.out <= Run(props, d, limit, finishEnd, input).out
    ensures |Run(props, d, limit, finishEnd, input).out| <= limit
    decreases d.remainLen != MATCH_SPEC_LEN_START, limit - |Drain(props, d, limit).out|, 1
  {
    hide Symbol, CopyMatch;
    var d1 := Drain(props, d, limit);
    if d1.remainLen == MATCH_SPEC_LEN_START {
    } else if !d1.needFlush {
      StartedErrorOutput(props, d1, limit, finishEnd, input);
    } else if input[0] == 0 {
      StartedErrorOutput(props, StartRc(d1, input[..RC_INIT_SIZE]), limit, finishEnd, input[RC_INIT_SIZE..]);
    }
  }

  lemma {:induction false} StartedErrorOutput(props: Props, d: Dec, limit: nat, finishEnd: bool, input: seq<Byte>)
    requires WfDec(props, d) && |d.out| <= limit && !d.needFlush
    requires d.remainLen != MATCH_SPEC_LEN_START && Drain(props, d, limit) == d
    requires RunStarted(props, d, limit, finishEnd, input).DataError?
    ensures d.out <= RunStarted(props, d, limit, finishEnd, input).out
    ensures |RunStarted(props, d, limit, finishEnd, input).out| <= limit
    decreases true, limit - |d.out|, 0
  {
    hide Real, CtxOf;
    if |d.out| < limit || (finishEnd && d.remainLen == 0 && d.code != 0) {
      var r := Ready(props, d);
      var path := Symbol(props, r, input);
      if path.End? && (|d.out| < limit || EndMarker(path.sym)) {
        var a := Apply(props, WithPath(r, path), path.sym);
        if a.Good? {
          ErrorOutput(props, a.dec, limit, finishEnd, path.rc.rest);
        }
      }
    }
  }

  // ----- output limits

  /** Draining first, to any earlier limit, changes nothing about a run. */
  lemma DrainThenRun(props: Props, d: Dec, limit1: nat, limit2: nat, finishEnd: bool, input: seq<Byte>)
    requires WfDec(props, d) && |d.out| <= limit1 <= limit2
    ensures Run(props, Drain(props, d, limit1), limit2, finishEnd, input) == Run(props, d, limit2, finishEnd, input)
  {
    DrainTwice(props, d, limit1, limit2);
  }

  /**
    Stopping at an earlier limit and going on later gives the same outcome as running straight to
    the later limit, wherever the earlier limit cuts a match, errors included.
   */
  lemma {:induction false} OutputLimitIndependence(props: Props, d: Dec, limit1: nat, limit2: nat, finishEnd: bool,
      input: seq<Byte>)
    requires WfDec(props, d) && |d.out| <= limit1 <= limit2
    ensures var o := Run(props, d, limit1, false, input);
      Run(props, d, limit2, finishEnd, input) ==
        if o.Fine? then Run(props, o.dec, limit2, finishEnd, o.rest) else o
    decreases d.remainLen != MATCH_SPEC_LEN_START, limit1 - |Drain(props, d, limit1).out|, 1
  {
    DrainThenRun(props, d, limit1, limit2, finishEnd, input);
    var d1 := Drain(props, d, limit1);
    if d1.remainLen == MATCH_SPEC_LEN_START {
    } else if !d1.needFlush {
      StartedLimitIndependence(props, d1, limit1, limit2, finishEnd, input);
    } else if |input| >= RC_INIT_SIZE {
      var head, rest := input[..RC_INIT_SIZE], input[RC_INIT_SIZE..];
      StartedLimitIndependence(props, StartRc(d1, head), limit1, limit2, finishEnd, rest);
    }
  }

  lemma {:induction false} StartedLimitIndependence(props: Props, d: Dec, limit1: nat, limit2: nat, finishEnd: bool,
      input: seq<Byte>)
    requires WfDec(props, d) && |d.out| <= limit1 <= limit2 && !d.needFlush
    requires d.remainLen != MATCH_SPEC_LEN_START && Drain(props, d, limit1) == d
    ensures var o := RunStarted(props, d, limit1, false, input);
      Run(props, d, limit2, finishEnd, input) ==
        if o.Fine? then Run(props, o.dec, limit2, finishEnd, o.rest) else o
    decreases true, limit1 - |d.out|, 0
  {
    hide Real, CtxOf, Apply, CopyMatch;
    if |d.out| < limit1 {
      var r := Ready(props, d);
      var path := Symbol(props, r, input);
      assert RunStarted(props, d, limit2, finishEnd, input) == RunStarted(props, r, limit2, finishEnd, input);
      if path.End? {
        var a := Apply(props, WithPath(r, path), path.sym);
        if a.Good? {
          OutputLimitIndependence(props, a.dec, limit1, limit2, finishEnd, path.rc.rest);
        }
      }
    }
  }

  // ----- input chunks

  /** What an outcome becomes when more input arrives: only a starved run goes on. */
  function Continue(props: Props, o: Outcome, limit: nat, finishEnd: bool, more: seq<Byte>): Outcome
    requires o.Fine? ==> WfDec(props, o.dec) && |o.dec.out| <= limit
  {
    if o.DataError? then o
    else if o.status == NeedsMoreInput then Run(props, o.dec, limit, finishEnd, o.rest + more)
    else o.(rest := o.rest + more)
  }

  /**
    A run on s1 continued with s2 is the run on s1 + s2, errors, statuses and leftover input
    included: where the input is cut does not matter.
   */
  lemma {:induction false} InputSplitIndependence(props: Props, d: Dec, limit: nat, finishEnd: bool, s1: seq<Byte>,
      s2: seq<Byte>)
    requires WfDec(props, d) && |d.out| <= limit
    ensures Run(props, d, limit, finishEnd, s1 + s2)
         == Continue(props, Run(props, d, limit, finishEnd, s1), limit, finishEnd, s2)
    decreases d.remainLen != MATCH_SPEC_LEN_START, limit - |Drain(props, d, limit).out|, 1
  {
    var d1 := Drain(props, d, limit);
    if d1.remainLen == MATCH_SPEC_LEN_START {
    } else if !d1.needFlush {
      StartedInputSplit(props, d1, limit, finishEnd, s1, s2);
    } else if |s1| < RC_INIT_SIZE {
      DrainThenRun(props, d, limit, limit, finishEnd, s1 + s2);
    } else {
      var head, rest := s1[..RC_INIT_SIZE], s1[RC_INIT_SIZE..];
      assert (s1 + s2)[..RC_INIT_SIZE] == head && (s1 + s2)[RC_INIT_SIZE..] == rest + s2;
      if s1[0] == 0 {
        StartedInputSplit(props, StartRc(d1, head), limit, finishEnd, rest, s2);
      }
    }
  }

  lemma SymbolWithMore(props: Props, d: Dec, s1: seq<Byte>, s2: seq<Byte>)
    requires WfDec(props, d) && !d.needFlush && !d.needInit && Symbol(props, d, s1).End?
    ensures var path, path2 := Symbol(props, d, s1), Symbol(props, d, s1 + s2);
      && path2.End? && path2.sym == path.sym && path2.rc.rest == path.rc.rest + s2
      && WithPath(d, path2) == WithPath(d, path)
  {
    MoreInputSameSymbol(CtxOf(props, d), AtIsMatch, d.probs, RcOf(d, s1), s2);
  }

  lemma {:induction false} StartedInputSplit(props: Props, d: Dec, limit: nat, finishEnd: bool, s1: seq<Byte>,
      s2: seq<Byte>)
    requires WfDec(props, d) && |d.out| <= limit && !d.needFlush
    requires d.remainLen != MATCH_SPEC_LEN_START && Drain(props, d, limit) == d
    ensures RunStarted(props, d, limit, finishEnd, s1 + s2)
         == Continue(props, RunStarted(props, d, limit, finishEnd, s1), limit, finishEnd, s2)
    decreases true, limit - |d.out|, 0
  {
    hide Real, CtxOf;
    if |d.out| < limit || (finishEnd && d.remainLen == 0 && d.code != 0) {
      var r := Ready(props, d);
      var path := Symbol(props, r, s1);
      if path.Starve? {
        ReadyThenRun(props, d, limit, finishEnd, s1 + s2);
      } else {
        SymbolWithMore(props, r, s1, s2);
        var a := Apply(props, WithPath(r, path), path.sym);
        if a.Good? && (|d.out| < limit || EndMarker(path.sym)) {
          InputSplitIndependence(props, a.dec, limit, finishEnd, path.rc.rest, s2);
        }
      }
    }
  }

  lemma ReadyThenRun(props: Props, d: Dec, limit: nat, finishEnd: bool, input: seq<Byte>)
    requires WfDec(props, d) && |d.out| <= limit && !d.needFlush
    requires d.remainLen != MATCH_SPEC_LEN_START && Drain(props, d, limit) == d
    requires |d.out| < limit || (finishEnd && d.remainLen == 0 && d.code != 0)
    ensures Run(props, Ready(props, d), limit, finishEnd, input) == RunStarted(props, d, limit, finishEnd, input)
  {
    assert d.remainLen == 0;
    var r := Ready(props, d);
    assert Run(props, r, limit, finishEnd, input) == RunStarted(props, r, limit, finishEnd, input);
  }

  /** A stream fed in chunks; kept is what the earlier calls left over. */
  function RunChunks(props: Props, d: Dec, limit: nat, finishEnd: bool, kept: seq<Byte>,
      chunks: seq<seq<Byte>>): (o: Outcome)
    requires WfDec(props, d) && |d.out| <= limit
    decreases |chunks|
  {
    if chunks == [] then Run(props, d, limit, finishEnd, kept)
    else
      var o := Run(props, d, limit, finishEnd, kept + chunks[0]);
      if o.Fine? && o.status == NeedsMoreInput then RunChunks(props, o.dec, limit, finishEnd, o.rest, chunks[1..])
      else if o.Fine? then o.(rest := o.rest + Concat(chunks[1..]))
      else o
  }

  function Concat(chunks: seq<seq<Byte>>): seq<Byte> {
    if chunks == [] then [] else chunks[0] + Concat(chunks[1..])
  }

  /** However a stream is cut into chunks, the outcome is that of one run on the whole stream. */
  lemma {:induction false} ChunksDoNotMatter(props: Props, d: Dec, limit: nat, finishEnd: bool, kept: seq<Byte>,
      chunks: seq<seq<Byte>>)
    requires WfDec(props, d) && |d.out| <= limit
    ensures RunChunks(props, d, limit, finishEnd, kept, chunks)
         == Run(props, d, limit, finishEnd, kept + Concat(chunks))
    decreases |chunks|
  {
    if chunks == [] {
      assert kept + Concat(chunks) == kept;
    } else {
      var first, others := kept + chunks[0], Concat(chunks[1..]);
      assert kept + Concat(chunks) == first + others;
      InputSplitIndependence(props, d, limit, finishEnd, first, others);
      var o := Run(props, d, limit, finishEnd, first);
      if o.Fine? && o.status == NeedsMoreInput {
        ChunksDoNotMatter(props, o.dec, limit, finishEnd, o.rest, chunks[1..]);
      }
    }
  }
}
