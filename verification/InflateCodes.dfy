/** inflate_codes of zload/inflate.c: the table-driven decoding of a block's compressed data. */
module InflateCodes {
  import opened Words
  import opened BitReverse
  import opened Lz77
  import opened HuffmanCode
  import opened HuftCounts
  import opened HuftTable
  import opened HuftInvariant
  import opened HuftBuild
  import opened BitInput
  import opened SlideWindow
  import opened InflateSpec

  /** The results of the original, and that the input ended, where the original would have read on. */
  const OK: nat := 0
  const ERROR: nat := 1
  const NO_MEMORY: nat := 3
  const ENDED: nat := 4

  // ----- tables and codes

  function LitSet(lens: seq<nat>): CodeSet {
    CodeSet(lens, 257, CPLENS, CPLEXT)
  }

  function DistSet(lens: seq<nat>): CodeSet {
    CodeSet(lens, 0, CPDIST, CPDEXT)
  }

  function BitSet(lens: seq<nat>): CodeSet {
    CodeSet(lens, 19, [], [])
  }

  /** What huft_build leaves for a set of code lengths: no table when there is no code at all. */
  ghost predicate Tabled(mem: seq<Huft>, written: set<nat>, cs: CodeSet, t: nat, m: nat) {
    && WfCodeSet(cs) && m <= 16
    && (if NoCodes(cs.lens) then m == 0 else TablesDecode(mem, written, cs, t, m))
  }

  /** What the tables find, against what the bits begin with. */
  ghost predicate FoundAgrees(cs: CodeSet, b: Bits, f: Found)
    requires WfCodeSet(cs)
  {
    match NextSymbol(cs.lens, b)
    case Symbol(s, rest) => f == SymFound(cs, s) && f.bits >= 1
    case NoSymbol(Bad) => f.e == UNUSED
    case NoSymbol(Ended) => f.bits > b.n && exists s :: 0 <= s < |cs.lens| && f.bits == cs.lens[s]
    case NoSymbol(Undefined) => true
  }

  lemma SymbolLookup(mem: seq<Huft>, written: set<nat>, cs: CodeSet, t: nat, m: nat, b: Bits)
    requires Tabled(mem, written, cs, t, m)
    ensures FoundAgrees(cs, b, Lookup(mem, t, m, b.v))
  {
    hide Rev, CodeOf, Kraft, SymFound, WfCodeSet;
    var s := FindSymbol(cs.lens, b.v, 0);
    if s < |cs.lens| {
      assert SymbolDecodes(mem, written, cs, t, m, s, b.v);
      SymFoundBits(cs, s);
    } else if !NoCodes(cs.lens) && Determined(cs.lens) {
      BeyondAllCodes(cs.lens, b.v) by { WfLensOf(cs); }
      if CountLen(cs.lens, 0) == 0 {
        assert UnusedMarked(mem, written, cs.lens, t, m, b.v);
      } else {
        RevBelowFull(b.v);
        assert false;
      }
    }
  }

  lemma SymFoundBits(cs: CodeSet, s: nat)
    requires WfCodeSet(cs) && s < |cs.lens|
    ensures SymFound(cs, s).bits == cs.lens[s]
  {
  }

  lemma WfLensOf(cs: CodeSet)
    requires WfCodeSet(cs)
    ensures WfLens(cs.lens)
  {
  }

  lemma RevBelowFull(v: nat)
    ensures Rev(v, 16) < FULL
  {
    hide Rev;
    Pow2Of16();
  }

  /** Bits that come before the end of all codes begin with a code. */
  lemma SomeCode(lens: seq<nat>, v: nat) returns (s: nat)
    requires WfLens(lens) && Rev(v, 16) < Kraft(lens)
    ensures s < |lens| && Matches(lens, s, v)
  {
    hide Rev, CodeOf, Pow2, Shl;
    var c := seq(BMAX + 1, k requires 0 <= k => CountLen(lens, k));
    SameCounts(c, lens, BMAX);
    var k, r := FindCode(c, BMAX, Rev(v, 16));
    s := SymAt(lens, k, r);
    SameCounts(c, lens, k - 1);
    CodeIsInterval(lens, s, v);
  }

  lemma BeyondAllCodes(lens: seq<nat>, v: nat)
    requires WfLens(lens) && forall s :: 0 <= s < |lens| ==> !Matches(lens, s, v)
    ensures Rev(v, 16) >= Kraft(lens)
  {
    hide Matches;
    if Rev(v, 16) < Kraft(lens) {
      var s := SomeCode(lens, v);
    }
  }

  // ----- decoding a symbol

  /** The entries of the tables from t on that the next bits lead to. The bits of an unused code are not dumped. */
  method DecodeSymbol(r: BitReader, mem: array<Huft>, t0: nat, m0: nat) returns (ok: bool, f: Found)
    requires r.Valid() && m0 <= 16
    modifies r
    ensures r.Valid()
    ensures ok ==> f == Lookup(mem[..], t0, m0, old(r.Rest()).v) && f.bits <= old(r.Rest()).n
    ensures ok && f.e != UNUSED ==> f.e <= 16 && f.bits >= 1 && r.Rest() == Drop(old(r.Rest()), f.bits)
    ensures !ok ==> old(r.Rest()).n < Lookup(mem[..], t0, m0, old(r.Rest()).v).bits + 16
  {
    hide Shl, Pow2, Shr, Low, BitReader.Valid, BitReader.Rest;
    ghost var b := r.Rest();
    ghost var table := mem[..];
    ghost var want := Lookup(table, t0, m0, b.v);
    var t: nat, m: nat, bits: nat := t0, m0, 0;
    NoShift(b.v);
    f := Found(UNUSED, 0, 0);
    while true
      invariant r.Valid() && m <= 16 && bits <= b.n && r.Rest() == Drop(b, bits) && mem[..] == table
      invariant want == Ahead(Lookup(table, t, m, r.Rest().v), bits)
      decreases |table| - t
    {
      ok := r.NeedBits(m);
      if !ok {
        return;
      }
      var a := t + r.Mask(m);
      if a >= mem.Length || !(1 <= mem[a].b <= m) {
        f := Found(UNUSED, bits, 0);
        return;
      }
      var h := mem[a];
      if !IsLink(h) {
        f := Found(h.e, bits + h.b, h.v);
        if h.e != UNUSED {
          DropAdds(b, bits, h.b);
          r.DumpBits(h.b);
        }
        return;
      }
      if h.b != m || h.v <= t || h.v > mem.Length || h.e - 16 > 16 {
        f := Found(UNUSED, bits + (if h.b != m || h.v <= t || h.v > mem.Length then 0 else h.b), 0);
        return;
      }
      DropAdds(b, bits, h.b);
      r.DumpBits(h.b);
      bits := bits + h.b;
      t, m := h.v, h.e - 16;
    }
  }

  /** A walk that has already used up some bits. */
  function Ahead(f: Found, bits: nat): Found {
    f.(bits := bits + f.bits)
  }

  // ----- decoding a literal, a match or the end of the block

  /** What was read, against what the specification reads. */
  ghost predicate TokenAgrees(spec: TokenRead, code: nat, token: Token, rest: Bits) {
    match spec
    case Got(t, b) => (code == OK && token == t && rest == b) || (code == ENDED && b.n < 16)
    case NoToken(Bad) => code == ERROR || code == ENDED
    case NoToken(Ended) => code == ENDED
    case NoToken(Undefined) => code == OK || code == ERROR || code == ENDED
  }

  ghost predicate BothTabled(mem: seq<Huft>, wl: set<nat>, wd: set<nat>, lit: seq<nat>, dist: seq<nat>, tl: nat,
      td: nat, bl: nat, bd: nat)
  {
    WfCodes(lit, dist) && Tabled(mem, wl, LitSet(lit), tl, bl) && Tabled(mem, wd, DistSet(dist), td, bd)
  }

  /** Decode the distance of a block of n bytes to copy. */
  method ReadDistance(r: BitReader, mem: array<Huft>, td: nat, bd: nat, n: nat, ghost wd: set<nat>,
      ghost dist: seq<nat>)
    returns (code: nat, token: Token)
    requires r.Valid() && |dist| <= 30 && Tabled(mem[..], wd, DistSet(dist), td, bd)
    modifies r
    ensures r.Valid() && (code == OK ==> token.Match? && token.len == n && r.Rest().n < old(r.Rest()).n)
    ensures TokenAgrees(DistanceAfter(n, dist, old(r.Rest())), code, token, r.Rest())
  {
    hide Shl, Pow2, Shr, Low, Lookup, TablesDecode, NextSymbol, SymFound, CPDIST, CPDEXT, DistSet;
    ghost var b := r.Rest();
    SymbolLookup(mem[..], wd, DistSet(dist), td, bd, b);
    DistFound(dist);
    token := EndOfBlock;
    var ok, f := DecodeSymbol(r, mem, td, bd);
    if !ok {
      return ENDED, token;
    }
    if f.e == UNUSED {
      return ERROR, token;
    }
    ok := r.NeedBits(f.e);
    if !ok {
      return ENDED, token;
    }
    token := Match(n, f.v + r.Mask(f.e));
    r.DumpBits(f.e);
    code := OK;
  }

  lemma DistFound(dist: seq<nat>)
    requires WfCodeSet(DistSet(dist)) && |dist| <= 30
    ensures DistSet(dist).lens == dist
    ensures forall s :: 0 <= s < |dist| ==>
      CPDEXT[s] <= 13 && SymFound(DistSet(dist), s) == Found(CPDEXT[s], dist[s], CPDIST[s])
  {
    forall s | 0 <= s < |dist|
      ensures CPDEXT[s] <= 13
    {
      DistanceRange(s);
    }
  }

  ghost predicate LitEntry(lit: seq<nat>, s: nat)
    requires WfCodeSet(LitSet(lit)) && s < |lit| <= 288
  {
    if s < 257 then SymFound(LitSet(lit), s) == Found(if s < 256 then 16 else 15, lit[s], s)
    else
      && SymFound(LitSet(lit), s) == Found(CPLEXT[s - 257], lit[s], CPLENS[s - 257])
      && (CPLEXT[s - 257] <= 5 || CPLEXT[s - 257] == NEVER)
  }

  lemma LitFound(lit: seq<nat>)
    requires WfCodeSet(LitSet(lit)) && |lit| <= 288
    ensures LitSet(lit).lens == lit && forall s :: 0 <= s < |lit| ==> LitEntry(lit, s)
  {
    forall s | 0 <= s < |lit|
      ensures LitEntry(lit, s)
    {
      if s >= 257 && CPLEXT[s - 257] != NEVER {
        LengthRange(s - 257);
      }
    }
  }

  /** One turn of the main loop up to the copying: a literal, the end of the block, or a length and a distance. */
  method ReadToken(r: BitReader, mem: array<Huft>, tl: nat, td: nat, bl: nat, bd: nat, ghost wl: set<nat>,
      ghost wd: set<nat>, ghost lit: seq<nat>, ghost dist: seq<nat>)
    returns (code: nat, token: Token)
    requires r.Valid() && BothTabled(mem[..], wl, wd, lit, dist, tl, td, bl, bd)
    modifies r
    ensures r.Valid() && (code == OK ==> r.Rest().n < old(r.Rest()).n)
    ensures TokenAgrees(NextToken(lit, dist, old(r.Rest())), code, token, r.Rest())
  {
    hide Shl, Pow2, Shr, Low, Lookup, TablesDecode, NextSymbol, SymFound, CPLENS, CPLEXT, LitSet, DistanceAfter;
    ghost var b := r.Rest();
    SymbolLookup(mem[..], wl, LitSet(lit), tl, bl, b);
    LitFound(lit);
    assert NextSymbol(lit, b).Symbol? ==> LitEntry(lit, NextSymbol(lit, b).s);
    token := EndOfBlock;
    var ok, f := DecodeSymbol(r, mem, tl, bl);
    if !ok {
      return ENDED, token;
    }
    if f.e == UNUSED {
      return ERROR, token;
    }
    if f.e == 16 {
      return OK, Literal(f.v % 256);
    }
    if f.e == 15 {
      return OK, EndOfBlock;
    }
    ok := r.NeedBits(f.e);
    if !ok {
      return ENDED, token;
    }
    var n := f.v + r.Mask(f.e);
    r.DumpBits(f.e);
    code, token := ReadDistance(r, mem, td, bd, n, wd, dist);
  }

  // ----- the main loop

  /** The result of a decoder, against what the specification says of the same input. */
  ghost predicate Agrees(spec: Outcome, code: nat, rest: Bits, out: seq<Byte>) {
    match spec
    case Done(b, h) => (code == OK && rest == b && out == h) || (code == ENDED && b.n < 16) || code == NO_MEMORY
    case Fail(Bad) => code != OK
    case Fail(Ended) => code == ENDED || code == NO_MEMORY
    case Fail(Undefined) => true
  }

  /** d = w - dist, with dist from 1 to 32768, is the place in the window that far back. */
  lemma PlaceBack(w: nat, dist: nat)
    requires w < WSIZE && 1 <= dist <= WSIZE
    ensures DistOf(w, SlideWindow.Mask(WrapSub(w, dist))) == dist
  {
  }

  /** A match copied through the window. dist may be anything; the window index is taken modulo 32K. */
  method CopyToken(w: Slide, len: nat, dist: nat)
    requires w.Valid()
    modifies w, w.slide
    ensures w.Valid()
    ensures 1 <= dist <= WSIZE ==> w.History() == CopyMatch(old(w.History()), dist, len)
  {
    w.Long();
    var d := WrapSub(w.wp, dist % U32);
    if 1 <= dist <= WSIZE {
      PlaceBack(w.wp, dist);
    }
    w.Copy(d, len);
  }

  method ApplyToken(w: Slide, token: Token)
    requires w.Valid()
    modifies w, w.slide
    ensures w.Valid() && old(|w.History()|) >= WSIZE
    ensures !token.Match? || 1 <= token.dist <= WSIZE ==> w.History() == Apply(token, old(w.History()))
  {
    w.Long();
    match token {
      case Literal(b) => w.PutByte(b);
      case EndOfBlock =>
      case Match(len, dist) => CopyToken(w, len, dist);
    }
  }

  lemma TabledCodes(mem: seq<Huft>, wl: set<nat>, wd: set<nat>, lit: seq<nat>, dist: seq<nat>, tl: nat, td: nat,
      bl: nat, bd: nat)
    requires BothTabled(mem, wl, wd, lit, dist, tl, td, bl, bd)
    ensures WfCodes(lit, dist)
  {
  }

  /** inflate_codes */
  method DecodeCodes(r: BitReader, w: Slide, mem: array<Huft>, tl: nat, td: nat, bl: nat, bd: nat, ghost wl: set<nat>,
      ghost wd: set<nat>, ghost lit: seq<nat>, ghost dist: seq<nat>)
    returns (code: nat)
    requires r.Valid() && w.Valid() && BothTabled(mem[..], wl, wd, lit, dist, tl, td, bl, bd)
    modifies r, w, w.slide
    ensures r.Valid() && w.Valid() && old(|w.History()|) >= HISTORY && (code == OK || code == ERROR || code == ENDED)
    ensures Agrees(BlockData(lit, dist, old(r.Rest()), old(w.History())), code, r.Rest(), w.History())
    ensures code == OK ==> r.Rest().n <= old(r.Rest()).n
  {
    hide BitReader.Valid, BitReader.Rest, Slide.Valid, Slide.History, NextToken, BothTabled, CopyMatch;
    w.Long();
    TabledCodes(mem[..], wl, wd, lit, dist, tl, td, bl, bd);
    ghost var spec := BlockData(lit, dist, r.Rest(), w.History());
    ghost var table := mem[..];
    while true
      invariant r.Valid() && w.Valid() && mem[..] == table && w.slide.Length == WSIZE && w.wp < WSIZE
      invariant r.Rest().n <= old(r.Rest()).n
      invariant |w.History()| >= HISTORY
      invariant spec == Fail(Undefined) || BlockData(lit, dist, r.Rest(), w.History()) == spec
      decreases r.Rest().n
    {
      var token;
      code, token := ReadToken(r, mem, tl, td, bl, bd, wl, wd, lit, dist);
      if code != OK {
        return;
      }
      ApplyToken(w, token);
      w.Long();
      if token.EndOfBlock? {
        return;
      }
    }
  }
}
