/** What the encoder of module DeflateEncoder writes, DEFLATE reads back: symbols, headers, blocks and the text. */
module DeflateRoundTrip {
  import opened Words
  import opened BitReverse
  import opened Lz77
  import opened HuffmanCode
  import opened BitInput
  import opened InflateSpec
  import opened FixedCodes
  import CodeCounter
  import E = DeflateEncoder

  // ----- strings of bits

  function Number(s: seq<E.Bit>): nat {
    if s == [] then 0 else s[0] + 2 * Number(s[1..])
  }

  function BitsOf(s: seq<E.Bit>): Bits {
    Bits(Number(s), |s|)
  }

  lemma {:induction false} NumberSplits(a: seq<E.Bit>, b: seq<E.Bit>)
    ensures Number(a) < Pow2(|a|) && Number(a + b) == Number(a) + Shl(Number(b), |a|)
    decreases |a|
  {
    if a == [] {
      assert a + b == b;
    } else {
      NumberSplits(a[1..], b);
      assert (a + b)[1..] == a[1..] + b;
    }
  }

  /** Reading the front of a string of bits. */
  lemma Front(a: seq<E.Bit>, b: seq<E.Bit>)
    ensures Peek(BitsOf(a + b), |a|) == Number(a) && Drop(BitsOf(a + b), |a|) == BitsOf(b)
  {
    NumberSplits(a, b);
    Compose(Number(a), Number(b), |a|);
  }

  lemma {:induction false} LsbNumber(x: nat, n: nat)
    ensures Number(E.Lsb(x, n)) == Low(x, n)
    decreases n
  {
    if n > 0 {
      LsbNumber(x / 2, n - 1);
      assert E.Lsb(x, n)[1..] == E.Lsb(x / 2, n - 1);
    }
  }

  lemma ReadLsb(x: nat, n: nat, more: seq<E.Bit>)
    ensures var b := BitsOf(E.Lsb(x, n) + more);
      b.n >= n && Peek(b, n) == Low(x, n) && Drop(b, n) == BitsOf(more)
    ensures x < Pow2(n) ==> Low(x, n) == x
  {
    Front(E.Lsb(x, n), more);
    LsbNumber(x, n);
    if x < Pow2(n) {
      ShortHasNoRest(x, n);
    }
  }

  lemma {:induction false} MsbRev(x: nat, n: nat)
    requires x < Pow2(n)
    ensures Rev(Number(E.Msb(x, n)), n) == x
    decreases n
  {
    if n > 0 {
      MsbRev(x / 2, n - 1);
      LastBit(E.Msb(x / 2, n - 1), x % 2);
    }
  }

  lemma LastBit(s: seq<E.Bit>, bit: E.Bit)
    ensures Rev(Number(s + [bit]), |s| + 1) == 2 * Rev(Number(s), |s|) + bit
  {
    hide Rev, Shl, Pow2;
    NumberSplits(s, [bit]);
    assert Number([bit]) == bit;
    CodeCounter.TopBit(Number(s), bit, |s| + 1);
  }

  // ----- symbols

  /** The bits of a code, and what follows, begin with the symbol of the code. */
  lemma ReadCode(lens: seq<nat>, s: nat, more: seq<E.Bit>)
    requires WfLens(lens) && E.HasCode(lens, s) && Kraft(lens) <= FULL
    ensures NextSymbol(lens, BitsOf(E.Code(lens, s) + more)) == Symbol(s, BitsOf(more))
  {
    var k, code := lens[s], E.Code(lens, s);
    var v := Number(code + more);
    CodeFits(lens, s);
    MsbRev(CodeOf(lens, s), k);
    hide CodeOf, Rev, Kraft, E.Msb, Number, Low, Shr;
    Front(code, more);
    RevOfLow(v, k, k);
    assert Matches(lens, s, v);
    var r := FindSymbol(lens, v, 0);
    assert r <= s;
    PrefixFree(lens, s, r, v);
  }

  // ----- sets of codes

  /** The sets the decoder goes on with are those that RFC 1951 allows. */
  lemma {:induction false} WeightIsKraft(lens: seq<nat>)
    ensures E.Weight(lens) == Kraft(lens)
  {
    if lens == [] {
      assert lens == Copies(0, 1);
      KraftCopies(0, 1, BMAX);
      ShlOne(BMAX - 1);
    } else {
      var last, front := lens[|lens| - 1], lens[..|lens| - 1];
      WeightIsKraft(front);
      assert lens == front + Copies(1, last);
      KraftAdds(front, Copies(1, last), BMAX);
      KraftCopies(1, last, BMAX);
      if 1 <= last <= BMAX {
        ShlOne(BMAX - last);
      }
    }
  }

  lemma {:induction false} ShortWeight(lens: seq<nat>)
    requires forall s :: 0 <= s < |lens| ==> lens[s] <= 1
    ensures E.Weight(lens) % 0x8000 == 0
    ensures NoCodes(lens) ==> E.Weight(lens) == 0
  {
    if lens != [] {
      ShortWeight(lens[..|lens| - 1]);
      HalfIs();
    }
  }

  lemma HalfIs()
    ensures Pow2(15) == 0x8000
  {
    Pow2Of16();
    assert Pow2(16) == 2 * Pow2(15);
  }

  lemma UsableIsAccepted(lens: seq<nat>)
    ensures E.Usable(lens) <==> Accepted(lens)
    ensures E.Usable(lens) ==> Kraft(lens) <= FULL
  {
    WeightIsKraft(lens);
    hide E.Weight, Kraft;
    if forall s :: 0 <= s < |lens| ==> lens[s] <= 1 {
      ShortWeight(lens);
    }
  }

  // ----- literals and matches

  /** The code lengths a decoder has for the codes of an encoder. */
  ghost predicate SameCodes(codes: E.Codes, lit: seq<nat>, dist: seq<nat>) {
    && WfCodes(lit, dist) && Kraft(lit) <= FULL && Kraft(dist) <= FULL
    && match codes
       case FixedCodes => lit == FIXED_LIT && dist == FIXED_DIST
       case CodesOf(l, d) => lit == l && dist == d
  }

  lemma ReadLit(codes: E.Codes, lit: seq<nat>, dist: seq<nat>, s: nat, more: seq<E.Bit>)
    requires SameCodes(codes, lit, dist) && E.HasLit(codes, s)
    ensures NextSymbol(lit, BitsOf(E.LitCode(codes, s) + more)) == Symbol(s, BitsOf(more))
  {
    hide NextSymbol, E.Msb, CodeOf, Kraft, FIXED_LIT, FIXED_DIST, BitsOf;
    if codes.FixedCodes? {
      FixedLitCode(s);
    }
    ReadCode(lit, s, more);
  }

  lemma ReadDist(codes: E.Codes, lit: seq<nat>, dist: seq<nat>, s: nat, more: seq<E.Bit>)
    requires SameCodes(codes, lit, dist) && E.HasDist(codes, s)
    ensures NextSymbol(dist, BitsOf(E.DistCode(codes, s) + more)) == Symbol(s, BitsOf(more)) && s < 30
  {
    hide NextSymbol, E.Msb, CodeOf, Kraft, FIXED_LIT, FIXED_DIST, BitsOf;
    if codes.FixedCodes? {
      FixedDistCode(s);
    }
    ReadCode(dist, s, more);
  }

  /** The highest bits, and the others. */
  lemma {:induction false} TopAndOthers(x: nat, limit: nat)
    requires limit >= 2 && limit % 2 == 0
    ensures E.Top(x, limit) < limit && (E.Others(x, limit) > 0 ==> E.Top(x, limit) >= limit / 2)
    ensures x == E.Top(x, limit) * Pow2(E.Others(x, limit)) + Low(x, E.Others(x, limit))
  {
    if x >= limit {
      TopAndOthers(x / 2, limit);
      var k := E.Others(x / 2, limit);
      assert E.Top(x, limit) == E.Top(x / 2, limit) && E.Others(x, limit) == 1 + k;
      assert Pow2(1 + k) == 2 * Pow2(k) && Low(x, 1 + k) == x % 2 + 2 * Low(x / 2, k);
      Doubled(E.Top(x, limit), Pow2(k));
    }
  }

  lemma Doubled(t: nat, p: nat)
    ensures t * (2 * p) == 2 * (t * p)
  {
  }

  /** x is below limit times the power of the number of other bits, and not below half of that. */
  lemma {:induction false} OthersAtMost(x: nat, limit: nat, k: nat)
    requires limit > 0 && x < limit * Pow2(k)
    ensures E.Others(x, limit) <= k
    decreases k
  {
    if x >= limit {
      var p := Pow2(k - 1);
      assert limit * (2 * p) == 2 * (limit * p);
      OthersAtMost(x / 2, limit, k - 1);
    }
  }

  lemma ExtraBits(i: nat)
    ensures i < 28 ==> CPLEXT[i] == if i < 8 then 0 else i / 4 - 1
    ensures i < 30 ==> CPDEXT[i] == if i < 4 then 0 else i / 2 - 1
  {
  }

  lemma OneMoreTimes(t: nat, p: nat)
    ensures (t + 1) * p == t * p + p && 0 * p == 0
  {
  }

  lemma EightHalves(p: nat)
    ensures 7 * p + p == 4 * (2 * p) && 3 * p + p == 2 * (2 * p)
  {
  }

  lemma PowNext(k: nat)
    ensures Pow2(0) == 1 && (k > 0 ==> Pow2(k) == 2 * Pow2(k - 1))
  {
  }

  /** Where the lengths of a symbol end, those of the next one begin. */
  lemma LengthNext(i: nat)
    requires i < 28
    ensures |CPLENS| == |CPLEXT| == 31 && CPLENS[0] == 3 && CPLEXT[i] == if i < 8 then 0 else i / 4 - 1
    ensures i > 0 ==> CPLENS[i] == CPLENS[i - 1] + Pow2(CPLEXT[i - 1])
  {
    ExtraBits(i);
    if i > 0 {
      LengthsTile(i - 1);
    }
  }

  lemma DistNext(i: nat)
    requires i < 30
    ensures |CPDIST| == |CPDEXT| == 30 && CPDIST[0] == 1 && CPDEXT[i] == if i < 4 then 0 else i / 2 - 1
    ensures i > 0 ==> CPDIST[i] == CPDIST[i - 1] + Pow2(CPDEXT[i - 1])
  {
    ExtraBits(i);
    if i > 0 {
      DistancesTile(i - 1);
    }
  }

  /** Symbol 257 + 4k + t stands for 2^k lengths from 3 + t 2^k on. */
  lemma {:induction false} LengthTable(k: nat, t: nat)
    requires k <= 5 && t < 8 && (k > 0 ==> t >= 4)
    ensures 4 * k + t < 28 && CPLEXT[4 * k + t] == k && CPLENS[4 * k + t] == 3 + t * Pow2(k)
    decreases k, t
  {
    hide *;
    LengthNext(4 * k + t);
    PowNext(k);
    OneMoreTimes(if t > 0 then t - 1 else 0, Pow2(k));
    if k > 0 && t == 4 {
      LengthTable(k - 1, 7);
      EightHalves(Pow2(k - 1));
    } else if t > 0 {
      LengthTable(k, t - 1);
    }
  }

  /** Symbol 2k + t stands for 2^k distances from 1 + t 2^k on. */
  lemma {:induction false} DistTable(k: nat, t: nat)
    requires k <= 13 && t < 4 && (k > 0 ==> t >= 2)
    ensures 2 * k + t < 30 && CPDEXT[2 * k + t] == k && CPDIST[2 * k + t] == 1 + t * Pow2(k)
    decreases k, t
  {
    hide *;
    DistNext(2 * k + t);
    PowNext(k);
    OneMoreTimes(if t > 0 then t - 1 else 0, Pow2(k));
    if k > 0 && t == 2 {
      DistTable(k - 1, 3);
      EightHalves(Pow2(k - 1));
    } else if t > 0 {
      DistTable(k, t - 1);
    }
  }

  /** The symbol of a length, and how the extra bits add up to it. */
  lemma LengthIs(len: nat)
    requires 3 <= len <= 258
    ensures 257 <= E.LengthSymbol(len) < 286
    ensures var i, k := E.LengthSymbol(len) - 257, |E.LengthExtra(len)|;
      CPLEXT[i] == k <= 5 && CPLENS[i] + Low(len - 3, k) == len && E.LengthExtra(len) == E.Lsb(len - 3, k)
  {
    hide E.Lsb, Low, E.Others, E.Top, CPLENS, CPLEXT;
    if len < 258 {
      ShortLength(len);
    } else {
      NoShift(len - 3);
      LongestLength();
    }
  }

  lemma LongestLength()
    ensures |CPLENS| == |CPLEXT| == 31 && CPLENS[28] == 258 && CPLEXT[28] == 0
  {
  }

  lemma ShortLength(len: nat)
    requires 3 <= len < 258
    ensures var k, t := E.Others(len - 3, 8), E.Top(len - 3, 8);
      && k <= 5 && 4 * k + t < 28 && |CPLENS| == |CPLEXT| == 31
      && CPLEXT[4 * k + t] == k && CPLENS[4 * k + t] + Low(len - 3, k) == len
  {
    LongestLength();
    hide *;
    PowersToDistance();
    TopAndOthers(len - 3, 8);
    OthersAtMost(len - 3, 8, 5);
    LengthTable(E.Others(len - 3, 8), E.Top(len - 3, 8));
  }

  lemma DistIs(dist: nat)
    requires 1 <= dist <= HISTORY
    ensures E.DistSymbol(dist) < 30
    ensures var k := E.Others(dist - 1, 4);
      CPDEXT[E.DistSymbol(dist)] == k <= 13 && CPDIST[E.DistSymbol(dist)] + Low(dist - 1, k) == dist
  {
    PowersToDistance();
    hide Pow2, Low, E.Others, E.Top, CPDIST, CPDEXT;
    TopAndOthers(dist - 1, 4);
    OthersAtMost(dist - 1, 4, 13);
    DistTable(E.Others(dist - 1, 4), E.Top(dist - 1, 4));
  }

  lemma ReadDistance(codes: E.Codes, lit: seq<nat>, dists: seq<nat>, len: nat, dist: nat, more: seq<E.Bit>)
    requires SameCodes(codes, lit, dists) && 1 <= dist <= HISTORY && E.HasDist(codes, E.DistSymbol(dist))
    ensures DistanceAfter(len, dists, BitsOf(E.DistCode(codes, E.DistSymbol(dist)) + (E.DistExtra(dist) + more)))
         == Got(Match(len, dist), BitsOf(more))
  {
    hide NextSymbol, BitsOf, E.Lsb, E.DistSymbol, E.DistCode, E.HasDist, SameCodes, Low, Shr;
    assert |dists| <= 30 by { DistsAreFew(codes, lit, dists); }
    ReadDist(codes, lit, dists, E.DistSymbol(dist), E.DistExtra(dist) + more);
    DistIs(dist);
    ReadLsb(dist - 1, E.Others(dist - 1, 4), more);
  }

  lemma DistsAreFew(codes: E.Codes, lit: seq<nat>, dist: seq<nat>)
    requires SameCodes(codes, lit, dist)
    ensures WfCodes(lit, dist) && |dist| <= 30
  {
  }

  lemma ReadLength(codes: E.Codes, lit: seq<nat>, dists: seq<nat>, len: nat, dist: nat, more: seq<E.Bit>)
    requires SameCodes(codes, lit, dists) && 3 <= len <= 258
    requires 1 <= dist <= HISTORY && E.HasDist(codes, E.DistSymbol(dist))
    ensures 257 <= E.LengthSymbol(len) < 288 && |dists| <= 30
    ensures LengthAfter(E.LengthSymbol(len), dists,
                        BitsOf(E.LengthExtra(len) +
                               (E.DistCode(codes, E.DistSymbol(dist)) + (E.DistExtra(dist) + more))))
         == Got(Match(len, dist), BitsOf(more))
  {
    hide NextSymbol, BitsOf, E.Lsb, E.DistSymbol, E.DistCode, E.HasDist, SameCodes, E.LengthSymbol, E.LengthExtra,
        E.DistExtra, DistanceAfter, Low, Shr;
    DistsAreFew(codes, lit, dists);
    LengthIs(len);
    ReadLsb(len - 3, |E.LengthExtra(len)|, E.DistCode(codes, E.DistSymbol(dist)) + (E.DistExtra(dist) + more));
    ReadDistance(codes, lit, dists, len, dist, more);
  }

  function TokenOf(item: E.Item): Token {
    match item
    case Literal(b) => Literal(b)
    case Copy(len, dist) => Match(len, dist)
  }

  lemma ReadItem(codes: E.Codes, lit: seq<nat>, dist: seq<nat>, out: seq<Byte>, item: E.Item, more: seq<E.Bit>)
    requires SameCodes(codes, lit, dist) && E.Allowed(codes, out, item)
    ensures WfCodes(lit, dist)
    ensures NextToken(lit, dist, BitsOf(E.ItemBits(codes, item) + more)) == Got(TokenOf(item), BitsOf(more))
  {
    hide NextSymbol, BitsOf, E.LitCode, E.DistCode, E.HasDist, E.HasLit, SameCodes, E.LengthSymbol, E.LengthExtra,
        E.DistSymbol, E.DistExtra, LengthAfter;
    DistsAreFew(codes, lit, dist);
    match item
    case Literal(b) => ReadLit(codes, lit, dist, b, more);
    case Copy(l, d) =>
      var a, b, c, e := E.LitCode(codes, E.LengthSymbol(l)), E.LengthExtra(l), E.DistCode(codes, E.DistSymbol(d)),
        E.DistExtra(d);
      assert a + b + (c + e) + more == a + (b + (c + (e + more)));
      ReadLit(codes, lit, dist, E.LengthSymbol(l), b + (c + (e + more)));
      ReadLength(codes, lit, dist, l, d, more);
  }

  lemma ReadEnd(codes: E.Codes, lit: seq<nat>, dist: seq<nat>, more: seq<E.Bit>)
    requires SameCodes(codes, lit, dist) && E.HasLit(codes, 256)
    ensures WfCodes(lit, dist)
    ensures NextToken(lit, dist, BitsOf(E.LitCode(codes, 256) + more)) == Got(EndOfBlock, BitsOf(more))
  {
    hide NextSymbol, BitsOf, E.LitCode, SameCodes;
    DistsAreFew(codes, lit, dist);
    ReadLit(codes, lit, dist, 256, more);
  }

  /** The data of a block are its items. */
  lemma {:induction false} ReadData(codes: E.Codes, lit: seq<nat>, dist: seq<nat>, out: seq<Byte>, items: seq<E.Item>,
      more: seq<E.Bit>)
    requires SameCodes(codes, lit, dist) && E.AllAllowed(codes, out, items)
    ensures WfCodes(lit, dist)
    ensures BlockData(lit, dist, BitsOf(E.DataBits(codes, items) + more), out)
         == Done(BitsOf(more), E.AfterAll(out, items))
    decreases |items|
  {
    hide NextToken, E.ItemBits, E.LitCode, SameCodes, CopyMatch, E.HasLit, WfCodes;
    if items == [] {
      ReadEnd(codes, lit, dist, more);
    } else {
      var a, b := E.ItemBits(codes, items[0]), E.DataBits(codes, items[1..]);
      assert (a + b) + more == a + (b + more);
      ReadItem(codes, lit, dist, out, items[0], b + more);
      ReadData(codes, lit, dist, E.After(out, items[0]), items[1..], more);
    }
  }

  // ----- code lengths

  lemma TimesIsCopies(n: nat, x: nat)
    ensures E.Times(n, x) == Copies(n, x)
  {
  }

  /** Extra bits say how often a length is repeated. */
  lemma ReadRepeat(lens: seq<nat>, n: nat, x: nat, least: nat, bits: nat, j: nat, more: seq<E.Bit>)
    requires least <= j < least + Pow2(bits) && |lens| + j <= n
    ensures Repeated(lens, n, x, least, bits, BitsOf(E.Lsb(j - least, bits) + more))
         == GotLengths(lens + Copies(j, x), BitsOf(more))
  {
    hide BitsOf, Low, Shr, E.Lsb, Pow2;
    ReadLsb(j - least, bits, more);
  }

  lemma RunSize(bl: seq<nat>, lens: seq<nat>, run: E.Run)
    requires E.WfRun(bl, lens, run) && Short15(lens)
    ensures |E.AfterRun(lens, run)| > |lens| && Short15(E.AfterRun(lens, run))
  {
  }

  /** Which symbol a run is sent with, and with what extra bits. */
  ghost predicate SentAs(run: E.Run, s: nat, extra: seq<E.Bit>) {
    match run
    case One(x) => s == x && extra == []
    case Again(n) => s == 16 && n >= 3 && extra == E.Lsb(n - 3, 2)
    case Zeros(n) =>
      n >= 3 && if n < 11 then s == 17 && extra == E.Lsb(n - 3, 3) else s == 18 && extra == E.Lsb(n - 11, 7)
  }

  lemma RunParts(bl: seq<nat>, lens: seq<nat>, run: E.Run) returns (s: nat, extra: seq<E.Bit>)
    requires E.WfRun(bl, lens, run)
    ensures E.RunBits(bl, run) == E.Code(bl, s) + extra && E.HasCode(bl, s) && SentAs(run, s, extra)
  {
    hide E.Code, E.Lsb;
    match run
    case One(x) =>
      s, extra := x, [];
      assert E.Code(bl, x) + [] == E.Code(bl, x);
    case Again(n) => s, extra := 16, E.Lsb(n - 3, 2);
    case Zeros(n) =>
      s, extra := if n < 11 then 17 else 18, if n < 11 then E.Lsb(n - 3, 3) else E.Lsb(n - 11, 7);
  }

  lemma AddRun(bl: seq<nat>, n: nat, lens: seq<nat>, run: E.Run, s: nat, extra: seq<E.Bit>, more: seq<E.Bit>)
    requires E.WfRun(bl, lens, run) && Short15(lens) && |lens| < n && |E.AfterRun(lens, run)| <= n
    requires SentAs(run, s, extra)
    ensures s < 19 && AddLengths(lens, n, s, BitsOf(extra + more)) == GotLengths(E.AfterRun(lens, run), BitsOf(more))
  {
    PowersToDistance();
    hide BitsOf, E.Lsb, Repeated, Pow2, E.Times, Copies;
    match run
    case One(x) => assert [] + more == more;
    case Again(m) =>
      TimesIsCopies(m, Last(lens));
      ReadRepeat(lens, n, Last(lens), 3, 2, m, more);
    case Zeros(m) =>
      TimesIsCopies(m, 0);
      if m < 11 {
        ReadRepeat(lens, n, 0, 3, 3, m, more);
      } else {
        ReadRepeat(lens, n, 0, 11, 7, m, more);
      }
  }

  lemma Assoc(a: seq<E.Bit>, b: seq<E.Bit>, c: seq<E.Bit>)
    ensures (a + b) + c == a + (b + c)
  {
  }

  lemma LengthsStep(bl: seq<nat>, n: nat, lens: seq<nat>, b: Bits, s: nat, b1: Bits, next: seq<nat>, b2: Bits)
    requires |bl| == 19 && |lens| < n && Short15(lens) && NextSymbol(bl, b) == Symbol(s, b1) && s < 19
    requires AddLengths(lens, n, s, b1) == GotLengths(next, b2)
    ensures |next| <= n && Short15(next) && Lengths(bl, n, lens, b) == Lengths(bl, n, next, b2)
  {
    hide NextSymbol, Short15;
  }

  /** One run of code lengths. */
  lemma ReadRun(bl: seq<nat>, n: nat, lens: seq<nat>, run: E.Run, more: seq<E.Bit>)
    requires WfLens(bl) && |bl| == 19 && Kraft(bl) <= FULL
    requires E.WfRun(bl, lens, run) && Short15(lens) && |E.AfterRun(lens, run)| <= n
    ensures |lens| < n && Short15(E.AfterRun(lens, run))
    ensures Lengths(bl, n, lens, BitsOf(E.RunBits(bl, run) + more))
         == Lengths(bl, n, E.AfterRun(lens, run), BitsOf(more))
  {
    RunSize(bl, lens, run);
    hide *;
    var s, extra := RunParts(bl, lens, run);
    Assoc(E.Code(bl, s), extra, more);
    ReadCode(bl, s, extra + more);
    AddRun(bl, n, lens, run, s, extra, more);
    LengthsStep(bl, n, lens, BitsOf(E.RunBits(bl, run) + more), s, BitsOf(extra + more), E.AfterRun(lens, run),
                BitsOf(more));
  }

  /** Code lengths, cut into runs in any way, are read back. */
  lemma {:induction false} ReadRuns(bl: seq<nat>, lens: seq<nat>, runs: seq<E.Run>, more: seq<E.Bit>)
    requires WfLens(bl) && |bl| == 19 && Kraft(bl) <= FULL && E.WfRuns(bl, lens, runs) && Short15(lens)
    ensures var all := E.Spelled(lens, runs);
      && |lens| <= |all| && Short15(all)
      && Lengths(bl, |all|, lens, BitsOf(E.RunsBits(bl, runs) + more)) == GotLengths(all, BitsOf(more))
    decreases |runs|
  {
    hide BitsOf, E.RunBits, WfLens, Kraft, E.AfterRun, Short15, E.WfRun;
    if runs == [] {
      assert [] + more == more;
    } else {
      var next, rest := E.AfterRun(lens, runs[0]), E.RunsBits(bl, runs[1..]);
      RunSize(bl, lens, runs[0]);
      ReadRuns(bl, next, runs[1..], more);
      assert E.RunBits(bl, runs[0]) + rest + more == E.RunBits(bl, runs[0]) + (rest + more);
      hide Lengths;
      ReadRun(bl, |E.Spelled(lens, runs)|, lens, runs[0], rest + more);
    }
  }

  // ----- the header of a dynamic block

  lemma SameOrder()
    ensures |BORDER| == 19 && BORDER == E.ORDER
  {
  }

  lemma {:induction false} BlSize(bl: seq<nat>, j: nat)
    requires |bl| == 19 && j <= 19
    ensures |E.BlLengths(bl, j)| == 3 * j
  {
    if j > 0 {
      BlSize(bl, j - 1);
    }
  }

  lemma InOrder(j: nat, x: nat)
    requires 1 <= j <= 19
    ensures |E.ORDER| == 19 && (x in E.ORDER[..j] <==> x in E.ORDER[..j - 1] || x == E.ORDER[j - 1])
  {
    assert |E.ORDER| == 19;
    hide E.ORDER;
    assert E.ORDER[..j] == E.ORDER[..j - 1] + [E.ORDER[j - 1]];
  }

  lemma BlNext(bl: seq<nat>, j: nat, more: seq<E.Bit>)
    requires |bl| == 19 && 1 <= j <= 19
    ensures |E.ORDER| == 19 && 0 <= E.ORDER[j - 1] < 19
    ensures E.BlLengths(bl, j) + more == E.BlLengths(bl, j - 1) + (E.Lsb(bl[E.ORDER[j - 1]], 3) + more)
  {
    hide E.Lsb;
  }

  lemma BitLengthsNext(b: Bits, j: nat)
    requires 1 <= j <= 19 && 3 * j <= b.n
    ensures |E.ORDER| == 19 && 0 <= E.ORDER[j - 1] < 19
    ensures BitLengths(b, j) == BitLengths(b, j - 1)[E.ORDER[j - 1] := Peek(Drop(b, 3 * (j - 1)), 3)]
  {
    hide Low, Shr;
    SameOrder();
  }

  lemma NoBitLengths(b: Bits)
    ensures BitLengths(b, 0) == Copies(19, 0) && forall x :: x !in E.ORDER[..0]
  {
  }

  /** The lengths that are sent come back, and the others are 0. */
  lemma {:induction false} ReadBl(bl: seq<nat>, j: nat, more: seq<E.Bit>)
    requires |bl| == 19 && j <= 19 && forall i :: 0 <= i < 19 ==> bl[i] <= 7
    ensures var b := BitsOf(E.BlLengths(bl, j) + more);
      && b.n >= 3 * j && Drop(b, 3 * j) == BitsOf(more) && |E.ORDER| == 19
      && forall x :: 0 <= x < 19 ==> BitLengths(b, j)[x] == if x in E.ORDER[..j] then bl[x] else 0
  {
    var b := BitsOf(E.BlLengths(bl, j) + more);
    BlSize(bl, j);
    Front(E.BlLengths(bl, j), more);
    hide BitLengths, E.ORDER, BORDER, Low, Shr, Number, E.Lsb, E.BlLengths;
    if j == 0 {
      NoBitLengths(b);
    } else {
      BlNext(bl, j, more);
      BitLengthsNext(b, j);
      var i := E.ORDER[j - 1];
      BlSize(bl, j - 1);
      Front(E.BlLengths(bl, j - 1), E.Lsb(bl[i], 3) + more);
      ReadBl(bl, j - 1, E.Lsb(bl[i], 3) + more);
      PowersToDistance();
      ReadLsb(bl[i], 3, more);
      forall x | 0 <= x < 19
        ensures BitLengths(b, j)[x] == if x in E.ORDER[..j] then bl[x] else 0
      {
        InOrder(j, x);
      }
    }
  }

  lemma ReadAllBl(bl: seq<nat>, nb: nat, more: seq<E.Bit>)
    requires |bl| == 19 && nb <= 19 && (forall i :: 0 <= i < 19 ==> bl[i] <= 7)
    requires forall i :: 0 <= i < 19 && i !in E.ORDER[..nb] ==> bl[i] == 0
    ensures var b := BitsOf(E.BlLengths(bl, nb) + more);
      b.n >= 3 * nb && Drop(b, 3 * nb) == BitsOf(more) && BitLengths(b, nb) == bl
  {
    hide BitLengths, Drop, BitsOf, E.BlLengths;
    ReadBl(bl, nb, more);
  }

  /** The three numbers in front. */
  lemma ReadNumbers(nl: nat, nd: nat, nb: nat, more: seq<E.Bit>)
    requires 257 <= nl <= 286 && 1 <= nd <= 30 && 4 <= nb <= 19
    ensures DynamicCodes(BitsOf(E.Lsb(nl - 257, 5) + (E.Lsb(nd - 1, 5) + (E.Lsb(nb - 4, 4) + more))))
         == CodesAfter(nl, nd, nb, BitsOf(more))
  {
    PowersToDistance();
    hide CodesAfter, BitsOf, E.Lsb, Low, Shr, Pow2;
    ReadLsb(nl - 257, 5, E.Lsb(nd - 1, 5) + (E.Lsb(nb - 4, 4) + more));
    ReadLsb(nd - 1, 5, E.Lsb(nb - 4, 4) + more);
    ReadLsb(nb - 4, 4, more);
  }

  lemma BlIsWf(bl: seq<nat>)
    requires |bl| == 19 && forall i :: 0 <= i < 19 ==> bl[i] <= 7
    ensures WfLens(bl) && Short15([])
  {
  }

  /** The codes of a dynamic block. */
  lemma ReadHeader(bl: seq<nat>, nb: nat, runs: seq<E.Run>, nl: nat, more: seq<E.Bit>)
    requires E.WfHeader(bl, nb, runs, nl)
    ensures var lens := E.Spelled([], runs);
      && Short15(lens)
      && DynamicCodes(BitsOf(E.HeaderBits(bl, nb, runs, nl) + more)) == GotCodes(lens[..nl], lens[nl..], BitsOf(more))
  {
    var lens := E.Spelled([], runs);
    hide E.Usable, E.WfRuns, E.Spelled, E.Lsb, E.RunsBits, E.BlLengths, DynamicCodes, BitsOf, BitLengths, Accepted,
      WfLens, Lengths, Kraft, Short15, Drop;
    BlIsWf(bl);
    UsableIsAccepted(bl);
    UsableIsAccepted(lens[..nl]);
    UsableIsAccepted(lens[nl..]);
    var bits, bls := E.RunsBits(bl, runs), E.BlLengths(bl, nb);
    var nlBits, ndBits, nbBits := E.Lsb(nl - 257, 5), E.Lsb(|lens| - nl - 1, 5), E.Lsb(nb - 4, 4);
    assert nlBits + (ndBits + (nbBits + (bls + bits))) + more == nlBits + (ndBits + (nbBits + (bls + (bits + more))));
    ReadNumbers(nl, |lens| - nl, nb, bls + (bits + more));
    ReadAllBl(bl, nb, bits + more);
    ReadRuns(bl, [], runs, more);
  }

  lemma DynamicCodesSame(block: E.Block)
    requires block.Dynamic? && E.WfHeader(block.bl, block.nb, block.runs, block.nl)
    requires Short15(E.Spelled([], block.runs))
    ensures var lens := E.Spelled([], block.runs);
      SameCodes(E.CodesIn(block), lens[..block.nl], lens[block.nl..])
  {
    hide E.Usable, E.WfRuns, E.Spelled, Kraft, Accepted;
    var lens := E.Spelled([], block.runs);
    UsableIsAccepted(lens[..block.nl]);
    UsableIsAccepted(lens[block.nl..]);
  }

  lemma FixedCodesSame()
    ensures SameCodes(E.FixedCodes, FIXED_LIT, FIXED_DIST)
  {
    FixedKraft();
    FixedSizes();
    hide FIXED_LIT, FIXED_DIST, Kraft;
  }

  // ----- stored blocks

  lemma OneByte(b: Bits, x: Byte, n: nat)
    requires b.n >= 8 && Peek(b, 8) == x
    ensures Bytes(b.v, n + 1) == [x] + Bytes(Drop(b, 8).v, n)
  {
    hide Low, Shr;
  }

  lemma BytesFirst(s: seq<Byte>, more: seq<E.Bit>)
    requires s != []
    ensures E.ByteBits(s) + more == E.Lsb(s[0], 8) + (E.ByteBits(s[1..]) + more)
  {
    hide E.Lsb;
  }

  lemma NoBytes(b: Bits)
    ensures Bytes(b.v, 0) == [] && Drop(b, 0) == b
  {
  }

  lemma {:induction false} ReadBytes(s: seq<Byte>, more: seq<E.Bit>)
    ensures Bytes(BitsOf(E.ByteBits(s) + more).v, |s|) == s
    decreases |s|
  {
    var b := BitsOf(E.ByteBits(s) + more);
    hide *;
    if s == [] {
      NoBytes(b);
    } else {
      var rest := E.ByteBits(s[1..]) + more;
      BytesFirst(s, more);
      ReadBytes(s[1..], more);
      PowersToDistance();
      ReadLsb(s[0], 8, rest);
      OneByte(b, s[0], |s| - 1);
      assert s == [s[0]] + s[1..];
    }
  }

  lemma StoredSize(text: seq<Byte>)
    requires |text| < 0x1_0000
    ensures |E.StoredBits(text)| == 32 + 8 * |text|
  {
  }

  lemma HeadIs(b: Bits, len: nat, b1: Bits, b2: Bits)
    requires b.n - b.n % 8 >= 16 && b1.n >= 16 && len <= 0xFFFF
    requires Peek(Drop(b, b.n % 8), 16) == len && Drop(Drop(b, b.n % 8), 16) == b1
    requires Peek(b1, 16) == 0xFFFF - len && Drop(b1, 16) == b2
    ensures StoredHead(b) == GotHead(len, b2)
  {
    Pow2Of16();
    hide Low, Shr, Pow2;
  }

  lemma Regroup(a: seq<E.Bit>, b: seq<E.Bit>, c: seq<E.Bit>, d: seq<E.Bit>, e: seq<E.Bit>)
    ensures a + (b + (c + d)) + e == a + (b + (c + (d + e)))
  {
  }

  lemma StoredIs(text: seq<Byte>, pad: seq<E.Bit>, more: seq<E.Bit>)
    requires |text| < 0x1_0000
    ensures pad + E.StoredBits(text) + more
         == pad + (E.Lsb(|text|, 16) + (E.Lsb(0xFFFF - |text|, 16) + (E.ByteBits(text) + more)))
  {
    hide E.Lsb, E.ByteBits;
    Regroup(pad, E.Lsb(|text|, 16), E.Lsb(0xFFFF - |text|, 16), E.ByteBits(text), more);
  }

  lemma StoredAligned(text: seq<Byte>, pad: seq<E.Bit>, more: seq<E.Bit>)
    requires |text| < 0x1_0000 && |pad| < 8 && |more| % 8 == 0
    ensures var b := BitsOf(pad + E.StoredBits(text) + more); b.n % 8 == |pad| && b.n >= 32 + |pad|
  {
    hide E.StoredBits, Number;
    StoredSize(text);
    AlignedSize(|pad|, |text|, |more|);
  }

  lemma AlignedSize(pad: nat, n: nat, more: nat)
    requires pad < 8 && more % 8 == 0
    ensures (pad + (32 + 8 * n) + more) % 8 == pad
  {
    var q := more / 8;
    assert pad + (32 + 8 * n) + more == 8 * (4 + n + q) + pad;
  }

  lemma ReadHead(text: seq<Byte>, pad: seq<E.Bit>, more: seq<E.Bit>)
    requires |text| < 0x1_0000 && |pad| < 8 && |more| % 8 == 0
    ensures StoredHead(BitsOf(pad + E.StoredBits(text) + more))
         == GotHead(|text|, BitsOf(E.ByteBits(text) + more))
  {
    SixteenBits();
    hide *;
    var bits := E.ByteBits(text) + more;
    var len, other := E.Lsb(|text|, 16), E.Lsb(0xFFFF - |text|, 16);
    StoredIs(text, pad, more);
    StoredAligned(text, pad, more);
    Front(pad, len + (other + bits));
    ReadLsb(|text|, 16, other + bits);
    ReadLsb(0xFFFF - |text|, 16, bits);
    HeadIs(BitsOf(pad + E.StoredBits(text) + more), |text|, BitsOf(other + bits), BitsOf(bits));
  }

  lemma SixteenBits()
    ensures Pow2(16) == 0x1_0000
  {
    Pow2Of16();
  }

  lemma ReadStored(text: seq<Byte>, pad: seq<E.Bit>, out: seq<Byte>, more: seq<E.Bit>)
    requires |text| < 0x1_0000 && |pad| < 8 && |more| % 8 == 0
    ensures StoredBlock(BitsOf(pad + E.StoredBits(text) + more), out) == Done(BitsOf(more), out + text)
  {
    hide StoredHead, E.StoredBits, E.ByteBits, Bytes, Number, Shr;
    ReadHead(text, pad, more);
    ReadBytes(text, more);
    Front(E.ByteBits(text), more);
  }

  // ----- blocks

  lemma ReadDynamic(block: E.Block, at: nat, out: seq<Byte>, more: seq<E.Bit>)
    requires block.Dynamic? && E.WfBlock(block, at, out)
    ensures DynamicBlock(BitsOf(E.BodyBits(block) + more), out) == Done(BitsOf(more), E.AfterBlock(out, block))
  {
    hide E.WfHeader, E.HeaderBits, E.DataBits, E.AllAllowed, BitsOf, BlockData, DynamicCodes, E.Spelled, SameCodes,
      E.CodesIn, E.AfterAll;
    var header := E.HeaderBits(block.bl, block.nb, block.runs, block.nl);
    var data := E.DataBits(E.CodesIn(block), block.items);
    assert header + data + more == header + (data + more);
    ReadHeader(block.bl, block.nb, block.runs, block.nl, data + more);
    DynamicCodesSame(block);
    var lens := E.Spelled([], block.runs);
    ReadData(E.CodesIn(block), lens[..block.nl], lens[block.nl..], out, block.items, more) by {
      HeaderSizes(block.bl, block.nb, block.runs, block.nl);
    }
  }

  lemma HeaderSizes(bl: seq<nat>, nb: nat, runs: seq<E.Run>, nl: nat)
    requires E.WfHeader(bl, nb, runs, nl)
    ensures nl < |E.Spelled([], runs)|
  {
  }

  /** The data of a block of any type; the bits behind it fill whole bytes if it is a stored one. */
  lemma ReadBlock(block: E.Block, at: nat, out: seq<Byte>, more: seq<E.Bit>)
    requires E.WfBlock(block, at, out) && (block.Stored? ==> |more| % 8 == 0)
    ensures TypedBlock(E.TypeOf(block), BitsOf(E.BodyBits(block) + more), out)
         == Done(BitsOf(more), E.AfterBlock(out, block))
  {
    hide StoredBlock, DynamicBlock, E.StoredBits, E.WfHeader, BitsOf, E.DataBits, BlockData, E.AllAllowed;
    match block
    case Stored(text, pad) => ReadStored(text, pad, out, more);
    case Fixed(items) =>
      FixedCodesSame();
      ReadData(E.FixedCodes, FIXED_LIT, FIXED_DIST, out, items, more);
    case Dynamic(_, _, _, _, _) => ReadDynamic(block, at, out, more);
  }

  /** The three bits in front of a block. */
  lemma ReadType(last: bool, kind: nat, body: seq<E.Bit>)
    requires kind < 3
    ensures var b := BitsOf(E.Lsb(if last then 1 else 0, 1) + (E.Lsb(kind, 2) + body));
      && b.n >= 3 && Peek(b, 1) == (if last then 1 else 0) && Peek(Drop(b, 1), 2) == kind && Drop(b, 3) == BitsOf(body)
  {
    PowersToDistance();
    hide E.Lsb, Low, Shr, BitsOf, Pow2;
    var l := if last then 1 else 0;
    ReadLsb(l, 1, E.Lsb(kind, 2) + body);
    ReadLsb(kind, 2, body);
    DropAdds(BitsOf(E.Lsb(l, 1) + (E.Lsb(kind, 2) + body)), 1, 2);
  }

  lemma BlockBitsAre(last: bool, block: E.Block, more: seq<E.Bit>)
    ensures E.BlockBits(last, block) + more
         == E.Lsb(if last then 1 else 0, 1) + (E.Lsb(E.TypeOf(block), 2) + (E.BodyBits(block) + more))
    ensures |E.BlockBits(last, block)| == 3 + |E.BodyBits(block)|
    ensures block.Stored? && |block.text| < 0x1_0000 ==> |E.BodyBits(block)| == |block.pad| + 32 + 8 * |block.text|
  {
    hide E.Lsb, E.StoredBits, E.HeaderBits, E.DataBits;
    if block.Stored? && |block.text| < 0x1_0000 {
      StoredSize(block.text);
    }
    hide E.BodyBits;
  }

  /** A stored block ends at the end of a byte. */
  lemma StoredEnds(block: E.Block, at: nat, out: seq<Byte>, more: nat)
    requires block.Stored? && E.WfBlock(block, at, out)
    requires (at + |E.BlockBits(false, block)| + more) % 8 == 0
    ensures more % 8 == 0
  {
    BlockBitsAre(false, block, []);
    hide E.BlockBits, E.BodyBits;
    var n := at + 3 + |block.pad|;
    assert at + |E.BlockBits(false, block)| + more == n + 8 * (4 + |block.text|) + more;
    assert n == 8 * (n / 8);
  }

  /** The stream of the encoder is read back as its text, and nothing behind it is read. */
  lemma {:induction false} ReadStream(blocks: seq<E.Block>, at: nat, out: seq<Byte>, more: seq<E.Bit>)
    requires E.WfStream(blocks, at, out) && (at + |E.StreamBits(blocks)| + |more|) % 8 == 0
    ensures Blocks(BitsOf(E.StreamBits(blocks) + more), out) == Done(BitsOf(more), E.TextOf(out, blocks))
    decreases |blocks|
  {
    hide E.BlockBits, E.BodyBits, E.WfBlock, TypedBlock, BitsOf, E.AfterBlock, Drop, Peek;
    var block, last := blocks[0], |blocks| == 1;
    var bits := E.BlockBits(last, block);
    var rest := E.StreamBits(blocks[1..]) + more;
    assert E.StreamBits(blocks) + more == bits + rest;
    BlockBitsAre(last, block, rest);
    BlockBitsAre(false, block, []);
    if block.Stored? {
      StoredEnds(block, at, out, |rest|);
    }
    ReadType(last, E.TypeOf(block), E.BodyBits(block) + rest);
    ReadBlock(block, at, out, rest);
    if last {
      assert rest == more;
    } else {
      ReadStream(blocks[1..], at + |bits|, E.AfterBlock(out, block), more);
    }
  }

  // ----- bytes

  lemma {:induction false} BytesAreBits(src: seq<Byte>)
    ensures Bits(Stream(src), 8 * |src|) == BitsOf(E.ByteBits(src))
  {
    if src != [] {
      BytesAreBits(src[1..]);
      PowersToDistance();
      LsbNumber(src[0], 8);
      ShortHasNoRest(src[0], 8);
      hide E.Lsb, Low, Shl;
      NumberSplits(E.Lsb(src[0], 8), E.ByteBits(src[1..]));
      ShlEight(Stream(src[1..]));
    }
  }

  lemma CarriesParts(src: seq<Byte>, blocks: seq<E.Block>, more: seq<E.Bit>)
    requires E.Carries(src, blocks, more)
    ensures E.WfStream(blocks, 0, []) && E.ByteBits(src) == E.StreamBits(blocks) + more
    ensures (0 + |E.StreamBits(blocks)| + |more|) % 8 == 0
  {
    hide E.WfStream, E.StreamBits, E.ByteBits;
    assert |E.StreamBits(blocks) + more| == 8 * |src|;
  }

  /** A stream in bytes, whatever comes after it, is decoded to its text, and what comes after it is left. */
  lemma StreamRestored(src: seq<Byte>, blocks: seq<E.Block>, more: seq<E.Bit>)
    requires E.Carries(src, blocks, more)
    ensures Blocks(Bits(Stream(src), 8 * |src|), []) == Done(BitsOf(more), E.TextOf([], blocks))
  {
    hide *;
    CarriesParts(src, blocks, more);
    BytesAreBits(src);
    ReadStream(blocks, 0, [], more);
  }

  lemma {:induction false} LsbOf(s: seq<E.Bit>)
    ensures Number(s) < Pow2(|s|) && E.Lsb(Number(s), |s|) == s
  {
    if s != [] {
      LsbOf(s[1..]);
      assert s == [s[0]] + s[1..];
    }
  }

  lemma OneMoreByte(a: Byte, p: seq<Byte>)
    ensures E.ByteBits([a] + p) == E.Lsb(a, 8) + E.ByteBits(p)
  {
    assert ([a] + p)[1..] == p;
  }

  lemma FirstOctet(first: seq<E.Bit>, src: seq<Byte>)
    requires |first| == 8
    ensures Number(first) < 256 && E.ByteBits([Number(first)] + src) == first + E.ByteBits(src)
  {
    PowersToDistance();
    LsbOf(first);
    hide *;
    OneMoreByte(Number(first), src);
  }

  lemma Nothing()
    ensures E.ByteBits([]) == [] && BitsOf([]) == Bits(0, 0)
  {
  }

  /** Every stream can be packed into bytes: fewer than eight bits are left over. */
  lemma {:induction false} Packed(bits: seq<E.Bit>) returns (src: seq<Byte>, pad: seq<E.Bit>)
    ensures |pad| < 8 && E.ByteBits(src) == bits + pad
    decreases |bits|
  {
    hide *;
    Nothing();
    if bits == [] {
      src, pad := [], [];
      assert bits + pad == [];
    } else if |bits| < 8 {
      pad := Zeros(8 - |bits|);
      FirstOctet(bits + pad, []);
      src := [Number(bits + pad)] + [];
    } else {
      src, pad := Packed(bits[8..]);
      FirstOctet(bits[..8], src);
      src := [Number(bits[..8])] + src;
      assert bits + pad == bits[..8] + (bits[8..] + pad);
    }
  }

  function Zeros(n: nat): (s: seq<E.Bit>)
    ensures |s| == n
  {
    if n == 0 then [] else [0] + Zeros(n - 1)
  }

  // ----- the plainest stream

  lemma {:induction false} LsbSplits(x: nat, q: nat, m: nat, k: nat)
    requires x < Pow2(m)
    ensures E.Lsb(x + Shl(q, m), m + k) == E.Lsb(x, m) + E.Lsb(q, k)
    decreases m
  {
    if m == 0 {
      assert [] + E.Lsb(q, k) == E.Lsb(q, k);
    } else {
      var s := x + Shl(q, m);
      assert s / 2 == x / 2 + Shl(q, m - 1) && s % 2 == x % 2;
      LsbSplits(x / 2, q, m - 1, k);
    }
  }

  lemma TwoOctets(lo: Byte, hi: Byte)
    ensures E.Lsb(lo + 256 * hi, 16) == E.Lsb(lo, 8) + E.Lsb(hi, 8)
  {
    PowersToDistance();
    ShlEight(hi);
    hide E.Lsb, Shl, Pow2;
    LsbSplits(lo, hi, 8, 8);
  }

  lemma FiveBytes(a: Byte, b: Byte, c: Byte, d: Byte, e: Byte, p: seq<Byte>)
    ensures E.ByteBits([a, b, c, d, e] + p)
         == E.Lsb(a, 8) + (E.Lsb(b, 8) + (E.Lsb(c, 8) + (E.Lsb(d, 8) + (E.Lsb(e, 8) + E.ByteBits(p)))))
  {
    hide *;
    OneMoreByte(e, p);
    OneMoreByte(d, [e] + p);
    OneMoreByte(c, [d] + ([e] + p));
    OneMoreByte(b, [c] + ([d] + ([e] + p)));
    OneMoreByte(a, [b] + ([c] + ([d] + ([e] + p))));
    FiveInFront(a, b, c, d, e, p);
  }

  lemma FiveInFront(a: Byte, b: Byte, c: Byte, d: Byte, e: Byte, p: seq<Byte>)
    ensures [a, b, c, d, e] + p == [a] + ([b] + ([c] + ([d] + ([e] + p))))
  {
    assert [d, e] + p == [d] + ([e] + p);
    assert [c, d, e] + p == [c] + ([d, e] + p);
    assert [b, c, d, e] + p == [b] + ([c, d, e] + p);
    assert [a, b, c, d, e] + p == [a] + ([b, c, d, e] + p);
  }

  /** The first byte of a stored block that is the last one: the bits in front of its type, and the rest of the byte. */
  lemma FirstByteIs()
    ensures E.Lsb(1, 8) == E.Lsb(1, 1) + (E.Lsb(0, 2) + [0, 0, 0, 0, 0])
  {
    NoBitsLeft(5);
    assert E.Lsb(0, 5) == [0, 0, 0, 0, 0];
    ShlOne(1);
    assert Pow2(1) == 2;
    LsbSplits(1, 0, 1, 7);
    ShlOne(2);
    LsbSplits(0, 0, 2, 5);
  }

  lemma {:induction false} NoBitsLeft(n: nat)
    ensures |E.Lsb(0, n)| == n && forall i :: 0 <= i < n ==> E.Lsb(0, n)[i] == 0
  {
    if n > 0 {
      NoBitsLeft(n - 1);
    }
  }

  function OneBlock(p: seq<Byte>): seq<E.Block> {
    [E.Stored(p, [0, 0, 0, 0, 0])]
  }

  lemma OneBlockIsWf(p: seq<Byte>)
    requires |p| < 0x1_0000
    ensures E.WfStream(OneBlock(p), 0, [])
  {
    hide E.BlockBits;
  }

  lemma OneBlockText(p: seq<Byte>)
    ensures E.TextOf([], OneBlock(p)) == p
  {
    assert OneBlock(p)[1..] == [] && [] + p == p;
  }

  lemma OneBlockBits(p: seq<Byte>)
    requires |p| < 0x1_0000
    ensures E.StreamBits(OneBlock(p)) ==
      E.Lsb(1, 1) + (E.Lsb(0, 2) + ([0, 0, 0, 0, 0] + (E.Lsb(|p|, 16) + (E.Lsb(0xFFFF - |p|, 16) + E.ByteBits(p)))))
  {
    hide E.Lsb, E.ByteBits;
    var bits := E.BlockBits(true, OneBlock(p)[0]);
    assert OneBlock(p)[1..] == [];
    assert E.StreamBits(OneBlock(p)) == bits + [] == bits;
  }

  lemma LowAndHigh(n: nat)
    requires n < 0x1_0000
    ensures n / 256 < 256 && n == n % 256 + 256 * (n / 256)
    ensures 0xFFFF - n == (255 - n % 256) + 256 * (255 - n / 256)
  {
  }

  lemma {:induction false} ByteBitsAdd(p: seq<Byte>, q: seq<Byte>)
    ensures E.ByteBits(p + q) == E.ByteBits(p) + E.ByteBits(q)
  {
    hide *;
    Nothing();
    if p == [] {
      assert [] + q == q && [] + E.ByteBits(q) == E.ByteBits(q);
    } else {
      var rest := p[1..];
      ByteBitsAdd(rest, q);
      OneMoreByte(p[0], rest);
      OneMoreByte(p[0], rest + q);
      assert p == [p[0]] + rest && p + q == [p[0]] + (rest + q);
    }
  }

  lemma Flatten(a: seq<E.Bit>, b: seq<E.Bit>, c: seq<E.Bit>, d: seq<E.Bit>, e: seq<E.Bit>, f: seq<E.Bit>,
      g: seq<E.Bit>, h: seq<E.Bit>, t: seq<E.Bit>)
    ensures (a + (b + c)) + (d + (e + (f + (g + (h + t))))) == (a + (b + (c + ((d + e) + ((f + g) + h))))) + t
  {
    assert ((f + g) + h) + t == f + (g + (h + t));
    var x, y := (f + g) + h, f + (g + (h + t));
    assert ((d + e) + x) + t == d + (e + (x + t));
    var z := (d + e) + x;
    assert (a + (b + (c + z))) + t == (a + (b + c)) + (z + t);
  }

  lemma OneBlockCarried(p: seq<Byte>, tail: seq<Byte>, src: seq<Byte>)
    requires |p| < 0x1_0000 && src == [1, |p| % 256, |p| / 256, 255 - |p| % 256, 255 - |p| / 256] + (p + tail)
    ensures E.ByteBits(src) == E.StreamBits(OneBlock(p)) + E.ByteBits(tail)
  {
    hide *;
    var lo, hi := |p| % 256, |p| / 256;
    LowAndHigh(|p|);
    FiveBytes(1, lo, hi, 255 - lo, 255 - hi, p + tail);
    ByteBitsAdd(p, tail);
    TwoOctets(lo, hi);
    TwoOctets(255 - lo, 255 - hi);
    FirstByteIs();
    OneBlockBits(p);
    Flatten(E.Lsb(1, 1), E.Lsb(0, 2), [0, 0, 0, 0, 0], E.Lsb(lo, 8), E.Lsb(hi, 8), E.Lsb(255 - lo, 8),
            E.Lsb(255 - hi, 8), E.ByteBits(p), E.ByteBits(tail));
  }

  /** One stored block, byte by byte: a length, its complement, and the text. */
  lemma StoredText(p: seq<Byte>, tail: seq<Byte>)
    requires |p| < 0x1_0000
    ensures var lo, hi := |p| % 256, |p| / 256;
      var src := [1, lo, hi, 255 - lo, 255 - hi] + p + tail;
      && E.Carries(src, OneBlock(p), E.ByteBits(tail)) && E.TextOf([], OneBlock(p)) == p
      && Blocks(Bits(Stream(src), 8 * |src|), []) == Done(Bits(Stream(tail), 8 * |tail|), p)
  {
    hide *;
    var src := [1, |p| % 256, |p| / 256, 255 - |p| % 256, 255 - |p| / 256] + p + tail;
    assert src == [1, |p| % 256, |p| / 256, 255 - |p| % 256, 255 - |p| / 256] + (p + tail);
    OneBlockCarried(p, tail, src);
    OneBlockIsWf(p);
    OneBlockText(p);
    CarriedBy(src, OneBlock(p), E.ByteBits(tail));
    StreamRestored(src, OneBlock(p), E.ByteBits(tail));
    BytesAreBits(tail);
  }

  lemma CarriedBy(src: seq<Byte>, blocks: seq<E.Block>, more: seq<E.Bit>)
    requires E.WfStream(blocks, 0, []) && E.ByteBits(src) == E.StreamBits(blocks) + more
    ensures E.Carries(src, blocks, more)
  {
  }

  // ----- what is refused

  /** A stored block needs two words that add up to 0xFFFF, and has the first one as its length. */
  lemma HeadExactly(b: Bits)
    requires b.n - b.n % 8 >= 32
    ensures var b0 := Drop(b, b.n % 8);
      var first, second := Peek(b0, 16), Peek(Drop(b0, 16), 16);
      StoredHead(b) == if first + second == 0xFFFF then GotHead(first, Drop(Drop(b0, 16), 16)) else NoHead(Bad)
  {
    Pow2Of16();
    hide Low, Shr, Pow2;
  }

  /** There is no block of type 3. */
  lemma NoFourthType(last: bool, more: seq<E.Bit>, out: seq<Byte>)
    ensures Blocks(BitsOf(E.Lsb(if last then 1 else 0, 1) + (E.Lsb(3, 2) + more)), out) == Fail(Bad)
  {
    PowersToDistance();
    hide E.Lsb, Low, Shr, BitsOf, Pow2;
    var l := if last then 1 else 0;
    ReadLsb(l, 1, E.Lsb(3, 2) + more);
    ReadLsb(3, 2, more);
  }

  /** Length symbols 286 and 287 have codes in the fixed set, but no meaning. */
  lemma NoSuchLength(s: nat, more: seq<E.Bit>)
    requires 286 <= s < 288
    ensures WfCodes(FIXED_LIT, FIXED_DIST)
    ensures NextToken(FIXED_LIT, FIXED_DIST, BitsOf(E.Msb(0xC0 + (s - 280), 8) + more)) == NoToken(Bad)
  {
    FixedCodesSame();
    FixedLitCode(s);
    hide FIXED_LIT, FIXED_DIST, E.Msb, BitsOf, NextSymbol, Kraft, CodeOf;
    ReadCode(FIXED_LIT, s, more);
  }

  /** Of the 32 strings of five bits 30 are distance codes, and the other two are errors. */
  lemma NoSuchDistance(c: nat, len: nat, more: seq<E.Bit>)
    requires 30 <= c < 32
    ensures |FIXED_DIST| == 30
    ensures DistanceAfter(len, FIXED_DIST, BitsOf(E.Msb(c, 5) + more)) == NoToken(Bad)
  {
    var v := Number(E.Msb(c, 5) + more);
    PowersToDistance();
    Front(E.Msb(c, 5), more);
    MsbRev(c, 5);
    RevOfLow(v, 5, 5);
    forall s | 0 <= s < 30
      ensures |FIXED_DIST| == 30 && !Matches(FIXED_DIST, s, v)
    {
      FixedDistCode(s);
    }
    FixedDistCode(0);
    FixedCount(0);
    hide FIXED_DIST, Rev, Number, E.Msb, CodeOf, Matches;
    assert FindSymbol(FIXED_DIST, v, 0) == 30;
  }
}
