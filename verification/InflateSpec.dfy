/**
  DEFLATE as RFC 1951 defines it, on a bit string and an unbounded output: no bit buffer, no decoding
  tables, no window. The output starts empty, or with whatever a decoder's window holds before the
  first byte; HistoryIsFree says that this makes no difference to streams that RFC 1951 allows.
 */
module InflateSpec {
  import opened Words
  import opened BitReverse
  import opened Lz77
  import opened HuffmanCode
  import opened BitInput

  const HISTORY: nat := 0x8000
  const NEVER: nat := 99

  /** Order of the bit length code lengths. */
  const BORDER: seq<nat> := [16, 17, 18, 0, 8, 7, 9, 6, 10, 5, 11, 4, 12, 3, 13, 2, 14, 1, 15]

  /** Copy lengths and their extra bits for literal codes 257 to 285, and two codes that are never used. */
  const CPLENS: seq<nat> :=
    [3, 4, 5, 6, 7, 8, 9, 10, 11, 13, 15, 17, 19, 23, 27, 31,
     35, 43, 51, 59, 67, 83, 99, 115, 131, 163, 195, 227, 258, 0, 0]
  const CPLEXT: seq<nat> :=
    [0, 0, 0, 0, 0, 0, 0, 0, 1, 1, 1, 1, 2, 2, 2, 2,
     3, 3, 3, 3, 4, 4, 4, 4, 5, 5, 5, 5, 0, NEVER, NEVER]

  /** Copy offsets and their extra bits for distance codes 0 to 29. */
  const CPDIST: seq<nat> :=
    [1, 2, 3, 4, 5, 7, 9, 13, 17, 25, 33, 49, 65, 97, 129, 193,
     257, 385, 513, 769, 1025, 1537, 2049, 3073, 4097, 6145,
     8193, 12289, 16385, 24577]
  const CPDEXT: seq<nat> :=
    [0, 0, 0, 0, 1, 1, 2, 2, 3, 3, 4, 4, 5, 5, 6, 6,
     7, 7, 8, 8, 9, 9, 10, 10, 11, 11,
     12, 12, 13, 13]

  /**
    Why there is no result. Undefined: bits that begin with no code, in an incomplete set that the
    decoder accepts, although it never sets the table entries of such bits.
   */
  datatype Failure = Bad | Undefined | Ended

  // ----- symbols

  predicate Matches(lens: seq<nat>, s: nat, v: nat)
    requires s < |lens|
  {
    lens[s] > 0 && Rev(v, lens[s]) == CodeOf(lens, s)
  }

  /** The first symbol from s on whose code the bits begin with, or the number of symbols. */
  function FindSymbol(lens: seq<nat>, v: nat, s: nat): (r: nat)
    requires s <= |lens|
    ensures s <= r <= |lens| && (r < |lens| ==> Matches(lens, r, v))
    ensures forall i :: s <= i < r ==> !Matches(lens, i, v)
    decreases |lens| - s
  {
    if s == |lens| || Matches(lens, s, v) then s else FindSymbol(lens, v, s + 1)
  }

  datatype SymbolRead = Symbol(s: nat, rest: Bits) | NoSymbol(why: Failure)

  /** When bits that begin with no code are known to be bad. */
  predicate Determined(lens: seq<nat>) {
    Complete(lens) || CountLen(lens, 0) == 0 || NoCodes(lens)
  }

  function NextSymbol(lens: seq<nat>, b: Bits): (r: SymbolRead)
    ensures r.Symbol? ==> r.s < |lens| && lens[r.s] > 0 && lens[r.s] <= b.n && r.rest == Drop(b, lens[r.s])
  {
    var s := FindSymbol(lens, b.v, 0);
    if s == |lens| then NoSymbol(if Determined(lens) then Bad else Undefined)
    else if b.n < lens[s] then NoSymbol(Ended)
    else Symbol(s, Drop(b, lens[s]))
  }

  // ----- literals, matches and the end of a block

  datatype Token = Literal(b: Byte) | EndOfBlock | Match(len: nat, dist: nat)

  datatype TokenRead = Got(token: Token, rest: Bits) | NoToken(why: Failure)

  predicate WfCodes(lit: seq<nat>, dist: seq<nat>) {
    WfLens(lit) && WfLens(dist) && |dist| <= 30
  }

  function DistanceAfter(len: nat, dist: seq<nat>, b: Bits): (r: TokenRead)
    requires |dist| <= 30
    ensures r.Got? ==> r.token.Match? && r.token.len == len && 1 <= r.token.dist <= HISTORY && r.rest.n < b.n
  {
    match NextSymbol(dist, b)
    case NoSymbol(why) => NoToken(why)
    case Symbol(s, b2) =>
      if b2.n < CPDEXT[s] then NoToken(Ended)
      else
        DistanceRange(s);
        Got(Match(len, CPDIST[s] + Peek(b2, CPDEXT[s])), Drop(b2, CPDEXT[s]))
  }

  function LengthAfter(s: nat, dist: seq<nat>, b: Bits): (r: TokenRead)
    requires 257 <= s < 288 && |dist| <= 30
    ensures r.Got? ==> r.token.Match? && 3 <= r.token.len <= 258 && 1 <= r.token.dist <= HISTORY && r.rest.n < b.n
  {
    var e := CPLEXT[s - 257];
    if e == NEVER then NoToken(Bad)
    else if b.n < e then NoToken(Ended)
    else
      LengthRange(s - 257);
      DistanceAfter(CPLENS[s - 257] + Peek(b, e), dist, Drop(b, e))
  }

  function NextToken(lit: seq<nat>, dist: seq<nat>, b: Bits): (r: TokenRead)
    requires WfCodes(lit, dist)
    ensures r.Got? ==> r.rest.n < b.n
    ensures r.Got? && r.token.Match? ==> 3 <= r.token.len <= 258 && 1 <= r.token.dist <= HISTORY
  {
    match NextSymbol(lit, b)
    case NoSymbol(why) => NoToken(why)
    case Symbol(s, rest) =>
      if s < 256 then Got(Literal(s), rest)
      else if s == 256 then Got(EndOfBlock, rest)
      else LengthAfter(s, dist, rest)
  }

  lemma LengthRange(i: nat)
    requires i < 31 && CPLEXT[i] != NEVER
    ensures CPLEXT[i] <= 5 && 3 <= CPLENS[i] && CPLENS[i] + Pow2(CPLEXT[i]) <= 259
  {
    assert Pow2(0) == 1 && Pow2(1) == 2 && Pow2(2) == 4 && Pow2(3) == 8 && Pow2(4) == 16 && Pow2(5) == 32;
  }

  lemma PowersToDistance()
    ensures Pow2(0) == 1 && Pow2(1) == 2 && Pow2(2) == 4 && Pow2(3) == 8 && Pow2(4) == 16 && Pow2(5) == 32
    ensures Pow2(6) == 64 && Pow2(7) == 128 && Pow2(8) == 256 && Pow2(9) == 512 && Pow2(10) == 1024
    ensures Pow2(11) == 2048 && Pow2(12) == 4096 && Pow2(13) == 8192
  {
    assert Pow2(2) == 4 && Pow2(4) == 16 && Pow2(6) == 64;
    assert Pow2(8) == 256 && Pow2(10) == 1024 && Pow2(12) == 4096;
  }

  lemma DistanceRange(i: nat)
    requires i < 30
    ensures CPDEXT[i] <= 13 && 1 <= CPDIST[i] && CPDIST[i] + Pow2(CPDEXT[i]) <= HISTORY + 1
  {
    hide Pow2;
    PowersToDistance();
  }

  /** The base values and extra bits of successive codes leave no gap and do not overlap: 1 to 32768. */
  lemma DistancesTile(i: nat)
    requires i < 30
    ensures CPDIST[0] == 1 && CPDIST[i] + Pow2(CPDEXT[i]) == if i < 29 then CPDIST[i + 1] else HISTORY + 1
  {
    hide Pow2;
    PowersToDistance();
  }

  /** The same for lengths, 3 to 258, but that 258 has a code of its own besides the last of code 284. */
  lemma LengthsTile(i: nat)
    requires i < 28
    ensures CPLENS[0] == 3 && CPLENS[i] + Pow2(CPLEXT[i]) == if i < 27 then CPLENS[i + 1] else CPLENS[28] + 1
  {
    hide Pow2;
    PowersToDistance();
  }

  datatype Outcome = Done(rest: Bits, out: seq<Byte>) | Fail(why: Failure)

  function Apply(token: Token, out: seq<Byte>): (r: seq<Byte>)
    requires token.Match? ==> 1 <= token.dist <= |out|
    ensures |r| >= |out|
  {
    match token
    case Literal(b) => out + [b]
    case EndOfBlock => out
    case Match(len, dist) => CopyMatch(out, dist, len)
  }

  /** The compressed data of a block, to its end-of-block code. No distance may reach back before the output. */
  function BlockData(lit: seq<nat>, dist: seq<nat>, b: Bits, out: seq<Byte>): (r: Outcome)
    requires WfCodes(lit, dist)
    ensures r.Done? ==> r.rest.n < b.n && |r.out| >= |out|
    decreases b.n
  {
    match NextToken(lit, dist, b)
    case NoToken(why) => Fail(why)
    case Got(token, rest) =>
      if token.EndOfBlock? then Done(rest, out)
      else if token.Match? && token.dist > |out| then Fail(Bad)
      else BlockData(lit, dist, rest, Apply(token, out))
  }

  // ----- stored blocks

  function Octet(v: nat): Byte {
    PowersToDistance();
    Low(v, 8)
  }

  /** n bytes. */
  function Bytes(v: nat, n: nat): (s: seq<Byte>)
    ensures |s| == n
    decreases n
  {
    if n == 0 then [] else [Octet(v)] + Bytes(Shr(v, 8), n - 1)
  }

  function Complement16(x: nat): nat
    requires x < 0x10000
  {
    0xffff - x
  }

  lemma HeadBits(n: nat)
    requires n - n % 8 >= 32
    ensures (n - n % 8 - 16 - 16) % 8 == 0 && Pow2(16) == FULL
  {
    Pow2Of16();
  }

  datatype HeadRead = GotHead(len: nat, rest: Bits) | NoHead(why: Failure)

  /** From the next byte boundary on, a length and its complement. */
  function StoredHead(b: Bits): (r: HeadRead)
    ensures if r.GotHead? then r.rest.n <= b.n && r.rest.n % 8 == 0 else r.why != Undefined
  {
    hide Shr, Low, Shl;
    var b0 := Drop(b, b.n % 8);
    if b0.n < 16 then NoHead(Ended)
    else
      var len, b1 := Peek(b0, 16), Drop(b0, 16);
      if b1.n < 16 then NoHead(Ended)
      else
        HeadBits(b.n);
        if Peek(b1, 16) != Complement16(len) then NoHead(Bad) else GotHead(len, Drop(b1, 16))
  }

  /** And that many bytes. */
  function StoredBlock(b: Bits, out: seq<Byte>): (r: Outcome)
    ensures r.Done? ==> r.rest.n <= b.n && |r.out| >= |out|
  {
    match StoredHead(b)
    case NoHead(why) => Fail(why)
    case GotHead(len, rest) =>
      if rest.n < 8 * len then Fail(Ended) else Done(Drop(rest, 8 * len), out + Bytes(rest.v, len))
  }

  // ----- fixed codes

  const FIXED_LIT: seq<nat> :=
    Copies(144, 8) + Copies(112, 9) + Copies(24, 7) + Copies(8, 8)

  const FIXED_DIST: seq<nat> := Copies(30, 5)

  // ----- dynamic codes

  function Copies(n: nat, x: nat): (s: seq<nat>)
    ensures |s| == n && forall i :: 0 <= i < n ==> s[i] == x
  {
    seq(n, _ => x)
  }

  /** Lengths as the bit length codes can give them. */
  predicate Short15(lens: seq<nat>) {
    forall i :: 0 <= i < |lens| ==> lens[i] <= 15
  }

  datatype LengthsRead = GotLengths(lens: seq<nat>, rest: Bits) | NoLengths(why: Failure)

  function Last(lens: seq<nat>): nat {
    if lens == [] then 0 else lens[|lens| - 1]
  }

  /** A length x, repeated by as much as the next bits say, if that is not more than n lengths in all. */
  function Repeated(lens: seq<nat>, n: nat, x: nat, least: nat, bits: nat, b: Bits): LengthsRead
  {
    if b.n < bits then NoLengths(Ended)
    else
      var j := least + Peek(b, bits);
      if |lens| + j > n then NoLengths(Bad)
      else GotLengths(lens + Copies(j, x), Drop(b, bits))
  }

  /** What bit length symbol s does to the lengths read so far. */
  function AddLengths(lens: seq<nat>, n: nat, s: nat, b: Bits): (r: LengthsRead)
    requires |lens| < n && s < 19 && Short15(lens)
    ensures r.GotLengths? ==> |lens| < |r.lens| <= n && r.rest.n <= b.n && Short15(r.lens)
  {
    if s < 16 then GotLengths(lens + [s], b)
    else if s == 16 then Repeated(lens, n, Last(lens), 3, 2, b)
    else if s == 17 then Repeated(lens, n, 0, 3, 3, b)
    else Repeated(lens, n, 0, 11, 7, b)
  }

  /** n code lengths, run-length coded with the code of the bit lengths bl. */
  function Lengths(bl: seq<nat>, n: nat, lens: seq<nat>, b: Bits): (r: LengthsRead)
    requires |bl| == 19 && |lens| <= n && Short15(lens)
    ensures r.GotLengths? ==> |r.lens| == n && r.rest.n <= b.n && Short15(r.lens)
    decreases n - |lens|
  {
    if |lens| == n then GotLengths(lens, b)
    else
      match NextSymbol(bl, b)
      case NoSymbol(why) => NoLengths(why)
      case Symbol(s, b1) =>
        match AddLengths(lens, n, s, b1)
        case NoLengths(why) => NoLengths(why)
        case GotLengths(lens2, b2) => Lengths(bl, n, lens2, b2)
  }

  /** The first j bit length code lengths in the order they are sent, all others 0. */
  function BitLengths(b: Bits, j: nat): (bl: seq<nat>)
    requires j <= 19 && 3 * j <= b.n
    ensures |bl| == 19 && forall i :: 0 <= i < 19 ==> bl[i] <= 7
  {
    if j == 0 then Copies(19, 0)
    else
      PowersToDistance();
      BitLengths(b, j - 1)[BORDER[j - 1] := Peek(Drop(b, 3 * (j - 1)), 3)]
  }

  /** The sets of code lengths that the decoder goes on with: complete ones, a single code, or no code at all. */
  predicate Accepted(lens: seq<nat>) {
    || Complete(lens) || NoCodes(lens)
    || (Kraft(lens) < FULL && forall s :: 0 <= s < |lens| ==> lens[s] <= 1)
  }

  datatype CodesRead = GotCodes(lit: seq<nat>, dist: seq<nat>, rest: Bits) | NoCodesRead(why: Failure)

  /** The header of a dynamic block. */
  function DynamicCodes(b: Bits): (r: CodesRead)
    ensures r.GotCodes? ==> WfCodes(r.lit, r.dist) && r.rest.n <= b.n
  {
    if b.n < 5 then NoCodesRead(Ended)
    else
      var nl, b1 := 257 + Peek(b, 5), Drop(b, 5);
      if b1.n < 5 then NoCodesRead(Ended)
      else
        var nd, b2 := 1 + Peek(b1, 5), Drop(b1, 5);
        if b2.n < 4 then NoCodesRead(Ended)
        else
          var nb, b3 := 4 + Peek(b2, 4), Drop(b2, 4);
          CodesAfter(nl, nd, nb, b3)
  }

  function CodesAfter(nl: nat, nd: nat, nb: nat, b: Bits): (r: CodesRead)
    requires 257 <= nl && 1 <= nd
    ensures r.GotCodes? ==> WfCodes(r.lit, r.dist) && |r.lit| <= 286 && r.rest.n <= b.n
  {
    if nl > 286 || nd > 30 then NoCodesRead(Bad)
    else if nb > 19 || b.n < 3 * nb then NoCodesRead(Ended)
    else
      var bl := BitLengths(b, nb);
      if !Accepted(bl) then NoCodesRead(Bad)
      else
        match Lengths(bl, nl + nd, [], Drop(b, 3 * nb))
        case NoLengths(why) => NoCodesRead(why)
        case GotLengths(lens, rest) =>
          if !Accepted(lens[..nl]) || !Accepted(lens[nl..]) then NoCodesRead(Bad)
          else GotCodes(lens[..nl], lens[nl..], rest)
  }

  function DynamicBlock(b: Bits, out: seq<Byte>): (r: Outcome)
    ensures r.Done? ==> r.rest.n <= b.n && |r.out| >= |out|
  {
    match DynamicCodes(b)
    case NoCodesRead(why) => Fail(why)
    case GotCodes(lit, dist, rest) => BlockData(lit, dist, rest, out)
  }

  function FixedBlock(b: Bits, out: seq<Byte>): (r: Outcome)
    ensures r.Done? ==> r.rest.n <= b.n && |r.out| >= |out|
  {
    BlockData(FIXED_LIT, FIXED_DIST, b, out)
  }

  // ----- blocks

  function TypedBlock(kind: nat, b: Bits, out: seq<Byte>): (r: Outcome)
    ensures r.Done? ==> r.rest.n <= b.n && |r.out| >= |out|
  {
    if kind == 2 then DynamicBlock(b, out)
    else if kind == 0 then StoredBlock(b, out)
    else if kind == 1 then FixedBlock(b, out)
    else Fail(Bad)
  }

  /** One block after the other, up to the last one. */
  function Blocks(b: Bits, out: seq<Byte>): (r: Outcome)
    ensures r.Done? ==> r.rest.n <= b.n && |r.out| >= |out|
    decreases b.n
  {
    if b.n < 3 then Fail(Ended)
    else
      var last, kind, b1 := Peek(b, 1), Peek(Drop(b, 1), 2), Drop(b, 3);
      var r := TypedBlock(kind, b1, out);
      if r.Fail? || last == 1 then r else Blocks(r.rest, r.out)
  }

  // ----- what was there before the output

  lemma {:induction false} CopyBehind(pre: seq<Byte>, out: seq<Byte>, dist: nat, n: nat)
    requires 1 <= dist <= |out|
    ensures CopyMatch(pre + out, dist, n) == pre + CopyMatch(out, dist, n)
    decreases n
  {
    if n > 0 {
      var x := Back(out, dist);
      assert Back(pre + out, dist) == x && (pre + out) + [x] == pre + (out + [x]);
      CopyBehind(pre, out + [x], dist, n - 1);
    }
  }

  /** Bytes in front of the output do not matter to a block that does not reach back to them. */
  lemma {:induction false} DataIsFree(lit: seq<nat>, dist: seq<nat>, b: Bits, pre: seq<Byte>, out: seq<Byte>)
    requires WfCodes(lit, dist) && BlockData(lit, dist, b, out).Done?
    ensures var r := BlockData(lit, dist, b, out);
      BlockData(lit, dist, b, pre + out) == Done(r.rest, pre + r.out)
    decreases b.n
  {
    hide NextToken, WfCodes, CopyMatch;
    var r := NextToken(lit, dist, b);
    if r.token.Literal? {
      assert (pre + out) + [r.token.b] == pre + (out + [r.token.b]);
      DataIsFree(lit, dist, r.rest, pre, Apply(r.token, out));
    } else if r.token.Match? {
      CopyBehind(pre, out, r.token.dist, r.token.len);
      DataIsFree(lit, dist, r.rest, pre, Apply(r.token, out));
    }
  }

  lemma BlockIsFree(kind: nat, b: Bits, pre: seq<Byte>, out: seq<Byte>)
    requires TypedBlock(kind, b, out).Done?
    ensures var r := TypedBlock(kind, b, out);
      TypedBlock(kind, b, pre + out) == Done(r.rest, pre + r.out)
  {
    hide BlockData, StoredHead, DynamicCodes, Bytes;
    if kind == 2 {
      var c := DynamicCodes(b);
      DataIsFree(c.lit, c.dist, c.rest, pre, out);
    } else if kind == 0 {
      var h := StoredHead(b);
      assert (pre + out) + Bytes(h.rest.v, h.len) == pre + (out + Bytes(h.rest.v, h.len));
    } else {
      DataIsFree(FIXED_LIT, FIXED_DIST, b, pre, out);
    }
  }

  /** A stream that RFC 1951 allows gives the same output, whatever a decoder's window holds before it. */
  lemma {:induction false} HistoryIsFree(b: Bits, pre: seq<Byte>, out: seq<Byte>)
    requires Blocks(b, out).Done?
    ensures Blocks(b, pre + out) == Done(Blocks(b, out).rest, pre + Blocks(b, out).out)
    decreases b.n
  {
    hide TypedBlock, Shr, Low;
    var last, kind, b1 := Peek(b, 1), Peek(Drop(b, 1), 2), Drop(b, 3);
    BlockIsFree(kind, b1, pre, out);
    var r := TypedBlock(kind, b1, out);
    if last != 1 {
      HistoryIsFree(r.rest, pre, r.out);
    }
  }
}
