/**
  An LZMA encoder, from the description of the format and not from the decoder: matches with their
  lengths and distances as plain numbers, the bits of each with the probability that codes it, and a
  range encoder. What the decoder makes of its output is proved in module LzmaRoundTrip.
 */
module LzmaEncoder {
  import opened Words
  import opened Lz77
  import RangeCoder

  // ----- the text

  datatype Token = Literal(b: Byte) | Match(dist: nat, len: nat) | Rep(idx: nat, len: nat) | ShortRep

  /** The text so far, the last four distances, the latest first, and the state 0 to 11. */
  datatype Coder = Coder(out: seq<Byte>, recent: seq<nat>, state: nat)

  const START: Coder := Coder([], [1, 1, 1, 1], 0)

  /** A distance of 1 stands for none as long as there is no text. */
  predicate Reaches(c: Coder, dicSize: nat, dist: nat) {
    1 <= dist && (dist == 1 || (dist <= |c.out| && dist <= dicSize))
  }

  predicate WfCoder(c: Coder, dicSize: nat) {
    && |c.recent| == 4 && (forall i :: 0 <= i < 4 ==> Reaches(c, dicSize, c.recent[i]))
    && c.state < 12 && (c.state >= 7 ==> c.out != [])
  }

  /** Matches are 2 to 273 bytes long, and reach back no further than the text and the dictionary. */
  predicate Allowed(c: Coder, dicSize: nat, t: Token) {
    match t
    case Literal(_) => true
    case Match(dist, len) => 2 <= len <= 273 && 1 <= dist <= |c.out| && dist <= dicSize
    case Rep(idx, len) => idx < 4 && 2 <= len <= 273 && c.out != []
    case ShortRep => c.out != []
  }

  /** The text and the distances after a token: a repeated distance moves to the front. */
  function After(c: Coder, dicSize: nat, t: Token): (c2: Coder)
    requires WfCoder(c, dicSize) && Allowed(c, dicSize, t)
    ensures WfCoder(c2, dicSize) && c.out <= c2.out && |c2.out| > |c.out|
  {
    match t
    case Literal(b) =>
      Coder(c.out + [b], c.recent, if c.state < 4 then 0 else if c.state < 10 then c.state - 3 else c.state - 6)
    case Match(dist, len) =>
      Coder(CopyMatch(c.out, dist, len), [dist] + c.recent[..3], if c.state < 7 then 7 else 10)
    case Rep(idx, len) =>
      var dist := c.recent[idx];
      Coder(CopyMatch(c.out, dist, len), [dist] + c.recent[..idx] + c.recent[idx + 1..],
            if c.state < 7 then 8 else 11)
    case ShortRep =>
      Coder(CopyMatch(c.out, c.recent[0], 1), c.recent, if c.state < 7 then 9 else 11)
  }

  predicate AllAllowed(c: Coder, dicSize: nat, ts: seq<Token>)
    requires WfCoder(c, dicSize)
    decreases |ts|
  {
    ts == [] || (Allowed(c, dicSize, ts[0]) && AllAllowed(After(c, dicSize, ts[0]), dicSize, ts[1..]))
  }

  function AfterAll(c: Coder, dicSize: nat, ts: seq<Token>): (c2: Coder)
    requires WfCoder(c, dicSize) && AllAllowed(c, dicSize, ts)
    ensures WfCoder(c2, dicSize) && c.out <= c2.out
    decreases |ts|
  {
    if ts == [] then c else AfterAll(After(c, dicSize, ts[0]), dicSize, ts[1..])
  }

  // ----- the bits of a token

  /** A bit with the place of its adaptive probability, or a bit that is coded as it is. */
  datatype Decision = Model(slot: nat, bit: nat) | Direct(bit: nat)

  /** The n bits of v, the highest first; m is the place in the tree of probabilities. */
  function Tree(base: nat, m: nat, n: nat, v: nat): seq<Decision>
    decreases n
  {
    if n == 0 then []
    else if v < Pow2(n - 1) then [Model(base + m, 0)] + Tree(base, 2 * m, n - 1, v)
    else [Model(base + m, 1)] + Tree(base, 2 * m + 1, n - 1, v - Pow2(n - 1))
  }

  /** The n bits of v, the lowest first. */
  function ReverseTree(base: nat, m: nat, n: nat, v: nat): seq<Decision>
    decreases n
  {
    if n == 0 then [] else [Model(base + m, v % 2)] + ReverseTree(base, 2 * m + v % 2, n - 1, v / 2)
  }

  function DirectBits(n: nat, v: nat): seq<Decision> {
    if n == 0 then []
    else if v < Pow2(n - 1) then [Direct(0)] + DirectBits(n - 1, v)
    else [Direct(1)] + DirectBits(n - 1, v - Pow2(n - 1))
  }

  /**
    The byte v after a match, with the byte w that the match would have gone on with: as long as the
    bits are the same, the probabilities are those for the next bit of w.
   */
  function MatchedTree(base: nat, m: nat, n: nat, v: nat, w: nat, same: bool): seq<Decision>
    decreases n
  {
    if n == 0 then []
    else
      var half := Pow2(n - 1);
      var bit, other := if v < half then 0 else 1, if w < half then 0 else 1;
      var slot := if same then base + 256 * (1 + other) + m else base + m;
      [Model(slot, bit)] + MatchedTree(base, 2 * m + bit, n - 1, v - bit * half, w - other * half, same && bit == other)
  }

  /** Lengths 2 to 9, 10 to 17 and 18 to 273. */
  function LenBits(base: nat, pos: nat, len: nat): seq<Decision>
    requires len >= 2
  {
    if len < 10 then [Model(base, 0)] + Tree(base + 2 + 8 * pos, 1, 3, len - 2)
    else if len < 18 then [Model(base, 1), Model(base + 1, 0)] + Tree(base + 130 + 8 * pos, 1, 3, len - 10)
    else [Model(base, 1), Model(base + 1, 1)] + Tree(base + 258, 1, 8, len - 18)
  }

  /** The place of the highest one bit. */
  function Log2(d: nat): nat {
    if d < 2 then 0 else 1 + Log2(d / 2)
  }

  /** The two highest bits of d and their place. */
  function SlotOf(d: nat): nat {
    if d < 4 then d else 2 * Log2(d) + (if d < 3 * Pow2(Log2(d) - 1) then 0 else 1)
  }

  /** The distance, less one: its slot, and the bits behind the two highest. */
  function DistBits(dist: nat, len: nat): seq<Decision>
    requires dist >= 1 && len >= 2
  {
    var d := dist - 1;
    var slot := SlotOf(d);
    Tree(432 + 64 * (if len < 5 then len - 2 else 3), 1, 6, slot) +
    if slot < 4 then []
    else
      var n := slot / 2 - 1;
      var base := (2 + slot % 2) * Pow2(n);
      var low := if d < base then 0 else d - base;
      if slot < 14 then ReverseTree(688 + base - slot - 1, 1, n, low)
      else DirectBits(n - 4, low / 16) + ReverseTree(802, 1, 4, low % 16)
  }

  function LowBitsOf(n: nat, k: nat): nat {
    n % Pow2(k)
  }

  /** All bits but the k lowest. */
  function HighBitsOf(n: nat, k: nat): nat {
    if k == 0 then n else HighBitsOf(n / 2, k - 1)
  }

  function Shifted(n: nat, k: nat): nat {
    n * Pow2(k)
  }

  function Position(c: Coder, pb: nat): nat {
    LowBitsOf(|c.out|, pb)
  }

  /** The probabilities of literals depend on the low bits of the position and the high bits of the last byte. */
  function LitBase(c: Coder, lc: nat, lp: nat): nat {
    var last := if c.out == [] then 0 else c.out[|c.out| - 1];
    var row, column := LowBitsOf(|c.out|, lp), HighBitsOf(last, if lc <= 8 then 8 - lc else 0);
    1846 + 768 * (Shifted(row, lc) + column)
  }

  function MatchBits(c: Coder, pos: nat, dist: nat, len: nat): seq<Decision>
    requires dist >= 1 && len >= 2
  {
    [Model(16 * c.state + pos, 1), Model(192 + c.state, 0)] + LenBits(818, pos, len) + DistBits(dist, len)
  }

  /** Which of the four distances. */
  function RepBits(state: nat, pos: nat, idx: nat): seq<Decision> {
    if idx == 0 then [Model(204 + state, 0), Model(240 + 16 * state + pos, 1)]
    else if idx == 1 then [Model(204 + state, 1), Model(216 + state, 0)]
    else [Model(204 + state, 1), Model(216 + state, 1), Model(228 + state, if idx == 2 then 0 else 1)]
  }

  function TokenBits(c: Coder, lc: nat, lp: nat, pb: nat, t: Token): seq<Decision>
    requires (t.Match? ==> t.dist >= 1 && t.len >= 2) && (t.Rep? ==> t.len >= 2)
    requires c.state >= 7 ==> |c.recent| == 4 && 1 <= c.recent[0] <= |c.out|
  {
    var pos := Position(c, pb);
    match t
    case Literal(b) =>
      [Model(16 * c.state + pos, 0)] +
      (if c.state < 7 then Tree(LitBase(c, lc, lp), 1, 8, b)
       else MatchedTree(LitBase(c, lc, lp), 1, 8, b, c.out[|c.out| - c.recent[0]], true))
    case Match(dist, len) => MatchBits(c, pos, dist, len)
    case Rep(idx, len) =>
      [Model(16 * c.state + pos, 1), Model(192 + c.state, 1)] + RepBits(c.state, pos, idx) + LenBits(1332, pos, len)
    case ShortRep =>
      [Model(16 * c.state + pos, 1), Model(192 + c.state, 1),
       Model(204 + c.state, 0), Model(240 + 16 * c.state + pos, 0)]
  }

  // ----- the range encoder

  /** What a decoder has to hold as its code, and the bytes that follow. */
  datatype Sent = Sent(code: nat, rest: seq<Byte>)

  /** The adaptive probabilities that have been used; the others are still 1024. */
  type Probs = map<nat, RangeCoder.Prob>

  function ProbOf(probs: Probs, slot: nat): RangeCoder.Prob {
    if slot in probs then probs[slot] else 1024
  }

  /** The part of the range for a bit 0, which is p of 2048 parts. */
  function PartOf(range: nat, p: RangeCoder.Prob): (part: nat)
    requires range >= 0x100_0000
    ensures 0x1_0000 <= part && part + 0x1_0000 <= range
  {
    RangeCoder.BoundLeavesRoom(range, p);
    range / 2048 * p
  }

  /**
    The encoding of the decisions from a range on, at the end of which code is 0. Each bit takes its
    part of the range, the lower one for 0, and its probability moves by a 32nd of what is left; a
    range below 2^24 takes in another byte of code.
   */
  function Send(ds: seq<Decision>, probs: Probs, range: nat): (s: Sent)
    requires 0x1_0000 <= range < U32
    ensures s.code < range
    decreases |ds|, if range < 0x100_0000 then 1 else 0
  {
    if range < 0x100_0000 then
      var s := Send(ds, probs, range * 256);
      Sent(s.code / 256, [s.code % 256] + s.rest)
    else if ds == [] then Sent(0, [])
    else if ds[0].Direct? then
      var s := Send(ds[1..], probs, range / 2);
      if ds[0].bit == 0 then s else Sent(range / 2 + s.code, s.rest)
    else
      var p := ProbOf(probs, ds[0].slot);
      var part := PartOf(range, p);
      if ds[0].bit == 0 then Send(ds[1..], probs[ds[0].slot := p + (2048 - p) / 32], part)
      else
        var s := Send(ds[1..], probs[ds[0].slot := p - p / 32], range - part);
        Sent(part + s.code, s.rest)
  }

  // ----- whole streams

  /** How a stream ends: with the text, with an end marker, or with a match that reaches back too far. */
  datatype Ending = Stop | Marker | TooFar(dist: nat, len: nat)

  predicate WfEnding(end: Ending) {
    end.TooFar? ==> 1 <= end.dist < 0x1_0000_0000 && 2 <= end.len <= 273
  }

  /** A distance that reaches back before the text, or further than the dictionary. */
  predicate IsTooFar(end: Ending, text: seq<Byte>, dicSize: nat) {
    end.TooFar? ==> end.dist > |text| || end.dist > dicSize
  }

  function EndBits(c: Coder, pb: nat, end: Ending): seq<Decision>
    requires WfEnding(end)
  {
    match end
    case Stop => []
    case Marker => MatchBits(c, Position(c, pb), 0x1_0000_0000, 2)
    case TooFar(dist, len) => MatchBits(c, Position(c, pb), dist, len)
  }

  function AllBits(c: Coder, dicSize: nat, lc: nat, lp: nat, pb: nat, ts: seq<Token>, end: Ending): seq<Decision>
    requires WfCoder(c, dicSize) && AllAllowed(c, dicSize, ts) && WfEnding(end)
    decreases |ts|
  {
    if ts == [] then EndBits(c, pb, end)
    else
      TokenBits(c, lc, lp, pb, ts[0]) + AllBits(After(c, dicSize, ts[0]), dicSize, lc, lp, pb, ts[1..], end)
  }

  /** The stream: a zero byte, the first four bytes of code, and the bytes that follow. */
  function Encoded(dicSize: nat, lc: nat, lp: nat, pb: nat, ts: seq<Token>, end: Ending): (s: seq<Byte>)
    requires AllAllowed(START, dicSize, ts) && WfEnding(end)
  {
    var s := Send(AllBits(START, dicSize, lc, lp, pb, ts, end), map[], 0xFFFF_FFFF);
    [0] + FourOctets(s.code) + s.rest
  }

  function TextOf(dicSize: nat, ts: seq<Token>): seq<Byte>
    requires AllAllowed(START, dicSize, ts)
  {
    AfterAll(START, dicSize, ts).out
  }

  function FourOctets(x: nat): (s: seq<Byte>)
    requires x < U32
    ensures |s| == 4
  {
    [x / 0x100_0000, x / 0x1_0000 % 0x100, x / 0x100 % 0x100, x % 0x100]
  }

  // ----- every text has a stream

  function Literals(s: seq<Byte>): seq<Token> {
    if s == [] then [] else [Literal(s[0])] + Literals(s[1..])
  }

  lemma {:induction false} LiteralsSpell(c: Coder, dicSize: nat, s: seq<Byte>)
    requires WfCoder(c, dicSize)
    ensures AllAllowed(c, dicSize, Literals(s)) && AfterAll(c, dicSize, Literals(s)).out == c.out + s
    decreases |s|
  {
    if s == [] {
      assert c.out + s == c.out;
    } else {
      var t, ts, c2 := Literal(s[0]), Literals(s[1..]), After(c, dicSize, Literal(s[0]));
      assert Allowed(c, dicSize, t) && c2.out == c.out + [s[0]] && Literals(s) == [t] + ts;
      hide After, WfCoder, Literals, Allowed;
      LiteralsSpell(c2, dicSize, s[1..]);
      assert ([t] + ts)[1..] == ts;
      assert c2.out + s[1..] == c.out + s;
    }
  }
}
