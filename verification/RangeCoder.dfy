/**
  The binary range decoder of zload/LzmaDec.c: the macros NORMALIZE, IF_BIT_0, UPDATE_0,
  UPDATE_1 and the direct-bit step, as functions on an explicit (range, code, unread input).
 */
module RangeCoder {
  import opened Words

  const TOP: nat := 0x100_0000
  const BIT_MODEL_TOTAL: nat := 2048

  /** An adaptive probability. The bounds are an invariant of the update rule, see Adapt. */
  type Prob = p: nat | 31 <= p <= 2017 witness 1024

  datatype Rc = Rc(range: nat, code: nat, rest: seq<Byte>)

  /** What every step leaves behind: one 8-bit shift is enough to bring range back to TOP. */
  predicate Usable(rc: Rc) {
    0x1_0000 <= rc.range < U32 && rc.code < U32
  }

  predicate Normal(rc: Rc) {
    TOP <= rc.range < U32 && rc.code < U32
  }

  /** NORMALIZE would read past the end of the input. */
  predicate Starved(rc: Rc) {
    rc.range < TOP && rc.rest == []
  }

  function Normalize(rc: Rc): (r: Rc)
    requires Usable(rc) && !Starved(rc)
    ensures Normal(r)
    ensures Normal(rc) ==> r == rc
  {
    if rc.range < TOP
    then Rc(rc.range * 256, rc.code * 256 % U32 + rc.rest[0], rc.rest[1..])
    else rc
  }

  function Bound(rc: Rc, p: Prob): nat {
    rc.range / BIT_MODEL_TOTAL * p
  }

  /** The decoded bit: 1 exactly when code is not below the bound. */
  function BitOf(rc: Rc, p: Prob): (bit: nat)
    ensures bit <= 1
  {
    if rc.code < Bound(rc, p) then 0 else 1
  }

  /** range and code after UPDATE_0 or UPDATE_1. */
  function AfterBit(rc: Rc, p: Prob): (r: Rc)
    requires Normal(rc)
    ensures Usable(r) && r.rest == rc.rest
    ensures 67 * r.range >= rc.range
    ensures rc.code < rc.range ==> r.code < r.range
  {
    var bound := Bound(rc, p);
    BoundLeavesRoom(rc.range, p);
    if rc.code < bound then rc.(range := bound)
    else rc.(range := rc.range - bound, code := rc.code - bound)
  }

  lemma BoundLeavesRoom(range: nat, p: Prob)
    requires TOP <= range
    ensures 31 * (range / BIT_MODEL_TOTAL) <= range / BIT_MODEL_TOTAL * p
    ensures range / BIT_MODEL_TOTAL * p <= range - 31 * (range / BIT_MODEL_TOTAL)
    ensures 67 * (31 * (range / BIT_MODEL_TOTAL)) >= range
    ensures 31 * (range / BIT_MODEL_TOTAL) >= 0x1_0000
  {
    TimesProb(range / BIT_MODEL_TOTAL, p);
  }

  lemma TimesProb(q: nat, p: Prob)
    ensures 31 * q <= q * p <= 2017 * q
  {
  }

  /** The new probability stays in 31..2017 whatever the bit. */
  function Adapt(p: Prob, bit: nat): (q: Prob) {
    if bit == 0 then p + (BIT_MODEL_TOTAL - p) / 32 else p - p / 32
  }

  /** The branchless direct bit: the sign bit of (code - range) decides. */
  function DirectBit(rc: Rc): (bit: nat)
    requires Normal(rc)
    ensures bit <= 1
  {
    if WrapSub(rc.code, rc.range / 2) >= 0x8000_0000 then 0 else 1
  }

  function AfterDirect(rc: Rc): (r: Rc)
    requires Normal(rc)
    ensures Usable(r) && r.rest == rc.rest
    ensures 2 * r.range + 1 >= rc.range
  {
    var half := rc.range / 2;
    var c := WrapSub(rc.code, half);
    if c >= 0x8000_0000 then rc.(range := half) else rc.(range := half, code := c)
  }

  /** The commented-out form of the direct bit: compare, then subtract. */
  function DirectBitByCompare(rc: Rc): (bit: nat)
    requires Normal(rc)
    ensures bit <= 1
  {
    if rc.code >= rc.range / 2 then 1 else 0
  }

  function AfterDirectByCompare(rc: Rc): (r: Rc)
    requires Normal(rc)
    ensures Usable(r) && r.rest == rc.rest
  {
    var half := rc.range / 2;
    if rc.code >= half then rc.(range := half, code := rc.code - half) else rc.(range := half)
  }

  /**
    The two forms of the direct bit agree exactly when code is less than 2^31 above the halved
    range; a decoder whose code is below its range always is.
   */
  lemma DirectBitAgrees(rc: Rc)
    requires Normal(rc)
    ensures DirectBit(rc) == DirectBitByCompare(rc) <==> rc.code < rc.range / 2 + 0x8000_0000
    ensures AfterDirect(rc) == AfterDirectByCompare(rc) <==> rc.code < rc.range / 2 + 0x8000_0000
    ensures rc.code < rc.range ==> DirectBit(rc) == DirectBitByCompare(rc)
  {
  }

  /** The last value of code below an odd range: the one that a direct bit leaves at the range. */
  predicate AtTop(rc: Rc) {
    rc.range % 2 == 1 && rc.code == rc.range - 1
  }

  /** A direct bit keeps code below range except in one case: odd range, code == range - 1. */
  lemma DirectKeepsCodeBelow(rc: Rc)
    requires Normal(rc) && rc.code < rc.range
    ensures AfterDirect(rc).code <= AfterDirect(rc).range
    ensures AfterDirect(rc).code == AfterDirect(rc).range <==> AtTop(rc)
  {
  }

  lemma NormalizeKeepsCodeBelow(rc: Rc)
    requires Usable(rc) && !Starved(rc) && rc.code < rc.range
    ensures Normalize(rc).code < Normalize(rc).range
  {
  }

  /** One direct bit at the top is enough for the two forms to differ at the next direct bit. */
  lemma FormsDifferAfterTop()
    ensures var rc := Rc(0x1FF_FFFF, 0x1FF_FFFE, [0x80]);
      && Normal(rc) && rc.code < rc.range && AtTop(rc) && !Starved(AfterDirect(rc))
      && var next := Normalize(AfterDirect(rc)); DirectBit(next) == 0 && DirectBitByCompare(next) == 1
  {
    var rc := Rc(0x1FF_FFFF, 0x1FF_FFFE, [0x80]);
    assert AfterDirect(rc) == Rc(0xFF_FFFF, 0xFF_FFFF, [0x80]);
    assert Normalize(AfterDirect(rc)) == Rc(0xFFFF_FF00, 0xFFFF_FF80, []);
  }

  // ----- the unread input is only read by NORMALIZE

  function Extend(rc: Rc, more: seq<Byte>): Rc {
    rc.(rest := rc.rest + more)
  }

  lemma ExtendCommutes(rc: Rc, more: seq<Byte>)
    requires Usable(rc) && !Starved(rc)
    ensures !Starved(Extend(rc, more))
    ensures Normalize(Extend(rc, more)) == Extend(Normalize(rc), more)
    ensures var r := Normalize(rc);
      DirectBit(Extend(r, more)) == DirectBit(r) && AfterDirect(Extend(r, more)) == Extend(AfterDirect(r), more)
  {
    if rc.range < TOP {
      assert (rc.rest + more)[1..] == rc.rest[1..] + more;
    }
  }

  lemma BitIgnoresRest(r: Rc, p: Prob, more: seq<Byte>)
    requires Normal(r)
    ensures BitOf(Extend(r, more), p) == BitOf(r, p)
    ensures AfterBit(Extend(r, more), p) == Extend(AfterBit(r, p), more)
  {
  }

  function Keep(rc: Rc, keep: nat): Rc
    requires keep <= |rc.rest|
  {
    rc.(rest := rc.rest[..keep])
  }

  lemma KeepCommutes(rc: Rc, keep: nat)
    requires Usable(rc) && !Starved(rc) && keep <= |rc.rest|
    requires |rc.rest| - |Normalize(rc).rest| <= keep
    ensures !Starved(Keep(rc, keep))
    ensures Normalize(Keep(rc, keep)) == Keep(Normalize(rc), keep - (|rc.rest| - |Normalize(rc).rest|))
  {
  }

  lemma KeepIgnoresBit(r: Rc, p: Prob, keep: nat)
    requires Normal(r) && keep <= |r.rest|
    ensures BitOf(Keep(r, keep), p) == BitOf(r, p)
    ensures AfterBit(Keep(r, keep), p) == Keep(AfterBit(r, p), keep)
  {
  }
}
