/** Blocks of zload/inflate.c: inflate_stored, inflate_fixed, inflate_dynamic, inflate_block and inflate. */
module InflateBlock {
  import opened Words
  import opened BitReverse
  import opened Lz77
  import opened HuffmanCode
  import opened HuftTable
  import opened BitInput
  import opened SlideWindow
  import opened InflateSpec
  import opened InflateCodes
  import opened InflateHeader
  import opened FixedCodes
  import Crc
  import DeflateEncoder
  import DeflateRoundTrip

  // ----- stored blocks

  lemma FirstByte(v: nat, n: nat)
    ensures Bytes(v, n + 1) == [Octet(v)] + Bytes(Shr(v, 8), n) && Bytes(v, 0) == []
  {
    hide Octet, Shr;
  }

  lemma {:induction false} BytesAppend(v: nat, n: nat)
    ensures Bytes(v, n + 1) == Bytes(v, n) + [Octet(Shr(v, 8 * n))]
    decreases n
  {
    hide Octet, Shr, Bytes;
    FirstByte(v, n);
    if n > 0 {
      FirstByte(v, n - 1);
      BytesAppend(Shr(v, 8), n - 1);
      ShrAdds(v, 8, 8 * (n - 1));
    } else {
      NoShift(v);
      FirstByte(Shr(v, 8), 0);
    }
  }

  lemma OctetIs(x: nat, b: Bits)
    requires x == Peek(b, 8)
    ensures x < 256 && Octet(b.v) == x
  {
    PowersToDistance();
  }

  /** NEEDBITS(8), slide[w++] = (uch)b with a flush when the window is full, DUMPBITS(8). */
  method CopyByte(r: BitReader, w: Slide) returns (ok: bool)
    requires r.Valid() && w.Valid()
    modifies r, w, w.slide
    ensures r.Valid() && w.Valid() && (ok <==> 8 <= old(r.Rest()).n)
    ensures ok ==> r.Rest() == Drop(old(r.Rest()), 8) && w.History() == old(w.History()) + [Octet(old(r.Rest()).v)]
    ensures !ok ==> w.History() == old(w.History())
  {
    hide Shl, Shr, Low, Pow2;
    ok := r.NeedBits(8);
    if ok {
      var x := r.Mask(8);
      OctetIs(x, r.Rest());
      w.PutByte(x);
      r.DumpBits(8);
    }
  }

  lemma BytesStep(v: nat, n: nat, h: seq<Byte>)
    ensures h + Bytes(v, n + 1) == (h + Bytes(v, n)) + [Octet(Shr(v, 8 * n))]
  {
    hide Bytes, Octet, Shr;
    BytesAppend(v, n);
  }

  lemma DropByte(b: Bits, n: nat)
    requires 8 * n + 8 <= b.n
    ensures Drop(Drop(b, 8 * n), 8) == Drop(b, 8 * (n + 1))
  {
    DropAdds(b, 8 * n, 8);
  }

  /** What n bytes have done to the input and the output. */
  ghost predicate Moved(b: Bits, h: seq<Byte>, n: nat, b2: Bits, h2: seq<Byte>) {
    8 * n <= b.n && b2 == Drop(b, 8 * n) && h2 == h + Bytes(b.v, n)
  }

  lemma MovedStart(b: Bits, h: seq<Byte>)
    ensures Moved(b, h, 0, b, h)
  {
    NoShift(b.v);
    assert Bytes(b.v, 0) == [];
  }

  lemma MovedOn(b: Bits, h: seq<Byte>, n: nat, b2: Bits, h2: seq<Byte>)
    requires Moved(b, h, n, b2, h2)
    ensures b2.n == b.n - 8 * n
    ensures b2.n >= 8 ==> Moved(b, h, n + 1, Drop(b2, 8), h2 + [Octet(b2.v)])
  {
    hide Bytes, Octet, Shr;
    if b2.n >= 8 {
      DropByte(b, n);
      BytesStep(b.v, n, h);
    }
  }

  /** Read and output n bytes. */
  method CopyStored(r: BitReader, w: Slide, n0: nat) returns (ok: bool)
    requires r.Valid() && w.Valid()
    modifies r, w, w.slide
    ensures r.Valid() && w.Valid() && (ok <==> 8 * n0 <= old(r.Rest()).n)
    ensures ok ==> Moved(old(r.Rest()), old(w.History()), n0, r.Rest(), w.History())
  {
    hide *;
    w.Long();
    ghost var b, h := r.Rest(), w.History();
    MovedStart(b, h);
    var n: nat := n0;
    ghost var done: nat := 0;
    while n != 0
      invariant r.Valid() && w.Valid() && w.slide.Length == WSIZE && w.wp < WSIZE
      invariant done + n == n0 && Moved(b, h, done, r.Rest(), w.History())
      decreases n
    {
      n := n - 1;
      MovedOn(b, h, done, r.Rest(), w.History());
      ok := CopyByte(r, w);
      if !ok {
        return;
      }
      w.Long();
      done := done + 1;
    }
    MovedOn(b, h, done, r.Rest(), w.History());
    ok := true;
  }

  /** Go to byte boundary. */
  method ToByteBoundary(r: BitReader)
    requires r.Valid()
    modifies r
    ensures r.Valid() && r.Rest() == Drop(old(r.Rest()), old(r.Rest()).n % 8)
  {
    hide Shl, Shr, Low, Pow2;
    var n := r.bk % 8;
    r.DumpBits(n);
  }

  /** What StoredHead(b) says of a result. */
  ghost predicate HeadAgrees(spec: HeadRead, code: nat, n: nat, rest: Bits) {
    match spec
    case GotHead(len, b) => code == OK && n == len && rest == b
    case NoHead(Bad) => code == ERROR
    case NoHead(Ended) => code == ENDED
    case NoHead(Undefined) => true
  }

  /** Get the length and its complement. */
  method ReadStoredHead(r: BitReader) returns (code: nat, n: nat)
    requires r.Valid()
    modifies r
    ensures r.Valid() && (code == OK || code == ERROR || code == ENDED)
    ensures HeadAgrees(StoredHead(old(r.Rest())), code, n, r.Rest())
  {
    hide Shl, Shr, Low;
    Pow2Of16();
    hide Pow2, BitReader.Valid, BitReader.Rest;
    ToByteBoundary(r);
    n := 0;
    var ok := r.NeedBits(16);
    if !ok {
      return ENDED, n;
    }
    n := r.Mask(16);
    r.DumpBits(16);
    ok := r.NeedBits(16);
    if !ok {
      return ENDED, n;
    }
    if r.Mask(16) != Complement16(n) {
      return ERROR, n;
    }
    r.DumpBits(16);
    code := OK;
  }

  /** inflate_stored */
  method Stored(r: BitReader, w: Slide) returns (code: nat)
    requires r.Valid() && w.Valid()
    modifies r, w, w.slide
    ensures r.Valid() && w.Valid() && (code == OK || code == ERROR || code == ENDED)
    ensures code == OK ==> r.Rest().n <= old(r.Rest()).n && r.Rest().n % 8 == 0
    ensures Agrees(StoredBlock(old(r.Rest()), old(w.History())), code, r.Rest(), w.History())
  {
    hide Shl, Shr, Low, Pow2, Bytes, BitReader.Valid, BitReader.Rest, Slide.Valid, Slide.History, StoredHead;
    var n;
    code, n := ReadStoredHead(r);
    if code != OK {
      return;
    }
    var ok := CopyStored(r, w, n);
    code := if ok then OK else ENDED;
  }

  // ----- blocks with fixed codes

  lemma FixedFits()
    ensures WfCodes(FIXED_LIT, FIXED_DIST) && FitsWidth(FIXED_LIT, 7) && FitsWidth(FIXED_DIST, 5)
    ensures Accepted(FIXED_LIT) && !NoCodes(FIXED_DIST)
    ensures forall s :: 0 <= s < |FIXED_DIST| ==> FIXED_DIST[s] <= 10
  {
    FixedKraft();
    FixedSizes();
    hide FIXED_LIT, FIXED_DIST, Kraft;
    assert FIXED_DIST[0] <= 5;
  }

  /** Set up the literal table. */
  method FixedLengths() returns (l: array<nat>)
    ensures fresh(l) && l.Length == 288 && l[..] == FIXED_LIT
  {
    l := new nat[288];
    var i := 0;
    while i < 144
      invariant 0 <= i <= 144 && forall j :: 0 <= j < i ==> l[j] == 8
    {
      l[i] := 8;
      i := i + 1;
    }
    while i < 256
      invariant 144 <= i <= 256 && (forall j :: 0 <= j < 144 ==> l[j] == 8) && forall j :: 144 <= j < i ==> l[j] == 9
    {
      l[i] := 9;
      i := i + 1;
    }
    while i < 280
      invariant 256 <= i <= 280
      invariant (forall j :: 0 <= j < 144 ==> l[j] == 8) && forall j :: 144 <= j < 256 ==> l[j] == 9
      invariant forall j :: 256 <= j < i ==> l[j] == 7
    {
      l[i] := 7;
      i := i + 1;
    }
    while i < 288
      invariant 280 <= i <= 288
      invariant (forall j :: 0 <= j < 144 ==> l[j] == 8) && forall j :: 144 <= j < 256 ==> l[j] == 9
      invariant (forall j :: 256 <= j < 280 ==> l[j] == 7) && forall j :: 280 <= j < i ==> l[j] == 8
    {
      l[i] := 8;
      i := i + 1;
    }
  }

  /** Set up the distance table: an incomplete code set. */
  method FixedDistances(l: array<nat>)
    requires l.Length == 288
    modifies l
    ensures l[..30] == FIXED_DIST
  {
    var i := 0;
    while i < 30
      invariant 0 <= i <= 30 && forall j :: 0 <= j < i ==> l[j] == 5
    {
      l[i] := 5;
      i := i + 1;
    }
  }

  /** The tables of the fixed codes: there is always a way to build them. */
  method FixedTables(mem: array<Huft>, hp0: nat) returns (code: nat, t: Tables, ghost k: Known)
    requires 1 <= hp0 <= mem.Length
    modifies mem
    ensures code == OK || (code == NO_MEMORY && hp0 + BLOCK_ENOUGH > mem.Length)
    ensures code == OK ==> Ready(mem[..], t, k) && k.lit == FIXED_LIT && k.dist == FIXED_DIST
  {
    FixedFits();
    FixedKraft();
    SetsAreWf(FIXED_LIT, FIXED_DIST);
    hide Pow2, Kraft, Accepted, FitsWidth, Tabled, Copies, FIXED_LIT, FIXED_DIST;
    t, k := Tables(NULL, NULL, 7, 5), Known(FIXED_LIT, FIXED_DIST, {}, {});
    var l := FixedLengths();
    var tl, bl, hp, td, bd, hp2;
    ghost var wl, wd;
    code, tl, bl, hp, wl := BuildTables(LitSet(l[..]), NULL, 7, mem, hp0);
    if code != OK {
      return;
    }
    ghost var after := mem[..];
    FixedDistances(l);
    code, td, bd, hp2, wd := BuildTables(DistSet(l[..30]), NULL, 5, mem, hp);
    if code > 1 {
      return;
    }
    code := OK;
    TabledStays(after, mem[..], wl, LitSet(FIXED_LIT), tl, bl, hp);
    t, k := Tables(tl, td, bl, bd), Known(FIXED_LIT, FIXED_DIST, wl, wd);
  }

  /** inflate_fixed */
  method Fixed(r: BitReader, w: Slide, mem: array<Huft>, hp0: nat) returns (code: nat)
    requires r.Valid() && w.Valid() && 1 <= hp0 <= mem.Length
    modifies r, w, w.slide, mem
    ensures code == NO_MEMORY ==> hp0 + BLOCK_ENOUGH > mem.Length
    ensures r.Valid() && w.Valid() && code <= 4 && |old(w.History())| >= HISTORY
    ensures code == OK ==> r.Rest().n <= old(r.Rest()).n
    ensures Agrees(FixedBlock(old(r.Rest()), old(w.History())), code, r.Rest(), w.History())
  {
    hide Ready, FIXED_LIT, FIXED_DIST, BlockData, BitReader.Valid, BitReader.Rest, Slide.Valid, Slide.History;
    w.Long();
    var t;
    ghost var k;
    code, t, k := FixedTables(mem, hp0);
    assert w.Valid();
    if code != OK {
      return;
    }
    TablesReady(mem[..], t, k);
    code := DecodeCodes(r, w, mem, t.tl, t.td, t.bl, t.bd, k.wl, k.wd, k.lit, k.dist);
  }

  lemma TablesReady(mem: seq<Huft>, t: Tables, k: Known)
    requires Ready(mem, t, k)
    ensures BothTabled(mem, k.wl, k.wd, k.lit, k.dist, t.tl, t.td, t.bl, t.bd) && WfCodes(k.lit, k.dist)
  {
  }

  // ----- blocks with dynamic codes

  /** inflate_dynamic */
  method Dynamic(r: BitReader, w: Slide, mem: array<Huft>, hp0: nat) returns (code: nat)
    requires r.Valid() && w.Valid() && 1 <= hp0 <= mem.Length
    modifies r, w, w.slide, mem
    ensures code == NO_MEMORY ==> hp0 + BLOCK_ENOUGH > mem.Length
    ensures r.Valid() && w.Valid() && code <= 4 && |old(w.History())| >= HISTORY
    ensures code == OK ==> r.Rest().n <= old(r.Rest()).n
    ensures Agrees(DynamicBlock(old(r.Rest()), old(w.History())), code, r.Rest(), w.History())
  {
    hide Ready, BlockData, DynamicCodes, BitReader.Valid, BitReader.Rest, Slide.Valid, Slide.History;
    w.Long();
    var t;
    ghost var k;
    code, t, k := ReadCodes(r, mem, hp0);
    assert w.Valid();
    if code != OK {
      return;
    }
    TablesReady(mem[..], t, k);
    code := DecodeCodes(r, w, mem, t.tl, t.td, t.bl, t.bd, k.wl, k.wd, k.lit, k.dist);
  }

  // ----- all blocks

  /** inflate_block; e is the last block flag. */
  method Block(r: BitReader, w: Slide, mem: array<Huft>, hp0: nat) returns (code: nat, e: nat)
    requires r.Valid() && w.Valid() && 1 <= hp0 <= mem.Length
    modifies r, w, w.slide, mem
    ensures code == NO_MEMORY ==> hp0 + BLOCK_ENOUGH > mem.Length
    ensures r.Valid() && w.Valid() && code <= 4 && |old(w.History())| >= HISTORY
    ensures e < 2 && (code == OK ==> r.Rest().n < old(r.Rest()).n)
    ensures var b := old(r.Rest());
      if b.n < 3 then code == ENDED
      else
        && (code == OK ==> e == Peek(b, 1))
        && Agrees(TypedBlock(Peek(Drop(b, 1), 2), Drop(b, 3), old(w.History())), code, r.Rest(), w.History())
  {
    hide Shl, Shr, Low, Pow2, DynamicBlock, StoredBlock, FixedBlock, BitReader.Valid, BitReader.Rest, Slide.Valid,
        Slide.History;
    w.Long();
    e := 0;
    var ok := r.NeedBits(1);
    if !ok {
      return ENDED, e;
    }
    PowOne();
    e := r.Mask(1);
    r.DumpBits(1);
    ok := r.NeedBits(2);
    if !ok {
      return ENDED, e;
    }
    var t := r.Mask(2);
    r.DumpBits(2);
    DropAdds(old(r.Rest()), 1, 2);
    if t == 2 {
      code := Dynamic(r, w, mem, hp0);
    } else if t == 0 {
      code := Stored(r, w);
    } else if t == 1 {
      code := Fixed(r, w, mem, hp0);
    } else {
      code := 2;
    }
  }

  /** Decompress until the last block. Each block's tables are released after it. */
  method DecodeBlocks(r: BitReader, w: Slide, mem: array<Huft>, hp0: nat) returns (code: nat)
    requires r.Valid() && w.Valid() && 1 <= hp0 <= mem.Length
    modifies r, w, w.slide, mem
    ensures code == NO_MEMORY ==> hp0 + BLOCK_ENOUGH > mem.Length
    ensures r.Valid() && w.Valid() && code <= 4 && |old(w.History())| >= HISTORY
    ensures Agrees(Blocks(old(r.Rest()), old(w.History())), code, r.Rest(), w.History())
  {
    hide Shl, Shr, Low, Pow2, TypedBlock, BitReader.Valid, BitReader.Rest, Slide.Valid, Slide.History;
    w.Long();
    ghost var spec := Blocks(r.Rest(), w.History());
    while true
      invariant r.Valid() && w.Valid() && w.slide.Length == WSIZE && w.wp < WSIZE && |w.History()| >= HISTORY
      invariant spec == Fail(Undefined) || Blocks(r.Rest(), w.History()) == spec
      decreases r.Rest().n
    {
      var e;
      code, e := Block(r, w, mem, hp0);
      if code != OK {
        return;
      }
      w.Long();
      if e != 0 {
        return;
      }
    }
  }

  /** What inflate has done when it returns: output, CRC, count and input position. */
  ghost predicate InflateAgrees(spec: Outcome, code: nat, pre: seq<Byte>, src: seq<Byte>, inptr: nat, w: Slide)
    reads w
  {
    match spec
    case Done(b, h) =>
      || (code == OK && pre <= h && w.output == h[|pre|..] && w.bytesOut == |w.output|
          && w.crc == Crc.Feed(Crc.ALL_ONES, w.output) && inptr == |src| - b.n / 8)
      || (code == ENDED && b.n < 16) || code == NO_MEMORY
    case Fail(Bad) => code != OK
    case Fail(Ended) => code == ENDED || code == NO_MEMORY
    case Fail(Undefined) => true
  }

  /**
    inflate: the whole of a compressed stream that starts at byte `at` of the input. Afterwards the
    input is at the first byte that holds no bit of the stream.
   */
  method Inflate(src: seq<Byte>, at: nat, window: array<Byte>, mem: array<Huft>, hp0: nat)
    returns (code: nat, r: BitReader, w: Slide)
    requires at <= |src| && window.Length == WSIZE && 1 <= hp0 <= mem.Length
    modifies window, mem
    ensures code == NO_MEMORY ==> hp0 + BLOCK_ENOUGH > mem.Length
    ensures var spec := Blocks(Bits(Stream(src[at..]), 8 * (|src| - at)), old(window[..]));
      InflateAgrees(spec, code, old(window[..]), src, r.inptr, w)
    ensures var strict := Blocks(Bits(Stream(src[at..]), 8 * (|src| - at)), []);
      strict.Done? ==>
        || (code == OK && w.output == strict.out && r.inptr == |src| - strict.rest.n / 8)
        || (code == ENDED && strict.rest.n < 16) || code == NO_MEMORY
    ensures forall blocks, more :: DeflateEncoder.Carries(src[at..], blocks, more) ==>
      || (code == OK && w.output == DeflateEncoder.TextOf([], blocks) && r.inptr == |src| - |more| / 8)
      || (code == ENDED && |more| < 16) || code == NO_MEMORY
  {
    StrictIsDone(Bits(Stream(src[at..]), 8 * (|src| - at)), window[..]);
    AllStreamsRestored(src[at..]);
    hide Shl, Shr, Low, Pow2, Blocks, Stream, Crc.Feed, BitReader.Valid, Slide.Valid, Window, DeflateEncoder.Carries,
      DeflateEncoder.TextOf;
    r := new BitReader(src, at);
    w := new Slide(window);
    assert w.History() == window[..];
    code := DecodeBlocks(r, w, mem, hp0);
    if code == OK {
      Finish(r, w);
    }
  }

  /** Give back too much look-ahead, and flush out slide. */
  method Finish(r: BitReader, w: Slide)
    requires r.Valid() && w.Valid()
    modifies r, w
    ensures old(w.wp <= w.slide.Length) && w.pre + w.output == old(w.History()) && w.bytesOut == |w.output|
    ensures w.crc == Crc.Feed(Crc.ALL_ONES, w.output) && r.inptr == |r.src| - old(r.Rest()).n / 8
  {
    hide Crc.Feed, Window;
    LeftOver(r);
    r.UndoLookahead();
    w.FlushWindow();
  }

  lemma AllStreamsRestored(src: seq<Byte>)
    ensures forall blocks, more :: DeflateEncoder.Carries(src, blocks, more) ==>
      var r := Blocks(Bits(Stream(src), 8 * |src|), []);
      r.Done? && r.out == DeflateEncoder.TextOf([], blocks) && r.rest.n == |more|
  {
    hide Blocks, Stream, DeflateEncoder.TextOf, DeflateEncoder.Carries;
    forall blocks, more | DeflateEncoder.Carries(src, blocks, more)
      ensures var r := Blocks(Bits(Stream(src), 8 * |src|), []);
        r.Done? && r.out == DeflateEncoder.TextOf([], blocks) && r.rest.n == |more|
    {
      DeflateRoundTrip.StreamRestored(src, blocks, more);
    }
  }

  lemma StrictIsDone(b: Bits, pre: seq<Byte>)
    ensures Blocks(b, []).Done? ==> Blocks(b, pre) == Done(Blocks(b, []).rest, pre + Blocks(b, []).out)
  {
    hide Blocks;
    if Blocks(b, []).Done? {
      HistoryIsFree(b, pre, []);
      assert pre + [] == pre;
    }
  }

  lemma LeftOver(r: BitReader)
    requires r.Valid()
    ensures (r.Used() + 7) / 8 == |r.src| - r.Rest().n / 8
  {
    hide Shl, Stream;
    var n := r.Rest().n;
    assert n == 8 * (|r.src| - r.inptr) + r.bk;
  }
}
