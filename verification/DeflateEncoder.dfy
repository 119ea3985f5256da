/**
  A DEFLATE encoder, from RFC 1951 and not from the decoder: literals and matches as plain numbers,
  blocks of all three types, and the bits they are written with. What the decoder makes of its output
  is proved in module DeflateRoundTrip.
 */
module DeflateEncoder {
  import opened Words
  import opened Lz77
  import HuffmanCode

  type Bit = x: nat | x < 2

  /** A number, its lowest bit first. */
  function Lsb(x: nat, n: nat): (s: seq<Bit>)
    ensures |s| == n
    decreases n
  {
    if n == 0 then [] else [x % 2] + Lsb(x / 2, n - 1)
  }

  /** A Huffman code, its highest bit first. */
  function Msb(x: nat, n: nat): (s: seq<Bit>)
    ensures |s| == n
    decreases n
  {
    if n == 0 then [] else Msb(x / 2, n - 1) + [x % 2]
  }

  /** Bytes, the lowest bit of each first. */
  function ByteBits(s: seq<Byte>): (bits: seq<Bit>)
    ensures |bits| == 8 * |s|
  {
    if s == [] then [] else Lsb(s[0], 8) + ByteBits(s[1..])
  }

  // ----- codes

  /** The codes of a block: fixed ones, or those of the given lengths. */
  datatype Codes = FixedCodes | CodesOf(lit: seq<nat>, dist: seq<nat>)

  predicate HasCode(lens: seq<nat>, s: nat) {
    s < |lens| && lens[s] > 0
  }

  function Code(lens: seq<nat>, s: nat): seq<Bit> {
    if s < |lens| then Msb(HuffmanCode.CodeOf(lens, s), lens[s]) else []
  }

  predicate HasLit(codes: Codes, s: nat) {
    match codes
    case FixedCodes => s < 286
    case CodesOf(lit, _) => HasCode(lit, s)
  }

  predicate HasDist(codes: Codes, s: nat) {
    match codes
    case FixedCodes => s < 30
    case CodesOf(_, dist) => HasCode(dist, s)
  }

  function LitCode(codes: Codes, s: nat): seq<Bit> {
    match codes
    case FixedCodes =>
      if s < 144 then Msb(0x30 + s, 8)
      else if s < 256 then Msb(0x190 + (s - 144), 9)
      else if s < 280 then Msb(s - 256, 7)
      else Msb(0xC0 + (s - 280), 8)
    case CodesOf(lit, _) => Code(lit, s)
  }

  function DistCode(codes: Codes, s: nat): seq<Bit> {
    match codes
    case FixedCodes => Msb(s, 5)
    case CodesOf(_, dist) => Code(dist, s)
  }

  /** The strings of 16 bits that begin with a code of these lengths. */
  function Weight(lens: seq<nat>): nat {
    if lens == [] then 0
    else
      var last := lens[|lens| - 1];
      Weight(lens[..|lens| - 1]) + (if 1 <= last <= 16 then Pow2(16 - last) else 0)
  }

  /** A complete set of codes, or one code of one bit, or none. */
  predicate Usable(lens: seq<nat>) {
    Weight(lens) == 0x1_0000 || (Weight(lens) <= 0x8000 && forall s :: 0 <= s < |lens| ==> lens[s] <= 1)
  }

  // ----- literals and matches

  datatype Item = Literal(b: Byte) | Copy(len: nat, dist: nat)

  /** The highest bits of x, as many as fit below limit, and how many others there are. */
  function Top(x: nat, limit: nat): nat
    requires limit > 0
  {
    if x < limit then x else Top(x / 2, limit)
  }

  function Others(x: nat, limit: nat): nat
    requires limit > 0
  {
    if x < limit then 0 else 1 + Others(x / 2, limit)
  }

  /** Lengths 3 to 258: four symbols for every number of extra bits, but eight for none; 258 has its own. */
  function LengthSymbol(len: nat): nat
    requires len >= 3
  {
    if len == 258 then 285 else 257 + 4 * Others(len - 3, 8) + Top(len - 3, 8)
  }

  function LengthExtra(len: nat): seq<Bit>
    requires len >= 3
  {
    if len == 258 then [] else Lsb(len - 3, Others(len - 3, 8))
  }

  /** Distances 1 to 32768: two symbols for every number of extra bits, but four for none. */
  function DistSymbol(dist: nat): nat
    requires dist >= 1
  {
    2 * Others(dist - 1, 4) + Top(dist - 1, 4)
  }

  function DistExtra(dist: nat): seq<Bit>
    requires dist >= 1
  {
    Lsb(dist - 1, Others(dist - 1, 4))
  }

  function ItemBits(codes: Codes, item: Item): seq<Bit> {
    match item
    case Literal(b) => LitCode(codes, b)
    case Copy(len, dist) =>
      if len >= 3 && dist >= 1 then
        LitCode(codes, LengthSymbol(len)) + LengthExtra(len) + (DistCode(codes, DistSymbol(dist)) + DistExtra(dist))
      else []
  }

  /** Every match lies in the last 32768 bytes of the text so far, and what is used has a code. */
  predicate Allowed(codes: Codes, out: seq<Byte>, item: Item) {
    match item
    case Literal(b) => HasLit(codes, b)
    case Copy(len, dist) =>
      && 3 <= len <= 258 && 1 <= dist <= |out| && dist <= 0x8000
      && HasLit(codes, LengthSymbol(len)) && HasDist(codes, DistSymbol(dist))
  }

  function After(out: seq<Byte>, item: Item): seq<Byte> {
    match item
    case Literal(b) => out + [b]
    case Copy(len, dist) => if 1 <= dist <= |out| then CopyMatch(out, dist, len) else out
  }

  predicate AllAllowed(codes: Codes, out: seq<Byte>, items: seq<Item>)
    decreases |items|
  {
    if items == [] then HasLit(codes, 256)
    else Allowed(codes, out, items[0]) && AllAllowed(codes, After(out, items[0]), items[1..])
  }

  function AfterAll(out: seq<Byte>, items: seq<Item>): seq<Byte>
    decreases |items|
  {
    if items == [] then out else AfterAll(After(out, items[0]), items[1..])
  }

  /** The items, and the end of the block. */
  function DataBits(codes: Codes, items: seq<Item>): seq<Bit> {
    if items == [] then LitCode(codes, 256) else ItemBits(codes, items[0]) + DataBits(codes, items[1..])
  }

  // ----- code lengths, in runs

  /** One length, the last one again, or zeros. */
  datatype Run = One(x: nat) | Again(n: nat) | Zeros(n: nat)

  function Times(n: nat, x: nat): (s: seq<nat>)
    ensures |s| == n && forall i :: 0 <= i < n ==> s[i] == x
  {
    seq(n, _ => x)
  }

  function AfterRun(lens: seq<nat>, run: Run): seq<nat> {
    match run
    case One(x) => lens + [x]
    case Again(n) => lens + Times(n, if lens == [] then 0 else lens[|lens| - 1])
    case Zeros(n) => lens + Times(n, 0)
  }

  predicate WfRun(bl: seq<nat>, lens: seq<nat>, run: Run) {
    match run
    case One(x) => x < 16 && HasCode(bl, x)
    case Again(n) => lens != [] && 3 <= n <= 6 && HasCode(bl, 16)
    case Zeros(n) => 3 <= n <= 138 && HasCode(bl, if n < 11 then 17 else 18)
  }

  function RunBits(bl: seq<nat>, run: Run): seq<Bit> {
    match run
    case One(x) => Code(bl, x)
    case Again(n) => if n >= 3 then Code(bl, 16) + Lsb(n - 3, 2) else []
    case Zeros(n) =>
      if n < 3 then [] else if n < 11 then Code(bl, 17) + Lsb(n - 3, 3) else Code(bl, 18) + Lsb(n - 11, 7)
  }

  predicate WfRuns(bl: seq<nat>, lens: seq<nat>, runs: seq<Run>)
    decreases |runs|
  {
    runs == [] || (WfRun(bl, lens, runs[0]) && WfRuns(bl, AfterRun(lens, runs[0]), runs[1..]))
  }

  function Spelled(lens: seq<nat>, runs: seq<Run>): seq<nat>
    decreases |runs|
  {
    if runs == [] then lens else Spelled(AfterRun(lens, runs[0]), runs[1..])
  }

  function RunsBits(bl: seq<nat>, runs: seq<Run>): seq<Bit> {
    if runs == [] then [] else RunBits(bl, runs[0]) + RunsBits(bl, runs[1..])
  }

  // ----- blocks

  /** The order in which the lengths of the bit length codes are sent. */
  const ORDER: seq<nat> := [16, 17, 18, 0, 8, 7, 9, 6, 10, 5, 11, 4, 12, 3, 13, 2, 14, 1, 15]

  /**
    A dynamic block has bit length codes bl, of which the first nb are sent, and the lengths of nl
    literal/length codes and of the distance codes, in runs.
   */
  datatype Block =
    | Stored(text: seq<Byte>, pad: seq<Bit>)
    | Fixed(items: seq<Item>)
    | Dynamic(bl: seq<nat>, nb: nat, runs: seq<Run>, nl: nat, items: seq<Item>)

  function CodesIn(block: Block): Codes {
    match block
    case Dynamic(_, _, runs, nl, _) =>
      var lens := Spelled([], runs);
      if nl <= |lens| then CodesOf(lens[..nl], lens[nl..]) else FixedCodes
    case _ => FixedCodes
  }

  predicate WfHeader(bl: seq<nat>, nb: nat, runs: seq<Run>, nl: nat) {
    var lens := Spelled([], runs);
    && |bl| == 19 && 4 <= nb <= 19 && (forall i :: 0 <= i < 19 ==> bl[i] <= 7)
    && (forall i :: 0 <= i < 19 && i !in ORDER[..nb] ==> bl[i] == 0)
    && Usable(bl) && WfRuns(bl, [], runs)
    && 257 <= nl <= 286 && nl < |lens| <= nl + 30 && Usable(lens[..nl]) && Usable(lens[nl..])
  }

  /** at is the number of bits in front of the block: a stored text begins with a byte. */
  predicate WfBlock(block: Block, at: nat, out: seq<Byte>) {
    match block
    case Stored(text, pad) => |text| < 0x1_0000 && |pad| < 8 && (at + 3 + |pad|) % 8 == 0
    case Fixed(items) => AllAllowed(FixedCodes, out, items)
    case Dynamic(bl, nb, runs, nl, items) =>
      WfHeader(bl, nb, runs, nl) && AllAllowed(CodesIn(block), out, items)
  }

  function BlLengths(bl: seq<nat>, nb: nat): seq<Bit>
    requires |bl| == 19 && nb <= 19
  {
    if nb == 0 then [] else BlLengths(bl, nb - 1) + Lsb(bl[ORDER[nb - 1]], 3)
  }

  function HeaderBits(bl: seq<nat>, nb: nat, runs: seq<Run>, nl: nat): seq<Bit> {
    var n := |Spelled([], runs)|;
    if |bl| == 19 && 4 <= nb <= 19 && 257 <= nl < n then
      Lsb(nl - 257, 5) + (Lsb(n - nl - 1, 5) + (Lsb(nb - 4, 4) + (BlLengths(bl, nb) + RunsBits(bl, runs))))
    else []
  }

  /** A length, the same with all bits inverted, and the text. */
  function StoredBits(text: seq<Byte>): seq<Bit> {
    if |text| < 0x1_0000 then Lsb(|text|, 16) + (Lsb(0xFFFF - |text|, 16) + ByteBits(text)) else []
  }

  function BodyBits(block: Block): seq<Bit> {
    match block
    case Stored(text, pad) => pad + StoredBits(text)
    case Fixed(items) => DataBits(FixedCodes, items)
    case Dynamic(bl, nb, runs, nl, items) => HeaderBits(bl, nb, runs, nl) + DataBits(CodesIn(block), items)
  }

  function TypeOf(block: Block): nat {
    if block.Stored? then 0 else if block.Fixed? then 1 else 2
  }

  /** Whether it is the last one, the type, and the data. */
  function BlockBits(last: bool, block: Block): seq<Bit> {
    Lsb(if last then 1 else 0, 1) + (Lsb(TypeOf(block), 2) + BodyBits(block))
  }

  function AfterBlock(out: seq<Byte>, block: Block): seq<Byte> {
    match block
    case Stored(text, _) => out + text
    case Fixed(items) => AfterAll(out, items)
    case Dynamic(_, _, _, _, items) => AfterAll(out, items)
  }

  predicate WfStream(blocks: seq<Block>, at: nat, out: seq<Byte>)
    decreases |blocks|
  {
    && blocks != [] && WfBlock(blocks[0], at, out)
    && (|blocks| > 1 ==> WfStream(blocks[1..], at + |BlockBits(false, blocks[0])|, AfterBlock(out, blocks[0])))
  }

  function StreamBits(blocks: seq<Block>): seq<Bit> {
    if blocks == [] then [] else BlockBits(|blocks| == 1, blocks[0]) + StreamBits(blocks[1..])
  }

  function TextOf(out: seq<Byte>, blocks: seq<Block>): seq<Byte>
    decreases |blocks|
  {
    if blocks == [] then out else TextOf(AfterBlock(out, blocks[0]), blocks[1..])
  }

  /** src holds the stream of these blocks, and other bits behind it. */
  ghost predicate Carries(src: seq<Byte>, blocks: seq<Block>, more: seq<Bit>) {
    WfStream(blocks, 0, []) && ByteBits(src) == StreamBits(blocks) + more
  }
}
