/** The bit buffer of zload/inflate.c: bb holds bk bits that were read and not used yet. */
module BitInput {
  import opened Words
  import opened BitReverse

  /** A string of n bits; bit i of v is bit i of the string. */
  datatype Bits = Bits(v: nat, n: nat)

  /** The first k bits, as a number. */
  function Peek(b: Bits, k: nat): nat {
    Low(b.v, k)
  }

  function Drop(b: Bits, k: nat): Bits
    requires k <= b.n
  {
    Bits(Shr(b.v, k), b.n - k)
  }

  lemma DropAdds(b: Bits, j: nat, k: nat)
    requires j + k <= b.n
    ensures Drop(Drop(b, j), k) == Drop(b, j + k)
  {
    ShrAdds(b.v, j, k);
  }

  /** Bytes as bits, the least significant bit of each byte first. */
  function Stream(s: seq<Byte>): nat {
    if s == [] then 0 else s[0] + 256 * Stream(s[1..])
  }

  /** A buffer of k bits in front of bytes still to be read. */
  function Joined(b: nat, k: nat, s: seq<Byte>): Bits {
    Bits(b + Shl(Stream(s), k), k + 8 * |s|)
  }

  /** Moving a byte from the input to the buffer. */
  lemma TakeByte(b: nat, k: nat, s: seq<Byte>)
    requires b < Pow2(k) && s != []
    ensures b + Shl(s[0], k) < Pow2(k + 8)
    ensures Joined(b + Shl(s[0], k), k + 8, s[1..]) == Joined(b, k, s)
  {
    var t := Stream(s[1..]);
    assert Pow2(8) == 256;
    ShlApart(s[0], 256, k);
    ShlPow(8, k);
    ShlEight(t);
    ShlAdds(t, 8, k);
    ShlSum(s[0], Shl(t, 8), k);
  }

  lemma ShlFour(t: nat)
    ensures Shl(t, 4) == 16 * t
  {
    assert Shl(t, 1) == 2 * t;
    assert Shl(t, 2) == 4 * t;
    assert Shl(t, 3) == 8 * t;
  }

  lemma ShlEight(t: nat)
    ensures Shl(t, 8) == 256 * t
  {
    ShlFour(t);
    ShlFour(16 * t);
    ShlAdds(t, 4, 4);
  }

  /** The buffer shows the first bits of the input, and dropping bits of it drops them. */
  lemma BufferFirst(b: nat, k: nat, s: seq<Byte>, n: nat)
    requires b < Pow2(k) && n <= k
    ensures Peek(Joined(b, k, s), n) == Low(b, n)
    ensures Shr(b, n) < Pow2(k - n)
    ensures Drop(Joined(b, k, s), n) == Joined(Shr(b, n), k - n, s)
  {
    hide Low, Shl, Shr, Pow2;
    var x, t := b + Shl(Stream(s), k), Stream(s);
    Compose(b, t, k);
    LowOfLow(x, n, k);
    Recompose(b, n);
    ShlAdds(t, k - n, n);
    ShlSum(Shr(b, n), Shl(t, k - n), n);
    Compose(Low(b, n), Shr(b, n) + Shl(t, k - n), n);
    ShrSmall(b, n, k - n);
  }

  class BitReader {
    const src: seq<Byte>
    var inptr: nat
    var bb: nat
    var bk: nat

    /** At most 23 bits are held, so that another byte still fits into 32 bits. */
    ghost predicate Valid()
      reads this
    {
      inptr <= |src| && bk <= 23 && bk <= 8 * inptr && bb < Pow2(bk)
    }

    /** The input that has not been used yet. */
    ghost function Rest(): Bits
      requires Valid()
      reads this
    {
      Joined(bb, bk, src[inptr..])
    }

    /** The number of bits that have been used. */
    function Used(): int
      reads this
    {
      8 * inptr - bk
    }

    constructor (input: seq<Byte>, at: nat)
      requires at <= |input|
      ensures src == input && inptr == at && Valid() && bk == 0
      ensures Rest() == Bits(Stream(input[at..]), 8 * (|input| - at))
    {
      src, inptr, bb, bk := input, at, 0, 0;
      new;
      NoShift(Stream(input[at..]));
    }

    /** NEEDBITS: false when the input ends before there are n bits. */
    method NeedBits(n: nat) returns (ok: bool)
      requires Valid() && n <= 16
      modifies this`inptr, this`bb, this`bk
      ensures Valid() && Rest() == old(Rest()) && Used() == old(Used())
      ensures ok ==> bk >= n && Rest().n >= n
      ensures !ok ==> Rest().n < n
      ensures bk == old(bk) || bk < n + 8
    {
      hide Shl, Pow2;
      while bk < n
        invariant Valid() && Rest() == old(Rest()) && Used() == old(Used()) && (bk == old(bk) || bk < n + 8)
        decreases n - bk
      {
        if inptr == |src| {
          return false;
        }
        TakeByte(bb, bk, src[inptr..]);
        assert src[inptr..][1..] == src[inptr + 1..];
        bb := bb + Shl(src[inptr], bk);
        inptr := inptr + 1;
        bk := bk + 8;
      }
      ok := true;
    }

    /** b & mask_bits[n] */
    function Mask(n: nat): (x: nat)
      requires Valid() && n <= bk
      reads this
      ensures x == Peek(Rest(), n) && x < Pow2(n)
    {
      BufferFirst(bb, bk, src[inptr..], n);
      Low(bb, n)
    }

    /** DUMPBITS */
    method DumpBits(n: nat)
      requires Valid() && n <= bk
      modifies this`bb, this`bk
      ensures Valid() && n <= old(Rest()).n && Rest() == Drop(old(Rest()), n)
      ensures Used() == old(Used()) + n && bk == old(bk) - n
    {
      BufferFirst(bb, bk, src[inptr..], n);
      bb := Shr(bb, n);
      bk := bk - n;
    }

    /** The undoing of too much look-ahead: the input goes on at the next whole byte. */
    method UndoLookahead()
      requires Valid()
      modifies this`inptr, this`bk
      ensures bk < 8 && Used() == old(Used()) && inptr == (old(Used()) + 7) / 8
    {
      while bk >= 8
        invariant Used() == old(Used()) && bk <= 8 * inptr
      {
        bk := bk - 8;
        inptr := inptr - 1;
      }
    }
  }
}
