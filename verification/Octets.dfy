/** Bytes as numbers and as bits. */
module Octets {
  function Bits8(b: nat): bv8
    requires b < 256
  {
    b as bv8
  }

  function Bits32(b: nat): bv32
    requires b < 256
  {
    b as bv32
  }

  /** Every number below 256 is that of a byte. */
  lemma {:induction false} ByteOf(b: nat) returns (x: bv8)
    requires b < 256
    ensures x as nat == b
  {
    if b == 0 {
      x := 0;
    } else {
      var y := ByteOf(b - 1);
      NextNumber(y);
      x := y + 1;
    }
  }

  lemma NextNumber(x: bv8)
    requires x as nat < 255
    ensures (x + 1) as nat == x as nat + 1
  {
  }

  lemma AsNumber(b: nat)
    requires b < 256
    ensures Bits8(b) as nat == b
  {
    var x := ByteOf(b);
    BackToBits(x);
  }

  lemma Widen(b: nat)
    requires b < 256
    ensures Bits8(b) as bv32 == Bits32(b)
  {
  }

  lemma NotNarrow(b: nat)
    requires b < 256
    ensures Bits8(255 - b) == 255 - Bits8(b)
  {
    AsNumber(b);
    NotNarrowOf(Bits8(b), b);
  }

  lemma NotNarrowOf(x: bv8, b: nat)
    requires b < 256 && x as nat == b
    ensures Bits8(255 - b) == 255 - x
  {
    NotAsNumber(x);
    BackToBits(255 - x);
  }

  lemma NotAsNumber(x: bv8)
    ensures (255 - x) as nat == 255 - (x as nat)
  {
  }

  lemma BackToBits(y: bv8)
    ensures (y as nat) as bv8 == y
  {
  }

  /** What a byte lacks to 255 is its complement. */
  lemma Complement(b: nat)
    requires b < 256
    ensures Bits32(255 - b) == Bits32(b) ^ 0xff
  {
    hide Bits8, Bits32;
    Widen(b);
    Widen(255 - b);
    NotNarrow(b);
    ComplementOf(Bits8(b), Bits8(255 - b));
  }

  lemma ComplementOf(x: bv8, y: bv8)
    requires y == 255 - x
    ensures y as bv32 == (x as bv32) ^ 0xff
  {
  }
}
