/**
  The multi-level decoding tables of zload/inflate.c. A table pointer is an index into one memory of
  entries, from which a bump allocator hands out the tables; 0 is the null pointer.
 */
module HuftTable {
  import opened BitReverse

  /**
    e: 0..13 extra bits, 15 end of block, 16 literal, 16 + j pointer to a table of j bits, 99 unused.
    b: bits in this code or subcode. v: value or table pointer.
   */
  datatype Huft = Huft(e: nat, b: nat, v: nat)

  const NULL: nat := 0
  const UNUSED: nat := 99

  predicate IsLink(h: Huft) {
    16 < h.e && h.e != UNUSED
  }

  /** The entry a table walk ends at, with all bits of the code rather than those of its last table. */
  datatype Found = Found(e: nat, bits: nat, v: nat)

  /**
    The walk of inflate_codes: index by the low m bits of b, follow links, add up the bits to dump.
    What huft_build never makes is looked up as an unused code: addresses outside of the memory,
    tables of more than 16 bits, entries that do not use up 1 to m bits, links that do not use up all
    m or do not lead to a later table.
   */
  function Lookup(mem: seq<Huft>, t: nat, m: nat, b: nat): Found
    decreases |mem| - t
  {
    var a := t + Low(b, m);
    if a >= |mem| || m > 16 || !(1 <= mem[a].b <= m) then Found(UNUSED, 0, 0)
    else
      var h := mem[a];
      if !IsLink(h) then Found(h.e, h.b, h.v)
      else if h.b != m || h.v <= t || h.v > |mem| then Found(UNUSED, 0, 0)
      else
        var f := Lookup(mem, h.v, h.e - 16, Shr(b, h.b));
        f.(bits := h.b + f.bits)
  }

  /** The walk stays inside the addresses known to be written and ends at the wanted entry. */
  ghost predicate Resolves(mem: seq<Huft>, known: set<nat>, t: nat, m: nat, b: nat, want: Found)
    decreases |mem| - t
  {
    var a := t + Low(b, m);
    && a < |mem| && a in known && m <= 16 && 1 <= mem[a].b <= m
    && var h := mem[a];
       if !IsLink(h) then want == Found(h.e, h.b, h.v)
       else
         && h.b == m && t < h.v <= |mem| && h.b <= want.bits
         && Resolves(mem, known, h.v, h.e - 16, Shr(b, h.b), want.(bits := want.bits - h.b))
  }

  lemma LookupUsesBits(mem: seq<Huft>)
    ensures forall t: nat, m: nat, b: nat :: Lookup(mem, t, m, b).e != UNUSED ==> Lookup(mem, t, m, b).bits >= 1
  {
  }

  /** An entry that uses up no more bits than the first table has is an entry of the first table. */
  lemma FirstLevel(mem: seq<Huft>, t: nat, m: nat, b: nat)
    requires Lookup(mem, t, m, b).bits <= m && Lookup(mem, t, m, b).e != UNUSED
    ensures var f := Lookup(mem, t, m, b);
      t + Low(b, m) < |mem| && mem[t + Low(b, m)] == Huft(f.e, f.bits, f.v)
  {
    LookupUsesBits(mem);
  }

  lemma {:induction false} ResolvesIsLookup(mem: seq<Huft>, known: set<nat>, t: nat, m: nat, b: nat, want: Found)
    requires Resolves(mem, known, t, m, b, want)
    ensures Lookup(mem, t, m, b) == want
    decreases |mem| - t
  {
    var h := mem[t + Low(b, m)];
    if IsLink(h) {
      ResolvesIsLookup(mem, known, h.v, h.e - 16, Shr(b, h.b), want.(bits := want.bits - h.b));
    }
  }

  ghost predicate SameOn(mem: seq<Huft>, mem2: seq<Huft>, known: set<nat>) {
    |mem| == |mem2| && forall a :: a in known && a < |mem| ==> mem2[a] == mem[a]
  }

  /** A finished walk is not disturbed by writes elsewhere. */
  lemma {:induction false} ResolvesStays(mem: seq<Huft>, mem2: seq<Huft>, known: set<nat>, known2: set<nat>, t: nat,
      m: nat, b: nat, want: Found)
    requires Resolves(mem, known, t, m, b, want) && SameOn(mem, mem2, known) && known <= known2
    ensures Resolves(mem2, known2, t, m, b, want)
    decreases |mem| - t
  {
    var h := mem[t + Low(b, m)];
    if IsLink(h) {
      ResolvesStays(mem, mem2, known, known2, h.v, h.e - 16, Shr(b, h.b), want.(bits := want.bits - h.b));
    }
  }
}
