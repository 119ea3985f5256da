/** LZ77: matches on an unbounded output, and circular buffers as windows on it. */
module Lz77 {
  import opened Words

  /** The byte dist back from the end of the output. */
  function Back(out: seq<Byte>, dist: nat): Byte
    requires 1 <= dist <= |out|
  {
    out[|out| - dist]
  }

  /** out[i] = out[i - dist], n times; the source may overlap what is being written. */
  function CopyMatch(out: seq<Byte>, dist: nat, n: nat): (r: seq<Byte>)
    requires n > 0 ==> 1 <= dist <= |out|
    ensures |r| == |out| + n && out <= r
    decreases n
  {
    if n == 0 then out else CopyMatch(out + [Back(out, dist)], dist, n - 1)
  }

  /** Every copied byte equals the byte dist before it, also where source and copy overlap. */
  lemma {:induction false} CopyMatchRepeats(out: seq<Byte>, dist: nat, n: nat, i: nat)
    requires 1 <= dist <= |out| && |out| <= i < |out| + n
    ensures CopyMatch(out, dist, n)[i] == CopyMatch(out, dist, n)[i - dist]
    decreases n
  {
    var next := out + [Back(out, dist)];
    if i == |out| {
      var r := CopyMatch(next, dist, n - 1);
      assert next <= r;
      assert r[i] == next[i] && r[i - dist] == next[i - dist];
    } else {
      CopyMatchRepeats(next, dist, n - 1, i);
    }
  }

  /** A match cut in two is copied like the whole. */
  lemma {:induction false} CopyMatchSplits(out: seq<Byte>, dist: nat, m: nat, n: nat)
    requires 1 <= dist <= |out|
    ensures CopyMatch(CopyMatch(out, dist, m), dist, n) == CopyMatch(out, dist, m + n)
    decreases m
  {
    if m > 0 {
      CopyMatchSplits(out + [Back(out, dist)], dist, m - 1, n);
    }
  }

  /** The index of the byte dist back from dicPos, in a circular buffer. */
  function Source(dicPos: nat, dist: nat, size: nat): int {
    if dicPos < dist then dicPos - dist + size else dicPos - dist
  }

  /**
    The last min(|out|, dicSize) bytes of the output are where a decoder looks for them. Either
    the buffer holds a whole dictionary, or it has never been rewound.
   */
  ghost predicate Window(dic: seq<Byte>, dicPos: nat, out: seq<Byte>, dicSize: nat) {
    && dicPos <= |dic|
    && (dicSize <= |dic| || |out| == dicPos)
    && forall dist {:trigger Source(dicPos, dist, |dic|)} :: 1 <= dist <= |out| && dist <= dicSize ==>
         0 <= Source(dicPos, dist, |dic|) < |dic| && dic[Source(dicPos, dist, |dic|)] == out[|out| - dist]
  }

  lemma WindowAppend(dic: seq<Byte>, dicPos: nat, out: seq<Byte>, dicSize: nat, b: Byte)
    requires Window(dic, dicPos, out, dicSize) && dicPos < |dic|
    ensures Window(dic[dicPos := b], dicPos + 1, out + [b], dicSize)
  {
    var dic2, out2 := dic[dicPos := b], out + [b];
    forall dist {:trigger Source(dicPos + 1, dist, |dic2|)} | 1 <= dist <= |out2| && dist <= dicSize
      ensures 0 <= Source(dicPos + 1, dist, |dic2|) < |dic2|
      ensures dic2[Source(dicPos + 1, dist, |dic2|)] == out2[|out2| - dist]
    {
      if dist > 1 {
        assert Source(dicPos + 1, dist, |dic2|) == Source(dicPos, dist - 1, |dic|);
      }
    }
  }

  /** A caller that finds dicPos at the end of the buffer may start again at its beginning. */
  lemma WindowRewind(dic: seq<Byte>, out: seq<Byte>, dicSize: nat)
    requires Window(dic, |dic|, out, dicSize) && dicSize <= |dic|
    ensures Window(dic, 0, out, dicSize)
  {
    forall dist {:trigger Source(0, dist, |dic|)} | 1 <= dist <= |out| && dist <= dicSize
      ensures 0 <= Source(0, dist, |dic|) < |dic| && dic[Source(0, dist, |dic|)] == out[|out| - dist]
    {
      assert Source(0, dist, |dic|) == Source(|dic|, dist, |dic|);
    }
  }
}
