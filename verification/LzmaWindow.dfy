/** The circular dictionary buffer as a window on the unbounded output. */
module LzmaWindow {
  import opened Words
  import opened Lz77

  /** The buffer, dicPos and output when a call began. */
  datatype Mark = Mark(dic: seq<Byte>, pos: nat, out: seq<Byte>)

  /** What a call writes: the new output, between the old and the new dicPos, and nothing else. */
  ghost predicate Wrote(m: Mark, dic: seq<Byte>, pos: nat, out: seq<Byte>) {
    && |dic| == |m.dic| && m.pos <= pos <= |dic|
    && m.out <= out && |out| - |m.out| == pos - m.pos
    && dic == m.dic[..m.pos] + out[|m.out|..] + m.dic[pos..]
  }

  /** What a call has written when it fails: the output up to out, but nothing beyond the limit. */
  ghost predicate WroteWithin(m: Mark, dic: seq<Byte>, out: seq<Byte>, limit: nat) {
    && |m.out| <= |out| && m.pos + |out| - |m.out| <= limit
    && Wrote(m, dic, m.pos + |out| - |m.out|, out)
  }

  lemma WroteWithinThen(m: Mark, m2: Mark, dic: seq<Byte>, out: seq<Byte>, limit: nat)
    requires Wrote(m, m2.dic, m2.pos, m2.out) && WroteWithin(m2, dic, out, limit)
    ensures WroteWithin(m, dic, out, limit)
  {
    WroteThen(m, m2, dic, m2.pos + |out| - |m2.out|, out);
  }

  lemma WroteThen(m: Mark, m2: Mark, dic: seq<Byte>, pos: nat, out: seq<Byte>)
    requires Wrote(m, m2.dic, m2.pos, m2.out) && Wrote(m2, dic, pos, out)
    ensures Wrote(m, dic, pos, out)
  {
    assert out[|m.out|..] == m2.out[|m.out|..] + out[|m2.out|..];
    assert m2.dic[..m2.pos] == m.dic[..m.pos] + m2.out[|m.out|..];
    assert m2.dic[pos..] == m.dic[pos..];
  }

  lemma WroteByte(m: Mark, dic: seq<Byte>, pos: nat, out: seq<Byte>, b: Byte)
    requires Wrote(m, dic, pos, out) && pos < |dic|
    ensures Wrote(m, dic[pos := b], pos + 1, out + [b])
  {
    assert (out + [b])[|m.out|..] == out[|m.out|..] + [b];
  }

  /** A loop that writes one byte after the other at dicPos keeps both. */
  method PutByte(dic: array<Byte>, dicPos: nat, b: Byte, ghost m: Mark, ghost out: seq<Byte>, ghost dicSize: nat)
    requires dicPos < dic.Length && Window(dic[..], dicPos, out, dicSize)
    requires Wrote(m, dic[..], dicPos, out)
    modifies dic
    ensures dic[..] == old(dic[..])[dicPos := b]
    ensures Window(dic[..], dicPos + 1, out + [b], dicSize)
    ensures Wrote(m, dic[..], dicPos + 1, out + [b])
  {
    WindowAppend(dic[..], dicPos, out, dicSize, b);
    WroteByte(m, dic[..], dicPos, out, b);
    dic[dicPos] := b;
  }

  lemma WindowAt(dic: seq<Byte>, dicPos: nat, out: seq<Byte>, dicSize: nat, dist: nat)
    requires Window(dic, dicPos, out, dicSize) && 1 <= dist <= |out| && dist <= dicSize
    ensures 0 <= Source(dicPos, dist, |dic|) < |dic| && dic[Source(dicPos, dist, |dic|)] == Back(out, dist)
  {
  }

  /** The source does not run over the end of the buffer: a constant offset from the destination. */
  method CopyStraight(dic: array<Byte>, dicPos0: nat, dist: nat, pos: nat, curLen: nat, ghost m: Mark,
      ghost out: seq<Byte>, ghost dicSize: nat)
    returns (dicPos: nat)
    requires 1 <= dist <= |out| && dist <= dicSize && dicPos0 + curLen <= dic.Length
    requires pos == Source(dicPos0, dist, dic.Length) && pos + curLen <= dic.Length
    requires Window(dic[..], dicPos0, out, dicSize) && Wrote(m, dic[..], dicPos0, out)
    modifies dic
    ensures dicPos == dicPos0 + curLen
    ensures Window(dic[..], dicPos, CopyMatch(out, dist, curLen), dicSize)
    ensures Wrote(m, dic[..], dicPos, CopyMatch(out, dist, curLen))
  {
    hide Window, Wrote;
    ghost var now := out;
    var src := pos - dicPos0;
    var lim := dicPos0 + curLen;
    dicPos := dicPos0;
    while dicPos != lim
      invariant dicPos0 <= dicPos <= lim && dist <= |now|
      invariant dicPos != lim ==> src + dicPos == Source(dicPos, dist, dic.Length)
      invariant Window(dic[..], dicPos, now, dicSize) && Wrote(m, dic[..], dicPos, now)
      invariant CopyMatch(now, dist, lim - dicPos) == CopyMatch(out, dist, curLen)
    {
      WindowAt(dic[..], dicPos, now, dicSize, dist);
      var b := dic[src + dicPos];
      PutByte(dic, dicPos, b, m, now, dicSize);
      now := now + [b];
      dicPos := dicPos + 1;
    }
  }

  /** The source runs over the end of the buffer and goes on at its beginning. */
  method CopyWrapping(dic: array<Byte>, dicPos0: nat, dist: nat, srcPos: nat, len: nat, ghost m: Mark,
      ghost out: seq<Byte>, ghost dicSize: nat)
    returns (dicPos: nat)
    requires 1 <= dist <= |out| && dist <= dicSize && dicPos0 + len <= dic.Length
    requires srcPos == Source(dicPos0, dist, dic.Length)
    requires Window(dic[..], dicPos0, out, dicSize) && Wrote(m, dic[..], dicPos0, out)
    modifies dic
    ensures dicPos == dicPos0 + len
    ensures Window(dic[..], dicPos, CopyMatch(out, dist, len), dicSize)
    ensures Wrote(m, dic[..], dicPos, CopyMatch(out, dist, len))
  {
    hide Window, Wrote;
    ghost var now := out;
    var curLen, pos := len, srcPos;
    dicPos := dicPos0;
    while curLen != 0
      invariant dicPos + curLen == dicPos0 + len && dist <= |now|
      invariant curLen != 0 ==> pos == Source(dicPos, dist, dic.Length)
      invariant Window(dic[..], dicPos, now, dicSize) && Wrote(m, dic[..], dicPos, now)
      invariant CopyMatch(now, dist, curLen) == CopyMatch(out, dist, len)
    {
      WindowAt(dic[..], dicPos, now, dicSize, dist);
      var b := dic[pos];
      PutByte(dic, dicPos, b, m, now, dicSize);
      now := now + [b];
      dicPos := dicPos + 1;
      pos := pos + 1;
      if pos == dic.Length {
        pos := 0;
      }
      curLen := curLen - 1;
    }
  }

  /** The loop of LzmaDec_WriteRem: the source index is computed afresh for every byte. */
  method CopyBytes(dic: array<Byte>, dicPos0: nat, rep0: nat, len0: nat, ghost m: Mark, ghost out: seq<Byte>,
      ghost dicSize: nat)
    returns (dicPos: nat)
    requires 1 <= rep0 <= |out| && rep0 <= dicSize && dicPos0 + len0 <= dic.Length
    requires Window(dic[..], dicPos0, out, dicSize) && Wrote(m, dic[..], dicPos0, out)
    modifies dic
    ensures dicPos == dicPos0 + len0
    ensures Window(dic[..], dicPos, CopyMatch(out, rep0, len0), dicSize)
    ensures Wrote(m, dic[..], dicPos, CopyMatch(out, rep0, len0))
  {
    hide Window, Wrote;
    ghost var now := out;
    var len := len0;
    dicPos := dicPos0;
    while len != 0
      invariant dicPos + len == dicPos0 + len0 && rep0 <= |now|
      invariant Window(dic[..], dicPos, now, dicSize) && Wrote(m, dic[..], dicPos, now)
      invariant CopyMatch(now, rep0, len) == CopyMatch(out, rep0, len0)
    {
      WindowAt(dic[..], dicPos, now, dicSize, rep0);
      var b := dic[Source(dicPos, rep0, dic.Length)];
      PutByte(dic, dicPos, b, m, now, dicSize);
      now := now + [b];
      dicPos := dicPos + 1;
      len := len - 1;
    }
  }
}
