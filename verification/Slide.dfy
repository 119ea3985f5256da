/**
  The output side of zload/inflate.c: the circular 32K window slide, with the position wp (outcnt),
  and flush_window of zload/uncompress.c, which writes it out and runs the CRC over it.
 */
module SlideWindow {
  import opened Words
  import opened Lz77
  import opened Crc

  const WSIZE: nat := 0x8000

  /** How far back index d of the window lies from position w. */
  function DistOf(w: nat, d: nat): (dist: nat)
    requires w < WSIZE && d < WSIZE
    ensures 1 <= dist <= WSIZE
  {
    if d < w then w - d else w + WSIZE - d
  }

  /** d & (WSIZE - 1) */
  function Mask(d: nat): (r: nat)
    ensures r < WSIZE
  {
    d % WSIZE
  }

  /** How much of a match of n bytes can be copied before either position reaches the end of the window. */
  function Piece(w: nat, d: nat, n: nat): (e: nat)
    requires w < WSIZE && d < WSIZE
    ensures e <= n && w + e <= WSIZE && d + e <= WSIZE && (e < n ==> w + e == WSIZE || d + e == WSIZE)
    ensures n > 0 ==> e > 0
  {
    var e := WSIZE - (if d > w then d else w);
    if e > n then n else e
  }

  class Slide {
    const slide: array<Byte>
    /** crc_32_tab, which never changes once it is made. */
    const tab: seq<bv32>
    var wp: nat
    /** output_data up to output_ptr, and the count bytes_out. */
    var output: seq<Byte>
    var bytesOut: nat
    var crc: bv32
    /** What the window held before the first byte was written: what distances beyond it refer to. */
    ghost const pre: seq<Byte>

    /** All bytes produced, written out or not. */
    ghost function Produced(): seq<Byte>
      requires wp <= slide.Length
      reads this, slide
    {
      output + slide[..wp]
    }

    ghost function History(): seq<Byte>
      requires wp <= slide.Length
      reads this, slide
    {
      pre + Produced()
    }

    /** The CRC is that of all that was written out. */
    ghost predicate Written()
      reads this, slide
    {
      && slide.Length == WSIZE == |pre| && wp <= WSIZE
      && |tab| == 256 && (forall i :: 0 <= i < 256 ==> tab[i] == Entry(i as bv32))
      && crc == Feed(ALL_ONES, output) && bytesOut == |output|
    }

    /** And the window holds the last 32K of the history. It may be full. */
    ghost predicate Open()
      reads this, slide
    {
      Written() && Window(slide[..], wp, History(), WSIZE)
    }

    ghost predicate Valid()
      reads this, slide
    {
      Open() && wp < WSIZE
    }

    constructor (window: array<Byte>)
      requires window.Length == WSIZE
      ensures slide == window && pre == window[..]
      ensures Valid() && output == [] && wp == 0
    {
      slide := window;
      pre := window[..];
      var t, c := MakeCrc();
      tab := t[..];
      crc := c;
      wp, output, bytesOut := 0, [], 0;
    }

    /** flush_window: what the window holds up to wp goes out, byte for byte and into the CRC. */
    method FlushWindow()
      requires Written()
      modifies this
      ensures Written() && wp == 0 && output == old(Produced()) == Produced()
    {
      hide Entry, Feed, FeedBits, Window;
      ghost var before := output;
      var c := crc;
      var n := 0;
      while n < wp
        invariant 0 <= n <= wp && wp == old(wp) && bytesOut == old(bytesOut)
        invariant output == before + slide[..n] && c == Feed(ALL_ONES, output)
      {
        var ch := slide[n];
        FeedOne(output, ch);
        output := output + [ch];
        ByteFits(ch);
        var x := Xor(c, ch as bv32) & 0xff;
        TableStep(c, ch as bv32);
        IndexRange(x);
        c := Xor(tab[x as nat], c >> 8);
        n := n + 1;
      }
      crc := c;
      bytesOut := bytesOut + wp;
      wp := 0;
    }

    /** A full window is written out, and writing starts again at its beginning. */
    method FlushFull()
      requires Open()
      modifies this
      ensures Valid() && History() == old(History()) && wp == if old(wp) == WSIZE then 0 else old(wp)
      ensures |Produced()| == old(|Produced()|)
    {
      if wp == WSIZE {
        WindowRewind(slide[..], History(), WSIZE);
        FlushWindow();
      }
    }

    /** slide[w++] = b, before any flush. */
    method Store(b: Byte, ghost h: seq<Byte>)
      requires Open() && wp < WSIZE && h == History()
      modifies this`wp, slide
      ensures Open() && wp == old(wp) + 1 && History() == h + [b]
      ensures output == old(output)
    {
      hide Entry, Feed, Window;
      WindowAppend(slide[..], wp, h, WSIZE, b);
      assert slide[..][wp := b][..wp + 1] == slide[..wp] + [b];
      slide[wp] := b;
      wp := wp + 1;
      assert History() == h + [b];
    }

    /** A literal. */
    method PutByte(b: Byte)
      requires Valid()
      modifies this, slide
      ensures Valid() && History() == old(History()) + [b]
    {
      Store(b, History());
      FlushFull();
    }

    /** slide[w++] = slide[d] */
    method StoreFrom(d: nat, ghost dist: nat)
      requires Open() && wp < WSIZE && d < WSIZE && dist == DistOf(wp, d)
      modifies this`wp, slide
      ensures Open() && wp == old(wp) + 1 && output == old(output)
      ensures History() == old(History()) + [Back(old(History()), dist)]
    {
      hide Entry, Feed, Window;
      WindowByte(slide[..], wp, d, dist, History());
      Store(slide[d], History());
    }

    /** memcpy(slide + w, slide + d, e) with w += e: the forward byte loop. */
    method MemCpy(d: nat, e: nat, ghost dist: nat)
      requires Open() && wp < WSIZE && d < WSIZE && d + e <= WSIZE && wp + e <= WSIZE && dist == DistOf(wp, d)
      modifies this`wp, slide
      ensures Open() && wp == old(wp) + e && output == old(output)
      ensures History() == CopyMatch(old(History()), dist, e)
    {
      OpenLong();
      hide Open, DistOf, History, CopyMatch;
      ghost var want, left := CopyMatch(History(), dist, e), e;
      var i, f := 0, d;
      while i < e
        invariant i <= e && wp == old(wp) + i && f == d + i && left == e - i && output == old(output)
        invariant Open() && slide.Length == WSIZE && |History()| >= WSIZE
        invariant i < e ==> dist == DistOf(wp, f)
        invariant CopyMatch(History(), dist, left) == want
      {
        OneOn(wp, f);
        CopyOne(History(), dist, left);
        StoreFrom(f, dist);
        OpenLong();
        i, f, left := i + 1, f + 1, left - 1;
      }
      NoneLeft(History(), dist);
    }

    /** Do it slow: do slide[w++] = slide[d++] while (--e). */
    method CopySlow(d0: nat, e0: nat, ghost dist: nat)
      requires Open() && wp < WSIZE && d0 < WSIZE && d0 + e0 <= WSIZE && wp + e0 <= WSIZE
      requires e0 > 0 && dist == DistOf(wp, d0)
      modifies this`wp, slide
      ensures Open() && wp == old(wp) + e0 && output == old(output)
      ensures History() == CopyMatch(old(History()), dist, e0)
    {
      OpenLong();
      hide Open, DistOf, History, CopyMatch;
      ghost var want := CopyMatch(History(), dist, e0);
      var d, e := d0, e0;
      while true
        invariant 0 < e <= e0 && wp == old(wp) + (e0 - e) && d == d0 + (e0 - e) && output == old(output)
        invariant Open() && slide.Length == WSIZE && |History()| >= WSIZE && dist == DistOf(wp, d)
        invariant CopyMatch(History(), dist, e) == want
        decreases e
      {
        OneOn(wp, d);
        CopyOne(History(), dist, e);
        StoreFrom(d, dist);
        OpenLong();
        d := d + 1;
        e := e - 1;
        if e == 0 {
          break;
        }
      }
      NoneLeft(History(), dist);
    }

    lemma OpenLong()
      requires Open()
      ensures slide.Length == WSIZE && wp <= WSIZE && |History()| >= WSIZE
    {
    }

    lemma Long()
      requires Valid()
      ensures slide.Length == WSIZE && wp < WSIZE && |History()| >= WSIZE
    {
    }

    /** One piece, with memcpy when it does not read what it writes, as far as unsigned w - d can tell. */
    method CopyPiece(d: nat, e: nat, ghost dist: nat)
      requires Valid() && d < WSIZE && d + e <= WSIZE && wp + e <= WSIZE && dist == DistOf(wp, d)
      modifies this, slide
      ensures Valid() && wp == if old(wp) + e == WSIZE then 0 else old(wp) + e
      ensures History() == CopyMatch(old(History()), dist, e)
    {
      hide Entry, Feed, Window, CopyMatch;
      if WrapSub(wp, d) >= e {
        MemCpy(d, e, dist);
      } else {
        CopySlow(d, e, dist);
      }
      FlushFull();
    }

    /**
      The copy of a match of n bytes from index d on (taken modulo the window size): in pieces that
      cross neither end of the window, flushing it whenever it is full.
     */
    method Copy(d0: Word, n0: nat)
      requires Valid()
      modifies this, slide
      ensures Valid()
      ensures History() == CopyMatch(old(History()), DistOf(old(wp), Mask(d0)), n0)
    {
      Long();
      hide CopyMatch, DistOf, Valid, History, Mask, Piece;
      ghost var dist := DistOf(wp, Mask(d0));
      var d: nat, n: nat := d0, n0;
      while true
        invariant Valid() && slide.Length == WSIZE && |History()| >= WSIZE && wp < WSIZE
        invariant n <= n0 && d < U32 && dist == DistOf(wp, Mask(d))
        invariant CopyMatch(History(), dist, n) == CopyMatch(old(History()), dist, n0)
        decreases n
      {
        d, n := CopyTurn(d, n, dist);
        NoneLeft(History(), dist);
        if n == 0 {
          break;
        }
      }
    }

    /** One turn of the loop over pieces. */
    method CopyTurn(d0: nat, n0: nat, ghost dist: nat) returns (d: nat, n: nat)
      requires Valid() && slide.Length == WSIZE && wp < WSIZE && dist == DistOf(wp, Mask(d0))
      modifies this, slide
      ensures Valid() && slide.Length == WSIZE && wp < WSIZE && |History()| >= WSIZE
      ensures d <= WSIZE && dist == DistOf(wp, Mask(d)) && n <= n0 && (n0 > 0 ==> n < n0)
      ensures old(|History()|) >= WSIZE && CopyMatch(History(), dist, n) == CopyMatch(old(History()), dist, n0)
    {
      hide *;
      Long();
      ghost var h, w := History(), wp;
      d := Mask(d0);
      var e := Piece(wp, d, n0);
      n := n0 - e;
      CopyPiece(d, e, dist);
      Long();
      PieceDone(h, History(), dist, e, n, w, d, wp);
      d := d + e;
    }
  }

  lemma PieceDone(h: seq<Byte>, h2: seq<Byte>, dist: nat, e: nat, n: nat, w: nat, d: nat, w2: nat)
    requires w < WSIZE && d < WSIZE && w + e <= WSIZE && d + e <= WSIZE && w2 == if w + e == WSIZE then 0 else w + e
    requires dist == DistOf(w, d) && |h| >= WSIZE && h2 == CopyMatch(h, dist, e)
    ensures DistOf(w2, Mask(d + e)) == dist && |h2| >= WSIZE && CopyMatch(h2, dist, n) == CopyMatch(h, dist, e + n)
  {
    CopyMatchSplits(h, dist, e, n);
    StaysBack(w, d, e, w2);
  }

  lemma NoneLeft(h: seq<Byte>, dist: nat)
    ensures CopyMatch(h, dist, 0) == h
  {
  }

  lemma CopyOne(h: seq<Byte>, dist: nat, n: nat)
    requires n > 0 && 1 <= dist <= |h|
    ensures CopyMatch(h + [Back(h, dist)], dist, n - 1) == CopyMatch(h, dist, n)
  {
  }

  lemma OneOn(w: nat, d: nat)
    requires w < WSIZE && d < WSIZE
    ensures w + 1 < WSIZE && d + 1 < WSIZE ==> DistOf(w + 1, d + 1) == DistOf(w, d)
  {
  }

  /** After e bytes, both positions wrapped, the source is as far back as before. */
  lemma StaysBack(w: nat, d: nat, e: nat, w2: nat)
    requires w < WSIZE && d < WSIZE && w + e <= WSIZE && d + e <= WSIZE && w2 == if w + e == WSIZE then 0 else w + e
    ensures DistOf(w2, Mask(d + e)) == DistOf(w, d)
  {
  }

  /** The byte dist back is the one at index d. */
  lemma WindowByte(slide: seq<Byte>, w: nat, d: nat, dist: nat, h: seq<Byte>)
    requires |slide| == WSIZE && w < WSIZE && d < WSIZE && Window(slide, w, h, WSIZE) && |h| >= WSIZE
    requires dist == DistOf(w, d)
    ensures slide[d] == Back(h, dist)
  {
    assert Source(w, dist, WSIZE) == d;
  }

  lemma FeedOne(s: seq<Byte>, b: Byte)
    ensures Feed(ALL_ONES, s + [b]) == FeedBits(Feed(ALL_ONES, s), b as bv32, 8)
  {
    hide FeedBits;
    assert (s + [b])[..|s + [b]| - 1] == s;
  }

  lemma IndexRange(x: bv32)
    requires x <= 0xff
    ensures 0 <= x as nat < 256 && (x as nat) as bv32 == x
  {
  }
}
