/**
  Bit strings packed least significant bit first, as DEFLATE packs them, and their values read
  most significant bit first, as Huffman codes are ordered. Shifts and masks by n bits are defined
  one bit at a time.
 */
module BitReverse {
  import opened Words

  /** b >> n */
  function Shr(b: nat, n: nat): nat
    decreases n
  {
    if n == 0 then b else Shr(b / 2, n - 1)
  }

  /** b << n */
  function Shl(b: nat, n: nat): (r: nat)
    ensures r >= b
  {
    if n == 0 then b else 2 * Shl(b, n - 1)
  }

  /** b & ((1 << n) - 1) */
  function Low(b: nat, n: nat): (r: nat)
    ensures r < Pow2(n) && r <= b
    decreases n
  {
    if n == 0 then 0 else b % 2 + 2 * Low(b / 2, n - 1)
  }

  /** The first k bits of b, the first of them most significant. */
  function Rev(b: nat, k: nat): (r: nat)
    ensures r < Pow2(k)
    decreases k
  {
    if k == 0 then 0 else (if b % 2 == 1 then Pow2(k - 1) else 0) + Rev(b / 2, k - 1)
  }

  // ----- shifts and masks

  lemma NoShift(b: nat)
    ensures Shr(b, 0) == b && Shl(b, 0) == b && Low(b, 0) == 0
  {
  }

  lemma {:induction false} ShrAdds(b: nat, m: nat, n: nat)
    ensures Shr(Shr(b, m), n) == Shr(b, m + n)
    decreases m
  {
    if m > 0 {
      ShrAdds(b / 2, m - 1, n);
    }
  }

  lemma {:induction false} ShlAdds(b: nat, m: nat, n: nat)
    ensures Shl(Shl(b, m), n) == Shl(b, m + n)
  {
    if n > 0 {
      ShlAdds(b, m, n - 1);
    }
  }

  lemma {:induction false} ShlSum(a: nat, b: nat, n: nat)
    ensures Shl(a + b, n) == Shl(a, n) + Shl(b, n)
  {
    if n > 0 {
      ShlSum(a, b, n - 1);
    }
  }

  lemma {:induction false} ShlOne(n: nat)
    ensures Shl(1, n) == Pow2(n)
    ensures Shl(0, n) == 0
  {
    if n > 0 {
      ShlOne(n - 1);
    }
  }

  lemma ShlGrows(a: nat, b: nat, n: nat)
    requires a <= b
    ensures Shl(a, n) <= Shl(b, n)
  {
    ShlSum(a, b - a, n);
  }

  lemma ShlApart(a: nat, b: nat, n: nat)
    requires a < b
    ensures Shl(a, n) + Pow2(n) <= Shl(b, n)
  {
    ShlSum(a, 1, n);
    ShlOne(n);
    ShlGrows(a + 1, b, n);
  }

  lemma {:induction false} ShlPow(m: nat, n: nat)
    ensures Shl(Pow2(m), n) == Pow2(m + n)
  {
    if n > 0 {
      ShlPow(m, n - 1);
    }
  }

  /** A number is its low bits and the rest shifted back. */
  lemma {:induction false} Recompose(b: nat, n: nat)
    ensures b == Low(b, n) + Shl(Shr(b, n), n)
    decreases n
  {
    if n > 0 {
      Recompose(b / 2, n - 1);
    }
  }

  /** Low and high parts put together come apart again. */
  lemma {:induction false} Compose(x: nat, q: nat, w: nat)
    requires x < Pow2(w)
    ensures Low(x + Shl(q, w), w) == x && Shr(x + Shl(q, w), w) == q
    decreases w
  {
    if w > 0 {
      var s := x + Shl(q, w);
      assert s / 2 == x / 2 + Shl(q, w - 1) && s % 2 == x % 2;
      Compose(x / 2, q, w - 1);
    }
  }

  lemma ShortHasNoRest(x: nat, w: nat)
    requires x < Pow2(w)
    ensures Low(x, w) == x && Shr(x, w) == 0
  {
    ShlOne(w);
    Compose(x, 0, w);
  }

  /** The low m + n bits: the low m, and the next n. */
  lemma {:induction false} LowSplit(b: nat, m: nat, n: nat)
    ensures Low(b, m + n) == Low(b, m) + Shl(Low(Shr(b, m), n), m)
    decreases m
  {
    if m > 0 {
      LowSplit(b / 2, m - 1, n);
      ShlAdds(Low(Shr(b / 2, m - 1), n), m - 1, 1);
    }
  }

  lemma {:induction false} LowOfLow(b: nat, m: nat, n: nat)
    requires m <= n
    ensures Low(Low(b, n), m) == Low(b, m)
    decreases m
  {
    if m > 0 {
      LowOfLow(b / 2, m - 1, n - 1);
    }
  }

  /** What is left of a number of w + j bits after w of them. */
  lemma {:induction false} ShrSmall(i: nat, w: nat, j: nat)
    requires i < Pow2(w + j)
    ensures Shr(i, w) < Pow2(j)
    decreases w
  {
    if w > 0 {
      assert Pow2(w + j) == 2 * Pow2(w - 1 + j);
      ShrSmall(i / 2, w - 1, j);
    }
  }

  /** Bits m .. m + n - 1 can be cut out in either order. */
  lemma ShrOfLow(b: nat, m: nat, n: nat)
    ensures Shr(Low(b, m + n), m) == Low(Shr(b, m), n)
  {
    LowSplit(b, m, n);
    Compose(Low(b, m), Low(Shr(b, m), n), m);
  }

  // ----- reversal

  /** The reversed string of w + j bits is that of the first w bits followed by that of the rest. */
  lemma {:induction false} RevSplit(b: nat, w: nat, j: nat)
    ensures Rev(b, w + j) == Shl(Rev(b, w), j) + Rev(Shr(b, w), j)
    decreases w
  {
    hide Shl, Pow2;
    if w > 0 {
      RevSplit(b / 2, w - 1, j);
      ShlSum(if b % 2 == 1 then Pow2(w - 1) else 0, Rev(b / 2, w - 1), j);
      ShlPow(w - 1, j);
      ShlOne(j);
    } else {
      ShlOne(j);
    }
  }

  lemma {:induction false} RevOfLow(b: nat, j: nat, k: nat)
    requires j <= k
    ensures Rev(Low(b, k), j) == Rev(b, j)
    decreases j
  {
    if j > 0 {
      RevOfLow(b / 2, j - 1, k - 1);
    }
  }

  lemma {:induction false} RevZero(k: nat)
    ensures Rev(0, k) == 0
  {
    if k > 0 {
      RevZero(k - 1);
    }
  }

  /** Beyond its own bits a number has only zeros. */
  lemma RevShort(x: nat, w: nat, j: nat)
    requires x < Pow2(w)
    ensures Rev(x, w + j) == Shl(Rev(x, w), j)
  {
    RevSplit(x, w, j);
    ShortHasNoRest(x, w);
    RevZero(j);
  }

  /** Reversal loses nothing. */
  lemma {:induction false} RevInjective(a: nat, b: nat, k: nat)
    requires a < Pow2(k) && b < Pow2(k) && Rev(a, k) == Rev(b, k)
    ensures a == b
    decreases k
  {
    if k > 0 {
      RevInjective(a / 2, b / 2, k - 1);
    }
  }

  /**
    The strings that begin with the w bits of x are, in the order of their reversed values, an
    interval of length 2^(16-w) that starts at the value of x itself.
   */
  lemma PrefixInterval(b: nat, x: nat, w: nat)
    requires w <= 16 && x < Pow2(w)
    ensures Low(b, w) == x <==> Rev(x, 16) <= Rev(b, 16) < Rev(x, 16) + Pow2(16 - w)
  {
    hide *;
    var j := 16 - w;
    RevSplit(b, w, j);
    RevShort(x, w, j);
    RevOfLow(b, w, w);
    if Rev(b, w) == Rev(x, w) {
      RevInjective(Low(b, w), x, w);
    } else if Rev(b, w) < Rev(x, w) {
      ShlApart(Rev(b, w), Rev(x, w), j);
    } else {
      ShlApart(Rev(x, w), Rev(b, w), j);
    }
  }

  /** The values of two strings agree to k bits when one shifted value is the other's prefix. */
  lemma RevPrefix(b: nat, k: nat, c: nat)
    requires k <= 16
    ensures Rev(b, k) == c <==> Shl(c, 16 - k) <= Rev(b, 16) < Shl(c, 16 - k) + Pow2(16 - k)
  {
    hide *;
    var j := 16 - k;
    RevSplit(b, k, j);
    if Rev(b, k) < c {
      ShlApart(Rev(b, k), c, j);
    } else if c < Rev(b, k) {
      ShlApart(c, Rev(b, k), j);
    }
  }
}
