/** Canonical prefix codes (section 3.2 of RFC 7932). The bits of a window arrive least
    significant first; codewords are numbers whose first bit counts most. */
module PrefixCode {
  import opened Arith

  const MAX_LENGTH := 15
  const SPACE := 32768

  function Bit(w: nat, i: nat): (b: nat)
    ensures b < 2
  {
    if i == 0 then w % 2 else Bit(w / 2, i - 1)
  }

  function Shl(x: nat, n: nat): nat {
    if n == 0 then x else 2 * Shl(x, n - 1)
  }

  /** The first `n` bits of the window `w` as a number whose first bit counts most. */
  function Rev(w: nat, n: nat): (r: nat)
    ensures r < Pow2(n)
  {
    if n == 0 then 0 else 2 * Rev(w, n - 1) + Bit(w, n - 1)
  }

  /** The same, peeling off the first bit instead of the last. */
  lemma {:induction false} RevFirst(w: nat, n: nat)
    requires n > 0
    ensures Rev(w, n) == (if w % 2 == 1 then Pow2(n - 1) else 0) + Rev(w / 2, n - 1)
  {
    if n > 1 { RevFirst(w, n - 1); }
  }

  /** `w % 2^n` by halving. */
  function Low(w: nat, n: nat): (r: nat)
    ensures r < Pow2(n) && r <= w
    ensures w < Pow2(n) ==> r == w
  {
    if n == 0 then 0 else w % 2 + 2 * Low(w / 2, n - 1)
  }

  lemma {:induction false} LowModulo(w: nat, n: nat)
    ensures Low(w, n) == w % Pow2(n)
  {
    if n > 0 {
      LowModulo(w / 2, n - 1);
      ModuloDouble(w, Pow2(n - 1));
    }
  }

  lemma ModuloDouble(w: nat, p: nat)
    requires p > 0
    ensures w % (2 * p) == w % 2 + 2 * ((w / 2) % p)
  {
    var q, r := (w / 2) / p, (w / 2) % p;
    assert w == q * (2 * p) + (2 * r + w % 2) by {
      assert w / 2 == q * p + r;
    }
    DivModUnique(w, 2 * p, q, 2 * r + w % 2);
  }

  /** Reversing twice keeps the low bits. */
  lemma {:induction false} RevRev(w: nat, n: nat)
    ensures Rev(Rev(w, n), n) == Low(w, n)
  {
    if n > 0 {
      var r := Rev(w / 2, n - 1);
      RevRev(w / 2, n - 1);
      RevFirst(w, n);
      RevSet(r, n - 1, w % 2);
    }
  }

  /** Setting bit `n` of a number below 2^n. */
  lemma {:induction false} BitHigh(r: nat, n: nat)
    requires r < Pow2(n)
    ensures Bit(r, n) == 0 && Bit(r + Pow2(n), n) == 1
  {
    if n > 0 { BitHigh(r / 2, n - 1); }
  }

  /** Bit `n` does not matter to the first `n` bits. */
  lemma {:induction false} RevBelow(r: nat, n: nat)
    ensures Rev(r + Pow2(n), n) == Rev(r, n)
  {
    if n > 0 {
      RevFirst(r + Pow2(n), n);
      RevFirst(r, n);
      RevBelow(r / 2, n - 1);
    }
  }

  /** Reversing a number below 2^n with bit `n` set or not. */
  lemma RevSet(r: nat, n: nat, b: nat)
    requires r < Pow2(n) && b < 2
    ensures Rev(if b == 1 then Pow2(n) + r else r, n + 1) == 2 * Rev(r, n) + b
  {
    BitHigh(r, n);
    RevBelow(r, n);
  }

  /** Only the first `n` bits matter. */
  lemma {:induction false} RevLow(w: nat, n: nat)
    ensures Rev(Low(w, n), n) == Rev(w, n)
  {
    if n > 0 {
      RevFirst(w, n);
      RevFirst(Low(w, n), n);
      RevLow(w / 2, n - 1);
    }
  }

  /** The heart of table filling: the indices with low bits `Rev(code, n)` are those that
      read as `code`. */
  lemma RevStep(x: nat, code: nat, n: nat)
    requires code < Pow2(n)
    ensures Low(x, n) == Rev(code, n) <==> Rev(x, n) == code
  {
    RevRev(code, n);
    RevRev(x, n);
    RevLow(x, n);
  }

  /** A key with `m` trailing zeros reverses like the key without them. */
  lemma {:induction false} RevShl(code: nat, n: nat, m: nat)
    requires code < Pow2(n)
    ensures Rev(Shl(code, m), m + n) == Rev(code, n)
    decreases m
  {
    if m > 0 {
      RevShl(code, n, m - 1);
      RevFirst(Shl(code, m), m + n);
    }
  }

  lemma {:induction false} BitSkip(w: nat, i: nat, j: nat)
    ensures Bit(w, i + j) == Bit(Shr(w, i), j)
    decreases i
  {
    if i > 0 { BitSkip(w / 2, i - 1, j); }
  }

  function Shr(w: nat, n: nat): nat {
    if n == 0 then w else Shr(w / 2, n - 1)
  }

  /** Reading more bits appends them. */
  lemma {:induction false} RevAppend(w: nat, n: nat, m: nat)
    ensures Rev(w, n + m) == Shl(Rev(w, n), m) + Rev(Shr(w, n), m)
    decreases m
  {
    if m > 0 {
      RevAppend(w, n, m - 1);
      BitSkip(w, n, m - 1);
    }
  }

  lemma {:induction false} ShlAdd(a: nat, b: nat, n: nat)
    ensures Shl(a + b, n) == Shl(a, n) + Shl(b, n)
    ensures Shl(1, n) == Pow2(n)
    ensures b > 0 ==> Shl(a + b, n) >= Shl(a, n) + Pow2(n)
  {
    if n > 0 { ShlAdd(a, b, n - 1); }
  }

  lemma {:induction false} ShlShl(a: nat, m: nat, n: nat)
    ensures Shl(Shl(a, m), n) == Shl(a, m + n)
    decreases n
  {
    if n > 0 { ShlShl(a, m, n - 1); }
  }

  lemma {:induction false} ShlPow2(m: nat, n: nat)
    ensures Shl(Pow2(m), n) == Pow2(m + n)
  {
    if n > 0 { ShlPow2(m, n - 1); }
  }

  lemma {:induction false} ShlZero(n: nat)
    ensures Shl(0, n) == 0
  {
    if n > 0 { ShlZero(n - 1); }
  }

  lemma {:induction false} ShlMonotone(x: nat, y: nat, n: nat)
    ensures x < y ==> Shl(x, n) + Pow2(n) <= Shl(y, n)
    ensures x <= y ==> Shl(x, n) <= Shl(y, n)
  {
    if n > 0 { ShlMonotone(x, y, n - 1); }
  }

  lemma LowSelf(x: nat, n: nat)
    requires x < Pow2(n)
    ensures Low(x, n) == x
  {
  }

  /** How many codewords there are of each length; those of length 0 do not count. */
  type Counts = c: seq<nat> | |c| == MAX_LENGTH + 1 witness seq(16, _ => 0)

  /** The first codeword of each length. */
  function FirstCode(c: Counts, len: nat): nat
    requires 1 <= len <= MAX_LENGTH
    decreases len, 0
  {
    if len == 1 then 0 else 2 * EndCode(c, len - 1)
  }

  /** One past the last codeword of each length. */
  function EndCode(c: Counts, len: nat): nat
    requires 1 <= len <= MAX_LENGTH
    decreases len, 1
  {
    FirstCode(c, len) + c[len]
  }

  /** Shorter codewords come before longer ones, as bit strings: with any bits behind them they
      stay below, and the codewords of a length follow each other in the order of the symbols. */
  lemma {:induction false} CodewordOrder(c: Counts, l1: nat, k1: nat, l2: nat, k2: nat)
    requires 1 <= l1 < l2 <= MAX_LENGTH && k1 < c[l1]
    ensures Shl(FirstCode(c, l1) + k1 + 1, l2 - l1) <= FirstCode(c, l2) + k2
    decreases l2
  {
    if l1 + 1 < l2 {
      CodewordOrder(c, l1, k1, l2 - 1, 0);
    } else {
      assert Shl(FirstCode(c, l1) + k1 + 1, 1) == 2 * (FirstCode(c, l1) + k1 + 1);
    }
  }

  /** A code that uses the code space exactly. */
  predicate Complete(c: Counts) {
    EndCode(c, MAX_LENGTH) == SPACE
  }

  /** The k-th codeword of length `len` starts the window `w`. */
  predicate Starts(c: Counts, w: nat, len: nat, k: nat) {
    1 <= len <= MAX_LENGTH && k < c[len] && Rev(w, len) == FirstCode(c, len) + k
  }

  /** The codewords of a complete code fit their lengths. */
  lemma {:induction false} EndCodeBound(c: Counts, len: nat)
    requires 1 <= len <= MAX_LENGTH && Complete(c)
    ensures EndCode(c, len) <= Pow2(len)
    decreases MAX_LENGTH - len
  {
    if len < MAX_LENGTH {
      EndCodeBound(c, len + 1);
    } else {
      Pow2Values();
    }
  }

  /** The (length, rank) of the codeword that starts the window, looking at length `len` first. */
  function Find(c: Counts, w: nat, len: nat): (r: (nat, nat))
    requires 1 <= len <= MAX_LENGTH && Complete(c) && FirstCode(c, len) <= Rev(w, len)
    ensures Starts(c, w, r.0, r.1) && r.0 >= len
    decreases MAX_LENGTH - len
  {
    if Rev(w, len) < EndCode(c, len) then (len, Rev(w, len) - FirstCode(c, len))
    else
      assert len < MAX_LENGTH by { Pow2Values(); }
      Find(c, w, len + 1)
  }

  function Owner(c: Counts, w: nat): (r: (nat, nat))
    requires Complete(c)
    ensures Starts(c, w, r.0, r.1)
  {
    Find(c, w, 1)
  }

  /** A window that has passed the codewords of length `a` is past all shorter ones. */
  lemma {:induction false} StartsLater(c: Counts, w: nat, a: nat, b: nat)
    requires 1 <= a < b <= MAX_LENGTH && FirstCode(c, b) <= Rev(w, b)
    ensures EndCode(c, a) <= Rev(w, a)
    decreases b
  {
    if a + 1 < b { StartsLater(c, w, a, b - 1); }
  }

  /** Prefix freeness: at most one codeword starts a window. */
  lemma PrefixFree(c: Counts, w: nat, l1: nat, k1: nat, l2: nat, k2: nat)
    requires Starts(c, w, l1, k1) && Starts(c, w, l2, k2)
    ensures l1 == l2 && k1 == k2
  {
    if l1 < l2 { StartsLater(c, w, l1, l2); }
    if l2 < l1 { StartsLater(c, w, l2, l1); }
  }

  /** Completeness: exactly one codeword starts a window, however it continues. */
  lemma OwnerUnique(c: Counts, w: nat, len: nat, k: nat)
    requires Complete(c) && Starts(c, w, len, k)
    ensures Owner(c, w) == (len, k)
  {
    var o := Owner(c, w);
    PrefixFree(c, w, len, k, o.0, o.1);
  }

  /** The owner depends only on the bits of its own codeword. */
  lemma OwnerPrefix(c: Counts, w: nat, w': nat, n: nat)
    requires Complete(c) && Rev(w, n) == Rev(w', n) && Owner(c, w).0 <= n
    ensures Owner(c, w') == Owner(c, w)
  {
    var (len, k) := Owner(c, w);
    RevShorter(w, w', len, n);
    OwnerUnique(c, w', len, k);
  }

  lemma {:induction false} RevShorter(w: nat, w': nat, m: nat, n: nat)
    requires m <= n && Rev(w, n) == Rev(w', n)
    ensures Rev(w, m) == Rev(w', m)
    decreases n
  {
    if m < n { RevShorter(w, w', m, n - 1); }
  }
}
