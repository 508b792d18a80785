/** The size of the two-level table: why an alphabet's size plus 376 entries always do, and
    why the three tighter constants of the fixed-size tables do too. */
module HuffmanSize {
  import opened Arith
  import opened PrefixCode
  import opened HuffmanTable
  import opened HuffmanRoot
  import opened HuffmanBuild

  /** The number of codewords shorter than `len`. */
  function Shorter(c: Counts, len: nat): nat
    requires 1 <= len <= MAX_LENGTH + 1
  {
    if len == 1 then 0 else Shorter(c, len - 1) + c[len - 1]
  }

  /** The number of codewords. */
  function Used(c: Counts): nat {
    Shorter(c, MAX_LENGTH + 1)
  }

  /** The place of a codeword in the order they are handed out. */
  function Rank(c: Counts, o: (nat, nat)): nat
    requires 1 <= o.0 <= MAX_LENGTH
  {
    Shorter(c, o.0) + o.1
  }

  ghost predicate SplitSlot(c: Counts, r: nat)
    requires Complete(c)
  {
    r < ROOT_SIZE && Rev(r, 8) < ROOT_SIZE && Split(c, Rev(r, 8))
  }

  /** The first and the last codeword of a slot. */
  ghost function First(c: Counts, r: nat): (o: (nat, nat))
    requires Complete(c) && SplitSlot(c, r)
    ensures Starts(c, Rev(r, 8), o.0, o.1)
  {
    Owner(c, Rev(r, 8))
  }

  ghost function Last(c: Counts, r: nat): (o: (nat, nat))
    requires Complete(c) && SplitSlot(c, r)
    ensures Starts(c, LastWindow(Rev(r, 8)), o.0, o.1)
  {
    Owner(c, LastWindow(Rev(r, 8)))
  }

  ghost function SlotCodes(c: Counts, r: nat): int
    requires Complete(c) && SplitSlot(c, r)
  {
    Rank(c, Last(c, r)) + 1 - Rank(c, First(c, r))
  }

  /** The numbers of a slot's first and last codeword. */
  lemma SlotEnds(c: Counts, r: nat)
    requires Complete(c) && SplitSlot(c, r)
    ensures var (a, k) := First(c, r); 8 < a && FirstCode(c, a) + k == Shl(r, a - 8)
    ensures var (b, j) := Last(c, r); First(c, r).0 <= b && FirstCode(c, b) + j + 1 == Shl(r + 1, b - 8)
  {
    hide Owner, Rev, Shl, FirstCode;
    var x := Rev(r, 8);
    SlotKey(r);
    SubBitsBound(c, x, 0);
    SubBitsLast(c, x);
    FirstReads(x, r, First(c, r).0 - 8);
    LastReads(x, r, Last(c, r).0 - 8);
    ShlAdd(r, 1, Last(c, r).0 - 8);
  }

  lemma FirstReads(x: nat, r: nat, n: nat)
    requires x < ROOT_SIZE && Rev(x, 8) == r
    ensures Rev(x, 8 + n) == Shl(r, n)
  {
    hide Rev, Shl;
    SlotReads(x, 0, 8 + n);
    RevNothing(n);
  }

  lemma {:induction false} RevNothing(n: nat)
    ensures Rev(0, n) == 0
  {
    if n > 0 {
      RevNothing(n - 1);
      BitHigh(0, n - 1);
    }
  }

  /** Walking up the lengths inside a slot: codewords so far plus unfilled cells grow by one
      at least with every length. */
  lemma {:induction false} SlotWalk(c: Counts, r: nat, l: nat)
    requires Complete(c) && SplitSlot(c, r) && First(c, r).0 <= l < Last(c, r).0
    ensures EndCode(c, l) < Shl(r + 1, l - 8)
    ensures Shorter(c, l + 1) - Rank(c, First(c, r)) + (Shl(r + 1, l - 8) - EndCode(c, l))
      >= Pow2(First(c, r).0 - 8) + (l - First(c, r).0)
    decreases l
  {
    hide Owner, Rev, Shl, Pow2;
    var (a, k) := First(c, r);
    var x := Rev(r, 8);
    SlotEnds(c, r);
    SlotKey(r);
    StartsLater(c, LastWindow(x), l, Last(c, r).0);
    LastReads(x, r, l - 8);
    ShlAdd(r, 1, l - 8);
    if l > a {
      SlotWalk(c, r, l - 1);
      ShlStep(r + 1, l - 9);
    }
  }

  /** A table for codewords of lo..hi further bits serves at least 2^lo + hi - lo codewords,
      and exactly 2^lo when they are all equally long. */
  lemma SlotCodesBound(c: Counts, r: nat)
    requires Complete(c) && SplitSlot(c, r)
    ensures var lo, hi := First(c, r).0 - 8, Last(c, r).0 - 8;
      && 1 <= lo <= hi <= 7 && SubBits(c, Rev(r, 8)) == hi
      && SlotCodes(c, r) >= Pow2(lo) + (hi - lo) && (lo == hi ==> SlotCodes(c, r) == Pow2(lo))
  {
    hide Owner, Rev, Shl, Pow2;
    SlotEnds(c, r);
    SubBitsLast(c, Rev(r, 8));
    var (a, k) := First(c, r);
    var (b, j) := Last(c, r);
    if a < b {
      SlotWalk(c, r, b - 1);
      ShlStep(r + 1, b - 9);
    } else {
      ShlAdd(r, 1, a - 8);
    }
  }

  /** The codeword after the last one of a slot is the first one of the next slot. */
  lemma NextSlot(c: Counts, r: nat)
    requires Complete(c) && SplitSlot(c, r) && SplitSlot(c, r + 1)
    ensures Rank(c, First(c, r + 1)) == Rank(c, Last(c, r)) + 1
  {
    hide Owner, Rev, Shl, FirstCode, Pow2;
    var (b, j) := Last(c, r);
    var x := Rev(r + 1, 8);
    SlotEnds(c, r);
    SlotKey(r + 1);
    FirstReads(x, r + 1, b - 8);
    if j + 1 < c[b] {
      OwnerUnique(c, x, b, j + 1);
    } else {
      assert EndCode(c, b) == Shl(r + 1, b - 8);
      NextLonger(c, r + 1, b);
    }
  }

  /** The first codeword after all those of length `b` when they end where slot `r` begins. */
  lemma {:induction false} NextLonger(c: Counts, r: nat, b: nat)
    requires Complete(c) && SplitSlot(c, r) && 8 < b <= MAX_LENGTH && EndCode(c, b) == Shl(r, b - 8)
    ensures Rank(c, First(c, r)) == Shorter(c, b + 1)
    decreases MAX_LENGTH - b
  {
    hide Owner, Rev, Shl, Pow2;
    if b == MAX_LENGTH {
      ShlPow2(8, 7);
      Pow2Values();
      ShlAdd(r, ROOT_SIZE - r, 7);
      assert false;
    }
    ShlStep(r, b - 8);
    SlotKey(r);
    FirstReads(Rev(r, 8), r, b - 7);
    if c[b + 1] > 0 {
      OwnerUnique(c, Rev(r, 8), b + 1, 0);
    } else {
      NextLonger(c, r, b + 1);
    }
  }

  /** `2^l - l`, along which the excess of the tables telescopes. */
  function Excess(l: nat): int {
    Pow2(l) - l
  }

  /** All slots from `EndCode(c, 8)` on are split. */
  lemma SlotsSplit(c: Counts, r: nat)
    requires Complete(c) && EndCode(c, 8) <= r < ROOT_SIZE
    ensures SplitSlot(c, r)
  {
    hide Owner, Rev, FirstCode;
    SlotKey(r);
    BeforeReads(c, Rev(r, 8), 8, c[8]);
  }

  /** After the tables of the slots up to `r`: their total size exceeds the number of their
      codewords by the telescoped excess at most; every length crossed costs a codeword
      beyond two per slot; and the excess is largest only for one parity. */
  lemma {:induction false} SlotsBound(c: Counts, r: nat)
    requires Complete(c) && EndCode(c, 8) <= r < ROOT_SIZE
    ensures SplitSlot(c, r)
    ensures var hi := Last(c, r).0 - 8; var n := Rank(c, Last(c, r)) + 1 - Shorter(c, 9);
      && 1 <= hi <= 7
      && SumSlots(c, r + 1) <= n + Excess(hi) - 1
      && n - 2 * (r + 1 - EndCode(c, 8)) >= hi - 1
      && (SumSlots(c, r + 1) == n + Excess(hi) - 1 ==> (n - (hi - 1)) % 2 == 0)
    decreases r
  {
    hide Owner, Rev, Shl, EndCode, FirstCode, SubBits, Pow2;
    SlotsSplit(c, r);
    SlotCodesBound(c, r);
    SlotKey(r);
    var lo, hi := First(c, r).0 - 8, Last(c, r).0 - 8;
    assert SumSlots(c, r + 1) == SumSlots(c, r) + Pow2(hi);
    ExcessGrows(1, lo);
    ExcessGrows(lo, hi);
    if r == EndCode(c, 8) {
      SumSlotsRoot(c, r);
      FirstSlot(c, r);
    } else {
      SlotsBound(c, r - 1);
      NextSlot(c, r - 1);
      SlotsOrdered(c, r - 1);
      ExcessGrows(Last(c, r - 1).0 - 8, lo);
    }
  }

  lemma {:induction false} ExcessGrows(a: nat, b: nat)
    requires 1 <= a <= b
    ensures Excess(a) <= Excess(b) && (a < b ==> Excess(a) < Excess(b))
    ensures Pow2(a) % 2 == 0 && Pow2(b) >= 2 && Pow2(b) - 2 >= b - a
    decreases b
  {
    if a < b { ExcessGrows(a, b - 1); }
  }

  lemma SlotsOrdered(c: Counts, r: nat)
    requires Complete(c) && SplitSlot(c, r) && SplitSlot(c, r + 1)
    ensures Last(c, r).0 <= First(c, r + 1).0
  {
    hide Owner, Rev, Shl, Pow2;
    SlotKey(r);
    SlotKey(r + 1);
    var x, x' := Rev(r, 8), Rev(r + 1, 8);
    LastReads(x, r, 7);
    FirstReads(x', r + 1, 7);
    ShlAdd(r, 1, 7);
    OwnerMonotone(c, LastWindow(x), x');
  }

  /** Before the first split slot exactly the short codewords have been handed out. */
  lemma FirstSlot(c: Counts, r: nat)
    requires Complete(c) && SplitSlot(c, r) && r == EndCode(c, 8)
    ensures Rank(c, First(c, r)) == Shorter(c, 9)
  {
    hide Owner, Rev, Shl, Pow2;
    SlotKey(r);
    ShlNone(r);
    ShlStep(r, 0);
    FirstReads(Rev(r, 8), r, 1);
    if c[9] > 0 {
      OwnerUnique(c, Rev(r, 8), 9, 0);
    } else {
      NextLonger(c, r, 9);
    }
  }

  /** Taking `d` of `m` cells still leaves a share of at least 2^-d. */
  lemma {:induction false} ShlTrade(m: nat, d: nat)
    requires d < m
    ensures Shl(m - d, d) >= m
    decreases d
  {
    if d > 0 {
      ShlTrade(m, d - 1);
      ShlDouble(m - d, d - 1);
      ShlAdd(m - d + 1, m - d - 1, d - 1);
    }
  }

  /** `j` codewords of up to `l` bits that leave room leave at least 2^-j of the space. */
  lemma {:induction false} FewShortCodes(c: Counts, l: nat)
    requires Complete(c) && 1 <= l <= MAX_LENGTH && EndCode(c, l) < Pow2(l)
    ensures Shl(Pow2(l) - EndCode(c, l), Shorter(c, l + 1)) >= Pow2(l)
    decreases l
  {
    hide Shl;
    var d := c[l];
    if l == 1 {
      ShlTrade(2, d);
    } else {
      var m := Pow2(l - 1) - EndCode(c, l - 1);
      FewShortCodes(c, l - 1);
      ShlTrade(2 * m, d);
      var j := Shorter(c, l);
      ShlShl(2 * m - d, d, j);
      ShlMonotone(2 * m, Shl(2 * m - d, d), j);
      ShlDouble(m, j);
    }
  }

  /** The sizes the decoder reserves: 376 entries beyond the alphabet for a tree group, and
      396, 632 and 646 for the alphabets of 26, 258 and 272 symbols. */
  lemma TableSizeBound(c: Counts)
    requires Complete(c)
    ensures TableSize(c) <= Used(c) + 376
    ensures Used(c) <= 26 ==> TableSize(c) <= 396
    ensures Used(c) <= 258 ==> TableSize(c) <= 632
    ensures Used(c) <= 272 ==> TableSize(c) <= 646
  {
    hide Owner, Rev, Shl, FirstCode, EndCode, SubBits, SumSlots, Shorter;
    EndCodeBound(c, 8);
    Pow2Values();
    if EndCode(c, 8) == ROOT_SIZE {
      SumSlotsRoot(c, ROOT_SIZE);
    } else {
      SlotsBound(c, ROOT_SIZE - 1);
      LastSlot(c);
      FewShortCodes(c, 8);
      ShortShare(ROOT_SIZE - EndCode(c, 8), Shorter(c, 9));
      var hi := Last(c, ROOT_SIZE - 1).0 - 8;
      ExcessGrows(hi, 7);
    }
  }

  lemma LastSlot(c: Counts)
    requires Complete(c) && SplitSlot(c, ROOT_SIZE - 1)
    ensures Rank(c, Last(c, ROOT_SIZE - 1)) + 1 == Used(c)
  {
    hide Owner, Rev, Shl, Pow2;
    var (b, j) := Last(c, ROOT_SIZE - 1);
    SlotEnds(c, ROOT_SIZE - 1);
    Pow2Values();
    ShlPow2(8, b - 8);
    EndCodeBound(c, b);
    NoneLonger(c, b);
  }

  lemma {:induction false} NoneLonger(c: Counts, b: nat)
    requires Complete(c) && 1 <= b <= MAX_LENGTH && EndCode(c, b) == Pow2(b)
    ensures Shorter(c, b + 1) == Used(c)
    decreases MAX_LENGTH - b
  {
    if b < MAX_LENGTH {
      EndCodeBound(c, b + 1);
      NoneLonger(c, b + 1);
    }
  }

  /** How many slots are left by few short codewords. */
  lemma ShortShare(slots: nat, j: nat)
    requires slots > 0 && Shl(slots, j) >= 256
    ensures (j == 0 ==> slots >= 256) && (j <= 1 ==> slots >= 128) && (j <= 4 ==> slots >= 16)
    ensures (j <= 5 ==> slots >= 8)
  {
    assert Shl(slots, 1) == 2 * Shl(slots, 0) && Shl(slots, 2) == 2 * Shl(slots, 1);
    assert Shl(slots, 3) == 2 * Shl(slots, 2) && Shl(slots, 4) == 2 * Shl(slots, 3);
    assert Shl(slots, 5) == 2 * Shl(slots, 4);
  }
}
