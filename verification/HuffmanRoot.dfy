/** The first half of `BrotliBuildHuffmanTable`: the root table, filled in place from the
    chains of symbols, and the width of a second-level table. */
module HuffmanRoot {
  import opened Arith
  import opened PrefixCode
  import opened HuffmanTable

  const NO_SYMBOL := 0xFFFF

  /** `symbols` is the chain that starts at index `head`; the entry for symbol `x` is at 16 + x. */
  ghost predicate Chain(lists: seq<nat>, head: nat, symbols: seq<nat>)
    decreases |symbols|
  {
    symbols == [] || (head < |lists| && lists[head] == symbols[0] && Chain(lists, 16 + symbols[0], symbols[1..]))
  }

  /** The heads at 1..15 start the chains of the codeword lengths 1..15. */
  ghost predicate Lists(lists: seq<nat>, c: Counts, s: Symbols) {
    && Matches(c, s) && |lists| >= 16
    && (forall len :: 1 <= len <= MAX_LENGTH ==> Chain(lists, len, s[len]))
    && (forall len :: 1 <= len <= MAX_LENGTH ==> (lists[len] == NO_SYMBOL <==> c[len] == 0))
  }

  /** Codewords are handed out by length, then by rank. */
  predicate Before(o: (nat, nat), len: nat, k: nat) {
    o.0 < len || (o.0 == len && o.1 < k)
  }

  /** Codewords handed out earlier are those that read smaller. */
  lemma BeforeReads(c: Counts, w: nat, len: nat, k: nat)
    requires Complete(c) && 1 <= len <= MAX_LENGTH && k <= c[len]
    ensures Before(Owner(c, w), len, k) <==> Rev(w, len) < FirstCode(c, len) + k
    ensures k < c[len] ==> (Owner(c, w) == (len, k) <==> Rev(w, len) == FirstCode(c, len) + k)
  {
    var (l, j) := Owner(c, w);
    if l < len && FirstCode(c, len) <= Rev(w, len) { StartsLater(c, w, l, len); }
    if l > len { StartsLater(c, w, len, l); }
    if k < c[len] && Rev(w, len) == FirstCode(c, len) + k { OwnerUnique(c, w, len, k); }
  }

  lemma LowBlock(e: nat, x: nat, n: nat)
    requires e % Pow2(n) == 0 && e <= x < e + Pow2(n)
    ensures Low(x, n) == x - e
  {
    hide Low, Pow2;
    LowModulo(x, n);
    BlockModulo(e, x, Pow2(n));
  }

  lemma BlockModulo(e: nat, x: nat, p: nat)
    requires p > 0 && e % p == 0 && e <= x < e + p
    ensures x % p == x - e
  {
    DivModUnique(x, p, e / p, x - e);
  }

  lemma ModuloStep(e: nat, p: nat)
    requires p > 0 && e % p == 0 && e > 0
    ensures e >= p && (e - p) % p == 0
  {
    assert e == (e / p) * p;
    MulSign(e / p, p);
    assert e - p == (e / p - 1) * p;
    DivModUnique(e - p, p, e / p - 1, 0);
  }

  /** Stores `code` at `base + at`, `base + at + step`, ... below `base + end`. */
  method ReplicateValue(table: array<HuffmanCode>, base: nat, at: nat, step: nat, end: nat, code: HuffmanCode,
                        ghost n: nat)
    requires step == Pow2(n) && at < step && end % step == 0 && end > 0 && base + end <= table.Length
    modifies table
    ensures forall j :: 0 <= j < table.Length ==>
      table[j] == if base <= j < base + end && Low(j - base, n) == at then code else old(table[j])
  {
    hide Low, Pow2;
    var e := end;
    while e > 0
      invariant e % step == 0 && e <= end
      invariant forall j :: 0 <= j < table.Length ==>
        table[j] == if base <= j && base + e <= j < base + end && Low(j - base, n) == at then code else old(table[j])
    {
      ModuloStep(e, step);
      e := e - step;
      forall x | e <= x < e + step ensures Low(x, n) == x - e {
        LowBlock(e, x, n);
      }
      table[base + at + e] := code;
    }
  }

  /** `BrotliReverseBits`: the 8-bit reversal that the source tabulates. */
  function ReverseBits(num: nat): nat {
    Rev(num, 8)
  }

  /** Root entries of all codewords handed out so far, in a table of `size` entries. */
  ghost predicate RootDone(t: seq<HuffmanCode>, c: Counts, s: Symbols, len: nat, k: nat)
    requires Complete(c) && Matches(c, s)
  {
    forall x :: 0 <= x < |t| && Before(Owner(c, x), len, k) ==> t[x] == Entry(c, s, x, 0)
  }

  lemma RootPlace(t: seq<HuffmanCode>, t': seq<HuffmanCode>, c: Counts, s: Symbols, len: nat, k: nat)
    requires Complete(c) && Matches(c, s) && 1 <= len <= MAX_LENGTH && k < c[len]
    requires RootDone(t, c, s, len, k) && |t'| == |t|
    requires forall x :: 0 <= x < |t| ==>
      t'[x] == if Low(x, len) == Rev(FirstCode(c, len) + k, len) then HuffmanCode(len, s[len][k]) else t[x]
    ensures RootDone(t', c, s, len, k + 1)
  {
    hide Owner, Low, Rev, FirstCode;
    forall x | 0 <= x < |t| && Before(Owner(c, x), len, k + 1) ensures t'[x] == Entry(c, s, x, 0) {
      EndCodeBound(c, len);
      CodeBound(c, len, k);
      RevStep(x, FirstCode(c, len) + k, len);
      BeforeReads(c, x, len, k);
    }
  }

  lemma CodeBound(c: Counts, len: nat, k: nat)
    requires Complete(c) && 1 <= len <= MAX_LENGTH && k < c[len]
    ensures FirstCode(c, len) + k < EndCode(c, len) <= Pow2(len)
  {
    EndCodeBound(c, len);
  }

  lemma {:induction false} ShlDouble(x: nat, n: nat)
    ensures Shl(2 * x, n) == 2 * Shl(x, n)
  {
    if n > 0 { ShlDouble(x, n - 1); }
  }

  lemma {:induction false} ShlBound(x: nat, b: nat, n: nat)
    ensures x < Pow2(b) ==> Shl(x, n) < Pow2(b + n)
    ensures x <= Pow2(b) ==> Shl(x, n) <= Pow2(b + n)
  {
    if n > 0 { ShlBound(x, b, n - 1); }
  }

  lemma {:induction false} Pow2Multiple(a: nat, b: nat)
    requires b <= a
    ensures Pow2(a) % Pow2(b) == 0
  {
    LowModulo(Pow2(a), b);
    LowPow2(a, b);
  }

  lemma {:induction false} LowPow2(a: nat, b: nat)
    requires b <= a
    ensures Low(Pow2(a), b) == 0
  {
    if b > 0 { LowPow2(a - 1, b - 1); }
  }

  /** The next codeword's 8-bit key, and the index it reverses to. */
  lemma RootKey(c: Counts, len: nat, k: nat)
    requires Complete(c) && 1 <= len <= 8 && k < c[len]
    ensures var key := Shl(FirstCode(c, len) + k, 8 - len);
      && key < 256 && ReverseBits(key) == Rev(FirstCode(c, len) + k, len) < Pow2(len)
      && key + Pow2(8 - len) == Shl(FirstCode(c, len) + k + 1, 8 - len)
  {
    hide Rev, Shl, FirstCode;
    var code := FirstCode(c, len) + k;
    CodeBound(c, len, k);
    ShlBound(code, len, 8 - len);
    Pow2Values();
    RevShl(code, len, 8 - len);
    ShlAdd(code, 1, 8 - len);
  }

  /** Fills the root for codewords of up to `tableBits` bits; the key it ends with. */
  method FillRoot(table: array<HuffmanCode>, base: nat, lists: array<nat>, count: array<nat>, tableBits: nat,
                  ghost c: Counts, ghost s: Symbols) returns (key: nat)
    requires Complete(c) && Lists(lists[..], c, s) && count[..] == c
    requires 1 <= tableBits <= 8 && base + Pow2(tableBits) <= table.Length
    modifies table
    ensures RootDone(table[base..base + Pow2(tableBits)], c, s, tableBits + 1, 0)
    ensures forall j :: 0 <= j < table.Length && !(base <= j < base + Pow2(tableBits)) ==> table[j] == old(table[j])
    ensures key == Shl(EndCode(c, tableBits), 8 - tableBits)
  {
    hide Owner, Rev, Shl, Low, Pow2, FirstCode;
    var tableSize := Pow2(tableBits);
    var keyStep, bits, step := 128, 1, 2;
    key := 0;
    Pow2Values();
    FirstCodeOne(c);
    ShlZero(7);
    while bits <= tableBits
      invariant 1 <= bits <= tableBits + 1
      invariant bits <= 8 ==> keyStep == Pow2(8 - bits) && key == Shl(FirstCode(c, bits), 8 - bits)
      invariant step == Pow2(bits)
      invariant RootDone(table[base..base + tableSize], c, s, bits, 0)
      invariant forall j :: 0 <= j < table.Length && !(base <= j < base + tableSize) ==> table[j] == old(table[j])
      invariant bits == tableBits + 1 ==> key == Shl(EndCode(c, tableBits), 8 - tableBits)
    {
      var at: nat := bits;
      var n := count[bits];
      ghost var k := 0;
      assert s[bits][0..] == s[bits];
      while n != 0
        invariant k + n == c[bits] && key == Shl(FirstCode(c, bits) + k, 8 - bits)
        invariant Chain(lists[..], at, s[bits][k..])
        invariant RootDone(table[base..base + tableSize], c, s, bits, k)
        invariant forall j :: 0 <= j < table.Length && !(base <= j < base + tableSize) ==> table[j] == old(table[j])
      {
        var symbol := lists[at];
        ghost var t := table[base..base + tableSize];
        RootKey(c, bits, k);
        Pow2Multiple(tableBits, bits);
        ReplicateValue(table, base, ReverseBits(key), step, tableSize, HuffmanCode(bits, symbol), bits);
        RootPlace(t, table[base..base + tableSize], c, s, bits, k);
        key := key + keyStep;
        assert s[bits][k..][1..] == s[bits][k + 1..];
        at := 16 + symbol;
        n := n - 1;
        k := k + 1;
      }
      RootNext(table[base..base + tableSize], c, s, bits);
      if bits < 8 {
        ShlDouble(EndCode(c, bits), 7 - bits);
        ShlStep(EndCode(c, bits), 7 - bits);
      }
      step := step * 2;
      Pow2Next(bits);
      if bits < 8 { Pow2Next(7 - bits); }
      keyStep := keyStep / 2;
      bits := bits + 1;
    }
  }

  lemma FirstCodeOne(c: Counts)
    ensures FirstCode(c, 1) == 0
  {
  }

  lemma ShlStep(x: nat, n: nat)
    ensures Shl(x, n + 1) == 2 * Shl(x, n)
  {
  }

  /** All codewords of a length done is none of the next length done. */
  lemma RootNext(t: seq<HuffmanCode>, c: Counts, s: Symbols, len: nat)
    requires Complete(c) && Matches(c, s) && 1 <= len < MAX_LENGTH
    requires RootDone(t, c, s, len, c[len])
    ensures RootDone(t, c, s, len + 1, 0) && EndCode(c, len) + EndCode(c, len) == FirstCode(c, len + 1)
  {
    hide Owner;
  }

  lemma EndCodeOf(c: Counts, l: nat)
    requires 1 <= l <= MAX_LENGTH
    ensures EndCode(c, l) == FirstCode(c, l) + c[l]
    ensures l == MAX_LENGTH && Complete(c) ==> EndCode(c, l) == SPACE
  {
  }

  lemma EndCodeStep(c: Counts, l: nat)
    requires 1 <= l < MAX_LENGTH
    ensures EndCode(c, l + 1) == 2 * EndCode(c, l) + c[l + 1]
  {
  }

  /** The table width of the next second-level table: `count` holds the codewords not yet
      handed out, of which the next has length `len` and starts root slot `r`. */
  method NextTableBitSize(count: array<nat>, len: nat, ghost c: Counts, ghost k: nat, ghost r: nat) returns (bits: nat)
    requires Complete(c) && count.Length == 16 && 8 < len <= MAX_LENGTH && k < c[len] && r < ROOT_SIZE
    requires count[len] == c[len] - k && forall l :: len < l <= MAX_LENGTH ==> count[l] == c[l]
    requires FirstCode(c, len) + k == Shl(r, len - 8)
    ensures len <= 8 + bits <= MAX_LENGTH && Shl(r + 1, bits) <= EndCode(c, 8 + bits)
    ensures 8 + bits > len ==> EndCode(c, 7 + bits) < Shl(r + 1, bits - 1)
  {
    hide Shl, FirstCode, EndCode, Pow2;
    EndCodeOf(c, len);
    var l := len;
    var left: int := Pow2(len - 8);
    ShlAdd(r, 1, len - 8);
    while l < MAX_LENGTH
      invariant len <= l <= MAX_LENGTH
      invariant left - count[l] == Shl(r + 1, l - 8) - EndCode(c, l)
      invariant l > len ==> EndCode(c, l - 1) < Shl(r + 1, l - 9)
    {
      left := left - count[l];
      if left <= 0 {
        break;
      }
      EndCodeStep(c, l);
      l := l + 1;
      left := left * 2;
      ShlStep(r + 1, l - 9);
    }
    if l == MAX_LENGTH {
      EndCodeOf(c, l);
      ShlBound(r + 1, 8, 7);
      Pow2Values();
    }
    bits := l - 8;
  }

  /** That width is the slot's width. */
  lemma TableBitSize(c: Counts, len: nat, k: nat, r: nat, bits: nat)
    requires Complete(c) && 8 < len <= MAX_LENGTH && k < c[len] && r < ROOT_SIZE
    requires FirstCode(c, len) + k == Shl(r, len - 8)
    requires len <= 8 + bits <= MAX_LENGTH && Shl(r + 1, bits) <= EndCode(c, 8 + bits)
    requires 8 + bits > len ==> EndCode(c, 7 + bits) < Shl(r + 1, bits - 1)
    ensures var x := Rev(r, 8); x < ROOT_SIZE && Split(c, x) && SubBits(c, x) == bits && Rev(x, 8) == r
  {
    hide Owner, Rev, Shl, Pow2, Low;
    Pow2Values();
    var x := Rev(r, 8);
    RevRev(r, 8);
    LowSelf(r, 8);
    ShlAdd(r, 1, len - 8);
    SlotSplit(c, len, k, r, x);
    SplitLast(c, x);
    var w := LastWindow(x);
    var l := 8 + bits;
    LastReads(x, r, bits);
    ShlAdd(r, 1, bits);
    if l > len { ShlStep(r + 1, bits - 1); }
    OwnerUnique(c, w, l, Rev(w, l) - FirstCode(c, l));
  }

  /** The slot of a long codeword is split. */
  lemma SlotSplit(c: Counts, len: nat, k: nat, r: nat, x: nat)
    requires Complete(c) && 8 < len <= MAX_LENGTH && k < c[len] && x < ROOT_SIZE && Rev(x, 8) == r
    requires Shl(r, len - 8) <= FirstCode(c, len) + k < Shl(r + 1, len - 8)
    ensures Split(c, x)
  {
    hide Owner, Rev, Shl;
    var code := FirstCode(c, len) + k;
    var w := Rev(code, len);
    CodeBound(c, len, k);
    RevRev(code, len);
    LowSelf(code, len);
    OwnerUnique(c, w, len, k);
    RevAppend(w, 8, len - 8);
    ShlAdd(r, 1, len - 8);
    ShlOrder(Rev(w, 8), r, len - 8, Rev(Shr(w, 8), len - 8));
    SplitAll(c, x, w);
  }

  /** A shifted number plus less than one unit lies in its own block only. */
  lemma ShlOrder(a: nat, b: nat, n: nat, d: nat)
    requires d < Pow2(n)
    requires Shl(b, n) <= Shl(a, n) + d < Shl(b + 1, n)
    ensures a == b
  {
    if a < b { ShlAdd(a, b - a, n); }
    if b < a { ShlAdd(b, 1, n); ShlAdd(b + 1, a - b - 1, n); }
  }

  /** The last window of slot `r` reads as the last number of its block at every length. */
  lemma LastReads(x: nat, r: nat, bits: nat)
    requires x < ROOT_SIZE && Rev(x, 8) == r && bits <= 7
    ensures Rev(LastWindow(x), 8 + bits) == Shl(r, bits) + Pow2(bits) - 1
  {
    hide Rev, Shl, Pow2;
    RevRoot(x, 127);
    RevAppend(LastWindow(x), 8, bits);
    OnesReads(bits);
  }

  lemma OnesReads(bits: nat)
    requires bits <= 7
    ensures Rev(127, bits) == Pow2(bits) - 1
  {
    assert Bit(127, 0) == 1 && Bit(127, 1) == 1 && Bit(127, 2) == 1 && Bit(127, 3) == 1;
    assert Bit(127, 4) == 1 && Bit(127, 5) == 1 && Bit(127, 6) == 1;
    if bits > 0 { OnesReads(bits - 1); }
  }
}
