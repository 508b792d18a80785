/** `BrotliBuildHuffmanTable`: the second-level tables, and the whole table. */
module HuffmanBuild {
  import opened Arith
  import opened PrefixCode
  import opened HuffmanTable
  import opened HuffmanRoot

  /** The table of slot `x` at offset `at`, filled for the codewords handed out so far. */
  ghost predicate Partial(t: seq<HuffmanCode>, c: Counts, s: Symbols, len: nat, k: nat, x: nat, at: nat, bits: nat)
    requires Complete(c) && Matches(c, s)
  {
    && x < ROOT_SIZE && Split(c, x) && bits == SubBits(c, x)
    && ROOT_SIZE <= at && at + Pow2(bits) == |t| && t[x] == HuffmanCode(ROOT_BITS + bits, at - x)
    && forall y :: 0 <= y < Pow2(bits) && Before(Owner(c, x + 256 * y), len, k) ==> t[at + y] == SubEntry(c, s, x, y)
  }

  /** The state in which codeword (len, k) is about to be handed out. The slots below `key`
      have their tables; that of slot `key - 1` still has room for `room` codewords of
      this length. */
  ghost predicate Filling(t: seq<HuffmanCode>, c: Counts, s: Symbols, len: nat, k: nat, key: nat, room: nat, at: nat,
                          bits: nat)
    requires Complete(c) && Matches(c, s)
  {
    && ROOT_BITS < len <= MAX_LENGTH && k <= c[len] && key <= ROOT_SIZE && room <= Pow2(len - 8)
    && FirstCode(c, len) + k + room == Shl(key, len - 8) && |t| >= ROOT_SIZE
    && (forall x :: 0 <= x < ROOT_SIZE ==> RootSlot(t, c, s, x))
    && (room > 0 ==> ROOT_SIZE <= at <= |t|)
    && (forall x :: 0 <= x < ROOT_SIZE && Split(c, x) && Rev(x, 8) + (if room > 0 then 1 else 0) < key ==>
          SubTable(if room > 0 then t[..at] else t, c, s, x))
    && (room > 0 ==> key > 0 && len <= 8 + bits && Partial(t, c, s, len, k, Rev(key - 1, 8), at, bits))
  }

  /** A slot and its key determine each other. */
  lemma SlotKey(r: nat)
    requires r < ROOT_SIZE
    ensures Rev(r, 8) < ROOT_SIZE && Rev(Rev(r, 8), 8) == r
  {
    hide Rev, Low, Pow2;
    Pow2Values();
    RevRev(r, 8);
    LowSelf(r, 8);
  }

  /** How the windows of a slot read. */
  lemma SlotReads(x: nat, y: nat, len: nat)
    requires x < ROOT_SIZE && 8 <= len
    ensures Rev(x + 256 * y, len) == Shl(Rev(x, 8), len - 8) + Rev(y, len - 8)
  {
    hide Rev, Shl, Shr;
    RevRoot(x, y);
    RevAppend(x + 256 * y, 8, len - 8);
  }

  /** A new table is begun for the slot whose first codeword comes next. */
  lemma BeginTable(t: seq<HuffmanCode>, t': seq<HuffmanCode>, c: Counts, s: Symbols, len: nat, k: nat, key: nat,
                   at: nat, bits: nat)
    requires Complete(c) && Matches(c, s) && Filling(t, c, s, len, k, key, 0, at, bits) && k < c[len]
    requires key < ROOT_SIZE && Split(c, Rev(key, 8)) && SubBits(c, Rev(key, 8)) == bits && len <= 8 + bits
    requires Rev(key, 8) < ROOT_SIZE
    requires at == |t| && |t'| == at + Pow2(bits) && t'[Rev(key, 8)] == HuffmanCode(ROOT_BITS + bits, at - Rev(key, 8))
    requires forall j :: 0 <= j < at && j != Rev(key, 8) ==> t'[j] == t[j]
    ensures Filling(t', c, s, len, k, key + 1, Pow2(len - 8), at, bits)
  {
    hide Owner, Rev, Shl, FirstCode, SubBits;
    var x0 := Rev(key, 8);
    SlotKey(key);
    ShlAdd(key, 1, len - 8);
    forall x | 0 <= x < ROOT_SIZE ensures RootSlot(t', c, s, x) {
      assert RootSlot(t, c, s, x);
    }
    forall x | 0 <= x < ROOT_SIZE && Split(c, x) && Rev(x, 8) < key ensures SubTable(t'[..at], c, s, x) {
      assert SubTable(t, c, s, x);
    }
    forall y | 0 <= y < Pow2(bits) ensures !Before(Owner(c, x0 + 256 * y), len, k) {
      SlotReads(x0, y, len);
      BeforeReads(c, x0 + 256 * y, len, k);
    }
  }

  /** `t` after the codeword's entries are stored. */
  ghost predicate Stored(t: seq<HuffmanCode>, t': seq<HuffmanCode>, c: Counts, s: Symbols, len: nat, k: nat, room: nat,
                         at: nat)
    requires Matches(c, s) && 8 <= len <= MAX_LENGTH && k < c[len] && room <= Pow2(len - 8)
  {
    |t'| == |t| && forall j :: 0 <= j < |t| ==>
      t'[j] ==
        if at <= j && Low(j - at, len - 8) == Rev(Pow2(len - 8) - room, len - 8) then HuffmanCode(len - 8, s[len][k])
        else t[j]
  }

  lemma PlacePartial(t: seq<HuffmanCode>, t': seq<HuffmanCode>, c: Counts, s: Symbols, len: nat, k: nat, r: nat,
                     room: nat, at: nat, bits: nat)
    requires Complete(c) && Matches(c, s) && 8 < len <= MAX_LENGTH && k < c[len] && r < ROOT_SIZE
    requires 0 < room <= Pow2(len - 8)
    requires FirstCode(c, len) + k + room == Shl(r + 1, len - 8)
    requires Partial(t, c, s, len, k, Rev(r, 8), at, bits) && Stored(t, t', c, s, len, k, room, at)
    ensures Partial(t', c, s, len, k + 1, Rev(r, 8), at, bits)
  {
    hide Owner, Rev, Shl, FirstCode, SubBits, Low, Pow2;
    var x := Rev(r, 8);
    SlotKey(r);
    ShlAdd(r, 1, len - 8);
    forall y | 0 <= y < Pow2(bits) && Before(Owner(c, x + 256 * y), len, k + 1)
      ensures t'[at + y] == SubEntry(c, s, x, y)
    {
      SlotReads(x, y, len);
      BeforeReads(c, x + 256 * y, len, k);
      RevStep(y, Pow2(len - 8) - room, len - 8);
      SubBitsBound(c, x, y);
      assert (at + y) - at == y;
    }
  }

  /** The next codeword is put into the current table. */
  lemma PlaceCode(t: seq<HuffmanCode>, t': seq<HuffmanCode>, c: Counts, s: Symbols, len: nat, k: nat, key: nat,
                  room: nat, at: nat, bits: nat)
    requires Complete(c) && Matches(c, s) && Filling(t, c, s, len, k, key, room, at, bits) && k < c[len] && room > 0
    requires Stored(t, t', c, s, len, k, room, at)
    ensures Filling(t', c, s, len, k + 1, key, room - 1, at, bits)
  {
    hide Owner, Rev, Shl, FirstCode, SubBits, Partial, SubEntry;
    PlacePartial(t, t', c, s, len, k, key - 1, room, at, bits);
    forall x | 0 <= x < ROOT_SIZE ensures RootSlot(t', c, s, x) {
      assert RootSlot(t, c, s, x);
    }
    assert t'[..at] == t[..at];
    forall x | 0 <= x < ROOT_SIZE && Split(c, x) && Rev(x, 8) + (if room > 1 then 1 else 0) < key
      ensures SubTable(if room > 1 then t'[..at] else t', c, s, x)
    {
      if Rev(x, 8) + 1 < key {
        assert SubTable(t[..at], c, s, x);
      } else {
        SlotUnique(x, key - 1);
        TableDone(t', c, s, len, k + 1, key, at, bits);
      }
    }
  }

  lemma SlotUnique(x: nat, r: nat)
    requires x < ROOT_SIZE && Rev(x, 8) == r
    ensures x == Rev(r, 8)
  {
    Pow2Values();
    RevRev(x, 8);
    LowSelf(x, 8);
  }

  /** A table without room left is complete. */
  lemma TableDone(t: seq<HuffmanCode>, c: Counts, s: Symbols, len: nat, k: nat, key: nat, at: nat, bits: nat)
    requires Complete(c) && Matches(c, s) && 0 < key <= ROOT_SIZE && 8 < len <= MAX_LENGTH && k <= c[len]
    requires FirstCode(c, len) + k == Shl(key, len - 8)
    requires Partial(t, c, s, len, k, Rev(key - 1, 8), at, bits)
    ensures SubTable(t, c, s, Rev(key - 1, 8))
  {
    hide Owner, Rev, Shl, FirstCode, SubBits;
    var x := Rev(key - 1, 8);
    SlotKey(key - 1);
    ShlAdd(key - 1, 1, len - 8);
    forall y | 0 <= y < Pow2(bits) ensures t[at + y] == SubEntry(c, s, x, y) {
      SlotReads(x, y, len);
      BeforeReads(c, x + 256 * y, len, k);
    }
  }

  /** All codewords of a length are handed out: the room doubles for the next length. */
  lemma NextLength(t: seq<HuffmanCode>, c: Counts, s: Symbols, len: nat, key: nat, room: nat, at: nat, bits: nat)
    requires len < MAX_LENGTH && Complete(c) && Matches(c, s) && Filling(t, c, s, len, c[len], key, room, at, bits)
    ensures Filling(t, c, s, len + 1, 0, key, 2 * room, at, bits)
  {
    hide Owner, Rev, Shl, SubBits, RootSlot, SubTable, SubEntry;
    ShlStep(key, len - 8);
    assert FirstCode(c, len + 1) == 2 * EndCode(c, len);
    assert Pow2(len - 7) == 2 * Pow2(len - 8);
    if room > 0 {
      SlotKey(key - 1);
      RoomLeft(c, len, key, room, Rev(key - 1, 8));
    }
  }

  /** While there is room, the table has codewords longer than those handed out. */
  lemma RoomLeft(c: Counts, len: nat, key: nat, room: nat, x: nat)
    requires Complete(c) && 8 < len <= MAX_LENGTH && 0 < key && x < ROOT_SIZE && Split(c, x) && Rev(x, 8) == key - 1
    requires EndCode(c, len) + room == Shl(key, len - 8) && 0 < room
    ensures len < ROOT_BITS + SubBits(c, x)
  {
    hide Owner, Rev, Shl, SubBits, FirstCode, Pow2;
    ShlAdd(key - 1, 1, len - 8);
    LastReads(x, key - 1, len - 8);
    BeforeReads(c, LastWindow(x), len, c[len]);
    SubBitsLast(c, x);
  }

  lemma SubBitsLast(c: Counts, x: nat)
    requires Complete(c) && x < ROOT_SIZE && Split(c, x)
    ensures Owner(c, LastWindow(x)).0 == ROOT_BITS + SubBits(c, x)
  {
    SplitLast(c, x);
  }

  /** When the last codeword is handed out the table is finished. */
  lemma Finished(t: seq<HuffmanCode>, c: Counts, s: Symbols, len: nat, key: nat, room: nat, at: nat, bits: nat)
    requires len <= MAX_LENGTH && Complete(c) && Matches(c, s) && Filling(t, c, s, len, c[len], key, room, at, bits)
    requires EndCode(c, len) == Pow2(len)
    ensures Represents(t, c, s) && key == ROOT_SIZE
  {
    hide Owner, Rev, Shl, SubBits, FirstCode, Pow2;
    Pow2Values();
    ShlBound(key, 8, len - 8);
    forall x | 0 <= x < ROOT_SIZE && Split(c, x) ensures SubTable(t, c, s, x) {
      assert Rev(x, 8) < Pow2(8);
    }
  }

  /** The size of the second-level table of the slot with key `r`, if it has one. */
  ghost function SlotSize(c: Counts, r: nat): nat
    requires Complete(c) && r < ROOT_SIZE
  {
    SlotKey(r);
    if Split(c, Rev(r, 8)) then Pow2(SubBits(c, Rev(r, 8))) else 0
  }

  ghost function SumSlots(c: Counts, r: nat): nat
    requires Complete(c) && r <= ROOT_SIZE
  {
    if r == 0 then 0 else SumSlots(c, r - 1) + SlotSize(c, r - 1)
  }

  /** The size of the whole table. */
  ghost function TableSize(c: Counts): nat
    requires Complete(c)
  {
    ROOT_SIZE + SumSlots(c, ROOT_SIZE)
  }

  lemma {:induction false} SumSlotsMonotone(c: Counts, a: nat, b: nat)
    requires Complete(c) && a <= b <= ROOT_SIZE
    ensures SumSlots(c, a) <= SumSlots(c, b)
    ensures SumSlots(c, b) <= 128 * b
    decreases b
  {
    hide Rev, Owner, SubBits, Pow2;
    if a < b {
      SumSlotsMonotone(c, a, b - 1);
    } else if b > 0 {
      SumSlotsMonotone(c, b - 1, b - 1);
    }
    if b > 0 {
      SlotKey(b - 1);
      if Split(c, Rev(b - 1, 8)) {
        SubBitsBound(c, Rev(b - 1, 8), 0);
        Pow2Monotone(SubBits(c, Rev(b - 1, 8)), 7);
        Pow2Values();
      }
    }
  }

  /** Slots of codewords of at most 8 bits have no tables. */
  lemma {:induction false} SumSlotsRoot(c: Counts, r: nat)
    requires Complete(c) && r <= EndCode(c, 8) && r <= ROOT_SIZE
    ensures SumSlots(c, r) == 0
  {
    hide Rev, Owner, FirstCode;
    if r > 0 {
      SumSlotsRoot(c, r - 1);
      SlotKey(r - 1);
      BeforeReads(c, Rev(r - 1, 8), 8, c[8]);
    }
  }

  /** Lengths without codewords only shift. */
  lemma {:induction false} EndCodeZeros(c: Counts, m: nat, n: nat)
    requires 1 <= m <= n <= MAX_LENGTH && forall l :: m < l <= MAX_LENGTH ==> c[l] == 0
    ensures EndCode(c, n) == Shl(EndCode(c, m), n - m)
    decreases n
  {
    if m < n { EndCodeZeros(c, m, n - 1); }
  }

  lemma LongestFull(c: Counts, m: nat)
    requires Complete(c) && 1 <= m <= MAX_LENGTH && forall l :: m < l <= MAX_LENGTH ==> c[l] == 0
    ensures EndCode(c, m) == Pow2(m) && (m == 1 ==> c[1] > 0)
  {
    hide Shl;
    EndCodeZeros(c, m, MAX_LENGTH);
    EndCodeBound(c, m);
    Pow2Values();
    ShlAdd(EndCode(c, m), Pow2(m) - EndCode(c, m), MAX_LENGTH - m);
    ShlAdd(0, 1, MAX_LENGTH - m);
    ShlPow2(m, MAX_LENGTH - m);
    assert FirstCode(c, 1) == 0;
  }

  /** The longest length with a codeword, found from the heads of the chains. */
  method MaxLength(lists: array<nat>, ghost c: Counts, ghost s: Symbols) returns (m: nat)
    requires Complete(c) && Lists(lists[..], c, s)
    ensures 1 <= m <= MAX_LENGTH && c[m] > 0 && EndCode(c, m) == Pow2(m)
    ensures forall l :: m < l <= MAX_LENGTH ==> c[l] == 0
  {
    m := MAX_LENGTH;
    LongestFull(c, MAX_LENGTH);
    while lists[m] == NO_SYMBOL
      invariant 1 <= m <= MAX_LENGTH && EndCode(c, m) == Pow2(m) && (m == 1 ==> c[1] > 0)
      invariant forall l :: m < l <= MAX_LENGTH ==> c[l] == 0
      decreases m
    {
      assert m != 1 by { assert lists[..][m] == NO_SYMBOL; }
      m := m - 1;
      LongestFull(c, m);
    }
    assert lists[..][m] != NO_SYMBOL;
  }

  ghost predicate RootComplete(t: seq<HuffmanCode>, c: Counts, s: Symbols)
    requires Complete(c) && Matches(c, s)
  {
    forall x :: 0 <= x < ROOT_SIZE ==> RootSlot(t, c, s, x)
  }

  /** `memcpy` of the first `size` entries after themselves. */
  method DoubleTable(table: array<HuffmanCode>, base: nat, size: nat)
    requires base + 2 * size <= table.Length
    modifies table
    ensures table[base..base + 2 * size] == old(table[base..base + size]) + old(table[base..base + size])
    ensures forall j :: 0 <= j < table.Length && !(base <= j < base + 2 * size) ==> table[j] == old(table[j])
  {
    forall k | 0 <= k < size {
      table[base + size + k] := table[base + k];
    }
  }

  /** Doubles a root filled for `bits` bits until it has 256 entries. */
  method ReplicateRoot(table: array<HuffmanCode>, base: nat, bits: nat, ghost c: Counts, ghost s: Symbols)
    requires Complete(c) && Matches(c, s) && 1 <= bits <= 8 && base + ROOT_SIZE <= table.Length
    requires Pow2(bits) <= ROOT_SIZE
    requires RootDone(table[base..base + Pow2(bits)], c, s, bits + 1, 0)
    requires bits < 8 ==> forall l :: bits < l <= MAX_LENGTH ==> c[l] == 0
    modifies table
    ensures RootComplete(table[base..base + ROOT_SIZE], c, s)
    ensures forall j :: 0 <= j < table.Length && !(base <= j < base + ROOT_SIZE) ==> table[j] == old(table[j])
  {
    hide Owner, Pow2, Entry, RootFilled;
    Pow2Values();
    var size := Pow2(bits);
    ghost var n := bits;
    RootShort(table[base..base + size], c, s, bits);
    while size != ROOT_SIZE
      invariant bits <= n <= 8 && size == Pow2(n) <= ROOT_SIZE
      invariant RootFilled(table[base..base + size], c, s)
      invariant forall j :: 0 <= j < table.Length && !(base <= j < base + ROOT_SIZE) ==> table[j] == old(table[j])
      decreases 8 - n
    {
      Pow2Next(n);
      if n < 8 { Pow2Monotone(n + 1, 8); }
      ghost var t := table[base..base + size];
      DoubleTable(table, base, size);
      RootDoubled(t, c, s, n);
      size := size * 2;
      n := n + 1;
    }
    RootFilledSlots(table[base..base + ROOT_SIZE], c, s);
  }

  ghost predicate RootFilled(t: seq<HuffmanCode>, c: Counts, s: Symbols)
    requires Complete(c) && Matches(c, s)
  {
    forall x :: 0 <= x < |t| && Owner(c, x).0 <= ROOT_BITS ==> t[x] == Entry(c, s, x, 0)
  }

  lemma RootFilledSlots(t: seq<HuffmanCode>, c: Counts, s: Symbols)
    requires Complete(c) && Matches(c, s) && |t| == ROOT_SIZE && RootFilled(t, c, s)
    ensures RootComplete(t, c, s)
  {
  }

  lemma RootShort(t: seq<HuffmanCode>, c: Counts, s: Symbols, bits: nat)
    requires Complete(c) && Matches(c, s) && bits <= 8 && RootDone(t, c, s, bits + 1, 0)
    requires bits < 8 ==> forall l :: bits < l <= MAX_LENGTH ==> c[l] == 0
    ensures RootFilled(t, c, s)
  {
    forall x | 0 <= x < |t| && Owner(c, x).0 <= ROOT_BITS ensures Before(Owner(c, x), bits + 1, 0) {
      assert Starts(c, x, Owner(c, x).0, Owner(c, x).1);
    }
  }

  /** With only short codewords the entries repeat. */
  lemma RootDoubled(t: seq<HuffmanCode>, c: Counts, s: Symbols, n: nat)
    requires Complete(c) && Matches(c, s) && |t| == Pow2(n) && RootFilled(t, c, s)
    requires forall l :: n < l <= MAX_LENGTH ==> c[l] == 0
    ensures RootFilled(t + t, c, s)
  {
    hide Owner, Rev, Pow2;
    forall x | |t| <= x < 2 * |t| ensures Owner(c, x) == Owner(c, x - |t|) {
      RevBelow(x - |t|, n);
      assert Starts(c, x - |t|, Owner(c, x - |t|).0, Owner(c, x - |t|).1);
      OwnerPrefix(c, x - |t|, x, n);
    }
  }

  /** The key register of a table with `room` codewords of room, and its reversal. */
  lemma SubKey(len: nat, room: nat)
    requires 8 < len <= MAX_LENGTH && 0 < room <= Pow2(len - 8)
    ensures var subKey := 256 - Shl(room, 16 - len);
      && 0 <= subKey < 256 && ReverseBits(subKey) == Rev(Pow2(len - 8) - room, len - 8) < Pow2(len - 8)
      && subKey + Pow2(16 - len) == 256 - Shl(room - 1, 16 - len)
  {
    hide Rev, Shl, Pow2;
    Pow2Values();
    var sub := Pow2(len - 8) - room;
    ShlAdd(sub, room, 16 - len);
    ShlPow2(len - 8, 16 - len);
    ShlAdd(0, room, 16 - len);
    ShlAdd(room - 1, 1, 16 - len);
    RevShl(sub, len - 8, 16 - len);
  }

  lemma SubKeyFull(len: nat)
    requires 8 < len <= MAX_LENGTH
    ensures Shl(Pow2(len - 8), 16 - len) == 256 && Shl(0, 16 - len) == 0
  {
    hide Shl, Pow2;
    Pow2Values();
    ShlPow2(len - 8, 16 - len);
    ShlZero(16 - len);
  }

  /** Begins the table of the slot with the given key: links it from the root. */
  method LinkTable(table: array<HuffmanCode>, base: nat, count: array<nat>, len: nat, key: nat, total: nat,
                   ghost c: Counts, ghost s: Symbols, ghost k: nat, ghost at0: nat, ghost bits0: nat)
    returns (bits: nat, tableSize: nat)
    requires Complete(c) && Matches(c, s) && base + TableSize(c) <= table.Length
    requires total == ROOT_SIZE + (if key <= ROOT_SIZE then SumSlots(c, key) else 0) && base + total <= table.Length
    requires Filling(table[base..base + total], c, s, len, k, key, 0, at0, bits0) && k < c[len]
    requires count.Length == 16 && count[len] == c[len] - k && forall l :: len < l <= MAX_LENGTH ==> count[l] == c[l]
    modifies table
    ensures key < ROOT_SIZE && tableSize == Pow2(bits) && total + tableSize == ROOT_SIZE + SumSlots(c, key + 1)
    ensures base + total + tableSize <= base + TableSize(c)
    ensures Filling(table[base..base + total + tableSize], c, s, len, k, key + 1, Pow2(len - 8), total, bits)
    ensures forall j :: 0 <= j < table.Length && !(base <= j < base + total + tableSize) ==> table[j] == old(table[j])
  {
    hide Owner, Rev, Shl, FirstCode, SubBits, Partial, SubTable, RootSlot;
    ghost var t := table[base..base + total];
    KeyInRange(c, len, k, key);
    bits := NextTableBitSize(count, len, c, k, key);
    TableBitSize(c, len, k, key, bits);
    tableSize := Pow2(bits);
    var slot := ReverseBits(key);
    SlotKey(key);
    NextSum(c, key, bits);
    assert total - slot < 0x10000;
    table[base + slot] := HuffmanCode(bits + ROOT_BITS, (total - slot) % 0x10000);
    BeginTable(t, table[base..base + total + tableSize], c, s, len, k, key, total, bits);
  }

  /** Room for the next slot's table. */
  lemma NextSum(c: Counts, key: nat, bits: nat)
    requires Complete(c) && key < ROOT_SIZE && Rev(key, 8) < ROOT_SIZE && Split(c, Rev(key, 8))
    requires SubBits(c, Rev(key, 8)) == bits
    ensures SumSlots(c, key + 1) == SumSlots(c, key) + Pow2(bits)
    ensures SumSlots(c, key + 1) <= SumSlots(c, ROOT_SIZE) <= 128 * ROOT_SIZE
  {
    hide Owner, Rev, SubBits, Pow2;
    SumSlotsMonotone(c, key + 1, ROOT_SIZE);
  }

  lemma KeyInRange(c: Counts, len: nat, k: nat, key: nat)
    requires Complete(c) && 8 < len <= MAX_LENGTH && k < c[len] && FirstCode(c, len) + k == Shl(key, len - 8)
    ensures key < ROOT_SIZE
  {
    hide FirstCode, Shl;
    CodeBound(c, len, k);
    Pow2Values();
    if key >= ROOT_SIZE {
      ShlAdd(ROOT_SIZE, key - ROOT_SIZE, len - 8);
      ShlPow2(8, len - 8);
    }
  }

  /** The registers of the second-level loop. */
  datatype Registers = Registers(key: nat, subKey: nat, at: nat, bits: nat, tableSize: nat, total: nat) {
    ghost predicate Holds(t: seq<HuffmanCode>, c: Counts, s: Symbols, len: nat, k: nat, room: nat)
      requires Complete(c) && Matches(c, s) && |t| >= total
    {
      && 8 < len <= MAX_LENGTH && subKey + Shl(room, 16 - len) == 256
      && at + tableSize == total && (room > 0 ==> tableSize == Pow2(bits) && len <= 8 + bits)
      && key <= ROOT_SIZE && total == ROOT_SIZE + SumSlots(c, key) <= TableSize(c)
      && Filling(t[..total], c, s, len, k, key, room, at, bits)
    }
  }

  /** Begins a new table when the current one is full. */
  method MakeRoom(table: array<HuffmanCode>, base: nat, count: array<nat>, len: nat, r0: Registers,
                  ghost c: Counts, ghost s: Symbols, ghost k: nat, ghost room0: nat)
    returns (r: Registers, ghost room: nat)
    requires Complete(c) && Matches(c, s) && base + TableSize(c) <= table.Length && r0.total <= TableSize(c)
    requires r0.Holds(table[base..], c, s, len, k, room0) && k < c[len]
    requires count.Length == 16 && count[len] == c[len] - k && forall l :: len < l <= MAX_LENGTH ==> count[l] == c[l]
    modifies table
    ensures room > 0 && r0.total <= r.total <= TableSize(c) && r.Holds(table[base..], c, s, len, k, room)
    ensures forall j :: 0 <= j < table.Length && !(base <= j < base + r.total) ==> table[j] == old(table[j])
  {
    hide Owner, Rev, Shl, Low, Pow2, FirstCode, SubBits, Filling, SumSlots;
    r, room := r0, room0;
    assert table[base..][..r.total] == table[base..base + r.total];
    RoomBound(table[base..base + r.total], c, s, len, k, r.key, room, r.at, r.bits);
    SubKeyFull(len);
    if r.subKey == 256 {
      var bits, tableSize := LinkTable(table, base, count, len, r.key, r.total, c, s, k, r.at, r.bits);
      SumSlotsMonotone(c, r.key + 1, ROOT_SIZE);
      r := Registers(r.key + 1, 0, r.total, bits, tableSize, r.total + tableSize);
      room := Pow2(len - 8);
      RoomBound(table[base..base + r.total], c, s, len, k, r.key, room, r.at, r.bits);
      assert table[base..][..r.total] == table[base..base + r.total];
    }
  }

  /** Hands out one codeword. */
  method PlaceSymbol(table: array<HuffmanCode>, base: nat, count: array<nat>, len: nat, symbol: nat, r0: Registers,
                     ghost c: Counts, ghost s: Symbols, ghost k: nat, ghost room0: nat)
    returns (r: Registers, ghost room: nat)
    requires Complete(c) && Matches(c, s) && base + TableSize(c) <= table.Length && r0.total <= TableSize(c)
    requires r0.Holds(table[base..], c, s, len, k, room0) && k < c[len] && symbol == s[len][k]
    requires count.Length == 16 && count[len] == c[len] - k && forall l :: len < l <= MAX_LENGTH ==> count[l] == c[l]
    modifies table
    ensures r.total <= TableSize(c) && r.Holds(table[base..], c, s, len, k + 1, room)
    ensures r0.total <= r.total
    ensures forall j :: 0 <= j < table.Length && !(base <= j < base + r.total) ==> table[j] == old(table[j])
  {
    hide Owner, Rev, Shl, Low, Pow2, FirstCode, SubBits, Filling, SumSlots;
    r, room := MakeRoom(table, base, count, len, r0, c, s, k, room0);
    assert table[base..][..r.total] == table[base..base + r.total];
    RoomBound(table[base..base + r.total], c, s, len, k, r.key, room, r.at, r.bits);
    ghost var t := table[base..base + r.total];
    SubKey(len, room);
    Pow2Multiple(r.bits, len - 8);
    ReplicateValue(table, base + r.at, ReverseBits(r.subKey), Pow2(len - 8), r.tableSize, HuffmanCode(len - 8, symbol),
                   len - 8);
    PlaceCode(t, table[base..base + r.total], c, s, len, k, r.key, room, r.at, r.bits);
    r := r.(subKey := r.subKey + Pow2(16 - len));
    room := room - 1;
    assert table[base..][..r.total] == table[base..base + r.total];
  }

  /** Hands out the codewords of one length. */
  method FillLength(table: array<HuffmanCode>, base: nat, lists: array<nat>, count: array<nat>, len: nat, r0: Registers,
                    ghost c: Counts, ghost s: Symbols, ghost room0: nat)
    returns (r: Registers, ghost room: nat)
    requires Complete(c) && Lists(lists[..], c, s) && lists != count && base + TableSize(c) <= table.Length
    requires r0.total <= TableSize(c) && r0.Holds(table[base..], c, s, len, 0, room0)
    requires count.Length == 16 && forall l :: len <= l <= MAX_LENGTH ==> count[l] == c[l]
    modifies table, count
    ensures forall l :: len < l <= MAX_LENGTH ==> count[l] == c[l]
    ensures r0.total <= r.total <= TableSize(c) && r.Holds(table[base..], c, s, len, c[len], room)
    ensures forall j :: 0 <= j < table.Length && !(base <= j < base + r.total) ==> table[j] == old(table[j])
  {
    hide Registers.Holds;
    r, room := r0, room0;
    var cur: nat := len;
    ghost var k := 0;
    assert 8 < len <= MAX_LENGTH by { HoldsLength(r0, table[base..], c, s, len, 0, room0); }
    assert s[len][0..] == s[len];
    while count[len] != 0
      invariant k + count[len] == c[len] && lists[..] == old(lists[..])
      invariant Chain(lists[..], cur, s[len][k..])
      invariant forall l :: len < l <= MAX_LENGTH ==> count[l] == c[l]
      invariant r0.total <= r.total <= TableSize(c) && r.Holds(table[base..], c, s, len, k, room)
      invariant forall j :: 0 <= j < table.Length && !(base <= j < base + r.total) ==> table[j] == old(table[j])
      decreases count[len]
    {
      var symbol := lists[cur];
      r, room := PlaceSymbol(table, base, count, len, symbol, r, c, s, k, room);
      assert s[len][k..][1..] == s[len][k + 1..];
      cur := 16 + symbol;
      count[len] := count[len] - 1;
      k := k + 1;
    }
  }

  lemma HoldsLength(r: Registers, t: seq<HuffmanCode>, c: Counts, s: Symbols, len: nat, k: nat, room: nat)
    requires Complete(c) && Matches(c, s) && |t| >= r.total && r.Holds(t, c, s, len, k, room)
    ensures 8 < len <= MAX_LENGTH
  {
  }

  lemma HoldsNext(r: Registers, t: seq<HuffmanCode>, c: Counts, s: Symbols, len: nat, room: nat)
    requires len < MAX_LENGTH && Complete(c) && Matches(c, s) && |t| >= r.total && r.Holds(t, c, s, len, c[len], room)
    ensures r.Holds(t, c, s, len + 1, 0, 2 * room)
  {
    hide Owner, Rev, Shl, Filling, SumSlots, FirstCode, Pow2;
    NextLength(t[..r.total], c, s, len, r.key, room, r.at, r.bits);
    RoomBound(t[..r.total], c, s, len + 1, 0, r.key, 2 * room, r.at, r.bits);
    ShlDouble(room, 15 - len);
    ShlStep(room, 15 - len);
  }

  /** Fills the second-level tables. */
  method FillTables(table: array<HuffmanCode>, base: nat, lists: array<nat>, count: array<nat>, rootKey: nat,
                    maxLength: nat,
                    ghost c: Counts, ghost s: Symbols) returns (total: nat)
    requires Complete(c) && Lists(lists[..], c, s) && count[..] == c && lists != count
    requires base + TableSize(c) <= table.Length
    requires 8 < maxLength <= MAX_LENGTH && EndCode(c, maxLength) == Pow2(maxLength)
    requires rootKey == EndCode(c, 8) <= ROOT_SIZE
    requires Filling(table[base..base + ROOT_SIZE], c, s, 9, 0, rootKey, 0, 0, 0)
    requires SumSlots(c, rootKey) == 0
    modifies table, count
    ensures total == TableSize(c) && Represents(table[base..base + total], c, s)
    ensures forall j :: 0 <= j < table.Length && !(base <= j < base + total) ==> table[j] == old(table[j])
  {
    hide Owner, Rev, Shl, Low, Pow2, FirstCode, SubBits, Filling, Represents, SumSlots;
    var r := Registers(rootKey, 256, 0, 0, ROOT_SIZE, ROOT_SIZE);
    ghost var room := 0;
    var len := 9;
    ShlZero(7);
    assert table[base..][..ROOT_SIZE] == table[base..base + ROOT_SIZE];
    while len < maxLength
      invariant 9 <= len <= maxLength && lists[..] == old(lists[..])
      invariant forall l :: len <= l <= MAX_LENGTH ==> count[l] == c[l]
      invariant r.total <= TableSize(c) && r.Holds(table[base..], c, s, len, 0, room)
      invariant forall j :: 0 <= j < table.Length && !(base <= j < base + r.total) ==> table[j] == old(table[j])
    {
      r, room := FillLength(table, base, lists, count, len, r, c, s, room);
      HoldsNext(r, table[base..], c, s, len, room);
      room := 2 * room;
      len := len + 1;
    }
    r, room := FillLength(table, base, lists, count, len, r, c, s, room);
    total := r.total;
    assert table[base..][..total] == table[base..base + total];
    Finished(table[base..base + total], c, s, len, r.key, room, r.at, r.bits);
  }

  /** What the filling state says about the room and the width. */
  lemma RoomBound(t: seq<HuffmanCode>, c: Counts, s: Symbols, len: nat, k: nat, key: nat, room: nat, at: nat, bits: nat)
    requires Complete(c) && Matches(c, s) && Filling(t, c, s, len, k, key, room, at, bits) && len <= MAX_LENGTH
    ensures room <= Pow2(len - 8) && (Shl(room, 16 - len) == 0 <==> room == 0)
    ensures room > 0 ==> len <= 8 + bits && at + Pow2(bits) == |t|
  {
    hide Shl, Owner, Rev, SubTable, RootSlot;
    ShlAdd(0, room, 16 - len);
    ShlZero(16 - len);
  }

  /** Builds the table of a complete code at `base`; its size is the table's exact size. */
  method BuildHuffmanTable(table: array<HuffmanCode>, base: nat, lists: array<nat>, count: array<nat>,
                           ghost c: Counts, ghost s: Symbols) returns (total: nat)
    requires Complete(c) && Lists(lists[..], c, s) && count[..] == c && lists != count
    requires base + TableSize(c) <= table.Length
    modifies table, count
    ensures total == TableSize(c) && Represents(table[base..base + total], c, s)
    ensures forall j :: 0 <= j < table.Length && !(base <= j < base + total) ==> table[j] == old(table[j])
  {
    hide Owner, Rev, Shl, Low, Pow2, FirstCode, SubBits, Filling, Represents, RootDone, RootComplete;
    var maxLength := MaxLength(lists, c, s);
    var tableBits := if 8 > maxLength then maxLength else 8;
    Pow2Values();
    Pow2Monotone(tableBits, 8);
    var key := FillRoot(table, base, lists, count, tableBits, c, s);
    ReplicateRoot(table, base, tableBits, c, s);
    if maxLength > 8 {
      BeginSecondLevel(table[base..base + ROOT_SIZE], c, s);
      ShlNone(EndCode(c, 8));
      SumSlotsRoot(c, key);
      total := FillTables(table, base, lists, count, key, maxLength, c, s);
    } else {
      total := ROOT_SIZE;
      ShortCode(table[base..base + ROOT_SIZE], c, s, maxLength);
    }
  }

  lemma ShlNone(x: nat)
    ensures Shl(x, 0) == x
  {
  }

  lemma BeginSecondLevel(t: seq<HuffmanCode>, c: Counts, s: Symbols)
    requires Complete(c) && Matches(c, s) && |t| >= ROOT_SIZE
    requires RootComplete(t, c, s)
    ensures EndCode(c, 8) <= ROOT_SIZE && Filling(t, c, s, 9, 0, EndCode(c, 8), 0, 0, 0)
  {
    hide Owner, Rev;
    EndCodeBound(c, 8);
    Pow2Values();
    ShlNone(EndCode(c, 8));
    assert Shl(EndCode(c, 8), 1) == FirstCode(c, 9);
    forall x | 0 <= x < ROOT_SIZE && Split(c, x) ensures Rev(x, 8) >= EndCode(c, 8) {
      BeforeReads(c, x, 8, c[8]);
    }
  }

  /** Without codewords of more than 8 bits the root is the table. */
  lemma ShortCode(t: seq<HuffmanCode>, c: Counts, s: Symbols, m: nat)
    requires Complete(c) && Matches(c, s) && |t| == ROOT_SIZE && 1 <= m <= 8
    requires RootComplete(t, c, s)
    requires forall l :: m < l <= MAX_LENGTH ==> c[l] == 0
    requires EndCode(c, m) == Pow2(m)
    ensures Represents(t, c, s) && TableSize(c) == ROOT_SIZE
  {
    hide Owner, Rev, Shl, SubBits, FirstCode;
    forall x | 0 <= x < ROOT_SIZE ensures !Split(c, x) {
      assert Starts(c, x, Owner(c, x).0, Owner(c, x).1);
    }
    EndCodeZeros(c, m, 8);
    ShlPow2(m, 8 - m);
    Pow2Values();
    SumSlotsRoot(c, ROOT_SIZE);
  }
}
