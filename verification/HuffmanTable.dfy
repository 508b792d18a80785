/** The decoder's two-level lookup table: what its entries have to be, and that looking a
    window up in it finds the codeword that starts the window. */
module HuffmanTable {
  import opened Arith
  import opened PrefixCode

  const ROOT_BITS := 8
  const ROOT_SIZE := 256

  /** `bits` is the number of bits used; `value` a symbol or, in the root, an offset. */
  datatype HuffmanCode = HuffmanCode(bits: nat, value: nat)

  /** The symbols of each code length, in codeword order. */
  type Symbols = s: seq<seq<nat>> | |s| == MAX_LENGTH + 1 witness seq(16, _ => [])

  ghost predicate Matches(c: Counts, s: Symbols) {
    forall len :: 1 <= len <= MAX_LENGTH ==> |s[len]| == c[len]
  }

  /** The entry for a codeword of which the first `skip` bits have been dropped. */
  ghost function Entry(c: Counts, s: Symbols, w: nat, skip: nat): HuffmanCode
    requires Complete(c) && Matches(c, s) && skip <= Owner(c, w).0
  {
    var (len, k) := Owner(c, w);
    HuffmanCode(len - skip, s[len][k])
  }

  /** A root slot is split when its codewords are longer than 8 bits. */
  ghost predicate Split(c: Counts, x: nat)
    requires Complete(c)
  {
    Owner(c, x).0 > ROOT_BITS
  }

  /** The last window of slot `x`: all further bits are ones. */
  function LastWindow(x: nat): nat {
    x + 256 * 127
  }

  /** The width of the second-level table of a split slot: its longest codeword minus 8. */
  ghost function SubBits(c: Counts, x: nat): nat
    requires Complete(c) && x < ROOT_SIZE && Split(c, x)
  {
    SplitLast(c, x);
    Owner(c, LastWindow(x)).0 - ROOT_BITS
  }

  lemma SplitLast(c: Counts, x: nat)
    requires Complete(c) && x < ROOT_SIZE && Split(c, x)
    ensures Split(c, LastWindow(x))
  {
    hide Owner, Rev;
    RevRoot(x, 127);
    SplitAll(c, x, LastWindow(x));
  }

  lemma RevRoot(x: nat, y: nat)
    requires x < ROOT_SIZE
    ensures Low(x + 256 * y, 8) == x && Shr(x + 256 * y, 8) == y
    ensures Rev(x + 256 * y, 8) == Rev(x, 8)
  {
    hide Low, Shr, Rev, Pow2;
    Pow2Values();
    LowModulo(x + 256 * y, 8);
    RevLow(x + 256 * y, 8);
    ShrDivides(x + 256 * y, 8);
  }

  lemma {:induction false} ShrDivides(w: nat, n: nat)
    ensures Shr(w, n) == w / Pow2(n)
  {
    if n > 0 {
      ShrDivides(w / 2, n - 1);
      DivisionDouble(w, Pow2(n - 1));
    }
  }

  lemma DivisionDouble(w: nat, p: nat)
    requires p > 0
    ensures (w / 2) / p == w / (2 * p)
  {
    var q, r := (w / 2) / p, (w / 2) % p;
    assert w == q * (2 * p) + (2 * r + w % 2) by {
      assert w / 2 == q * p + r;
    }
    DivModUnique(w, 2 * p, q, 2 * r + w % 2);
  }

  /** Whether a slot is split is seen from any window that starts with it. */
  lemma SplitAll(c: Counts, x: nat, w: nat)
    requires Complete(c) && Rev(w, 8) == Rev(x, 8)
    ensures Owner(c, x).0 > ROOT_BITS <==> Owner(c, w).0 > ROOT_BITS
  {
    if Owner(c, x).0 <= ROOT_BITS { OwnerPrefix(c, x, w, 8); }
    if Owner(c, w).0 <= ROOT_BITS { OwnerPrefix(c, w, x, 8); }
  }

  /** Windows that read larger have codewords at least as long. */
  lemma OwnerMonotone(c: Counts, w: nat, w': nat)
    requires Complete(c) && Rev(w, MAX_LENGTH) <= Rev(w', MAX_LENGTH)
    ensures Owner(c, w).0 <= Owner(c, w').0
  {
    var (l, k) := Owner(c, w);
    var (l', k') := Owner(c, w');
    if l' < l {
      RevOrder(w, w', l', MAX_LENGTH);
      StartsLater(c, w, l', l);
    }
  }

  lemma {:induction false} RevOrder(w: nat, w': nat, m: nat, n: nat)
    requires m <= n && Rev(w, n) <= Rev(w', n)
    ensures Rev(w, m) <= Rev(w', m)
    decreases n
  {
    if m < n { RevOrder(w, w', m, n - 1); }
  }

  /** Every codeword of a split slot fits the slot's table. */
  lemma SubBitsBound(c: Counts, x: nat, y: nat)
    requires Complete(c) && x < ROOT_SIZE && Split(c, x)
    ensures 8 < Owner(c, x + 256 * y).0 <= 8 + SubBits(c, x) <= MAX_LENGTH
  {
    hide Owner, Rev, Shr, Low;
    RevRoot(x, y);
    RevRoot(x, 127);
    SplitAll(c, x, x + 256 * y);
    SplitAll(c, x, LastWindow(x));
    RevAppend(x + 256 * y, 8, 7);
    RevAppend(LastWindow(x), 8, 7);
    RevOnes();
    OwnerMonotone(c, x + 256 * y, LastWindow(x));
  }

  lemma RevOnes()
    ensures Rev(127, 7) == 127 && Pow2(7) == 128
  {
    Pow2Values();
    assert Bit(127, 0) == 1 && Bit(127, 1) == 1 && Bit(127, 2) == 1 && Bit(127, 3) == 1;
    assert Bit(127, 4) == 1 && Bit(127, 5) == 1 && Bit(127, 6) == 1;
    assert Rev(127, 1) == 1 && Rev(127, 2) == 3 && Rev(127, 3) == 7 && Rev(127, 4) == 15;
    assert Rev(127, 5) == 31 && Rev(127, 6) == 63;
  }

  /** Root slot `x` is as it should be, together with its second-level table. */
  ghost predicate RootSlot(t: seq<HuffmanCode>, c: Counts, s: Symbols, x: nat)
    requires Complete(c) && Matches(c, s)
  {
    x < |t| && (Owner(c, x).0 <= ROOT_BITS ==> t[x] == Entry(c, s, x, 0))
  }

  ghost predicate SubTable(t: seq<HuffmanCode>, c: Counts, s: Symbols, x: nat)
    requires Complete(c) && Matches(c, s) && x < ROOT_SIZE && Split(c, x)
  {
    && x < |t| && t[x].bits == ROOT_BITS + SubBits(c, x)
    && ROOT_SIZE <= x + t[x].value && x + t[x].value + Pow2(SubBits(c, x)) <= |t|
    && forall y :: 0 <= y < Pow2(SubBits(c, x)) ==> t[x + t[x].value + y] == SubEntry(c, s, x, y)
  }

  ghost function SubEntry(c: Counts, s: Symbols, x: nat, y: nat): HuffmanCode
    requires Complete(c) && Matches(c, s) && x < ROOT_SIZE && Split(c, x)
  {
    SubBitsBound(c, x, y);
    Entry(c, s, x + 256 * y, ROOT_BITS)
  }

  /** The table is right for the code. */
  ghost predicate Represents(t: seq<HuffmanCode>, c: Counts, s: Symbols) {
    && Complete(c) && Matches(c, s)
    && (forall x :: 0 <= x < ROOT_SIZE ==> RootSlot(t, c, s, x))
    && (forall x :: 0 <= x < ROOT_SIZE && Split(c, x) ==> SubTable(t, c, s, x))
  }

  /** The index `DecodeSymbol` ends up at, and the bits it has dropped on the way. */
  function Step(t: seq<HuffmanCode>, bits: nat): (r: (nat, nat))
    requires |t| >= ROOT_SIZE
  {
    var i := bits % 256;
    if t[i].bits > ROOT_BITS then
      (i + t[i].value + (bits / 256) % Pow2(t[i].bits - ROOT_BITS), ROOT_BITS)
    else (i, 0)
  }

  /** Decodes a window of at least 15 bits: the symbol and the number of bits dropped. */
  function DecodeSymbol(t: seq<HuffmanCode>, bits: nat): (r: (nat, nat))
    requires |t| >= ROOT_SIZE && Step(t, bits).0 < |t|
  {
    var (i, dropped) := Step(t, bits);
    (t[i].value, dropped + t[i].bits)
  }

  /** The first 8 bits of a window, as the root index. */
  lemma RootIndex(w: nat)
    ensures w % 256 == Low(w, 8) < 256 && w / 256 == Shr(w, 8)
    ensures Rev(w % 256, 8) == Rev(w, 8)
  {
    Pow2Values();
    LowModulo(w, 8);
    RevLow(w, 8);
    ShrDivides(w, 8);
  }

  /** The bits after the first 8, as the index into a table of width `tb`. */
  lemma SubIndex(w: nat, tb: nat)
    ensures (w / 256) % Pow2(tb) == Low(w / 256, tb)
    ensures Rev(w % 256 + 256 * ((w / 256) % Pow2(tb)), 8 + tb) == Rev(w, 8 + tb)
  {
    var y := (w / 256) % Pow2(tb);
    RootIndex(w);
    LowModulo(w / 256, tb);
    RevLow(w / 256, tb);
    RevRoot(w % 256, y);
    RevAppend(w, 8, tb);
    RevAppend(w % 256 + 256 * y, 8, tb);
  }

  /** An entry of a second-level table is the entry of every window it stands for. */
  lemma SubLookup(t: seq<HuffmanCode>, c: Counts, s: Symbols, w: nat, x: nat, y: nat)
    requires Complete(c) && Matches(c, s) && x < ROOT_SIZE && Split(c, x) && SubTable(t, c, s, x)
    requires y < Pow2(SubBits(c, x)) && Rev(x + 256 * y, 8 + SubBits(c, x)) == Rev(w, 8 + SubBits(c, x))
    ensures x + t[x].value + y < |t| && Owner(c, w).0 > ROOT_BITS
    ensures t[x + t[x].value + y] == Entry(c, s, w, ROOT_BITS)
  {
    hide Owner, Rev, SubBits;
    SubBitsBound(c, x, y);
    assert t[x + t[x].value + y] == SubEntry(c, s, x, y);
    OwnerPrefix(c, x + 256 * y, w, 8 + SubBits(c, x));
  }

  /** The second level, looked up for a window of a split slot. */
  lemma DecodeSub(t: seq<HuffmanCode>, c: Counts, s: Symbols, w: nat)
    requires Complete(c) && Matches(c, s) && Split(c, w % 256) && SubTable(t, c, s, w % 256)
    requires |t| >= ROOT_SIZE
    ensures Step(t, w).1 == ROOT_BITS && Step(t, w).0 < |t|
    ensures Owner(c, w).0 > ROOT_BITS && t[Step(t, w).0] == Entry(c, s, w, ROOT_BITS)
  {
    hide Owner, Rev, Low, Shr, Pow2, SubBits, RootSlot, SubEntry, Entry;
    var x := w % 256;
    var tb := SubBits(c, x);
    SubBitsBound(c, x, 0);
    SubIndex(w, tb);
    SubLookup(t, c, s, w, x, Low(w / 256, tb));
  }

  /** Looking a window up finds the symbol of the one codeword that starts it and drops
      exactly that codeword. */
  lemma DecodeCorrect(t: seq<HuffmanCode>, c: Counts, s: Symbols, w: nat)
    requires Represents(t, c, s)
    ensures |t| >= ROOT_SIZE && Step(t, w).0 < |t|
    ensures var (len, k) := Owner(c, w); DecodeSymbol(t, w) == (s[len][k], len)
  {
    hide Owner, Rev, Low, Shr, Pow2, SubBits, SubTable;
    assert RootSlot(t, c, s, 255);
    var x := w % 256;
    assert RootSlot(t, c, s, x);
    RootIndex(w);
    SplitAll(c, x, w);
    if Split(c, x) {
      DecodeSub(t, c, s, w);
    } else {
      OwnerPrefix(c, x, w, 8);
    }
  }

  /** A prefix code: a single symbol without any bits, or a complete code. */
  datatype Code = One(symbol: nat) | Many(counts: Counts, symbols: Symbols) {
    ghost predicate Valid() {
      Many? ==> Complete(counts) && Matches(counts, symbols)
    }

    /** The symbol at the start of a window and the length of its codeword. */
    ghost function Lookup(w: nat): (r: (nat, nat))
      requires Valid()
      ensures r.1 <= MAX_LENGTH
    {
      match this
      case One(symbol) => (symbol, 0)
      case Many(c, s) =>
        var (len, k) := Owner(c, w);
        (s[len][k], len)
    }
  }

  ghost predicate Describes(t: seq<HuffmanCode>, code: Code) {
    match code
    case One(symbol) => |t| >= ROOT_SIZE && forall x :: 0 <= x < ROOT_SIZE ==> t[x] == HuffmanCode(0, symbol)
    case Many(c, s) => Represents(t, c, s)
  }

  /** The fast lookup agrees with the code on every window. */
  lemma DecodeAgrees(t: seq<HuffmanCode>, code: Code, w: nat)
    requires Describes(t, code)
    ensures code.Valid() && |t| >= ROOT_SIZE && Step(t, w).0 < |t|
    ensures DecodeSymbol(t, w) == code.Lookup(w)
  {
    if code.Many? {
      DecodeCorrect(t, code.counts, code.symbols, w);
    }
  }

  /** The code looks at no more bits than it uses. */
  lemma LookupPrefix(code: Code, w: nat, w': nat, n: nat)
    requires code.Valid() && Rev(w, n) == Rev(w', n) && code.Lookup(w).1 <= n
    ensures code.Lookup(w') == code.Lookup(w)
  {
    if code.Many? {
      OwnerPrefix(code.counts, w, w', n);
    }
  }

  /** `SafeDecodeSymbol` on `available` bits, the rest of `val` being zeros: the symbol and
      the bits it takes, or None when the bits do not suffice. */
  datatype Decoded = NotEnough | Symbol(value: nat, bits: nat)

  function SafeDecode(t: seq<HuffmanCode>, val: nat, available: nat): Decoded
    requires |t| >= ROOT_SIZE && Step(t, val).0 < |t|
  {
    if available == 0 then
      if t[0].bits == 0 then Symbol(t[0].value, 0) else NotEnough
    else
      var i := val % 256;
      if t[i].bits <= ROOT_BITS then
        if t[i].bits <= available then Symbol(t[i].value, t[i].bits) else NotEnough
      else if available <= ROOT_BITS then NotEnough
      else
        var j := Step(t, val).0;
        if available - ROOT_BITS < t[j].bits then NotEnough else Symbol(t[j].value, ROOT_BITS + t[j].bits)
  }

  /** Short input is decoded exactly: it succeeds when the codeword is there in full, and
      then finds what the fast lookup finds. */
  lemma SafeDecodeExact(t: seq<HuffmanCode>, code: Code, val: nat, available: nat)
    requires Describes(t, code) && (available == 0 ==> val == 0)
    ensures code.Valid() && |t| >= ROOT_SIZE && Step(t, val).0 < |t|
    ensures var (value, bits) := code.Lookup(val);
      SafeDecode(t, val, available) == if bits <= available then Symbol(value, bits) else NotEnough
  {
    hide Owner, Rev, Pow2;
    DecodeAgrees(t, code, val);
    var x := val % 256;
    match code
    case One(_) =>
    case Many(c, s) =>
      assert RootSlot(t, c, s, x);
      RootIndex(val);
      SplitAll(c, x, val);
      if Split(c, x) {
        assert SubTable(t, c, s, x);
        DecodeSub(t, c, s, val);
      } else {
        OwnerPrefix(c, x, val, 8);
      }
  }
}
