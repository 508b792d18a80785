/** The tables of simple prefix codes of up to four symbols (section 3.4 of RFC 7932). */
module HuffmanSimple {
  import opened Arith
  import opened PrefixCode
  import opened HuffmanTable
  import opened HuffmanRoot
  import opened HuffmanBuild

  function Counted(one: nat, two: nat, three: nat): Counts {
    seq(16, i => if i == 1 then one else if i == 2 then two else if i == 3 then three else 0)
  }

  function Grouped(one: seq<nat>, two: seq<nat>, three: seq<nat>): Symbols {
    seq(16, i => if i == 1 then one else if i == 2 then two else if i == 3 then three else [])
  }

  lemma CountedComplete(one: nat, two: nat, three: nat)
    requires 4 * one + 2 * two + three == 8
    ensures Complete(Counted(one, two, three))
    ensures FirstCode(Counted(one, two, three), 1) == 0 && FirstCode(Counted(one, two, three), 2) == 2 * one
    ensures FirstCode(Counted(one, two, three), 3) == 4 * one + 2 * two
  {
    var c := Counted(one, two, three);
    assert EndCode(c, 1) == one && EndCode(c, 2) == 2 * one + two;
    assert EndCode(c, 3) == 8 && EndCode(c, 4) == 16 && EndCode(c, 5) == 32
      && EndCode(c, 6) == 64 && EndCode(c, 7) == 128;
    assert EndCode(c, 8) == 256 && EndCode(c, 9) == 512 && EndCode(c, 10) == 1024 && EndCode(c, 11) == 2048;
    assert EndCode(c, 12) == 4096 && EndCode(c, 13) == 8192 && EndCode(c, 14) == 16384;
  }

  lemma CountedAt(one: nat, two: nat, three: nat)
    ensures Counted(one, two, three)[1] == one && Counted(one, two, three)[2] == two
    ensures Counted(one, two, three)[3] == three
  {
  }

  /** The codes of a simple code in the decoder's terms: all lengths up to three bits. */
  predicate SimpleCode(c: Counts, s: Symbols, m: nat) {
    1 <= m <= 3 && |s[1]| == c[1] && |s[2]| == c[2] && |s[3]| == c[3]
    && c == Counted(c[1], c[2], c[3]) && 4 * c[1] + 2 * c[2] + c[3] == 8
    && (m < 2 ==> c[2] == 0) && (m < 3 ==> c[3] == 0)
  }

  /** How the first three bits of a window read. */
  lemma SmallReads()
    ensures Rev(0, 1) == 0 && Rev(1, 1) == 1 && Rev(2, 1) == 0 && Rev(3, 1) == 1
    ensures Rev(4, 1) == 0 && Rev(5, 1) == 1 && Rev(6, 1) == 0 && Rev(7, 1) == 1
    ensures Rev(0, 2) == 0 && Rev(1, 2) == 2 && Rev(2, 2) == 1 && Rev(3, 2) == 3
    ensures Rev(5, 2) == 2 && Rev(1, 3) == 4 && Rev(3, 3) == 6 && Rev(7, 3) == 7
  {
    assert Bit(0, 0) == 0 && Bit(0, 1) == 0 && Bit(1, 1) == 0 && Bit(2, 1) == 1 && Bit(3, 1) == 1 && Bit(5, 1) == 0;
    assert Bit(7, 1) == 1 && Bit(1, 2) == 0 && Bit(3, 2) == 0 && Bit(7, 2) == 1;
    assert Rev(7, 2) == 3;
  }

  /** Entry `x` of a table is that of the codeword that starts `x`. */
  lemma SimpleEntry(c: Counts, s: Symbols, x: nat, len: nat, k: nat)
    requires Complete(c) && Matches(c, s) && Starts(c, x, len, k)
    ensures Entry(c, s, x, 0) == HuffmanCode(len, s[len][k]) && Owner(c, x) == (len, k)
  {
    OwnerUnique(c, x, len, k);
  }

  ghost predicate SortedOf(a: seq<nat>, b: seq<nat>) {
    multiset(a) == multiset(b) && forall i, j :: 0 <= i < j < |a| ==> a[i] <= a[j]
  }

  /** Section 3.4 of RFC 7932: the code of `n + 1` symbols, or of four with lengths 1, 2, 3, 3. */
  ghost predicate SimpleFor(code: Code, v: seq<nat>, n: nat)
    requires |v| >= 4 && n <= 4
  {
    if n == 0 then code == One(v[0])
    else
      && code.Many?
      && var (c, s) := (code.counts, code.symbols);
      && s == Grouped(s[1], s[2], s[3])
      && match n
         case 1 => c == Counted(2, 0, 0) && SortedOf(s[1], v[..2]) && s[2] == [] && s[3] == []
         case 2 => c == Counted(1, 2, 0) && s[1] == [v[0]] && SortedOf(s[2], v[1..3]) && s[3] == []
         case 3 => c == Counted(0, 4, 0) && s[1] == [] && SortedOf(s[2], v[..4]) && s[3] == []
         case _ => c == Counted(1, 1, 2) && s[1] == [v[0]] && s[2] == [v[1]] && SortedOf(s[3], v[2..4])
  }

  function Ordered(a: nat, b: nat): (r: seq<nat>)
    ensures SortedOf(r, [a, b])
  {
    if b > a then [a, b] else [b, a]
  }

  lemma SwapKeeps(a: seq<nat>, i: nat, k: nat)
    requires i < |a| && k < |a|
    ensures multiset(a[i := a[k]][k := a[i]]) == multiset(a)
  {
  }

  method Exchange(val: array<nat>, i: nat, k: nat)
    requires val.Length >= 4 && i < k < 4
    modifies val
    ensures multiset(val[..4]) == multiset(old(val[..4])) && val[4..] == old(val[4..])
    ensures val[i] <= val[k] && (forall j :: 0 <= j < 4 && j != i && j != k ==> val[j] == old(val[j]))
    ensures (val[i] == old(val[i]) && val[k] == old(val[k])) || (val[i] == old(val[k]) && val[k] == old(val[i]))
    ensures val[i] <= old(val[i])
  {
    if val[k] < val[i] {
      ghost var before := val[..4];
      SwapKeeps(before, i, k);
      val[k], val[i] := val[i], val[k];
      assert val[..4] == before[i := before[k]][k := before[i]];
    }
  }

  /** The exchange sort of four symbols. */
  method SortFour(val: array<nat>)
    requires val.Length >= 4
    modifies val
    ensures SortedOf(val[..4], old(val[..4])) && val[4..] == old(val[4..])
  {
    for i := 0 to 3
      invariant multiset(val[..4]) == multiset(old(val[..4])) && val[4..] == old(val[4..])
      invariant forall a, b :: 0 <= a < b < 4 && a < i ==> val[a] <= val[b]
    {
      for k := i + 1 to 4
        invariant multiset(val[..4]) == multiset(old(val[..4])) && val[4..] == old(val[4..])
        invariant forall a, b :: 0 <= a < b < 4 && a < i ==> val[a] <= val[b]
        invariant forall b :: i < b < k ==> val[i] <= val[b]
      {
        Exchange(val, i, k);
      }
    }
  }

  lemma SameTwice(t: seq<HuffmanCode>, u: seq<HuffmanCode>, code: HuffmanCode)
    requires u == t + t && forall x :: 0 <= x < |t| ==> t[x] == code
    ensures forall x :: 0 <= x < |u| ==> u[x] == code
  {
  }

  /** Doubles a first entry to a whole root. */
  method FillOne(table: array<HuffmanCode>, base: nat, code: HuffmanCode)
    requires base + ROOT_SIZE <= table.Length
    modifies table
    ensures forall j :: 0 <= j < table.Length ==>
      table[j] == if base <= j < base + ROOT_SIZE then code else old(table[j])
  {
    hide Pow2;
    Pow2Values();
    table[base] := code;
    var size := 1;
    ghost var n := 0;
    while size != ROOT_SIZE
      invariant n <= 8 && size == Pow2(n) <= ROOT_SIZE
      invariant forall j :: 0 <= j < table.Length && base <= j < base + size ==> table[j] == code
      invariant forall j :: 0 <= j < table.Length && !(base <= j < base + ROOT_SIZE) ==> table[j] == old(table[j])
      decreases 8 - n
    {
      Pow2Next(n);
      if n < 8 { Pow2Monotone(n + 1, 8); }
      ghost var t := table[base..base + size];
      assert forall x :: 0 <= x < size ==> t[x] == code;
      DoubleTable(table, base, size);
      SameTwice(t, table[base..base + 2 * size], code);
      forall j | base <= j < base + 2 * size ensures table[j] == code {
        assert table[j] == table[base..base + 2 * size][j - base];
      }
      size, n := size * 2, n + 1;
    }
  }

  /** Entry `x` holds the symbol of a codeword that `x` starts with. */
  ghost predicate PlacedAs(t: seq<HuffmanCode>, c: Counts, s: Symbols, x: nat, len: nat, k: nat) {
    && x < |t| && 1 <= len <= 3 && k < c[len] && k < |s[len]|
    && Rev(x, len) == FirstCode(c, len) + k && t[x] == HuffmanCode(len, s[len][k])
  }

  ghost predicate Placed(t: seq<HuffmanCode>, c: Counts, s: Symbols, x: nat) {
    exists len: nat, k: nat :: PlacedAs(t, c, s, x, len, k)
  }

  ghost predicate AllPlaced(t: seq<HuffmanCode>, c: Counts, s: Symbols) {
    forall x :: 0 <= x < |t| ==> Placed(t, c, s, x)
  }

  /** The first entries of a simple code with codewords of at most `m` bits. */
  lemma SimpleDone(t: seq<HuffmanCode>, c: Counts, s: Symbols, m: nat)
    requires SimpleCode(c, s, m) && s == Grouped(s[1], s[2], s[3])
    requires AllPlaced(t, c, s)
    ensures Complete(c) && Matches(c, s) && RootDone(t, c, s, m + 1, 0)
  {
    CountedComplete(c[1], c[2], c[3]);
    hide Owner, Rev, FirstCode, EndCode;
    forall x | 0 <= x < |t| ensures t[x] == Entry(c, s, x, 0) {
      assert Placed(t, c, s, x);
      var len: nat, k: nat :| PlacedAs(t, c, s, x, len, k);
      SimpleEntry(c, s, x, len, k);
    }
  }

  /** Completes the root of a simple code. */
  method Spread(table: array<HuffmanCode>, base: nat, m: nat, ghost c: Counts, ghost s: Symbols)
    requires SimpleCode(c, s, m) && s == Grouped(s[1], s[2], s[3]) && base + ROOT_SIZE <= table.Length
    requires Pow2(m) <= ROOT_SIZE && AllPlaced(table[base..base + Pow2(m)], c, s)
    modifies table
    ensures Represents(table[base..base + ROOT_SIZE], c, s)
    ensures forall j :: 0 <= j < table.Length && !(base <= j < base + ROOT_SIZE) ==> table[j] == old(table[j])
  {
    hide Owner, Rev, FirstCode, EndCode, AllPlaced, RootDone, RootComplete, Represents, Pow2;
    SimpleDone(table[base..base + Pow2(m)], c, s, m);
    CountedComplete(c[1], c[2], c[3]);
    ReplicateRoot(table, base, m, c, s);
    SimpleEnd(c, m);
    ShortCode(table[base..base + ROOT_SIZE], c, s, m);
  }

  lemma SimpleEnd(c: Counts, m: nat)
    requires 1 <= m <= 3 && c == Counted(c[1], c[2], c[3]) && 4 * c[1] + 2 * c[2] + c[3] == 8
    requires (m < 2 ==> c[2] == 0) && (m < 3 ==> c[3] == 0)
    ensures EndCode(c, m) == Pow2(m)
  {
    assert EndCode(c, 1) == c[1] && EndCode(c, 2) == 2 * c[1] + c[2] && EndCode(c, 3) == 8;
    Pow2Values();
  }

  lemma PlacedTwo(t: seq<HuffmanCode>, s: Symbols)
    requires |t| == 2 && |s[1]| == 2 && t[0] == HuffmanCode(1, s[1][0]) && t[1] == HuffmanCode(1, s[1][1])
    ensures AllPlaced(t, Counted(2, 0, 0), s)
  {
    var c := Counted(2, 0, 0);
    SmallReads();
    CountedComplete(2, 0, 0);
    assert PlacedAs(t, c, s, 0, 1, 0) && PlacedAs(t, c, s, 1, 1, 1);
  }

  lemma PlacedThree(t: seq<HuffmanCode>, s: Symbols)
    requires |t| == 4 && |s[1]| == 1 && |s[2]| == 2 && t[0] == t[2] == HuffmanCode(1, s[1][0])
    requires t[1] == HuffmanCode(2, s[2][0]) && t[3] == HuffmanCode(2, s[2][1])
    ensures AllPlaced(t, Counted(1, 2, 0), s)
  {
    var c := Counted(1, 2, 0);
    SmallReads();
    CountedComplete(1, 2, 0);
    hide Rev, FirstCode, EndCode, Complete;
    assert PlacedAs(t, c, s, 0, 1, 0) && PlacedAs(t, c, s, 1, 2, 0) && PlacedAs(t, c, s, 2, 1, 0) && PlacedAs(t, c, s,
                    3, 2, 1);
  }

  lemma PlacedFour(t: seq<HuffmanCode>, s: Symbols)
    requires |t| == 4 && |s[2]| == 4 && t[0] == HuffmanCode(2, s[2][0]) && t[2] == HuffmanCode(2, s[2][1])
    requires t[1] == HuffmanCode(2, s[2][2]) && t[3] == HuffmanCode(2, s[2][3])
    ensures AllPlaced(t, Counted(0, 4, 0), s)
  {
    var c := Counted(0, 4, 0);
    SmallReads();
    CountedComplete(0, 4, 0);
    hide Rev, FirstCode, EndCode, Complete, Counted;
    assert c[2] == 4 by { CountedAt(0, 4, 0); }
    assert PlacedAs(t, c, s, 0, 2, 0) && PlacedAs(t, c, s, 1, 2, 2) && PlacedAs(t, c, s, 2, 2, 1) && PlacedAs(t, c, s,
                    3, 2, 3);
  }

  lemma PlacedDeep(t: seq<HuffmanCode>, s: Symbols)
    requires |t| == 8 && |s[1]| == 1 && |s[2]| == 1 && |s[3]| == 2
    requires t[0] == t[2] == t[4] == t[6] == HuffmanCode(1, s[1][0]) && t[1] == t[5] == HuffmanCode(2, s[2][0])
    requires t[3] == HuffmanCode(3, s[3][0]) && t[7] == HuffmanCode(3, s[3][1])
    ensures AllPlaced(t, Counted(1, 1, 2), s)
  {
    var c := Counted(1, 1, 2);
    SmallReads();
    CountedComplete(1, 1, 2);
    hide Rev, FirstCode, EndCode, Complete;
    assert PlacedAs(t, c, s, 0, 1, 0) && PlacedAs(t, c, s, 2, 1, 0) && PlacedAs(t, c, s, 4, 1, 0) && PlacedAs(t, c, s,
                    6, 1, 0);
    assert PlacedAs(t, c, s, 1, 2, 0) && PlacedAs(t, c, s, 5, 2, 0) && PlacedAs(t, c, s, 3, 3, 0) && PlacedAs(t, c, s,
                    7, 3, 1);
  }

  method BuildTwo(table: array<HuffmanCode>, base: nat, val: array<nat>) returns (ghost code: Code)
    requires val.Length >= 4 && base + ROOT_SIZE <= table.Length
    modifies table
    ensures SimpleFor(code, val[..], 1) && Describes(table[base..base + ROOT_SIZE], code)
    ensures forall j :: 0 <= j < table.Length && !(base <= j < base + ROOT_SIZE) ==> table[j] == old(table[j])
  {
    hide Represents, AllPlaced, SortedOf;
    if val[1] > val[0] {
      table[base], table[base + 1] := HuffmanCode(1, val[0]), HuffmanCode(1, val[1]);
    } else {
      table[base], table[base + 1] := HuffmanCode(1, val[1]), HuffmanCode(1, val[0]);
    }
    assert val[..2] == [val[0], val[1]];
    ghost var s := Grouped(Ordered(val[0], val[1]), [], []);
    Pow2Values();
    PlacedTwo(table[base..base + 2], s);
    Spread(table, base, 1, Counted(2, 0, 0), s);
    code := Many(Counted(2, 0, 0), s);
  }

  method BuildThree(table: array<HuffmanCode>, base: nat, val: array<nat>) returns (ghost code: Code)
    requires val.Length >= 4 && base + ROOT_SIZE <= table.Length
    modifies table
    ensures SimpleFor(code, val[..], 2) && Describes(table[base..base + ROOT_SIZE], code)
    ensures forall j :: 0 <= j < table.Length && !(base <= j < base + ROOT_SIZE) ==> table[j] == old(table[j])
  {
    hide Represents, AllPlaced, SortedOf;
    table[base] := HuffmanCode(1, val[0]);
    table[base + 2] := HuffmanCode(1, val[0]);
    if val[2] > val[1] {
      table[base + 1], table[base + 3] := HuffmanCode(2, val[1]), HuffmanCode(2, val[2]);
    } else {
      table[base + 1], table[base + 3] := HuffmanCode(2, val[2]), HuffmanCode(2, val[1]);
    }
    assert val[1..3] == [val[1], val[2]];
    ghost var s := Grouped([val[0]], Ordered(val[1], val[2]), []);
    Pow2Values();
    PlacedThree(table[base..base + 4], s);
    Spread(table, base, 2, Counted(1, 2, 0), s);
    code := Many(Counted(1, 2, 0), s);
  }

  method BuildFour(table: array<HuffmanCode>, base: nat, val: array<nat>) returns (ghost code: Code)
    requires val.Length >= 4 && base + ROOT_SIZE <= table.Length
    modifies table, val
    ensures SimpleFor(code, old(val[..]), 3) && Describes(table[base..base + ROOT_SIZE], code)
    ensures forall j :: 0 <= j < table.Length && !(base <= j < base + ROOT_SIZE) ==> table[j] == old(table[j])
  {
    hide Represents, AllPlaced;
    ghost var v := val[..];
    SortFour(val);
    assert v[..4] == old(val[..4]);
    table[base], table[base + 2] := HuffmanCode(2, val[0]), HuffmanCode(2, val[1]);
    table[base + 1], table[base + 3] := HuffmanCode(2, val[2]), HuffmanCode(2, val[3]);
    ghost var s := Grouped([], val[..4], []);
    Pow2Values();
    PlacedFour(table[base..base + 4], s);
    Spread(table, base, 2, Counted(0, 4, 0), s);
    code := Many(Counted(0, 4, 0), s);
  }

  method BuildDeep(table: array<HuffmanCode>, base: nat, val: array<nat>) returns (ghost code: Code)
    requires val.Length >= 4 && base + ROOT_SIZE <= table.Length
    modifies table, val
    ensures SimpleFor(code, old(val[..]), 4) && Describes(table[base..base + ROOT_SIZE], code)
    ensures forall j :: 0 <= j < table.Length && !(base <= j < base + ROOT_SIZE) ==> table[j] == old(table[j])
  {
    hide Represents, AllPlaced, SortedOf;
    ghost var v := val[..];
    if val[3] < val[2] {
      val[3], val[2] := val[2], val[3];
    }
    assert v[2..4] == [v[2], v[3]];
    ghost var s := Grouped([v[0]], [v[1]], Ordered(v[2], v[3]));
    FillDeep(table, base, val);
    Pow2Values();
    PlacedDeep(table[base..base + 8], s);
    Spread(table, base, 3, Counted(1, 1, 2), s);
    code := Many(Counted(1, 1, 2), s);
  }

  method FillDeep(table: array<HuffmanCode>, base: nat, val: array<nat>)
    requires val.Length >= 4 && base + ROOT_SIZE <= table.Length
    modifies table
    ensures table[base] == table[base + 2] == table[base + 4] == table[base + 6] == HuffmanCode(1, val[0])
    ensures table[base + 1] == table[base + 5] == HuffmanCode(2, val[1])
    ensures table[base + 3] == HuffmanCode(3, val[2]) && table[base + 7] == HuffmanCode(3, val[3])
    ensures forall j :: 0 <= j < table.Length && !(base <= j < base + ROOT_SIZE) ==> table[j] == old(table[j])
  {
    table[base], table[base + 1], table[base + 2]
      := HuffmanCode(1, val[0]), HuffmanCode(2, val[1]), HuffmanCode(1, val[0]);
    table[base + 3], table[base + 4], table[base + 5]
      := HuffmanCode(3, val[2]), HuffmanCode(1, val[0]), HuffmanCode(2, val[1]);
    table[base + 6], table[base + 7] := HuffmanCode(1, val[0]), HuffmanCode(3, val[3]);
  }

  /** `BrotliBuildSimpleHuffmanTable`. */
  method BuildSimpleHuffmanTable(table: array<HuffmanCode>, base: nat, val: array<nat>, n: nat)
    returns (size: nat, ghost code: Code)
    requires val.Length >= 4 && n <= 4 && base + ROOT_SIZE <= table.Length
    modifies table, val
    ensures size == ROOT_SIZE && SimpleFor(code, old(val[..]), n) && code.Valid()
    ensures Describes(table[base..base + size], code)
    ensures forall j :: 0 <= j < table.Length && !(base <= j < base + ROOT_SIZE) ==> table[j] == old(table[j])
  {
    hide Represents;
    size := ROOT_SIZE;
    match n {
      case 0 =>
        FillOne(table, base, HuffmanCode(0, val[0]));
        code := One(val[0]);
      case 1 => code := BuildTwo(table, base, val);
      case 2 => code := BuildThree(table, base, val);
      case 3 => code := BuildFour(table, base, val);
      case _ => code := BuildDeep(table, base, val);
    }
    assert Describes(table[base..base + size], code);
    DecodeAgrees(table[base..base + size], code, 0);
  }
}
