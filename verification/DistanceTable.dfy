/** Distance codes 16 and up (section 4 of RFC 7932): groups of 2^NPOSTFIX codes that share
    their extra bits, the decoder's lookup table, and the alphabet for a largest distance. */
module DistanceTable {
  import opened Arith
  import opened PrefixCode
  import opened Distances

  /** NPOSTFIX and NDIRECT, of which a meta-block gives NDIRECT in units of 2^NPOSTFIX. */
  datatype Format = Format(npostfix: nat, ndirect: nat) {
    predicate Valid() {
      npostfix <= 3 && exists k: nat :: k < 16 && ndirect == Shl(k, npostfix)
    }
  }

  const MAX_NDIRECT := 120

  lemma DirectBound(f: Format)
    requires f.Valid()
    ensures f.ndirect <= MAX_NDIRECT
  {
    var k: nat :| k < 16 && f.ndirect == Shl(k, f.npostfix);
    ShlMonotone(k, 15, f.npostfix);
    assert Shl(15, 0) == 15 && Shl(15, 1) == 30 && Shl(15, 2) == 60 && Shl(15, 3) == 120;
  }

  const FIRST_CODE := NUM_SHORT_CODES

  /** NDISTBITS of a group. */
  function GroupBits(g: nat): (n: nat)
    ensures n >= 1
  {
    1 + g / 2
  }

  /** Where a group's distances start, before the postfix. */
  function GroupStart(g: nat): nat {
    HeadStart(g);
    Shl(2 + g % 2, GroupBits(g)) - 4
  }

  lemma HeadStart(g: nat)
    ensures Shl(2 + g % 2, GroupBits(g)) == (if g % 2 == 0 then 2 * Pow2(GroupBits(g)) else 3 * Pow2(GroupBits(g)))
    ensures Shl(2 + g % 2, GroupBits(g)) >= 4
  {
    hide Shl;
    ShlTwo(GroupBits(g));
    Pow2Monotone(1, GroupBits(g));
    assert Pow2(1) == 2;
  }

  lemma {:induction false} ShlTwo(n: nat)
    ensures Shl(1, n) == Pow2(n) && Shl(2, n) == 2 * Pow2(n) && Shl(3, n) == 3 * Pow2(n)
  {
    if n > 0 { ShlTwo(n - 1); }
  }

  /** Groups tile the numbers: each starts where the one before it ends. */
  lemma GroupNext(g: nat)
    ensures GroupStart(g + 1) == GroupStart(g) + Pow2(GroupBits(g))
    ensures GroupStart(0) == 0
  {
    hide Shl;
    HeadStart(g);
    HeadStart(g + 1);
    HeadStart(0);
    assert Pow2(1) == 2;
    if g % 2 == 0 {
      assert (g + 1) / 2 == g / 2 && (g + 1) % 2 == 1;
    } else {
      assert (g + 1) / 2 == g / 2 + 1 && (g + 1) % 2 == 0;
    }
  }

  lemma {:induction false} GroupMonotone(g: nat, h: nat)
    requires g <= h
    ensures GroupStart(g) + (h - g) <= GroupStart(h)
    decreases h
  {
    hide GroupStart;
    if g < h {
      GroupMonotone(g, h - 1);
      GroupNext(h - 1);
    }
  }

  /** The group whose distances include `y`. */
  function GroupOf(y: nat): nat {
    GroupFrom(y, 0)
  }

  function GroupFrom(y: nat, g: nat): nat
    decreases y + 1 - g
  {
    if y < GroupStart(g + 1) || y < g then g else GroupFrom(y, g + 1)
  }

  lemma {:induction false} GroupFound(y: nat, g: nat)
    requires GroupStart(g) <= y
    ensures GroupStart(GroupFrom(y, g)) <= y < GroupStart(GroupFrom(y, g) + 1)
    decreases y + 1 - g
  {
    hide GroupStart;
    GroupNext(0);
    GroupMonotone(0, g);
    if y >= GroupStart(g + 1) {
      GroupFound(y, g + 1);
    }
  }

  lemma GroupHolds(y: nat)
    ensures GroupStart(GroupOf(y)) <= y < GroupStart(GroupOf(y) + 1)
  {
    hide GroupStart;
    GroupNext(0);
    GroupFound(y, 0);
  }

  lemma GroupUnique(y: nat, g: nat)
    requires GroupStart(g) <= y < GroupStart(g + 1)
    ensures g == GroupOf(y)
  {
    hide GroupStart, GroupOf;
    GroupHolds(y);
    var h := GroupOf(y);
    if g < h { GroupMonotone(g + 1, h); }
    if h < g { GroupMonotone(h + 1, g); }
  }

  function ExtraBits(f: Format, code: nat): nat
    requires code >= FIRST_CODE
  {
    var c := code - FIRST_CODE;
    if c < f.ndirect then 0 else GroupBits(Shr(c - f.ndirect, f.npostfix))
  }

  /** The distance of a code and its extra bits. */
  function Distance(f: Format, code: nat, extra: nat): (d: nat)
    requires code >= FIRST_CODE
    ensures d >= 1
  {
    var c := code - FIRST_CODE;
    if c < f.ndirect then c + 1
    else
      var x := c - f.ndirect;
      Shl(GroupStart(Shr(x, f.npostfix)) + extra, f.npostfix) + Low(x, f.npostfix) + f.ndirect + 1
  }

  /** Successive extra values of a code are 2^NPOSTFIX apart, and successive codes of a group are
      one apart. */
  lemma DistanceSteps(f: Format, code: nat, extra: nat)
    requires code >= FIRST_CODE + f.ndirect
    ensures Distance(f, code, extra + 1) == Distance(f, code, extra) + Pow2(f.npostfix)
    ensures Low(code - FIRST_CODE - f.ndirect, f.npostfix) + 1 < Pow2(f.npostfix) ==>
      Distance(f, code + 1, extra) == Distance(f, code, extra) + 1
  {
    hide GroupStart;
    var x := code - FIRST_CODE - f.ndirect;
    ShlAdd(GroupStart(Shr(x, f.npostfix)) + extra, 1, f.npostfix);
    if Low(x, f.npostfix) + 1 < Pow2(f.npostfix) { LowShrNext(x, f.npostfix); }
  }

  lemma {:induction false} LowShrNext(x: nat, n: nat)
    requires Low(x, n) + 1 < Pow2(n)
    ensures Low(x + 1, n) == Low(x, n) + 1 && Shr(x + 1, n) == Shr(x, n)
  {
    if n > 0 {
      if x % 2 == 0 {
        assert (x + 1) / 2 == x / 2 && (x + 1) % 2 == 1;
      } else {
        assert (x + 1) / 2 == x / 2 + 1 && (x + 1) % 2 == 0;
        LowShrNext(x / 2, n - 1);
      }
    }
  }

  /** A code whose distances a stream may use has at most 29 extra bits. */
  lemma ExtraBound(f: Format, code: nat)
    requires code >= FIRST_CODE && Distance(f, code, 0) <= MAX_ALLOWED_DISTANCE
    ensures ExtraBits(f, code) <= 29
  {
    var c := code - FIRST_CODE;
    if c >= f.ndirect {
      var g := Shr(c - f.ndirect, f.npostfix);
      if GroupBits(g) >= 30 {
        HeadStart(g);
        Pow2Monotone(30, GroupBits(g));
        Pow2Thirty();
        ShlAtLeast(GroupStart(g), f.npostfix);
      }
    }
  }

  lemma Pow2Thirty()
    ensures Pow2(30) == 0x4000_0000
  {
    ShlPow2(15, 15);
    Pow2Values();
    assert Shl(32768, 15) == 0x4000_0000;
  }

  lemma {:induction false} ShlAtLeast(x: nat, n: nat)
    ensures Shl(x, n) >= x
  {
    if n > 0 { ShlAtLeast(x, n - 1); }
  }

  /** The code and extra bits of a distance. */
  function Encode(f: Format, d: nat): (r: (nat, nat))
    requires d >= 1
    ensures r.0 >= FIRST_CODE
  {
    if d <= f.ndirect then (FIRST_CODE + d - 1, 0)
    else
      var x := d - f.ndirect - 1;
      var y := Shr(x, f.npostfix);
      var g := GroupOf(y);
      GroupHolds(y);
      (FIRST_CODE + f.ndirect + Shl(g, f.npostfix) + Low(x, f.npostfix), y - GroupStart(g))
  }

  /** A number is its high and its low part, and nothing else is. */
  lemma {:induction false} ShrLowJoin(x: nat, n: nat)
    ensures Shl(Shr(x, n), n) + Low(x, n) == x
  {
    if n > 0 { ShrLowJoin(x / 2, n - 1); }
  }

  lemma {:induction false} ShlSplit(y: nat, l: nat, n: nat)
    requires l < Pow2(n)
    ensures Shr(Shl(y, n) + l, n) == y && Low(Shl(y, n) + l, n) == l
    decreases n
  {
    if n > 0 {
      assert (Shl(y, n) + l) / 2 == Shl(y, n - 1) + l / 2 && (Shl(y, n) + l) % 2 == l % 2;
      ShlSplit(y, l / 2, n - 1);
    }
  }

  /** Every distance has a form, and decoding it gives the distance back. */
  lemma EncodeDecode(f: Format, d: nat)
    requires d >= 1
    ensures var (code, extra) := Encode(f, d);
      extra < Pow2(ExtraBits(f, code)) && Distance(f, code, extra) == d
  {
    hide Shl, Shr, Low, GroupStart, GroupOf, Pow2;
    Pow2Values();
    if d > f.ndirect {
      var x := d - f.ndirect - 1;
      var y := Shr(x, f.npostfix);
      var g := GroupOf(y);
      GroupHolds(y);
      ShlSplit(g, Low(x, f.npostfix), f.npostfix);
      GroupNext(g);
      ShrLowJoin(x, f.npostfix);
    }
  }

  /** No distance has a second form. */
  lemma DecodeEncode(f: Format, code: nat, extra: nat)
    requires code >= FIRST_CODE && extra < Pow2(ExtraBits(f, code))
    ensures Encode(f, Distance(f, code, extra)) == (code, extra)
  {
    hide Shl, Shr, Low, GroupStart, GroupOf, Pow2;
    Pow2Values();
    var c := code - FIRST_CODE;
    if c >= f.ndirect {
      var x := c - f.ndirect;
      var g, l := Shr(x, f.npostfix), Low(x, f.npostfix);
      GroupNext(g);
      GroupUnique(GroupStart(g) + extra, g);
      ShlSplit(GroupStart(g) + extra, l, f.npostfix);
      ShrLowJoin(x, f.npostfix);
    }
  }

  /** The size of an alphabet of `n` whole groups. */
  function AlphabetSize(f: Format, n: nat): nat {
    FIRST_CODE + f.ndirect + Shl(n, f.npostfix)
  }

  /** The largest distance of an alphabet of `n` whole groups. */
  function TopDistance(f: Format, n: nat): nat {
    f.ndirect + Shl(GroupStart(n), f.npostfix)
  }

  /** An alphabet of whole groups has exactly the distances up to its top. */
  lemma AlphabetCovers(f: Format, n: nat, d: nat)
    requires d >= 1
    ensures Encode(f, d).0 < AlphabetSize(f, n) <==> d <= TopDistance(f, n)
  {
    hide Shl, Shr, Low, GroupStart, GroupOf, Pow2;
    if d > f.ndirect {
      var x := d - f.ndirect - 1;
      var y := Shr(x, f.npostfix);
      var g := GroupOf(y);
      GroupHolds(y);
      ShrLowJoin(x, f.npostfix);
      if g < n {
        ShlMonotone(g, n, f.npostfix);
        GroupMonotone(g + 1, n);
        ShlMonotone(y, GroupStart(n), f.npostfix);
      } else {
        ShlMonotone(n, g, f.npostfix);
        GroupMonotone(n, g);
        ShlMonotone(GroupStart(n), y, f.npostfix);
      }
    }
  }

  /** An entry of the lookup table gives a code's distances. */
  ghost predicate LutEntry(f: Format, code: nat, bits: nat, offset: nat)
    requires code >= FIRST_CODE
  {
    && bits == ExtraBits(f, code)
    && forall e: nat :: e < Pow2(bits) ==> offset + Shl(e, f.npostfix) == Distance(f, code, e)
  }

  lemma DirectEntry(f: Format, j: nat)
    requires j < f.ndirect
    ensures LutEntry(f, FIRST_CODE + j, 0, j + 1)
  {
    ShlZero(f.npostfix);
    Pow2Values();
  }

  lemma GroupEntry(f: Format, g: nat, j: nat)
    requires j < Pow2(f.npostfix)
    ensures LutEntry(f, AlphabetSize(f, g) + j, GroupBits(g), f.ndirect + Shl(GroupStart(g), f.npostfix) + 1 + j)
  {
    hide Shl, Shr, Low, GroupStart, Pow2;
    ShlSplit(g, j, f.npostfix);
    forall e: nat ensures Shl(GroupStart(g) + e, f.npostfix) == Shl(GroupStart(g), f.npostfix) + Shl(e, f.npostfix) {
      ShlAdd(GroupStart(g), e, f.npostfix);
    }
  }

  /** `CalculateDistanceLut`: whole groups are filled, so a few entries past the limit may
      be written. */
  method CalculateDistanceLut(f: Format, limit: nat, extraBits: array<nat>, offset: array<nat>)
    requires extraBits != offset && extraBits.Length == offset.Length
    requires FIRST_CODE + f.ndirect <= offset.Length && limit + Pow2(f.npostfix) <= offset.Length + 1
    modifies extraBits, offset
    ensures forall i :: FIRST_CODE <= i < limit ==> LutEntry(f, i, extraBits[i], offset[i])
  {
    hide Shl, GroupStart, Pow2, LutEntry;
    var postfix := Shl(1, f.npostfix);
    ShlTwo(f.npostfix);
    ShlZero(f.npostfix);
    var bits, half, i := 1, 0, FIRST_CODE;
    for j := 0 to f.ndirect
      invariant i == FIRST_CODE + j
      invariant forall k :: FIRST_CODE <= k < i ==> LutEntry(f, k, extraBits[k], offset[k])
    {
      DirectEntry(f, j);
      extraBits[i], offset[i] := 0, j + 1;
      i := i + 1;
    }
    ghost var g := 0;
    while i < limit
      invariant i == AlphabetSize(f, g) <= offset.Length && bits == GroupBits(g) && half == g % 2
      invariant forall k :: FIRST_CODE <= k < i ==> LutEntry(f, k, extraBits[k], offset[k])
    {
      HeadStart(g);
      GroupStartIs(g);
      var base := f.ndirect + Shl(Shl(2 + half, bits) - 4, f.npostfix) + 1;
      i := FillGroup(f, g, i, bits, base, postfix, extraBits, offset);
      ShlStep(g, f.npostfix);
      bits := bits + half;
      half := 1 - half;
      g := g + 1;
    }
  }

  lemma GroupStartIs(g: nat)
    ensures GroupStart(g) == Shl(2 + g % 2, GroupBits(g)) - 4
  {
  }

  lemma {:induction false} ShlStep(x: nat, n: nat)
    ensures Shl(x + 1, n) == Shl(x, n) + Pow2(n)
  {
    if n > 0 { ShlStep(x, n - 1); }
  }

  /** One group of the table. */
  method FillGroup(f: Format, ghost g: nat, start: nat, bits: nat, base: nat, postfix: nat, extraBits: array<nat>,
                   offset: array<nat>) returns (i: nat)
    requires extraBits != offset && extraBits.Length == offset.Length && start + postfix <= offset.Length
    requires start == AlphabetSize(f, g) && bits == GroupBits(g) && postfix == Pow2(f.npostfix)
    requires base == f.ndirect + Shl(GroupStart(g), f.npostfix) + 1
    requires forall k :: FIRST_CODE <= k < start ==> LutEntry(f, k, extraBits[k], offset[k])
    modifies extraBits, offset
    ensures i == start + postfix
    ensures forall k :: FIRST_CODE <= k < i ==> LutEntry(f, k, extraBits[k], offset[k])
  {
    hide Shl, GroupStart, Pow2, LutEntry;
    i := start;
    for j := 0 to postfix
      invariant i == start + j
      invariant forall k :: FIRST_CODE <= k < i ==> LutEntry(f, k, extraBits[k], offset[k])
    {
      GroupEntry(f, g, j);
      extraBits[i], offset[i] := bits, base + j;
      i := i + 1;
    }
  }

  /** The position of the highest bit of `offset`, counted by shifting. */
  method HighestBit(offset: nat) returns (n: nat)
    requires offset >= 4
    ensures n >= 2 && Shr(offset, n) == 1
  {
    n := 0;
    var tmp := offset / 2;
    while tmp != 0
      invariant tmp == Shr(offset, n + 1) && Shr(offset, n) != 0
    {
      ShrNext(offset, n + 1);
      n, tmp := n + 1, tmp / 2;
    }
    ShrNext(offset, n);
    assert Shr(offset, 0) >= 4 && Shr(offset, 1) >= 2;
  }

  lemma {:induction false} ShrNext(x: nat, n: nat)
    ensures Shr(x, n + 1) == Shr(x, n) / 2
  {
    if n > 0 { ShrNext(x / 2, n - 1); }
  }

  /** A number with highest bit `n` lies in the group its next bit selects. */
  lemma HighestGroup(y: nat, n: nat)
    requires n >= 2 && Shr(y + 4, n) == 1
    ensures GroupOf(y) == 2 * (n - 2) + Shr(y + 4, n - 1) % 2
  {
    hide Pow2, Shl, Low;
    ShrNext(y + 4, n - 1);
    var half := Shr(y + 4, n - 1) % 2;
    var g := 2 * (n - 2) + half;
    assert GroupBits(g) == n - 1 && g % 2 == half;
    ShrLowJoin(y + 4, n - 1);
    GroupNext(g);
    HeadStart(g);
    GroupUnique(y, g);
  }

  /** The alphabet of the groups below `group`, and its top. */
  method LastPermitted(f: Format, group: nat) returns (size: nat, top: nat)
    ensures size == AlphabetSize(f, group) && top == TopDistance(f, group)
  {
    hide Shl, Pow2, GroupStart;
    if group == 0 {
      GroupNext(0);
      ShlZero(f.npostfix);
      return f.ndirect + FIRST_CODE, f.ndirect;
    }
    var g := group - 1;
    var bits := g / 2 + 1;
    ShlTwo(bits + 1);
    Pow2Monotone(2, bits + 1);
    Pow2Values();
    Pow2Next(bits);
    ShlTwo(bits);
    ShlTwo(f.npostfix);
    var extra := Shl(1, bits) - 1;
    var start := Shl(1, bits + 1) - 4 + Shl(g % 2, bits);
    var postfix := Shl(1, f.npostfix) - 1;
    assert start >= 0 && extra >= 0;
    size := Shl(g, f.npostfix) + postfix + f.ndirect + FIRST_CODE + 1;
    top := Shl(start + extra, f.npostfix) + postfix + f.ndirect + 1;
    LastGroup(f, g, bits, start, extra, postfix);
  }

  /** `BrotliCalculateDistanceCodeLimit`: the largest alphabet of whole groups without a
      distance above `maxDistance`, and its exact top. */
  method CalculateDistanceCodeLimit(maxDistance: nat, f: Format) returns (size: nat, top: nat, ghost groups: nat)
    ensures forall d :: d >= 1 ==> (Encode(f, d).0 < size <==> d <= top)
    ensures top <= maxDistance
    ensures maxDistance <= f.ndirect ==> top == maxDistance
    ensures maxDistance > f.ndirect ==> size == AlphabetSize(f, groups) && maxDistance < TopDistance(f, groups + 1)
  {
    SmallLimit(maxDistance, f);
    hide Shl, Shr, Low, Pow2, GroupOf, GroupStart, Encode, AlphabetSize, TopDistance;
    groups := 0;
    if maxDistance <= f.ndirect {
      return maxDistance + FIRST_CODE, maxDistance, 0;
    }
    var forbidden := maxDistance + 1;
    var x := forbidden - f.ndirect - 1;
    var y := Shr(x, f.npostfix);
    var n := HighestBit(y + 4);
    var half := Shr(y + 4, n - 1) % 2;
    var group := 2 * (n - 2) + half;
    HighestGroup(y, n);
    ForbiddenGroup(f, x, y, group);
    AlphabetLimit(f, group);
    size, top := LastPermitted(f, group);
    groups := group;
  }

  lemma SmallLimit(maxDistance: nat, f: Format)
    ensures maxDistance <= f.ndirect ==>
      forall d :: d >= 1 ==> (Encode(f, d).0 < maxDistance + FIRST_CODE <==> d <= maxDistance)
  {
  }

  lemma AlphabetLimit(f: Format, group: nat)
    ensures forall d :: d >= 1 ==> (Encode(f, d).0 < AlphabetSize(f, group) <==> d <= TopDistance(f, group))
  {
    forall d | d >= 1 ensures Encode(f, d).0 < AlphabetSize(f, group) <==> d <= TopDistance(f, group) {
      AlphabetCovers(f, group, d);
    }
  }

  lemma ForbiddenGroup(f: Format, x: nat, y: nat, g: nat)
    requires y == Shr(x, f.npostfix) && g == GroupOf(y)
    ensures TopDistance(f, g) <= f.ndirect + x < TopDistance(f, g + 1)
  {
    hide Shl, Shr, Low, Pow2, GroupStart;
    GroupHolds(y);
    ShrLowJoin(x, f.npostfix);
    ShlMonotone(GroupStart(g), y, f.npostfix);
    ShlMonotone(y, GroupStart(g + 1), f.npostfix);
  }

  /** The last code of the last permitted group, with all extra bits set. */
  lemma LastGroup(f: Format, g: nat, bits: nat, start: nat, extra: nat, postfix: int)
    requires bits == GroupBits(g) && extra == Shl(1, bits) - 1 && postfix == Shl(1, f.npostfix) - 1
    requires start == Shl(1, bits + 1) - 4 + Shl(g % 2, bits)
    ensures Shl(g, f.npostfix) + postfix + f.ndirect + FIRST_CODE + 1 == AlphabetSize(f, g + 1)
    ensures Shl(start + extra, f.npostfix) + postfix + f.ndirect + 1 == TopDistance(f, g + 1)
  {
    hide Pow2, Shl, GroupStart;
    LastStart(g, bits, start);
    ShlTwo(bits);
    ShlTwo(f.npostfix);
    GroupNext(g);
    ShlStep(g, f.npostfix);
    ShlStep(start + extra, f.npostfix);
  }

  lemma LastStart(g: nat, bits: nat, start: nat)
    requires bits == GroupBits(g) && start == Shl(1, bits + 1) - 4 + Shl(g % 2, bits)
    ensures start == GroupStart(g)
  {
    hide Pow2, Shl;
    ShlTwo(bits);
    ShlTwo(bits + 1);
    ShlZero(bits);
    Pow2Next(bits);
    HeadStart(g);
  }

}
