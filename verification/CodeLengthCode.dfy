/** The code of the code lengths (section 3.5 of RFC 7932): its lengths are read with a fixed
    prefix code, and its table is built in one level of five bits. */
module CodeLengthCode {
  import opened Arith
  import opened PrefixCode
  import opened HuffmanTable
  import opened HuffmanRoot
  import opened BitReader
  import opened SymbolReader
  import opened CodeLengths

  const CODES := 18
  const LONGEST := 5
  const TABLE_SIZE := 32

  /** `kCodeLengthCodeOrder`. */
  function Order(k: nat): (o: nat)
    requires k < CODES
    ensures o < CODES
  {
    Orders()[k]
  }

  function Orders(): (s: seq<nat>)
    ensures |s| == CODES
  {
    [1, 2, 3, 4, 0, 5, 17, 6, 16, 7, 8, 9, 10, 11, 12, 13, 14, 15]
  }

  /** `kCodeLengthPrefixLength` and `kCodeLengthPrefixValue`. */
  function PrefixLength(ix: nat): (n: nat)
    requires ix < 16
    ensures 2 <= n <= 4
  {
    [2, 2, 2, 3, 2, 2, 2, 4, 2, 2, 2, 3, 2, 2, 2, 4][ix]
  }

  function PrefixValue(ix: nat): (v: nat)
    requires ix < 16
    ensures v <= LONGEST
  {
    [0, 4, 3, 2, 0, 4, 3, 1, 0, 4, 3, 2, 0, 4, 3, 5][ix]
  }

  type Lengths = s: seq<nat> | |s| == CODES && forall i :: 0 <= i < CODES ==> s[i] <= LONGEST witness seq(18, _ => 0)

  /** The fixed code: the number of bits for a length, and the bits, the first one lowest. */
  function FixedCode(length: nat): (nat, nat)
    requires length <= LONGEST
  {
    match length
    case 0 => (2, 0)
    case 1 => (4, 7)
    case 2 => (3, 3)
    case 3 => (2, 2)
    case 4 => (2, 1)
    case _ => (4, 15)
  }

  lemma FixedLengths(ix: nat)
    requires ix < 16
    ensures PrefixValue(ix) <= LONGEST && 2 <= PrefixLength(ix) == FixedCode(PrefixValue(ix)).0 <= 4
  {
  }

  lemma LowBits(ix: nat)
    ensures Low(ix, 2) == ix % 4 && Low(ix, 3) == ix % 4 + 4 * (ix / 4 % 2) && (ix < 16 ==> Low(ix, 4) == ix)
  {
    assert ix / 2 / 2 == ix / 4;
    assert Low(ix / 2, 1) == ix / 2 % 2 && Low(ix / 4, 1) == ix / 4 % 2;
    assert ix % 4 == ix % 2 + 2 * (ix / 2 % 2);
    Pow2Values();
  }

  lemma FixedValue(ix: nat)
    requires ix < 16
    ensures PrefixValue(ix) == FixedChoice(ix / 4, ix % 4)
  {
  }

  /** The two tables are that code: an index names the one length whose bits it starts with. */
  lemma FixedTables(ix: nat, length: nat)
    requires ix < 16 && length <= LONGEST
    ensures PrefixValue(ix) <= LONGEST && PrefixLength(ix) == FixedCode(PrefixValue(ix)).0
    ensures PrefixValue(ix) == length <==> Low(ix, FixedCode(length).0) == FixedCode(length).1
  {
    FixedLengths(ix);
    FixedValue(ix);
    LowBits(ix);
    FixedArithmetic(ix / 4, ix % 4, length);
  }

  function FixedChoice(q: nat, r: nat): nat {
    if r == 0 then 0 else if r == 1 then 4 else if r == 2 then 3
    else if q == 0 || q == 2 then 2 else if q == 1 then 1 else 5
  }

  lemma FixedArithmetic(q: nat, r: nat, length: nat)
    requires q < 4 && r < 4 && length <= LONGEST
    ensures var (n, bits) := FixedCode(length);
      FixedChoice(q, r) == length <==> (if n == 2 then r else if n == 3 then r + 4 * (q % 2) else r + 4 * q) == bits
  {
  }

  /** The order names every code once. */
  lemma OrderOnce(a: nat, b: nat)
    requires a < b < CODES
    ensures Order(a) != Order(b) && Order(a) < CODES && Order(b) < CODES
  {
  }

  /** The lengths not read yet are zero. */
  predicate Unread(lens: Lengths, i: nat) {
    forall k :: i <= k < CODES ==> lens[Order(k)] == 0
  }

  function NoLengths(): Lengths {
    seq(CODES, _ => 0)
  }

  lemma {:induction false} NothingUsed(n: nat)
    requires n <= CODES
    ensures Histogram(NoLengths()[..n]) == seq(16, _ => 0) && NonZero(NoLengths()[..n]) == 0
    ensures SpaceUsed(NoLengths()[..n]) == 0
  {
    if n == 0 {
      EmptyCode(MAX_LENGTH);
    } else {
      NothingUsed(n - 1);
      assert NoLengths()[..n][..n - 1] == NoLengths()[..n - 1];
    }
  }

  /** How many codes are used. */
  function NonZero(lens: seq<nat>): nat {
    if lens == [] then 0 else NonZero(lens[..|lens| - 1]) + if lens[|lens| - 1] == 0 then 0 else 1
  }

  lemma {:induction false} SetLength(lens: seq<nat>, k: nat, v: nat)
    requires (forall i :: 0 <= i < |lens| ==> lens[i] <= MAX_LENGTH) && k < |lens| && lens[k] == 0 && v <= MAX_LENGTH
    ensures Histogram(lens[k := v]) == Bump(Histogram(lens), v)
    ensures NonZero(lens[k := v]) == NonZero(lens) + if v == 0 then 0 else 1
  {
    var n := |lens| - 1;
    var lens' := lens[k := v];
    if k == n {
      assert lens'[..n] == lens[..n];
    } else {
      assert lens'[..n] == lens[..n][k := v];
      SetLength(lens[..n], k, v);
    }
  }

  /** The bits that choose the next length; past the end of input they count as zeros. */
  ghost function Ahead(b: seq<Bit01>): (ix: nat)
    ensures ix < 16
  {
    var ix := Number(b[..Min(4, |b|)]);
    assert ix < 16 by { AheadBound(b); }
    ix
  }

  lemma AheadBound(b: seq<Bit01>)
    ensures Number(b[..Min(4, |b|)]) < 16
  {
    Pow2Monotone(Min(4, |b|), 4);
    assert Pow2(4) == 16;
  }

  datatype LengthsOutcome = Whole(lens: Lengths, rest: seq<Bit01>) | Bad
    | Partial(lens: Lengths, i: nat, rest: seq<Bit01>)

  /** Lengths are read in their order until the code space is used up; the code has to be
      complete or to have one symbol only. */
  ghost function ReadLengths(lens: Lengths, i: nat, b: seq<Bit01>): (r: LengthsOutcome)
    requires i <= CODES
    ensures (r.Whole? ==> Accepted(r.lens)) && (r.Partial? ==> r.i <= CODES)
    decreases CODES - i
  {
    if i == CODES || SpaceUsed(lens) >= SPACE then
      if Accepted(lens) then Whole(lens, b) else Bad
    else
      var n := PrefixLength(Ahead(b));
      if n > |b| then Partial(lens, i, b)
      else ReadLengths(lens[Order(i) := PrefixValue(Ahead(b))], i + 1, b[n..])
  }

  /** More bits do not change what was read. */
  lemma AheadMore(b: seq<Bit01>, more: seq<Bit01>)
    requires PrefixLength(Ahead(b)) <= |b|
    ensures PrefixLength(Ahead(b + more)) == PrefixLength(Ahead(b))
    ensures PrefixValue(Ahead(b + more)) == PrefixValue(Ahead(b))
  {
    var n := PrefixLength(Ahead(b));
    var a, c := b[..Min(4, |b|)], (b + more)[..Min(4, |b + more|)];
    NumberLow(a, n);
    NumberLow(c, n);
    assert a[..n] == c[..n];
    var v := PrefixValue(Ahead(b));
    FixedLengths(Ahead(b));
    FixedTables(Ahead(b), v);
    FixedTables(Ahead(b + more), v);
  }

  lemma {:induction false} ReadLengthsMore(lens: Lengths, i: nat, b: seq<Bit01>, more: seq<Bit01>)
    requires i <= CODES
    ensures ReadLengths(lens, i, b + more) ==
      match ReadLengths(lens, i, b)
      case Whole(l, rest) => Whole(l, rest + more)
      case Bad => Bad
      case Partial(l, k, rest) => ReadLengths(l, k, rest + more)
    decreases CODES - i
  {
    hide Order, PrefixLength, PrefixValue, Ahead, SpaceUsed, NonZero, Number;
    if i < CODES && SpaceUsed(lens) < SPACE {
      var n := PrefixLength(Ahead(b));
      if n <= |b| {
        AheadMore(b, more);
        assert (b + more)[n..] == b[n..] + more;
        ReadLengthsMore(lens[Order(i) := PrefixValue(Ahead(b))], i + 1, b[n..], more);
      }
    }
  }

  lemma UsedSet(lens: seq<nat>, k: nat, v: nat)
    requires (forall i :: 0 <= i < |lens| ==> lens[i] <= LONGEST) && k < |lens| && lens[k] == 0 && v <= LONGEST
    ensures Histogram(lens[k := v]) == Bump(Histogram(lens), v)
    ensures NonZero(lens[k := v]) == NonZero(lens) + if v == 0 then 0 else 1
    ensures SpaceUsed(lens[k := v]) == SpaceUsed(lens) + if v == 0 then 0 else 1024 * Share(v)
  {
    SetLength(lens, k, v);
    hide EndCode, Histogram;
    if v > 0 { EndCodeBump(Histogram(lens), v, MAX_LENGTH); }
    ShareOf(v);
  }

  /** `32 >> v`. */
  function Share(v: nat): nat {
    Shr(32, v)
  }

  lemma ShareOf(v: nat)
    requires v <= LONGEST
    ensures Pow2(MAX_LENGTH - v) == 1024 * Share(v)
  {
    ShrSpaceSmall(v);
    Pow2Values();
    assert v == 0 || v == 1 || v == 2 || v == 3 || v == 4 || v == 5;
  }

  lemma ShrSpaceSmall(v: nat)
    requires v <= LONGEST
    ensures Share(v) ==
      if v == 0 then 32 else if v == 1 then 16 else if v == 2 then 8
      else if v == 3 then 4 else if v == 4 then 2 else 1
  {
  }

  datatype Progress = Success | NeedsInput | Failed

  /** Where the lengths of the code length code are collected. */
  class Collector {
    const lens: array<nat>
    const count: array<nat>
    var i: nat
    var space: nat
    var numCodes: nat

    /** In the middle of reading. */
    ghost predicate Valid()
      reads this, lens, count
    {
      && lens.Length == CODES && count.Length == 16 && lens != count && i <= CODES
      && (forall k :: 0 <= k < CODES ==> lens[k] <= LONGEST) && Unread(lens[..], i)
      && count[..] == Histogram(lens[..]) && numCodes == NonZero(lens[..])
      && 1 <= space <= 32 && SpaceUsed(lens[..]) + 1024 * space == SPACE
    }

    ghost function Lens(): Lengths
      requires Valid()
      reads this, lens, count
    {
      lens[..]
    }

    constructor ()
      ensures lens.Length == CODES && count.Length == 16 && lens != count && fresh(lens) && fresh(count)
    {
      lens, count := new nat[CODES](_ => 0), new nat[16](_ => 0);
      i, space, numCodes := 0, 0, 0;
    }

    /** Before the first length, of which `skip` are left out. */
    method Reset(skip: nat)
      requires lens.Length == CODES && count.Length == 16 && lens != count && skip <= CODES
      modifies this, lens, count
      ensures Valid() && Lens() == NoLengths() && i == skip
    {
      for k := 0 to CODES
        invariant forall j :: 0 <= j < k ==> lens[j] == 0
      {
        lens[k] := 0;
      }
      for k := 0 to 16
        invariant lens[..] == NoLengths()
        invariant forall j :: 0 <= j < k ==> count[j] == 0
      {
        count[k] := 0;
      }
      i, space, numCodes := skip, 32, 0;
      NothingUsed(CODES);
      assert NoLengths()[..CODES] == NoLengths();
    }

    /** One length: whether the space is used up or exceeded. */
    method Take(v: nat) returns (stop: bool)
      requires Valid() && i < CODES && v <= LONGEST
      modifies this, lens, count
      ensures lens.Length == CODES && lens[..] == old(lens[..])[Order(old(i)) := v] && i == old(i) + 1
      ensures !stop ==> Valid()
      ensures stop ==> SpaceUsed(lens[..]) >= SPACE && (space == 0 <==> SpaceUsed(lens[..]) == SPACE)
      ensures stop ==> count[..] == Histogram(lens[..]) && numCodes == NonZero(lens[..])
    {
      hide SpaceUsed, Histogram, NonZero;
      assert Unread(lens[..], i) && Order(i) < CODES;
      UsedSet(lens[..], Order(i), v);
      ShrSpaceSmall(v);
      forall k | i + 1 <= k < CODES ensures Order(k) < CODES && Order(k) != Order(i) { OrderOnce(i, k); }
      lens[Order(i)] := v;
      stop := false;
      if v != 0 {
        space := Minus(space, Share(v));
        numCodes := numCodes + 1;
        count[v] := count[v] + 1;
        stop := Minus(space, 1) >= 32;
      }
      i := i + 1;
    }

    /** What has been read so far leads on to `outcome`; when it stops, the space is used up. */
    ghost predicate Leads(outcome: LengthsOutcome, b: seq<Bit01>, stop: bool)
      reads this, lens, count
    {
      && lens.Length == CODES && count.Length == 16 && i <= CODES && (forall k :: 0 <= k < CODES ==> lens[k] <= LONGEST)
      && count[..] == Histogram(lens[..]) && numCodes == NonZero(lens[..])
      && (if stop then SpaceUsed(lens[..]) >= SPACE && (space == 0 <==> SpaceUsed(lens[..]) == SPACE) else Valid())
      && outcome == ReadLengths(lens[..], i, b)
    }

    /** The next length, if it is there. */
    method ReadLength(br: Reader, ghost outcome: LengthsOutcome) returns (ok: bool, stop: bool)
      requires br.Valid() && Leads(outcome, br.Stream(), false) && i < CODES
      modifies this, lens, count, br`val, br`bitPos, br`nextIn, br`availIn
      ensures br.Valid() && br.nextIn + br.availIn == old(br.nextIn + br.availIn) && (old(br.Backed()) ==> br.Backed())
      ensures ok ==> Leads(outcome, br.Stream(), stop) && i == old(i) + 1
      ensures !ok ==> Valid() && outcome == Partial(Lens(), i, br.Stream()) && br.availIn == 0
    {
      hide BitsOf, BytesBits, BackedBy, SpaceUsed, Histogram, NonZero, Number, Unread, Order, PrefixLength, PrefixValue;
      hide Ahead;
      var ix := Peek(br);
      if PrefixLength(ix) > br.Available() {
        return false, false;
      }
      br.DropBits(PrefixLength(ix));
      stop := Take(PrefixValue(ix));
      ok := true;
    }

    /** `ReadCodeLengthCodeLengths`: as much as there is input for. */
    method ReadCodeLengthCodeLengths(br: Reader) returns (r: Progress)
      requires Valid() && br.Valid()
      modifies this, lens, count, br`val, br`bitPos, br`nextIn, br`availIn
      ensures br.Valid() && br.nextIn + br.availIn == old(br.nextIn + br.availIn) && (old(br.Backed()) ==> br.Backed())
      ensures lens.Length == CODES && count.Length == 16
      ensures match ReadLengths(old(Lens()), old(i), old(br.Stream()))
        case Whole(l, rest) => r == Success && lens[..] == l && count[..] == Histogram(l) && br.Stream() == rest
        case Bad => r == Failed
        case Partial(l, k, rest) =>
          r == NeedsInput && Valid() && Lens() == l && i == k && br.Stream() == rest && br.availIn == 0
    {
      hide BitsOf, BytesBits, BackedBy, ReadLengths, Leads, SpaceUsed, Histogram, NonZero;
      ghost var outcome := ReadLengths(Lens(), i, br.Stream());
      LeadsFrom(outcome, br.Stream());
      var stop := false;
      while i < CODES && !stop
        invariant br.Valid() && br.nextIn + br.availIn == old(br.nextIn + br.availIn)
        invariant (old(br.Backed()) ==> br.Backed())
        invariant Leads(outcome, br.Stream(), stop)
        decreases CODES - i
      {
        var ok;
        ok, stop := ReadLength(br, outcome);
        if !ok {
          return NeedsInput;
        }
      }
      LeadsEnd(outcome, br.Stream(), stop);
      r := if numCodes == 1 || space == 0 then Success else Failed;
    }

    lemma LeadsFrom(outcome: LengthsOutcome, b: seq<Bit01>)
      requires Valid() && outcome == ReadLengths(Lens(), i, b)
      ensures Leads(outcome, b, false)
    {
      hide ReadLengths, SpaceUsed, Histogram, NonZero;
    }

    lemma LeadsEnd(outcome: LengthsOutcome, b: seq<Bit01>, stop: bool)
      requires Leads(outcome, b, stop) && (i >= CODES || stop)
      ensures lens.Length == CODES && count.Length == 16
      ensures if numCodes == 1 || space == 0 then outcome == Whole(lens[..], b) && count[..] == Histogram(lens[..])
        else outcome == Bad
    {
      hide SpaceUsed, Histogram, NonZero;
    }
  }

  /** The next four bits, or what there is of them; then it is all in the accumulator. */
  method Peek(br: Reader) returns (ix: nat)
    requires br.Valid()
    modifies br`val, br`bitPos, br`nextIn, br`availIn
    ensures br.Valid() && br.nextIn + br.availIn == old(br.nextIn + br.availIn) && (old(br.Backed()) ==> br.Backed())
    ensures br.Stream() == old(br.Stream()) && ix == Ahead(br.Stream())
    ensures br.Available() >= 4 || (br.availIn == 0 && br.Available() == |br.Stream()|)
  {
    hide BitsOf, BytesBits, BackedBy, Number, Low;
    var ok := br.PullUntil(4);
    if ok {
      WindowReads(br, 4);
      ix := Low(br.GetBitsUnmasked(), 4);
      assert br.Stream()[..Min(4, |br.Stream()|)] == br.Stream()[..4];
    } else {
      AccumulatorShort(br);
      AccumulatorFour(br);
      ix := if br.Available() != 0 then Low(br.GetBitsUnmasked(), 4) else 0;
      assert br.Stream()[..Min(4, |br.Stream()|)] == br.Stream();
    }
  }

  lemma AccumulatorFour(br: Reader)
    requires br.Valid() && br.availIn == 0 && br.Available() < 4
    ensures Low(br.GetBitsUnmasked(), 4) == Number(br.Stream())
  {
    WindowReads(br, br.Available());
    ShrBound(br.val, br.Available(), br.bitPos);
    Pow2Monotone(br.Available(), 4);
    LowSelf(br.GetBitsUnmasked(), br.Available());
    LowSelf(br.GetBitsUnmasked(), 4);
    assert br.Stream()[..br.Available()] == br.Stream();
  }

  /** How many symbols come before those of length `l` when sorted by length; unused ones last. */
  function Base(lens: seq<nat>, l: nat): nat
    requires l <= LONGEST
  {
    Below(lens, if l == 0 then LONGEST + 1 else l)
  }

  function Below(lens: seq<nat>, l: nat): nat {
    if l <= 1 then 0 else Below(lens, l - 1) + |Positions(lens, l - 1)|
  }

  lemma {:induction false} BelowNext(lens: seq<nat>, l: nat)
    requires lens != []
    ensures var n := |lens| - 1;
      Below(lens, l) == Below(lens[..n], l) + if 1 <= lens[n] < l then 1 else 0
    decreases l
  {
    if l > 1 { BelowNext(lens, l - 1); }
  }

  lemma {:induction false} BelowOrder(lens: seq<nat>, a: nat, b: nat)
    requires 1 <= a < b
    ensures Below(lens, a) + |Positions(lens, a)| <= Below(lens, b)
    decreases b
  {
    if a < b - 1 { BelowOrder(lens, a, b - 1); }
  }

  /** The used symbols are those below, and the others make up the rest. */
  lemma {:induction false} BaseTotal(lens: seq<nat>)
    requires forall i :: 0 <= i < |lens| ==> lens[i] <= LONGEST
    ensures Base(lens, 0) == NonZero(lens) && Base(lens, 0) + |Positions(lens, 0)| == |lens|
  {
    if lens == [] {
      NothingBelow(LONGEST + 1);
    } else {
      var n := |lens| - 1;
      BaseTotal(lens[..n]);
      BelowNext(lens, LONGEST + 1);
    }
  }

  lemma {:induction false} NothingBelow(l: nat)
    ensures Below([], l) == 0
  {
    if l > 1 { NothingBelow(l - 1); }
  }

  /** The place of the k-th symbol of length `l`; no two symbols share one. */
  lemma PlacesApart(lens: seq<nat>, l: nat, k: nat, l': nat, k': nat)
    requires (forall i :: 0 <= i < |lens| ==> lens[i] <= LONGEST) && l <= LONGEST && l' <= LONGEST
    requires k < |Positions(lens, l)| && k' < |Positions(lens, l')| && (l != l' || k != k')
    ensures Base(lens, l) + k != Base(lens, l') + k'
  {
    hide Positions, Below;
    var a, b := if l == 0 then LONGEST + 1 else l, if l' == 0 then LONGEST + 1 else l';
    if a < b { BelowOrder(lens, a, b); }
    if b < a { BelowOrder(lens, b, a); }
  }

  /** The symbols of a length among the first `n` come first. */
  lemma {:induction false} PositionsPrefix(lens: seq<nat>, l: nat, n: nat)
    requires n <= |lens|
    ensures Positions(lens[..n], l) <= Positions(lens, l)
    decreases |lens|
  {
    if n < |lens| {
      var m := |lens| - 1;
      assert lens[..m][..n] == lens[..n];
      PositionsPrefix(lens[..m], l, n);
    } else {
      assert lens[..n] == lens;
    }
  }

  lemma PositionsStep(lens: seq<nat>, l: nat, n: nat)
    requires n < |lens|
    ensures Positions(lens[..n + 1], l) == Positions(lens[..n], l) + if lens[n] == l then [n] else []
  {
    assert lens[..n + 1][..n] == lens[..n];
  }

  ghost predicate SortedAt(sorted: seq<nat>, lens: Lengths, l: nat, k: nat) {
    l <= LONGEST && k < |Positions(lens, l)| && Base(lens, l) + k < |sorted|
    && sorted[Base(lens, l) + k] == Positions(lens, l)[k]
  }

  /** The symbols from `n` on are in their places. */
  ghost predicate SortedFrom(sorted: seq<nat>, lens: Lengths, n: nat)
    requires n <= CODES
  {
    |sorted| == CODES
    && forall l, k :: 0 <= l <= LONGEST && |Positions(lens[..n], l)| <= k < |Positions(lens, l)| ==>
         SortedAt(sorted, lens, l, k)
  }

  /** Putting the symbol before them into its place. */
  lemma SortOne(sorted: seq<nat>, lens: Lengths, n: nat)
    requires 0 < n <= CODES && SortedFrom(sorted, lens, n)
    ensures var l := lens[n - 1]; var place := Base(lens, l) + |Positions(lens[..n], l)| - 1;
      0 <= place < CODES && SortedFrom(sorted[place := n - 1], lens, n - 1)
  {
    hide Base;
    var l := lens[n - 1];
    forall m | 0 <= m <= LONGEST
      ensures Positions(lens[..n], m) == Positions(lens[..n - 1], m) + (if l == m then [n - 1] else [])
      ensures Positions(lens[..n], m) <= Positions(lens, m)
    {
      PositionsStep(lens, m, n - 1);
      PositionsPrefix(lens, m, n);
    }
    hide Positions;
    var j := |Positions(lens[..n], l)| - 1;
    var place := Base(lens, l) + j;
    PlaceInside(lens, l, j);
    var sorted' := sorted[place := n - 1];
    forall m, k | 0 <= m <= LONGEST && |Positions(lens[..n - 1], m)| <= k < |Positions(lens, m)|
      ensures SortedAt(sorted', lens, m, k)
    {
      if m == l && k == j {
        assert Positions(lens, m)[k] == Positions(lens[..n], m)[k];
      } else {
        assert SortedAt(sorted, lens, m, k);
        PlacesApart(lens, m, k, l, j);
      }
    }
  }

  lemma PlaceInside(lens: seq<nat>, l: nat, k: nat)
    requires (forall i :: 0 <= i < |lens| ==> lens[i] <= LONGEST) && l <= LONGEST && k < |Positions(lens, l)|
    ensures Base(lens, l) + k < |lens|
  {
    BaseTotal(lens);
    if l > 0 { BelowOrder(lens, l, LONGEST + 1); }
  }

  /** Where the last of the first `n` symbols of each length belongs. */
  ghost predicate Offsets(offset: seq<int>, lens: Lengths, n: nat)
    requires n <= CODES
  {
    |offset| == LONGEST + 1
    && forall l :: 0 <= l <= LONGEST ==> offset[l] == Base(lens, l) + |Positions(lens[..n], l)| - 1
  }

  lemma BelowStep(lens: seq<nat>, l: nat)
    ensures Below(lens, l + 1) == Below(lens, l) + if l == 0 then 0 else |Positions(lens, l)|
    ensures Below(lens, 1) == 0
  {
  }

  lemma CountIs(lens: Lengths, l: nat)
    requires 0 < l <= LONGEST
    ensures Histogram(lens)[l] == |Positions(lens, l)|
  {
    CountsMatch(lens, l);
  }

  /** The offsets by length, from the counts. */
  method StartOffsets(lens: array<nat>, count: array<nat>, ghost ls: Lengths) returns (offset: array<int>)
    requires lens[..] == ls && count.Length == 16 && count[..] == Histogram(ls)
    ensures fresh(offset) && Offsets(offset[..], ls, CODES)
  {
    hide Histogram, Positions, Below;
    BelowStep(ls, 0);
    offset := new int[LONGEST + 1];
    var symbol: int := -1;
    for bits := 1 to LONGEST + 1
      invariant symbol == Below(ls, bits) - 1
      invariant forall l :: 1 <= l < bits ==> offset[l] == Below(ls, l) + |Positions(ls, l)| - 1
    {
      CountIs(ls, bits);
      BelowStep(ls, bits);
      symbol := symbol + count[bits];
      offset[bits] := symbol;
    }
    BaseTotal(ls);
    offset[0] := CODES - 1;
    assert ls[..CODES] == ls;
  }

  /** Sorts the symbols by length, and by order within a length; how many are used. */
  method SortSymbols(lens: array<nat>, count: array<nat>, ghost ls: Lengths) returns (sorted: array<nat>, used: int)
    requires lens[..] == ls && count.Length == 16 && count[..] == Histogram(ls)
    ensures fresh(sorted) && SortedFrom(sorted[..], ls, 0) && used == NonZero(ls)
  {
    hide Histogram, Positions, Base;
    var offset := StartOffsets(lens, count, ls);
    sorted := new nat[CODES];
    var symbol: nat := CODES;
    SortedNone(sorted[..], ls);
    while symbol != 0
      invariant 0 <= symbol <= CODES && Offsets(offset[..], ls, symbol) && SortedFrom(sorted[..], ls, symbol)
    {
      ghost var before, offsets := sorted[..], offset[..];
      SortOne(before, ls, symbol);
      symbol := symbol - 1;
      forall l | 0 <= l <= LONGEST
        ensures |Positions(ls[..symbol + 1], l)| == |Positions(ls[..symbol], l)| + if ls[symbol] == l then 1 else 0
      {
        PositionsStep(ls, l, symbol);
      }
      var l := lens[symbol];
      sorted[offset[l]] := symbol;
      offset[l] := offset[l] - 1;
      assert sorted[..] == before[offsets[l] := symbol];
    }
    used := offset[0] + 1;
    BaseTotal(ls);
    PositionsNone(0);
    assert ls[..0] == [];
  }

  lemma PositionsNone(l: nat)
    ensures Positions([], l) == []
  {
  }

  lemma SortedNone(sorted: seq<nat>, lens: Lengths)
    requires |sorted| == CODES
    ensures SortedFrom(sorted, lens, CODES)
  {
    assert lens[..CODES] == lens;
  }

  /** The one symbol that is used. */
  function Single(lens: seq<nat>): (x: nat)
    requires NonZero(lens) == 1
    ensures x < |lens| && lens[x] != 0
  {
    if lens[|lens| - 1] != 0 then |lens| - 1 else Single(lens[..|lens| - 1])
  }

  ghost predicate Accepted(lens: Lengths) {
    NonZero(lens) == 1 || SpaceUsed(lens) == SPACE
  }

  /** The code of a table of five bits: its codewords are that short, its symbols are tokens. */
  ghost predicate LengthCode(code: Code) {
    code.Valid() && forall w: nat :: code.Lookup(w).0 < CODES && code.Lookup(w).1 <= LONGEST
  }

  /** Such a code has short codewords, and tokens as its symbols. */
  lemma SmallCodeLengths(lens: Lengths)
    requires Accepted(lens)
    ensures LengthCode(SmallCode(lens))
  {
    var code := SmallCode(lens);
    if NonZero(lens) != 1 {
      SmallComplete(lens);
      hide Histogram, ByLength, EndCode, Owner, Positions;
      forall w: nat ensures code.Lookup(w).0 < CODES && code.Lookup(w).1 <= LONGEST {
        var (len, k) := Owner(code.counts, w);
        assert len <= LONGEST;
      }
    }
  }

  /** The code of the lengths; one symbol takes no bits. */
  ghost function SmallCode(lens: Lengths): Code
    requires Accepted(lens)
  {
    if NonZero(lens) == 1 then One(Single(lens)) else Many(Histogram(lens), ByLength(lens))
  }

  /** The table of a code with codewords of up to five bits, indexed by the next five. */
  ghost predicate SmallTable(t: seq<HuffmanCode>, code: Code) {
    && |t| == TABLE_SIZE && code.Valid()
    && forall x :: 0 <= x < TABLE_SIZE ==> SmallEntry(t, code, x)
  }

  ghost predicate SmallEntry(t: seq<HuffmanCode>, code: Code, x: nat)
    requires x < |t| && code.Valid()
  {
    var (v, n) := code.Lookup(x);
    n <= LONGEST && v < CODES && t[x] == HuffmanCode(n, v)
  }

  lemma SingleIs(lens: seq<nat>)
    requires (forall i :: 0 <= i < |lens| ==> lens[i] <= LONGEST) && NonZero(lens) == 1
    ensures var l := lens[Single(lens)]; 0 < l && Positions(lens, l) == [Single(lens)] && Base(lens, l) == 0
  {
    var x := Single(lens);
    var l := lens[x];
    hide Positions, Below;
    FewSymbols(lens, l);
    SymbolListed(lens, l, x);
    OnlyOne(Positions(lens, l), x);
  }

  lemma FewSymbols(lens: seq<nat>, l: nat)
    requires (forall i :: 0 <= i < |lens| ==> lens[i] <= LONGEST) && 0 < l <= LONGEST
    ensures Base(lens, l) + |Positions(lens, l)| <= NonZero(lens)
  {
    hide Positions, Below;
    BaseTotal(lens);
    BelowOrder(lens, l, LONGEST + 1);
  }

  lemma SymbolListed(lens: seq<nat>, l: nat, x: nat)
    requires x < |lens| && lens[x] == l
    ensures x in Positions(lens, l)
  {
    PositionsExact(lens, l);
  }

  lemma OnlyOne(p: seq<nat>, x: nat)
    requires x in p && |p| <= 1
    ensures p == [x]
  {
  }

  lemma {:induction false} HistogramShort(lens: seq<nat>, l: nat)
    requires (forall i :: 0 <= i < |lens| ==> lens[i] <= LONGEST) && LONGEST < l <= MAX_LENGTH
    ensures Histogram(lens)[l] == 0
  {
    if lens != [] { HistogramShort(lens[..|lens| - 1], l); }
  }

  lemma PositionBelow(lens: seq<nat>, l: nat, k: nat)
    requires l <= MAX_LENGTH && k < |ByLength(lens)[l]|
    ensures ByLength(lens)[l][k] < |lens|
  {
    hide Positions;
    PositionsExact(lens, l);
    assert ByLength(lens)[l] == Positions(lens, l);
    var x: nat := Positions(lens, l)[k];
    assert x in Positions(lens, l);
  }

  /** A complete code of lengths up to five. */
  lemma SmallComplete(lens: Lengths)
    requires SpaceUsed(lens) == SPACE
    ensures var c, s := Histogram(lens), ByLength(lens);
      && Complete(c) && Matches(c, s) && (forall l :: LONGEST < l <= MAX_LENGTH ==> c[l] == 0)
      && forall l, k :: 0 <= l <= LONGEST && 0 <= k < |s[l]| ==> s[l][k] < CODES
  {
    hide Histogram, EndCode, Positions;
    forall l | 1 <= l <= MAX_LENGTH ensures |ByLength(lens)[l]| == Histogram(lens)[l] { CountsMatch(lens, l); }
    forall l | LONGEST < l <= MAX_LENGTH ensures Histogram(lens)[l] == 0 { HistogramShort(lens, l); }
    forall l, k | 0 <= l <= LONGEST && 0 <= k < |ByLength(lens)[l]| ensures ByLength(lens)[l][k] < CODES {
      PositionBelow(lens, l, k);
    }
  }

  /** A root filled up to five bits is the whole table of such a code. */
  lemma SmallDone(t: seq<HuffmanCode>, lens: Lengths)
    requires SpaceUsed(lens) == SPACE && |t| == TABLE_SIZE
    requires Complete(Histogram(lens)) && Matches(Histogram(lens), ByLength(lens))
    requires RootDone(t, Histogram(lens), ByLength(lens), LONGEST + 1, 0)
    ensures SmallTable(t, Many(Histogram(lens), ByLength(lens)))
  {
    SmallComplete(lens);
    var c, s := Histogram(lens), ByLength(lens);
    hide Histogram, ByLength, EndCode, Owner, Positions;
    forall x | 0 <= x < TABLE_SIZE ensures SmallEntry(t, Many(c, s), x) {
      var (len, k) := Owner(c, x);
      assert len <= LONGEST;
      assert t[x] == Entry(c, s, x, 0);
    }
  }

  /** Fills the table with the codewords in order. */
  method FillSmall(table: array<HuffmanCode>, sorted: array<nat>, count: array<nat>, ghost ls: Lengths, ghost c: Counts,
                   ghost s: Symbols)
    requires table.Length == TABLE_SIZE && SortedFrom(sorted[..], ls, 0) && count[..] == c
    requires c == Histogram(ls) && s == ByLength(ls) && Complete(c) && Matches(c, s)
    modifies table
    ensures RootDone(table[..], c, s, LONGEST + 1, 0)
  {
    hide Complete, Matches, SortedFrom, Below, RootDone, Shl, Pow2, FirstCode, EndCode, Histogram, ByLength, Positions;
    var keyStep, bits, step, symbol: nat := 128, 1, 2, 0;
    var key := 0;
    StartKeys(ls, c);
    RootNone(table[..], c, s);
    while bits <= LONGEST
      invariant 1 <= bits <= LONGEST + 1 && symbol == Below(ls, bits)
      invariant keyStep == Pow2(8 - bits) && key == Shl(FirstCode(c, bits), 8 - bits) && step == Pow2(bits)
      invariant RootDone(table[..], c, s, bits, 0)
    {
      LengthSymbols(sorted[..], ls, bits);
      assert sorted[..][symbol..symbol + c[bits]] == sorted[symbol..symbol + c[bits]];
      key, symbol := FillLength(table, sorted, count, bits, keyStep, step, key, symbol, c, s);
      NextKeys(table[..], c, s, bits);
      step := step * 2;
      keyStep := keyStep / 2;
      bits := bits + 1;
    }
  }

  lemma StartKeys(ls: Lengths, c: Counts)
    ensures Pow2(7) == 128 && Pow2(1) == 2 && Shl(FirstCode(c, 1), 7) == 0 && Below(ls, 1) == 0
  {
    Pow2Values();
    ShlZero(7);
  }

  lemma NextKeys(t: seq<HuffmanCode>, c: Counts, s: Symbols, bits: nat)
    requires 1 <= bits <= LONGEST && Complete(c) && Matches(c, s) && RootDone(t, c, s, bits, c[bits])
    ensures RootDone(t, c, s, bits + 1, 0) && Shl(FirstCode(c, bits + 1), 7 - bits) == Shl(EndCode(c, bits), 8 - bits)
    ensures Pow2(bits + 1) == 2 * Pow2(bits) && Pow2(8 - bits) == 2 * Pow2(7 - bits)
  {
    hide Shl, Pow2;
    RootNext(t, c, s, bits);
    ShlDouble(EndCode(c, bits), 7 - bits);
    ShlStep(EndCode(c, bits), 7 - bits);
    Pow2Next(bits);
    Pow2Next(7 - bits);
  }

  lemma RootNone(t: seq<HuffmanCode>, c: Counts, s: Symbols)
    requires Complete(c) && Matches(c, s)
    ensures RootDone(t, c, s, 1, 0)
  {
    hide Owner;
  }

  /** The symbols of one length stand together. */
  lemma LengthSymbols(sorted: seq<nat>, ls: Lengths, l: nat)
    requires SortedFrom(sorted, ls, 0) && 1 <= l <= LONGEST
    ensures var c, s := Histogram(ls), ByLength(ls);
      && |s[l]| == c[l] && Below(ls, l + 1) == Below(ls, l) + c[l]
      && Below(ls, l) + c[l] <= |sorted| && sorted[Below(ls, l)..Below(ls, l) + c[l]] == s[l]
  {
    hide Histogram, Positions;
    CountsMatch(ls, l);
    assert ls[..0] == [];
    PositionsNone(l);
    BaseTotal(ls);
    BelowOrder(ls, l, LONGEST + 1);
    var p, at := Positions(ls, l), Below(ls, l);
    forall k | 0 <= k < |p| ensures sorted[at + k] == p[k] {
      assert SortedAt(sorted, ls, l, k);
    }
  }

  /** The k-th codeword of a length, with its key. */
  method PlaceCode(table: array<HuffmanCode>, symbol: nat, bits: nat, step: nat, key: nat, ghost c: Counts,
                   ghost s: Symbols, ghost k: nat)
    requires table.Length == TABLE_SIZE && Complete(c) && Matches(c, s) && 1 <= bits <= LONGEST && k < c[bits]
    requires symbol == s[bits][k]
    requires step == Pow2(bits) && key == Shl(FirstCode(c, bits) + k, 8 - bits) && RootDone(table[..], c, s, bits, k)
    modifies table
    ensures RootDone(table[..], c, s, bits, k + 1) && key + Pow2(8 - bits) == Shl(FirstCode(c, bits) + k + 1, 8 - bits)
  {
    hide Owner, Rev, Shl, Low, Pow2, FirstCode, RootDone, Complete, EndCode;
    ghost var t := table[..];
    Pow2Values();
    RootKey(c, bits, k);
    Pow2Multiple(LONGEST, bits);
    ReplicateValue(table, 0, ReverseBits(key), step, TABLE_SIZE, HuffmanCode(bits, symbol), bits);
    RootPlace(t, table[..], c, s, bits, k);
  }

  /** The codewords of one length. */
  method FillLength(table: array<HuffmanCode>, sorted: array<nat>, count: array<nat>, bits: nat, keyStep: nat,
                    step: nat, key0: nat,
                    symbol0: nat, ghost c: Counts, ghost s: Symbols) returns (key: nat, symbol: nat)
    requires table.Length == TABLE_SIZE && count[..] == c && Complete(c) && Matches(c, s) && 1 <= bits <= LONGEST
    requires symbol0 + c[bits] <= sorted.Length && sorted[symbol0..symbol0 + c[bits]] == s[bits]
    requires keyStep == Pow2(8 - bits) && step == Pow2(bits) && key0 == Shl(FirstCode(c, bits), 8 - bits)
    requires RootDone(table[..], c, s, bits, 0)
    modifies table
    ensures RootDone(table[..], c, s, bits, c[bits])
    ensures symbol == symbol0 + c[bits] && key == Shl(EndCode(c, bits), 8 - bits)
  {
    hide Shl, Pow2, FirstCode, RootDone, Complete;
    key, symbol := key0, symbol0;
    var n := count[bits];
    ghost var k := 0;
    while n != 0
      invariant k + n == c[bits] && key == Shl(FirstCode(c, bits) + k, 8 - bits) && symbol == symbol0 + k
      invariant RootDone(table[..], c, s, bits, k)
    {
      assert sorted[symbol] == sorted[symbol0..symbol0 + c[bits]][k];
      PlaceCode(table, sorted[symbol], bits, step, key, c, s, k);
      symbol := symbol + 1;
      key := key + keyStep;
      n := n - 1;
      k := k + 1;
    }
  }

  /** `BrotliBuildCodeLengthsHuffmanTable`: the table of the lengths' code. */
  method BuildCodeLengthsHuffmanTable(table: array<HuffmanCode>, lens: array<nat>, count: array<nat>, ghost ls: Lengths)
    requires table.Length == TABLE_SIZE && lens[..] == ls && count[..] == Histogram(ls) && Accepted(ls)
    modifies table
    ensures SmallTable(table[..], SmallCode(ls))
  {
    hide Histogram, SpaceUsed;
    var sorted, used := SortSymbols(lens, count, ls);
    if used == 1 {
      SingleIs(ls);
      assert ls[..0] == [];
      PositionsNone(ls[Single(ls)]);
      assert SortedAt(sorted[..], ls, ls[Single(ls)], 0);
      var code := HuffmanCode(0, sorted[0]);
      assert sorted[0] == sorted[..][0] == Single(ls);
      for key := 0 to TABLE_SIZE
        invariant forall x :: 0 <= x < key ==> table[x] == code
      {
        table[key] := code;
      }
      return;
    }
    SmallComplete(ls);
    FillSmall(table, sorted, count, ls, Histogram(ls), ByLength(ls));
    SmallDone(table[..], ls);
  }
}
