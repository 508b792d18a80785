/** Block lengths: a symbol for a range of lengths and extra bits within it, read in two steps
    (section 6 of RFC 7932). */
module BlockLength {
  import opened Arith
  import opened PrefixCode
  import opened HuffmanTable
  import opened BitReader
  import opened SymbolReader
  import opened BitWriter

  const RANGES := 26

  /** `_kBrotliPrefixCodeRanges`. */
  const OFFSETS: seq<nat> := [1, 5, 9, 13, 17, 25, 33, 41, 49, 65, 81, 97, 113, 145, 177, 209, 241, 305, 369, 497, 753,
                              1265, 2289, 4337, 8433, 16625]

  const BITS: seq<nat> := [2, 2, 2, 2, 3, 3, 3, 3, 4, 4, 4, 4, 5, 5, 5, 5, 6, 6, 7, 8, 9, 10, 11, 12, 13, 24]

  /** The ranges follow each other without a gap. */
  lemma RangesTile()
    ensures |OFFSETS| == |BITS| == RANGES && OFFSETS[0] == 1
    ensures forall i :: 0 <= i < RANGES ==> BITS[i] <= 24
    ensures forall i :: 0 <= i < RANGES - 1 ==> OFFSETS[i + 1] == OFFSETS[i] + Pow2(BITS[i])
  {
    Pow2Values();
    assert Pow2(2) == 4 && Pow2(3) == 8 && Pow2(4) == 16 && Pow2(5) == 32 && Pow2(6) == 64 && Pow2(7) == 128;
    assert Pow2(9) == 512 && Pow2(10) == 1024 && Pow2(11) == 2048 && Pow2(12) == 4096 && Pow2(13) == 8192;
  }

  predicate InRange(length: nat, i: nat) {
    i < RANGES && OFFSETS[i] <= length < OFFSETS[i] + Pow2(BITS[i])
  }

  /** The range of a length, among the first ones. */
  lemma {:induction false} RangeOf(length: nat, n: nat) returns (i: nat)
    requires n < RANGES && 1 <= length < OFFSETS[n] + Pow2(BITS[n])
    ensures i <= n && InRange(length, i)
  {
    hide Pow2;
    RangesTile();
    if OFFSETS[n] <= length {
      i := n;
    } else {
      i := RangeOf(length, n - 1);
    }
  }

  lemma {:induction false} RangesApart(i: nat, k: nat)
    requires i < k < RANGES
    ensures OFFSETS[i] + Pow2(BITS[i]) <= OFFSETS[k]
  {
    hide Pow2;
    RangesTile();
    if i < k - 1 { RangesApart(i, k - 1); }
  }

  /** Every length up to 2^24 and more has exactly one symbol. */
  lemma LengthCoded(length: nat)
    requires 1 <= length < 16625 + Pow2(24)
    ensures exists i: nat :: InRange(length, i)
    ensures forall i: nat, k: nat :: InRange(length, i) && InRange(length, k) ==> i == k
  {
    hide Pow2;
    var i := RangeOf(length, 25);
    forall i: nat, k: nat | InRange(length, i) && InRange(length, k) ensures i == k {
      if i < k {
        RangesApart(i, k);
      } else if k < i {
        RangesApart(k, i);
      }
    }
  }

  datatype LengthPhase = AtSymbol | AtSuffix(index: nat)

  datatype LengthOutcome = Length(length: nat, rest: seq<Bit01>) | Lacking(phase: LengthPhase, rest: seq<Bit01>)

  /** All symbols of the code are ranges. */
  ghost predicate LengthSymbols(code: Code) {
    code.Valid() && forall w: nat :: code.Lookup(w).0 < RANGES
  }

  /** A block length on the bits `b`, from either phase on. */
  ghost function ResumeLength(p: LengthPhase, code: Code, b: seq<Bit01>): (r: LengthOutcome)
    requires LengthSymbols(code) && (p.AtSuffix? ==> p.index < RANGES)
    decreases if p.AtSymbol? then 1 else 0
  {
    match p
    case AtSymbol =>
      var (v, n) := code.Lookup(Number(b));
      if n > |b| then Lacking(p, b) else ResumeLength(AtSuffix(v), code, b[n..])
    case AtSuffix(i) =>
      if BITS[i] > |b| then Lacking(p, b) else Length(OFFSETS[i] + Number(b[..BITS[i]]), b[BITS[i]..])
  }

  lemma SuffixMore(i: nat, code: Code, b: seq<Bit01>, more: seq<Bit01>)
    requires LengthSymbols(code) && i < RANGES && BITS[i] <= |b|
    ensures ResumeLength(AtSuffix(i), code, b + more) == Length(OFFSETS[i] + Number(b[..BITS[i]]), b[BITS[i]..] + more)
  {
    hide Number;
    assert (b + more)[..BITS[i]] == b[..BITS[i]] && (b + more)[BITS[i]..] == b[BITS[i]..] + more;
  }

  lemma SuffixCut(i: nat, code: Code, b: seq<Bit01>, more: seq<Bit01>)
    requires LengthSymbols(code) && i < RANGES
    ensures ResumeLength(AtSuffix(i), code, b + more) ==
      match ResumeLength(AtSuffix(i), code, b)
      case Length(length, rest) => Length(length, rest + more)
      case Lacking(q, rest) => ResumeLength(q, code, rest + more)
  {
    hide Number;
    if BITS[i] <= |b| { SuffixMore(i, code, b, more); }
  }

  lemma SymbolFirst(code: Code, b: seq<Bit01>)
    requires LengthSymbols(code)
    ensures var (v, n) := code.Lookup(Number(b));
      && v < RANGES
      && ResumeLength(AtSymbol, code, b) ==
           if n > |b| then Lacking(AtSymbol, b) else ResumeLength(AtSuffix(v), code, b[n..])
  {
    hide Number, Code.Lookup, Code.Valid;
  }

  /** However the input is cut, the length read is the same. */
  lemma ResumeLengthMore(p: LengthPhase, code: Code, b: seq<Bit01>, more: seq<Bit01>)
    requires LengthSymbols(code) && (p.AtSuffix? ==> p.index < RANGES)
    ensures ResumeLength(p, code, b + more) ==
      match ResumeLength(p, code, b)
      case Length(length, rest) => Length(length, rest + more)
      case Lacking(q, rest) => ResumeLength(q, code, rest + more)
  {
    hide Number, Code.Lookup, Code.Valid, ResumeLength;
    match p
    case AtSuffix(i) => SuffixCut(i, code, b, more);
    case AtSymbol =>
      var (v, n) := code.Lookup(Number(b));
      SymbolFirst(code, b);
      if n <= |b| {
        HasSymbolMore(code, b, more);
        assert (b + more)[n..] == b[n..] + more;
        SymbolFirst(code, b + more);
        SuffixCut(v, code, b[n..], more);
      }
  }

  /** A length read lies in the range of its symbol. */
  lemma LengthInRange(p: LengthPhase, code: Code, b: seq<Bit01>)
    requires LengthSymbols(code) && (p.AtSuffix? ==> p.index < RANGES) && ResumeLength(p, code, b).Length?
    ensures exists i: nat :: InRange(ResumeLength(p, code, b).length, i)
    decreases if p.AtSymbol? then 1 else 0
  {
    match p
    case AtSuffix(i) =>
      assert Number(b[..BITS[i]]) < Pow2(BITS[i]);
      assert InRange(ResumeLength(p, code, b).length, i);
    case AtSymbol =>
      var (v, n) := code.Lookup(Number(b));
      LengthInRange(AtSuffix(v), code, b[n..]);
  }

  /** A length that is written, with the symbol of its range and its place in the range, is read
      back, and nothing behind it is touched. */
  lemma LengthRead(code: Code, length: nat, i: nat, rest: seq<Bit01>)
    requires LengthSymbols(code) && InRange(length, i) && Spelled(code, i)
    ensures ResumeLength(AtSymbol, code, Spell(code, i) + BitsOf(length - OFFSETS[i], BITS[i]) + rest)
         == Length(length, rest)
  {
    hide Number, Code.Lookup, Code.Valid, BitsOf, Spells, ResumeLength, Pow2;
    var w, more := Spell(code, i), BitsOf(length - OFFSETS[i], BITS[i]) + rest;
    assert w + BitsOf(length - OFFSETS[i], BITS[i]) + rest == w + more;
    LengthCodeValid(code);
    SpellRead(code, i, w, more);
    SymbolFirst(code, w + more);
    SuffixRead(code, length, i, rest);
  }

  lemma LengthCodeValid(code: Code)
    requires LengthSymbols(code)
    ensures code.Valid()
  {
  }

  lemma SuffixRead(code: Code, length: nat, i: nat, rest: seq<Bit01>)
    requires LengthSymbols(code) && InRange(length, i)
    ensures ResumeLength(AtSuffix(i), code, BitsOf(length - OFFSETS[i], BITS[i]) + rest) == Length(length, rest)
  {
    hide Number, BitsOf, Code.Valid, Pow2;
    BitsRead(length - OFFSETS[i], BITS[i], rest);
  }

  class LengthReader {
    var suffix: bool
    var index: nat

    ghost predicate Valid()
      reads this
    {
      suffix ==> index < RANGES
    }

    ghost function Phase(): (p: LengthPhase)
      reads this
    {
      if suffix then AtSuffix(index) else AtSymbol
    }

    constructor ()
      ensures Valid() && Phase() == AtSymbol
    {
      suffix, index := false, 0;
    }

    /** `SafeReadBlockLength`: a symbol that is read already is kept when its extra bits are
        missing. */
    method SafeReadBlockLength(table: seq<HuffmanCode>, br: Reader, ghost code: Code) returns (ok: bool, result: nat)
      requires Valid() && br.Valid() && Describes(table, code) && LengthSymbols(code)
      modifies this, br`val, br`bitPos, br`nextIn, br`availIn
      ensures br.Valid() && br.nextIn + br.availIn == old(br.nextIn + br.availIn) && Valid()
      ensures old(br.Backed()) ==> br.Backed()
      ensures match ResumeLength(old(Phase()), code, old(br.Stream()))
        case Length(length, rest) => ok && result == length && br.Stream() == rest && Phase() == AtSymbol
        case Lacking(p, rest) => !ok && Phase() == p && br.Stream() == rest && br.availIn == 0
    {
      hide BitsOf, BytesBits, BackedBy, Number, Code.Lookup, Code.Valid, Describes, Pow2;
      hide Reader.Stream, Reader.AccBits, Reader.Backed;
      RangesTile();
      result := 0;
      var i := index;
      if !suffix {
        ok, i := SafeReadSymbol(table, br, code);
        if !ok {
          return;
        }
      }
      var bits;
      ok, bits := br.SafeReadBits(BITS[i]);
      if !ok {
        index, suffix := i, true;
        return;
      }
      result := OFFSETS[i] + bits;
      suffix := false;
    }
  }
}
