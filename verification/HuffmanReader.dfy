/** `ReadHuffmanCode`: a prefix code read from its bits, simple or by its code lengths, in steps
    that can stop for lack of input at any point and go on later. */
module HuffmanReader {
  import opened Arith
  import opened PrefixCode
  import opened HuffmanTable
  import opened HuffmanRoot
  import opened HuffmanBuild
  import HuffmanSize
  import opened HuffmanSimple
  import opened BitReader
  import opened CodeLengths
  import opened CodeLengthCode
  import opened TokenReader

  /** Entries reserved for a tree beyond the size of its alphabet. */
  const TREE_SLACK := 376

  /** Entries that the table of an alphabet takes at most; `BROTLI_HUFFMAN_MAX_SIZE_272` for
      those of context maps. */
  function Room(alphabet: nat): (n: nat)
    ensures ROOT_SIZE <= n <= alphabet + TREE_SLACK
  {
    if alphabet <= 272 then Min(alphabet + TREE_SLACK, 646) else alphabet + TREE_SLACK
  }

  /** Every codeword belongs to a symbol. */
  lemma {:induction false} CodewordsBound(lens: seq<nat>)
    requires forall i :: 0 <= i < |lens| ==> lens[i] <= MAX_LENGTH
    ensures HuffmanSize.Used(Histogram(lens)) <= |lens|
  {
    if lens == [] {
      NoCodewords(MAX_LENGTH + 1);
    } else {
      var n := |lens| - 1;
      CodewordsBound(lens[..n]);
      if lens[n] > 0 { ShorterBump(Histogram(lens[..n]), lens[n], MAX_LENGTH + 1); }
    }
  }

  lemma {:induction false} NoCodewords(len: nat)
    requires 1 <= len <= MAX_LENGTH + 1
    ensures HuffmanSize.Shorter(Histogram([]), len) == 0
  {
    if len > 1 { NoCodewords(len - 1); }
  }

  lemma {:induction false} ShorterBump(c: Counts, l: nat, len: nat)
    requires 1 <= l <= MAX_LENGTH && 1 <= len <= MAX_LENGTH + 1
    ensures HuffmanSize.Shorter(Bump(c, l), len) == HuffmanSize.Shorter(c, len) + if l < len then 1 else 0
  {
    if len > 1 { ShorterBump(c, l, len - 1); }
  }

  /** The table of a complete set of lengths; it fits the alphabet's allocation. */
  method BuildComplex(ghost lens: seq<nat>, lists: array<nat>, histo: array<nat>, table: array<HuffmanCode>, base: nat)
    returns (size: nat, ghost code: Code)
    requires (forall i :: 0 <= i < |lens| ==> lens[i] <= MAX_LENGTH) && SpaceUsed(lens) == SPACE
    requires Entered(lists[..], lens) && histo[..] == Histogram(lens) && lists != histo
    requires base + Room(|lens|) <= table.Length
    modifies table, histo
    ensures size <= Room(|lens|) && code == Many(Histogram(lens), ByLength(lens)) && code.Valid()
    ensures Describes(table[base..base + size], code)
    ensures forall j :: 0 <= j < table.Length && !(base <= j < base + size) ==> table[j] == old(table[j])
  {
    hide Represents, Entered, Histogram, SpaceUsed, Lists, TableSize, Complete;
    CompleteLists(lists[..], lens);
    CodewordsBound(lens);
    HuffmanSize.TableSizeBound(Histogram(lens));
    size := BuildHuffmanTable(table, base, lists, histo, Histogram(lens), ByLength(lens));
    code := Many(Histogram(lens), ByLength(lens));
    DecodeAgrees(table[base..base + size], code, 0);
  }

  /** A prefix code as it is written: the symbols of a simple code, or all code lengths. */
  datatype Text = Simple(symbols: seq<nat>, deep: bool) | Complex(lens: seq<nat>) {
    ghost predicate Valid() {
      match this
      case Simple(v, deep) => 1 <= |v| <= 4 && (deep ==> |v| == 4)
      case Complex(lens) => (forall i :: 0 <= i < |lens| ==> lens[i] <= MAX_LENGTH) && SpaceUsed(lens) == SPACE
    }
  }

  predicate Distinct(v: seq<nat>) {
    forall i, k :: 0 <= i < k < |v| ==> v[i] != v[k]
  }

  ghost predicate Gives(text: Text, code: Code) {
    match text
    case Simple(v, deep) =>
      1 <= |v| <= 4 && (deep ==> |v| == 4)
      && SimpleFor(code, v + Times(0, 4 - |v|), |v| - 1 + if deep then 1 else 0)
    case Complex(lens) =>
      (forall i :: 0 <= i < |lens| ==> lens[i] <= MAX_LENGTH) && code == Many(Histogram(lens), ByLength(lens))
  }

  /** How many bits a symbol of a simple code has. */
  function Width(x: nat): (n: nat)
    ensures x < Pow2(n) && (n > 0 ==> Pow2(n - 1) <= x)
  {
    if x == 0 then 0 else Width(x / 2) + 1
  }

  /** `Log2Floor`. */
  method Log2Floor(x: nat) returns (result: nat)
    ensures result == Width(x)
  {
    result := 0;
    var y := x;
    while y > 0
      invariant result + Width(y) == Width(x)
    {
      y := y / 2;
      result := result + 1;
    }
  }

  /** Where in a code reading stands, with what it has read. */
  datatype Phase =
    | Begin
    | SimpleSize
    | SimpleSymbols(count: nat, read: seq<nat>)
    | SimpleBuild(symbols: seq<nat>)
    | LengthLengths(lens: Lengths, i: nat)
    | Symbols(lens: Lengths, x: Expansion)
  {
    ghost predicate Valid() {
      match this
      case SimpleSymbols(n, read) => |read| <= n <= 4 && n > 0
      case SimpleBuild(v) => 1 <= |v| <= 4
      case LengthLengths(_, i) => i <= CODES
      case Symbols(lens, x) => Accepted(lens) && x.Valid()
      case _ => true
    }

    function Left(): nat {
      match this
      case Begin => 9
      case SimpleSize => 8
      case SimpleSymbols(n, read) => 2 + if |read| < n then n - |read| else 0
      case SimpleBuild(_) => 1
      case LengthLengths(_, _) => 2
      case Symbols(_, _) => 1
    }
  }

  datatype Outcome = Got(text: Text, rest: seq<Bit01>) | Malformed | Waiting(phase: Phase, rest: seq<Bit01>)

  lemma TwoBits(b: seq<Bit01>)
    requires |b| >= 2
    ensures Number(b[..2]) < 4
  {
    assert Pow2(2) == 4;
  }

  /** Section 3.4 and 3.5 of RFC 7932 on the bits `b`, from any phase on: the first two bits
      choose between a simple code and how many code length lengths are skipped. */
  ghost function Resume(p: Phase, b: seq<Bit01>, max: nat, limit: nat): (r: Outcome)
    requires p.Valid() && max > 0
    ensures r.Waiting? ==> r.phase.Valid()
    ensures r.Got? ==> r.text.Valid()
    decreases p.Left()
  {
    match p
    case Begin =>
      if |b| < 2 then Waiting(p, b)
      else
        TwoBits(b);
        var k := Number(b[..2]);
        Resume(if k == 1 then SimpleSize else LengthLengths(NoLengths(), k), b[2..], max, limit)
    case SimpleSize =>
      if |b| < 2 then Waiting(p, b)
      else
        TwoBits(b);
        Resume(SimpleSymbols(Number(b[..2]) + 1, []), b[2..], max, limit)
    case SimpleSymbols(n, read) =>
      var w := Width(max - 1);
      if |read| == n then if Distinct(read) then Resume(SimpleBuild(read), b, max, limit) else Malformed
      else if |b| < w then Waiting(p, b)
      else if Number(b[..w]) >= limit then Malformed
      else Resume(SimpleSymbols(n, read + [Number(b[..w])]), b[w..], max, limit)
    case SimpleBuild(v) =>
      if |v| < 4 then Got(Simple(v, false), b)
      else if |b| < 1 then Waiting(p, b)
      else Got(Simple(v, b[0] == 1), b[1..])
    case LengthLengths(l, i) =>
      (match ReadLengths(l, i, b)
       case Whole(lens, rest) => Resume(Symbols(lens, START), rest, max, limit)
       case Bad => Malformed
       case Partial(lens, k, rest) => Waiting(LengthLengths(lens, k), rest))
    case Symbols(l, x) =>
      SmallCodeLengths(l);
      match ReadTokens(x, SmallCode(l), b, limit)
      case Accept(y, rest) => Got(Complex(y.lens), rest)
      case Refuse => Malformed
      case Pause(y, rest) => Waiting(Symbols(l, y), rest)
  }

  /** More input continues a simple code ... */
  lemma {:induction false} SimpleMore(p: Phase, b: seq<Bit01>, more: seq<Bit01>, max: nat, limit: nat)
    requires p.Valid() && max > 0 && (p.SimpleSize? || p.SimpleSymbols? || p.SimpleBuild?)
    ensures Resume(p, b + more, max, limit) ==
      match Resume(p, b, max, limit)
      case Got(text, rest) => Got(text, rest + more)
      case Malformed => Malformed
      case Waiting(q, rest) => Resume(q, rest + more, max, limit)
    decreases p.Left()
  {
    hide ReadTokens, ReadLengths, Accepted, SmallCode, LengthCode, Number, Width;
    match p
    case SimpleSize =>
      if |b| >= 2 {
        TwoBits(b);
        assert (b + more)[..2] == b[..2] && (b + more)[2..] == b[2..] + more;
        SimpleMore(SimpleSymbols(Number(b[..2]) + 1, []), b[2..], more, max, limit);
      }
    case SimpleSymbols(n, read) =>
      var w := Width(max - 1);
      if |read| == n {
        if Distinct(read) { SimpleMore(SimpleBuild(read), b, more, max, limit); }
      } else if |b| >= w {
        assert (b + more)[..w] == b[..w] && (b + more)[w..] == b[w..] + more;
        if Number(b[..w]) < limit { SimpleMore(SimpleSymbols(n, read + [Number(b[..w])]), b[w..], more, max, limit); }
      }
    case SimpleBuild(v) =>
      if |b| >= 1 { assert (b + more)[1..] == b[1..] + more; }
  }

  /** ... and a complex one. */
  lemma ComplexMore(p: Phase, b: seq<Bit01>, more: seq<Bit01>, max: nat, limit: nat)
    requires p.Valid() && max > 0 && (p.LengthLengths? || p.Symbols?)
    ensures Resume(p, b + more, max, limit) ==
      match Resume(p, b, max, limit)
      case Got(text, rest) => Got(text, rest + more)
      case Malformed => Malformed
      case Waiting(q, rest) => Resume(q, rest + more, max, limit)
    decreases p.Left()
  {
    hide ReadTokens, ReadLengths, Accepted, SmallCode, LengthCode;
    match p
    case LengthLengths(l, i) =>
      ReadLengthsMore(l, i, b, more);
      match ReadLengths(l, i, b) {
        case Whole(lens, rest) => ComplexMore(Symbols(lens, START), rest, more, max, limit);
        case _ =>
      }
    case Symbols(l, x) =>
      SmallCodeLengths(l);
      ReadTokensMore(x, SmallCode(l), b, more, limit);
  }

  /** However the input is cut, the code read is the same. */
  lemma ResumeMore(p: Phase, b: seq<Bit01>, more: seq<Bit01>, max: nat, limit: nat)
    requires p.Valid() && max > 0
    ensures Resume(p, b + more, max, limit) ==
      match Resume(p, b, max, limit)
      case Got(text, rest) => Got(text, rest + more)
      case Malformed => Malformed
      case Waiting(q, rest) => Resume(q, rest + more, max, limit)
  {
    hide ReadTokens, ReadLengths, Accepted, SmallCode, LengthCode, Number, Width;
    match p
    case Begin =>
      if |b| >= 2 {
        TwoBits(b);
        assert (b + more)[..2] == b[..2] && (b + more)[2..] == b[2..] + more;
        if Number(b[..2]) == 1 {
          SimpleMore(SimpleSize, b[2..], more, max, limit);
        } else {
          ComplexMore(LengthLengths(NoLengths(), Number(b[..2])), b[2..], more, max, limit);
        }
      }
    case LengthLengths(_, _) => ComplexMore(p, b, more, max, limit);
    case Symbols(_, _) => ComplexMore(p, b, more, max, limit);
    case _ => SimpleMore(p, b, more, max, limit);
  }

  datatype Substate = None | Size | Read | Build | Lengths | LengthSymbols

  /** The decoder's state while it reads a prefix code. */
  class CodeReader {
    const collector: Collector
    const small: array<HuffmanCode>
    const lengths: LengthReader
    const val: array<nat>
    var substate: Substate
    var symbol: nat
    var index: nat
    ghost var small5: Lengths

    ghost predicate Apart()
      reads this
    {
      && val.Length == 4 && small.Length == TABLE_SIZE && lengths.Fits(0)
      && collector.lens.Length == CODES && collector.count.Length == 16 && collector.lens != collector.count
      && lengths.lists !in {val, collector.lens, collector.count}
      && lengths.histo !in {val, collector.lens, collector.count}
      && lengths.next !in {val, collector.lens, collector.count} && val !in {collector.lens, collector.count}
    }

    /** Reading a code of an alphabet of `limit` symbols. */
    ghost predicate Valid(limit: nat)
      reads this, val, small, collector, collector.lens, collector.count, lengths, lengths.lists, lengths.histo
      reads lengths.next
    {
      && Apart() && lengths.Fits(limit)
      && match substate
         case None => true
         case Size => true
         case Read => symbol < 4 && index <= symbol + 1
         case Build => symbol < 4
         case Lengths => collector.Valid()
         case LengthSymbols =>
           Accepted(small5) && SmallTable(small[..], SmallCode(small5)) && lengths.Valid() && lengths.alphabet == limit
    }

    ghost function PhaseOf(limit: nat): (p: Phase)
      requires Valid(limit)
      ensures p.Valid()
      reads this, val, small, collector, collector.lens, collector.count, lengths, lengths.lists, lengths.histo
      reads lengths.next
    {
      match substate
      case None => Begin
      case Size => SimpleSize
      case Read => SimpleSymbols(symbol + 1, val[..index])
      case Build => Phase.SimpleBuild(val[..symbol + 1])
      case Lengths => LengthLengths(collector.Lens(), collector.i)
      case LengthSymbols => Symbols(small5, lengths.x)
    }

    constructor (capacity: nat)
      requires capacity < NO_SYMBOL
      ensures Valid(capacity) && substate == None && fresh(val) && fresh(small) && fresh(collector) && fresh(lengths)
      ensures fresh(collector.lens) && fresh(collector.count) && fresh(lengths.lists) && fresh(lengths.histo)
      ensures fresh(lengths.next)
      ensures PhaseOf(capacity) == Begin
    {
      collector := new Collector();
      lengths := new LengthReader(capacity);
      small := new HuffmanCode[TABLE_SIZE](_ => HuffmanCode(0, 0));
      val := new nat[4](_ => 0);
      substate, symbol, index := None, 0, 0;
      small5 := NoLengths();
    }

    /** What a step from an earlier phase and stream has come to. */
    ghost predicate Reached(result: Progress, br: Reader, outcome: Outcome, max: nat, limit: nat)
      requires br.Valid() && max > 0
      reads this, val, small, collector, collector.lens, collector.count, lengths, lengths.lists, lengths.histo
      reads lengths.next, br
    {
      match result
      case Success => Valid(limit) && outcome == Resume(PhaseOf(limit), br.Stream(), max, limit)
      case NeedsInput => Valid(limit) && outcome == Waiting(PhaseOf(limit), br.Stream()) && br.availIn == 0
      case Failed => outcome == Malformed
    }

    /** The first two bits. */
    method Start(br: Reader, max: nat, limit: nat) returns (result: Progress)
      requires Valid(limit) && substate == None && br.Valid() && 0 < max
      modifies this, collector, collector.lens, collector.count, br`val, br`bitPos, br`nextIn, br`availIn
      ensures br.Valid() && br.nextIn + br.availIn == old(br.nextIn + br.availIn) && (old(br.Backed()) ==> br.Backed())
      ensures Reached(result, br, Resume(old(PhaseOf(limit)), old(br.Stream()), max, limit), max, limit)
      ensures result == Success ==> substate == Size || substate == Substate.Lengths
    {
      hide BitsOf, BytesBits, BackedBy, Number, SpaceUsed, Histogram, NonZero, ReadLengths;
      ghost var b := br.Stream();
      var ok, k := br.SafeReadBits(2);
      if !ok {
        return NeedsInput;
      }
      TwoBits(b);
      if k == 1 {
        substate := Size;
      } else {
        collector.Reset(k);
        substate := Substate.Lengths;
      }
      result := Success;
    }

    /** How many symbols a simple code has. */
    method ReadSize(br: Reader, max: nat, limit: nat) returns (result: Progress)
      requires Valid(limit) && substate == Size && br.Valid() && 0 < max
      modifies this, br`val, br`bitPos, br`nextIn, br`availIn
      ensures br.Valid() && br.nextIn + br.availIn == old(br.nextIn + br.availIn) && (old(br.Backed()) ==> br.Backed())
      ensures Reached(result, br, Resume(old(PhaseOf(limit)), old(br.Stream()), max, limit), max, limit)
      ensures result == Success ==> substate == Read
    {
      hide BitsOf, BytesBits, BackedBy, Number, Collector.Valid, LengthReader.Valid, SmallTable, Accepted, SmallCode;
      hide LengthCode, ReadTokens, ReadLengths;
      ghost var b := br.Stream();
      var ok, n := br.SafeReadBits(2);
      if !ok {
        return NeedsInput;
      }
      TwoBits(b);
      symbol, index, substate := n, 0, Read;
      assert val[..0] == [];
      result := Success;
    }

    /** One symbol of a simple code. */
    method ReadSimpleSymbol(br: Reader, w: nat, max: nat, limit: nat) returns (result: Progress)
      requires Valid(limit) && substate == Read && index <= symbol && br.Valid() && 0 < max <= SPACE
      requires w == Width(max - 1) <= 15
      modifies `index, val, br`val, br`bitPos, br`nextIn, br`availIn
      ensures br.Valid() && br.nextIn + br.availIn == old(br.nextIn + br.availIn) && (old(br.Backed()) ==> br.Backed())
      ensures Reached(result, br, Resume(old(PhaseOf(limit)), old(br.Stream()), max, limit), max, limit)
      ensures result == Success ==> index == old(index) + 1
    {
      hide BitsOf, BytesBits, BackedBy, Number, Width, Distinct, Pow2, Collector.Valid, LengthReader.Valid, SmallTable;
      hide Accepted, SmallCode, LengthCode, ReadTokens, ReadLengths;
      var ok, v := br.SafeReadBits(w);
      if !ok {
        return NeedsInput;
      }
      if v >= limit {
        return Failed;
      }
      ghost var read := val[..index];
      val[index] := v;
      index := index + 1;
      assert val[..index] == read + [v];
      result := Success;
    }

    /** `ReadSimpleHuffmanSymbols`: symbols of the alphabet, without duplicates. */
    method ReadSimpleSymbols(br: Reader, max: nat, limit: nat) returns (result: Progress)
      requires Valid(limit) && substate == Read && br.Valid() && 0 < max <= SPACE
      modifies this, val, br`val, br`bitPos, br`nextIn, br`availIn
      ensures br.Valid() && br.nextIn + br.availIn == old(br.nextIn + br.availIn) && (old(br.Backed()) ==> br.Backed())
      ensures Reached(result, br, Resume(old(PhaseOf(limit)), old(br.Stream()), max, limit), max, limit)
      ensures result == Success ==> substate == Build
    {
      hide BitsOf, BytesBits, BackedBy, Number, Width, Distinct, Pow2, Resume, Collector.Valid, LengthReader.Valid;
      hide Reader.Stream, Reader.AccBits, Reader.Backed;
      hide SmallTable, Accepted, SmallCode, LengthCode, ReadTokens, ReadLengths;
      ghost var outcome := Resume(PhaseOf(limit), br.Stream(), max, limit);
      var w := Log2Floor(max - 1);
      Pow2Values();
      WidthBound(max - 1, 15);
      while index <= symbol
        invariant br.Valid() && br.nextIn + br.availIn == old(br.nextIn + br.availIn)
        invariant (old(br.Backed()) ==> br.Backed())
        invariant Valid(limit) && substate == Read && outcome == Resume(PhaseOf(limit), br.Stream(), max, limit)
        decreases symbol + 1 - index
      {
        result := ReadSimpleSymbol(br, w, max, limit);
        if result != Success {
          return;
        }
      }
      AllRead(val[..index], br.Stream(), max, limit);
      var distinct := AllDistinct();
      if !distinct {
        return Failed;
      }
      substate := Build;
      result := Success;
    }

    method AllDistinct() returns (distinct: bool)
      requires val.Length == 4 && symbol < 4
      ensures distinct == Distinct(val[..symbol + 1])
    {
      for i := 0 to symbol
        invariant forall a, b :: 0 <= a < i && a < b <= symbol ==> val[a] != val[b]
      {
        for k := i + 1 to symbol + 1
          invariant forall b :: i < b < k ==> val[i] != val[b]
        {
          if val[i] == val[k] {
            ghost var v := val[..symbol + 1];
            assert v[i] == v[k];
            return false;
          }
        }
      }
      distinct := true;
    }

    /** The table of the code of the code lengths, and a start on these. */
    method BuildSmall(limit: nat)
      requires Apart() && lengths.Fits(limit) && (forall k :: 0 <= k < CODES ==> collector.lens[k] <= LONGEST)
      requires Accepted(collector.lens[..]) && collector.count[..] == Histogram(collector.lens[..])
      modifies `substate, `small5, small, lengths, lengths.lists, lengths.histo, lengths.next
      ensures Valid(limit) && substate == LengthSymbols && PhaseOf(limit) == Symbols(collector.lens[..], START)
    {
      hide Accepted, SmallCode, SmallTable, LengthReader.Valid, Histogram;
      small5 := collector.lens[..];
      BuildCodeLengthsHuffmanTable(small, collector.lens, collector.count, small5);
      lengths.Reset(limit);
      substate := LengthSymbols;
    }

    /** The lengths of the code of the code lengths, and its table. */
    method ReadLengthLengths(br: Reader, max: nat, limit: nat) returns (result: Progress)
      requires Valid(limit) && substate == Substate.Lengths && br.Valid() && 0 < max
      modifies this, small, collector, collector.lens, collector.count, lengths, lengths.lists, lengths.histo
      modifies lengths.next
      modifies br`val, br`bitPos, br`nextIn, br`availIn
      ensures br.Valid() && br.nextIn + br.availIn == old(br.nextIn + br.availIn) && (old(br.Backed()) ==> br.Backed())
      ensures Reached(result, br, Resume(old(PhaseOf(limit)), old(br.Stream()), max, limit), max, limit)
      ensures result == Success ==> substate == LengthSymbols
    {
      hide BitsOf, BytesBits, BackedBy, ReadLengths, ReadTokens, Collector.Valid, LengthReader.Valid, Histogram;
      hide SmallCode, SmallTable, Accepted;
      result := collector.ReadCodeLengthCodeLengths(br);
      if result == Success {
        BuildSmall(limit);
      }
    }

    lemma LengthsFit(limit: nat)
      requires Valid(limit) && substate == LengthSymbols
      ensures |lengths.x.lens| <= limit
    {
    }

    /** The code lengths themselves: fast while there is enough input, then byte by byte. */
    method ReadLengthSymbols(br: Reader, max: nat, limit: nat) returns (result: Progress, ghost rest: seq<Bit01>)
      requires Valid(limit) && substate == LengthSymbols && br.Valid() && 0 < max
      modifies lengths, lengths.lists, lengths.histo, lengths.next, br`val, br`bitPos, br`nextIn, br`availIn
      ensures br.Valid() && br.nextIn + br.availIn == old(br.nextIn + br.availIn) && (old(br.Backed()) ==> br.Backed())
      ensures match Resume(old(PhaseOf(limit)), old(br.Stream()), max, limit)
        case Got(text, rest) =>
          result == Success && Valid(limit) && text == Text.Complex(lengths.x.lens)
          && SpaceUsed(lengths.x.lens) == SPACE && br.Stream() == rest
        case Malformed => result == Failed
        case Waiting(p, rest) =>
          result == NeedsInput && Valid(limit) && p == PhaseOf(limit) && br.Stream() == rest && br.availIn == 0
    {
      hide BitsOf, BytesBits, BackedBy, ReadTokens, SpaceUsed, NonZero, Histogram, Entered, Tail, SmallCode, SmallTable;
      hide LengthCode, Extend, Accepted;
      SmallCodeLengths(small5);
      var more := ReadSymbolCodeLengths(lengths, small, br, SmallCode(small5));
      if more {
        more := SafeReadSymbolCodeLengths(lengths, small, br, SmallCode(small5));
      }
      rest := br.Stream();
      if more {
        result := NeedsInput;
      } else {
        result := if lengths.space != 0 then Failed else Success;
      }
    }

    /** A call has come to an end, or has to wait; the table changes only at the end. */
    ghost predicate Ended(result: Progress, size: nat, code: Code, outcome: Outcome, br: Reader, t: seq<HuffmanCode>,
                          before: seq<HuffmanCode>,
                          base: nat, limit: nat)
      requires br.Valid()
      reads this, val, small, collector, collector.lens, collector.count, lengths, lengths.lists, lengths.histo
      reads lengths.next, br
    {
      match outcome
      case Got(text, rest) =>
        && result == Success && Valid(limit) && PhaseOf(limit) == Begin && br.Stream() == rest
        && size <= Room(limit) && |t| == |before| && base + size <= |t| && Gives(text, code) && code.Valid()
        && Describes(t[base..base + size], code)
        && forall j :: 0 <= j < |t| && !(base <= j < base + size) ==> t[j] == before[j]
      case Malformed => result == Failed && t == before
      case Waiting(p, rest) =>
        && result == NeedsInput && Valid(limit) && p == PhaseOf(limit) && br.Stream() == rest
        && br.availIn == 0 && t == before
    }

    /** The bit that chooses between the two codes of four symbols. */
    method ReadDeep(br: Reader, max: nat, limit: nat) returns (ok: bool, bit: nat)
      requires Valid(limit) && substate == Build && br.Valid() && 0 < max
      modifies br`val, br`bitPos, br`nextIn, br`availIn
      ensures br.Valid() && br.nextIn + br.availIn == old(br.nextIn + br.availIn) && (old(br.Backed()) ==> br.Backed())
      ensures match Resume(PhaseOf(limit), old(br.Stream()), max, limit)
        case Got(text, rest) =>
          ok && bit <= 1 && (bit == 1 ==> symbol == 3) && text == Simple(val[..symbol + 1], bit == 1)
          && br.Stream() == rest
        case Malformed => false
        case Waiting(p, rest) => !ok && p == PhaseOf(limit) && br.Stream() == rest && br.availIn == 0
    {
      hide BitsOf, BytesBits, BackedBy, Number, Collector.Valid, LengthReader.Valid, SmallTable, Accepted, SmallCode;
      hide LengthCode, ReadTokens, ReadLengths;
      ok, bit := true, 0;
      LastBit(val[..symbol + 1], br.Stream(), max, limit);
      hide Resume;
      if symbol == 3 {
        ok, bit := br.SafeReadBits(1);
      }
    }

    /** The table of the symbols read. */
    method FillSimple(n: nat, table: array<HuffmanCode>, base: nat) returns (size: nat, ghost code: Code)
      requires Apart() && symbol < 4 && n <= 4 && (n == symbol || (n == 4 && symbol == 3))
      requires base + ROOT_SIZE <= table.Length
      modifies val, table
      ensures size == ROOT_SIZE && Gives(Simple(old(val[..symbol + 1]), n == 4), code) && code.Valid()
      ensures Describes(table[base..base + size], code)
      ensures forall j :: 0 <= j < table.Length && !(base <= j < base + size) ==> table[j] == old(table[j])
    {
      hide Describes, SimpleFor;
      ghost var v := val[..];
      size, code := BuildSimpleHuffmanTable(table, base, val, n);
      SimpleForPrefix(code, v, v[..symbol + 1] + Times(0, 3 - symbol), n);
    }

    /** The table of a simple code. */
    method BuildSimple(br: Reader, max: nat, limit: nat, table: array<HuffmanCode>, base: nat)
      returns (result: Progress, size: nat, ghost code: Code)
      requires Valid(limit) && substate == Build && br.Valid() && 0 < max && table != small
      requires base + Room(limit) <= table.Length
      modifies `substate, val, table, br`val, br`bitPos, br`nextIn, br`availIn
      ensures br.Valid() && br.nextIn + br.availIn == old(br.nextIn + br.availIn) && (old(br.Backed()) ==> br.Backed())
      ensures Ended(result, size, code, Resume(old(PhaseOf(limit)), old(br.Stream()), max, limit), br,
                    table[..], old(table[..]), base, limit)
    {
      hide Room, Reader.Stream, Reader.AccBits, Reader.Backed, Code.Valid, BitsOf, BytesBits, BackedBy, Describes;
      hide SimpleFor, Gives, Resume, Collector.Valid, LengthReader.Valid;
      hide SmallTable, Accepted, SmallCode, LengthCode, ReadTokens, ReadLengths;
      var ok, bit := ReadDeep(br, max, limit);
      if !ok {
        return NeedsInput, 0, One(0);
      }
      size, code := FillSimple(symbol + bit, table, base);
      substate := None;
      result := Success;
    }

    /** The table of the lengths read. */
    method FillComplex(table: array<HuffmanCode>, base: nat) returns (size: nat, ghost code: Code)
      requires Apart() && lengths.Valid() && SpaceUsed(lengths.x.lens) == SPACE
      requires base + Room(|lengths.x.lens|) <= table.Length
      modifies lengths.histo, table
      ensures size <= Room(|lengths.x.lens|) && Gives(Text.Complex(lengths.x.lens), code) && code.Valid()
      ensures Describes(table[base..base + size], code)
      ensures forall j :: 0 <= j < table.Length && !(base <= j < base + size) ==> table[j] == old(table[j])
    {
      hide Describes, SpaceUsed, Histogram, Entered, Tail;
      size, code := BuildComplex(lengths.x.lens, lengths.lists, lengths.histo, table, base);
    }

    /** The table of a complex code, once its lengths are read. */
    method BuildFromLengths(br: Reader, max: nat, limit: nat, table: array<HuffmanCode>, base: nat)
      returns (result: Progress, size: nat, ghost code: Code)
      requires Valid(limit) && substate == LengthSymbols && br.Valid() && 0 < max && table != small
      requires base + Room(limit) <= table.Length
      modifies `substate, lengths, lengths.lists, lengths.histo, lengths.next, table, br`val, br`bitPos, br`nextIn
      modifies br`availIn
      ensures br.Valid() && br.nextIn + br.availIn == old(br.nextIn + br.availIn) && (old(br.Backed()) ==> br.Backed())
      ensures Ended(result, size, code, Resume(old(PhaseOf(limit)), old(br.Stream()), max, limit), br,
                    table[..], old(table[..]), base, limit)
    {
      hide BitsOf, BytesBits, BackedBy, Describes, SpaceUsed, LengthReader.Valid, Resume, SmallTable, Accepted;
      hide SmallCode, LengthCode, Gives;
      size, code := 0, One(0);
      ghost var rest;
      result, rest := ReadLengthSymbols(br, max, limit);
      if result == Success {
        LengthsFit(limit);
        size, code := FillComplex(table, base);
        substate := None;
      }
    }

    /** The rest of a simple code. */
    method ReadSimpleCode(br: Reader, max: nat, limit: nat, table: array<HuffmanCode>, base: nat)
      returns (result: Progress, size: nat, ghost code: Code)
      requires Valid(limit) && substate in {Size, Read, Build} && br.Valid() && 0 < max <= SPACE && table != small
      requires base + Room(limit) <= table.Length
      modifies this, val, small, collector, collector.lens, collector.count, lengths, lengths.lists, lengths.histo
      modifies lengths.next, table
      modifies br`val, br`bitPos, br`nextIn, br`availIn
      ensures br.Valid() && br.nextIn + br.availIn == old(br.nextIn + br.availIn) && (old(br.Backed()) ==> br.Backed())
      ensures Ended(result, size, code, Resume(old(PhaseOf(limit)), old(br.Stream()), max, limit), br,
                    table[..], old(table[..]), base, limit)
    {
      hide BitsOf, BytesBits, BackedBy, Describes, Resume, Valid, PhaseOf, Gives;
      size, code := 0, One(0);
      if substate == Size {
        result := ReadSize(br, max, limit);
        if result != Success {
          return;
        }
      }
      if substate == Read {
        result := ReadSimpleSymbols(br, max, limit);
        if result != Success {
          return;
        }
      }
      result, size, code := BuildSimple(br, max, limit, table, base);
    }

    /** The rest of a complex code. */
    method ReadComplexCode(br: Reader, max: nat, limit: nat, table: array<HuffmanCode>, base: nat)
      returns (result: Progress, size: nat, ghost code: Code)
      requires Valid(limit) && substate in {Substate.Lengths, LengthSymbols} && br.Valid() && 0 < max <= SPACE
      requires table != small && base + Room(limit) <= table.Length
      modifies this, val, small, collector, collector.lens, collector.count, lengths, lengths.lists, lengths.histo
      modifies lengths.next, table
      modifies br`val, br`bitPos, br`nextIn, br`availIn
      ensures br.Valid() && br.nextIn + br.availIn == old(br.nextIn + br.availIn) && (old(br.Backed()) ==> br.Backed())
      ensures Ended(result, size, code, Resume(old(PhaseOf(limit)), old(br.Stream()), max, limit), br,
                    table[..], old(table[..]), base, limit)
    {
      hide BitsOf, BytesBits, BackedBy, Describes, Resume, Valid, PhaseOf, Gives;
      size, code := 0, One(0);
      if substate == Substate.Lengths {
        result := ReadLengthLengths(br, max, limit);
        if result != Success {
          return;
        }
      }
      result, size, code := BuildFromLengths(br, max, limit, table, base);
    }

    /** `ReadHuffmanCode`, from wherever the last call stopped. */
    method ReadHuffmanCode(br: Reader, max: nat, limit: nat, table: array<HuffmanCode>, base: nat)
      returns (result: Progress, size: nat, ghost code: Code)
      requires Valid(limit) && br.Valid() && 0 < max <= SPACE && table != small && base + Room(limit) <= table.Length
      modifies this, val, small, collector, collector.lens, collector.count, lengths, lengths.lists, lengths.histo
      modifies lengths.next, table
      modifies br`val, br`bitPos, br`nextIn, br`availIn
      ensures br.Valid() && br.nextIn + br.availIn == old(br.nextIn + br.availIn) && (old(br.Backed()) ==> br.Backed())
      ensures Ended(result, size, code, Resume(old(PhaseOf(limit)), old(br.Stream()), max, limit), br,
                    table[..], old(table[..]), base, limit)
    {
      hide BitsOf, BytesBits, BackedBy, Describes, Resume, Valid, PhaseOf, Gives;
      size, code := 0, One(0);
      if substate == None {
        result := Start(br, max, limit);
        if result != Success {
          return;
        }
      }
      if substate == Substate.Lengths || substate == LengthSymbols {
        result, size, code := ReadComplexCode(br, max, limit, table, base);
      } else {
        result, size, code := ReadSimpleCode(br, max, limit, table, base);
      }
    }
  }

  lemma LastBit(v: seq<nat>, b: seq<Bit01>, max: nat, limit: nat)
    requires 1 <= |v| <= 4 && max > 0
    ensures Resume(Phase.SimpleBuild(v), b, max, limit) ==
      if |v| < 4 then Got(Simple(v, false), b)
      else if |b| < 1 then Waiting(Phase.SimpleBuild(v), b)
      else Got(Simple(v, Number(b[..1]) == 1), b[1..])
    ensures |b| >= 1 ==> Number(b[..1]) <= 1
  {
    if |b| >= 1 { assert b[..1][1..] == []; }
  }

  /** A simple code is determined by its own symbols. */
  lemma SimpleForPrefix(code: Code, v: seq<nat>, w: seq<nat>, n: nat)
    requires |v| == |w| == 4 && n <= 4 && SimpleFor(code, v, n) && v[..Min(n + 1, 4)] == w[..Min(n + 1, 4)]
    ensures SimpleFor(code, w, n)
  {
    assert v[0] == v[..Min(n + 1, 4)][0] == w[0];
    if n == 2 { assert v[1..3] == v[..3][1..] == w[..3][1..] == w[1..3]; }
    if n >= 3 { assert v == v[..4] == w[..4] == w; }
  }

  lemma AllRead(read: seq<nat>, b: seq<Bit01>, max: nat, limit: nat)
    requires 1 <= |read| <= 4 && max > 0
    ensures Resume(SimpleSymbols(|read|, read), b, max, limit) ==
      if Distinct(read) then Resume(Phase.SimpleBuild(read), b, max, limit) else Malformed
  {
  }

  lemma {:induction false} WidthBound(x: nat, n: nat)
    requires x < Pow2(n)
    ensures Width(x) <= n
  {
    if x > 0 { WidthBound(x / 2, n - 1); }
  }
}
