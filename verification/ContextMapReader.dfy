/** `DecodeContextMap`: a context map read from its bits, in steps that can stop for lack of
    input at any point and go on later (section 7.3 of RFC 7932). */
module ContextMapReader {
  import opened Arith
  import opened PrefixCode
  import opened HuffmanTable
  import opened HuffmanRoot
  import opened BitReader
  import opened SymbolReader
  import CodeLengths
  import opened CodeLengthCode
  import TokenReader
  import opened HuffmanReader
  import opened TextCode
  import opened ContextMap

  /** The largest alphabet of a context map: 256 trees and 16 lengths of runs. */
  const MAX_ALPHABET := 272

  /** Where in a context map reading stands, with what it has read. `run` is the symbol of a run
      whose extra bits are still missing, or 0. */
  datatype MapPhase =
    | Flag
    | Short
    | Long(n: nat)
    | Prefix(trees: nat)
    | Tree(trees: nat, maxRun: nat, phase: Phase)
    | Items(trees: nat, maxRun: nat, text: Text, entries: seq<nat>, run: nat)
    | Transform(trees: nat, entries: seq<nat>)
  {
    ghost predicate Valid(size: nat) {
      match this
      case Flag => true
      case Short => true
      case Long(n) => 1 <= n <= 7
      case Prefix(t) => 2 <= t <= VALUES
      case Tree(t, m, p) => 2 <= t <= VALUES && m <= 16 && p.Valid()
      case Items(t, m, text, e, run) =>
        2 <= t <= VALUES && m <= 16 && text.Valid() && |e| <= size && Bytes(e) && run <= m && (run > 0 ==> |e| < size)
      case Transform(t, e) => 2 <= t <= VALUES && |e| == size && Bytes(e)
    }

    function Left(): nat {
      match this
      case Flag => 6
      case Short => 5
      case Long(_) => 4
      case Prefix(_) => 3
      case Tree(_, _, _) => 2
      case Items(_, _, _, _, _) => 1
      case Transform(_, _) => 0
    }

    function Todo(size: nat): nat {
      if Items? && |entries| < size then 2 * (size - |entries|) - (if run > 0 then 1 else 0) else 0
    }
  }

  predicate Bytes(v: seq<nat>) {
    forall i :: 0 <= i < |v| ==> v[i] < VALUES
  }

  datatype MapStep = Next(phase: MapPhase, rest: seq<Bit01>) | End(trees: nat, entries: seq<nat>, rest: seq<Bit01>)
    | Faulty
    | Wait(phase: MapPhase, rest: seq<Bit01>)

  lemma NumberBelow(b: seq<Bit01>, n: nat)
    requires n <= |b|
    ensures Number(b[..n]) < Pow2(n)
  {
  }

  /** The number of trees: 1, 2, or 2^n + 1 plus `n` bits. */
  ghost function CountStep(p: MapPhase, b: seq<Bit01>, size: nat): (r: MapStep)
    requires p.Valid(size) && (p.Flag? || p.Short? || p.Long? || p.Prefix?)
    ensures r.Next? ==> r.phase.Valid(size) && r.phase.Left() < p.Left()
    ensures r.Wait? ==> r == Wait(p, b)
  {
    match p
    case Flag => if |b| < 1 then Wait(p, b) else if b[0] == 0 then End(1, Zeros(size), b[1..]) else Next(Short, b[1..])
    case Short =>
      if |b| < 3 then Wait(p, b)
      else
        NumberBelow(b, 3);
        assert Pow2(3) == 8;
        Next(if Number(b[..3]) == 0 then Prefix(2) else Long(Number(b[..3])), b[3..])
    case Long(n) =>
      if |b| < n then Wait(p, b)
      else
        NumberBelow(b, n);
        Pow2Values();
        Pow2Monotone(n, 7);
        Pow2Monotone(1, n);
        Next(Prefix(Pow2(n) + Number(b[..n]) + 1), b[n..])
    case Prefix(t) =>
      if |b| < 5 then Wait(p, b)
      else if b[0] == 0 then Next(Tree(t, 0, Begin), b[1..])
      else
        NumberBelow(b, 5);
        assert Pow2(5) == 32;
        Next(Tree(t, Number(b[..5]) / 2 + 1, Begin), b[5..])
  }

  /** After the symbol of an entry. */
  ghost function After(t: nat, m: nat, text: Text, e: seq<nat>, v: nat, size: nat): (p: MapPhase)
    requires 2 <= t <= VALUES && m <= 16 && text.Valid() && |e| < size && Bytes(e)
    ensures p.Valid(size) && p.Items? && p.Todo(size) < 2 * (size - |e|)
  {
    if v == 0 then Items(t, m, text, e + [0], 0)
    else if v > m then Items(t, m, text, e + [(v - m) % 256], 0)
    else Items(t, m, text, e, v)
  }

  /** The entries: a tree, or 2^run zeros and more. */
  ghost function SymbolStep(p: MapPhase, b: seq<Bit01>, size: nat): (r: MapStep)
    requires p.Valid(size) && p.Items?
    ensures r.Next? ==>
      r.phase.Valid(size) && (r.phase.Left() < p.Left() || (r.phase.Items? && r.phase.Todo(size) < p.Todo(size)))
    ensures r.Wait? ==> r == Wait(p, b)
  {
    var Items(t, m, text, e, run) := p;
    if run > 0 then
      if |b| < run then Wait(p, b)
      else if |e| + Pow2(run) + Number(b[..run]) > size then Faulty
      else Next(Items(t, m, text, e + Zeros(Pow2(run) + Number(b[..run])), 0), b[run..])
    else if |e| == size then Next(MapPhase.Transform(t, e), b)
    else
      CodeOfValid(text);
      var (v, n) := CodeOf(text).Lookup(Number(b));
      if n > |b| then Wait(p, b) else Next(After(t, m, text, e, v, size), b[n..])
  }

  ghost function Advance(p: MapPhase, b: seq<Bit01>, size: nat): (r: MapStep)
    requires p.Valid(size)
    ensures r.Next? ==> r.phase.Valid(size)
    ensures r.Next? ==> r.phase.Left() < p.Left() || (r.phase.Left() == p.Left() && r.phase.Todo(size) < p.Todo(size))
    ensures r.Wait? ==> r.phase.Valid(size)
  {
    match p
    case Tree(t, m, q) =>
      (match Resume(q, b, t + m, t + m)
       case Got(text, rest) => Next(Items(t, m, text, [], 0), rest)
       case Malformed => Faulty
       case Waiting(q', rest) => Wait(Tree(t, m, q'), rest))
    case Items(_, _, _, _, _) => SymbolStep(p, b, size)
    case Transform(t, e) =>
      if |b| < 1 then Wait(p, b) else End(t, if b[0] == 1 then Inverse(Identity(), e) else e, b[1..])
    case _ => CountStep(p, b, size)
  }

  datatype MapOutcome = Mapped(trees: nat, entries: seq<nat>, rest: seq<Bit01>) | Invalid
    | Waits(phase: MapPhase, rest: seq<Bit01>)

  /** Section 7.3 of RFC 7932 on the bits `b`, from any phase on. */
  ghost function ResumeMap(p: MapPhase, b: seq<Bit01>, size: nat): (r: MapOutcome)
    requires p.Valid(size)
    ensures r.Waits? ==> r.phase.Valid(size)
    decreases p.Left(), p.Todo(size)
  {
    match Advance(p, b, size)
    case Next(q, rest) => ResumeMap(q, rest, size)
    case End(trees, entries, rest) => Mapped(trees, entries, rest)
    case Faulty => Invalid
    case Wait(q, rest) => Waits(q, rest)
  }

  lemma CountMore(p: MapPhase, b: seq<Bit01>, more: seq<Bit01>, size: nat)
    requires p.Valid(size) && (p.Flag? || p.Short? || p.Long? || p.Prefix?) && !CountStep(p, b, size).Wait?
    ensures CountStep(p, b + more, size) == Continued(CountStep(p, b, size), more)
  {
    hide Number;
    match p
    case Flag => assert (b + more)[1..] == b[1..] + more;
    case Short => assert (b + more)[..3] == b[..3] && (b + more)[3..] == b[3..] + more;
    case Long(n) => assert (b + more)[..n] == b[..n] && (b + more)[n..] == b[n..] + more;
    case Prefix(_) =>
      assert (b + more)[..5] == b[..5] && (b + more)[5..] == b[5..] + more
        && (b + more)[1..] == b[1..] + more;
  }

  /** The same step with more input behind it. */
  function Continued(r: MapStep, more: seq<Bit01>): MapStep {
    match r
    case Next(q, rest) => Next(q, rest + more)
    case End(t, e, rest) => End(t, e, rest + more)
    case Faulty => Faulty
    case Wait(q, rest) => Wait(q, rest + more)
  }

  lemma SymbolMore(p: MapPhase, b: seq<Bit01>, more: seq<Bit01>, size: nat)
    requires p.Valid(size) && p.Items? && !SymbolStep(p, b, size).Wait?
    ensures SymbolStep(p, b + more, size) == Continued(SymbolStep(p, b, size), more)
  {
    hide Number, CodeOf, Code.Lookup, Text.Valid;
    var Items(t, m, text, e, run) := p;
    if run > 0 {
      assert (b + more)[..run] == b[..run] && (b + more)[run..] == b[run..] + more;
    } else if |e| < size {
      CodeOfValid(text);
      var n := CodeOf(text).Lookup(Number(b)).1;
      HasSymbolMore(CodeOf(text), b, more);
      assert (b + more)[n..] == b[n..] + more;
    }
  }

  /** A step that waits goes on with more input as if all had been there. */
  lemma StepMore(p: MapPhase, b: seq<Bit01>, more: seq<Bit01>, size: nat)
    requires p.Valid(size)
    ensures var r := Advance(p, b, size);
      Advance(p, b + more, size) == if r.Wait? then Advance(r.phase, r.rest + more, size) else Continued(r, more)
  {
    hide CountStep, SymbolStep, Resume;
    match p
    case Tree(t, m, q) => ResumeMore(q, b, more, t + m, t + m);
    case Items(_, _, _, _, _) => if !SymbolStep(p, b, size).Wait? { SymbolMore(p, b, more, size); }
    case Transform(_, _) => if |b| >= 1 { assert (b + more)[1..] == b[1..] + more; }
    case _ => if !CountStep(p, b, size).Wait? { CountMore(p, b, more, size); }
  }

  /** However the input is cut, the map read is the same. */
  lemma {:induction false} ResumeMapMore(p: MapPhase, b: seq<Bit01>, more: seq<Bit01>, size: nat)
    requires p.Valid(size)
    ensures ResumeMap(p, b + more, size) ==
      match ResumeMap(p, b, size)
      case Mapped(trees, entries, rest) => Mapped(trees, entries, rest + more)
      case Invalid => Invalid
      case Waits(q, rest) => ResumeMap(q, rest + more, size)
    decreases p.Left(), p.Todo(size)
  {
    hide Advance;
    StepMore(p, b, more, size);
    match Advance(p, b, size)
    case Next(q, rest) => ResumeMapMore(q, rest, more, size);
    case _ =>
  }

  predicate PhaseBelow(p: Phase, limit: nat) {
    match p
    case SimpleSymbols(_, read) => forall i :: 0 <= i < |read| ==> read[i] < limit
    case SimpleBuild(v) => forall i :: 0 <= i < |v| ==> v[i] < limit
    case Symbols(_, x) => |x.lens| <= limit
    case _ => true
  }

  /** A code read has no symbols beyond its alphabet. */
  lemma {:induction false} ResumeBelow(p: Phase, b: seq<Bit01>, max: nat, limit: nat)
    requires p.Valid() && max > 0 && PhaseBelow(p, limit)
    ensures match Resume(p, b, max, limit)
      case Got(text, _) => Within(text, limit)
      case Waiting(q, _) => PhaseBelow(q, limit)
      case Malformed => true
    decreases p.Left()
  {
    hide TokenReader.ReadTokens, ReadLengths, Accepted, SmallCode, LengthCode, Number, Width;
    match p
    case Begin =>
      if |b| >= 2 {
        TwoBits(b);
        ResumeBelow(if Number(b[..2]) == 1 then SimpleSize else LengthLengths(NoLengths(), Number(b[..2])), b[2..], max,
                    limit);
      }
    case SimpleSize =>
      if |b| >= 2 {
        TwoBits(b);
        ResumeBelow(SimpleSymbols(Number(b[..2]) + 1, []), b[2..], max, limit);
      }
    case SimpleSymbols(n, read) =>
      var w := Width(max - 1);
      if |read| == n {
        if Distinct(read) { ResumeBelow(Phase.SimpleBuild(read), b, max, limit); }
      } else if |b| >= w && Number(b[..w]) < limit {
        ResumeBelow(SimpleSymbols(n, read + [Number(b[..w])]), b[w..], max, limit);
      }
    case SimpleBuild(_) =>
    case LengthLengths(l, i) =>
      match ReadLengths(l, i, b) {
        case Whole(lens, rest) => ResumeBelow(Symbols(lens, CodeLengths.START), rest, max, limit);
        case _ =>
      }
    case Symbols(l, x) => SmallCodeLengths(l);
  }

  /** What is read so far names existing trees only. */
  predicate Named(p: MapPhase) {
    match p
    case Tree(t, m, q) => PhaseBelow(q, t + m)
    case Items(t, m, text, e, _) => Within(text, t + m) && AllBelow(e, t)
    case Transform(t, e) => AllBelow(e, t)
    case _ => true
  }

  predicate AllBelow(v: seq<nat>, n: nat) {
    forall i :: 0 <= i < |v| ==> v[i] < n
  }

  lemma StepNamed(p: MapPhase, b: seq<Bit01>, size: nat)
    requires p.Valid(size) && Named(p)
    ensures match Advance(p, b, size)
      case Next(q, _) => Named(q)
      case End(t, e, _) => |e| == size && AllBelow(e, t)
      case Wait(q, _) => Named(q)
      case Faulty => true
  {
    hide Number, CodeOf, Resume, PhaseBelow, Within, Code.Lookup, Inverse, Pow2;
    hide Code.Valid, Phase.Valid, Text.Valid;
    match p
    case Tree(t, m, q) => ResumeBelow(q, b, t + m, t + m);
    case Items(t, m, text, e, run) => if run == 0 { LookupBelow(text, t + m, Number(b)); }
    case Transform(t, e) => InverseBounded(Identity(), e, t);
    case _ => NoneBelow();
  }

  lemma NoneBelow()
    ensures forall limit :: PhaseBelow(Begin, limit)
  {
  }

  /** Every entry of a map names one of its trees. */
  lemma {:induction false} MapNamed(p: MapPhase, b: seq<Bit01>, size: nat)
    requires p.Valid(size) && Named(p)
    ensures match ResumeMap(p, b, size)
      case Mapped(trees, entries, _) => |entries| == size && AllBelow(entries, trees)
      case Waits(q, _) => Named(q)
      case Invalid => true
    decreases p.Left(), p.Todo(size)
  {
    hide Advance, Named;
    StepNamed(p, b, size);
    match Advance(p, b, size)
    case Next(q, rest) => MapNamed(q, rest, size);
    case _ =>
  }

  /** `BrotliSafeGetBits`: looks at the next bits and takes none. */
  method SafeGetBits(br: Reader, n: nat) returns (ok: bool, v: nat)
    requires br.Valid() && n <= 32
    modifies br`val, br`bitPos, br`nextIn, br`availIn
    ensures br.Valid() && br.nextIn + br.availIn == old(br.nextIn + br.availIn) && (old(br.Backed()) ==> br.Backed())
    ensures br.Stream() == old(br.Stream()) && ok == (|br.Stream()| >= n)
    ensures if ok then v == Number(br.Stream()[..n]) && br.Available() >= n else br.availIn == 0
  {
    hide BitsOf, BytesBits, BackedBy, Number, Low;
    v := 0;
    ok := br.PullUntil(n);
    if ok {
      WindowReads(br, n);
      v := Low(br.GetBitsUnmasked(), n);
    }
  }

  lemma FirstBit(b: seq<Bit01>, n: nat)
    requires 0 < n <= |b|
    ensures Number(b[..n]) % 2 == b[0]
  {
  }

  lemma DescribesMore(t: seq<HuffmanCode>, u: seq<HuffmanCode>, code: Code)
    requires Describes(t, code)
    ensures Describes(t + u, code)
  {
    hide PrefixCode.Complete, Owner, Entry, SubEntry, SubBits, Split;
    if code.Many? {
      var c, s := code.counts, code.symbols;
      forall x | 0 <= x < ROOT_SIZE ensures RootSlot(t + u, c, s, x) {
        assert RootSlot(t, c, s, x);
      }
      forall x | 0 <= x < ROOT_SIZE && Split(c, x) ensures SubTable(t + u, c, s, x) {
        assert SubTable(t, c, s, x);
      }
    }
  }

  /** One step. */
  lemma Unfold(p: MapPhase, b: seq<Bit01>, size: nat)
    requires p.Valid(size)
    ensures ResumeMap(p, b, size) ==
      match Advance(p, b, size)
      case Next(q, rest) => ResumeMap(q, rest, size)
      case End(trees, entries, rest) => Mapped(trees, entries, rest)
      case Faulty => Invalid
      case Wait(q, rest) => Waits(q, rest)
  {
  }

  lemma FlagStep(b: seq<Bit01>, size: nat)
    ensures |b| < 1 ==> ResumeMap(Flag, b, size) == Waits(Flag, b)
    ensures |b| >= 1 && Number(b[..1]) == 0 ==> ResumeMap(Flag, b, size) == Mapped(1, Zeros(size), b[1..])
    ensures |b| >= 1 && Number(b[..1]) != 0 ==> ResumeMap(Flag, b, size) == ResumeMap(Short, b[1..], size)
  {
    Unfold(Flag, b, size);
    if |b| >= 1 {
      FirstBit(b, 1);
      NumberBelow(b, 1);
      assert Pow2(1) == 2;
    }
  }

  lemma ShortStep(b: seq<Bit01>, size: nat)
    ensures |b| < 3 ==> ResumeMap(Short, b, size) == Waits(Short, b)
    ensures |b| >= 3 ==> Number(b[..3]) < 8
    ensures |b| >= 3 && Number(b[..3]) == 0 ==> ResumeMap(Short, b, size) == ResumeMap(Prefix(2), b[3..], size)
    ensures |b| >= 3 && Number(b[..3]) > 0 ==>
      ResumeMap(Short, b, size) == ResumeMap(Long(Number(b[..3])), b[3..], size)
  {
    Unfold(Short, b, size);
    if |b| >= 3 {
      NumberBelow(b, 3);
      assert Pow2(3) == 8;
    }
  }

  lemma LongStep(n: nat, b: seq<Bit01>, size: nat)
    requires 1 <= n <= 7
    ensures |b| < n ==> ResumeMap(Long(n), b, size) == Waits(Long(n), b)
    ensures |b| >= n ==> 2 <= Pow2(n) + Number(b[..n]) < VALUES
    ensures |b| >= n ==> ResumeMap(Long(n), b, size) == ResumeMap(Prefix(Pow2(n) + Number(b[..n]) + 1), b[n..], size)
  {
    Unfold(Long(n), b, size);
    if |b| >= n {
      NumberBelow(b, n);
      Pow2Values();
      Pow2Monotone(n, 7);
      Pow2Monotone(1, n);
    }
  }

  lemma PrefixStep(t: nat, b: seq<Bit01>, size: nat)
    requires 2 <= t <= VALUES
    ensures |b| < 5 ==> ResumeMap(Prefix(t), b, size) == Waits(Prefix(t), b)
    ensures |b| >= 5 ==> Number(b[..5]) < 32
    ensures |b| >= 5 && Number(b[..5]) % 2 == 0 ==>
      ResumeMap(Prefix(t), b, size) == ResumeMap(Tree(t, 0, Begin), b[1..], size)
    ensures |b| >= 5 && Number(b[..5]) % 2 == 1 ==>
      ResumeMap(Prefix(t), b, size) == ResumeMap(Tree(t, Number(b[..5]) / 2 + 1, Begin), b[5..], size)
  {
    Unfold(Prefix(t), b, size);
    if |b| >= 5 {
      FirstBit(b, 5);
      NumberBelow(b, 5);
      assert Pow2(5) == 32;
    }
  }

  /** The longest run that has a symbol of its own, 0 for none. */
  method SafeReadRuns(br: Reader, ghost t: nat, ghost size: nat) returns (ok: bool, maxRun: nat)
    requires br.Valid() && 2 <= t <= VALUES
    modifies br`val, br`bitPos, br`nextIn, br`availIn
    ensures br.Valid() && br.nextIn + br.availIn == old(br.nextIn + br.availIn) && (old(br.Backed()) ==> br.Backed())
    ensures maxRun <= 16
    ensures !ok ==> ResumeMap(Prefix(t), old(br.Stream()), size) == Waits(Prefix(t), br.Stream()) && br.availIn == 0
    ensures ok ==> ResumeMap(Prefix(t), old(br.Stream()), size) == ResumeMap(Tree(t, maxRun, Begin), br.Stream(), size)
  {
    hide BitsOf, BytesBits, BackedBy, Number, ResumeMap, Reader.Stream, Reader.AccBits, Reader.Backed;
    PrefixStep(t, br.Stream(), size);
    var bits;
    ok, bits := SafeGetBits(br, 5);
    maxRun := 0;
    if ok && bits % 2 != 0 {
      maxRun := bits / 2 + 1;
      br.DropBits(5);
    } else if ok {
      br.DropBits(1);
    }
  }

  lemma TreeStep(t: nat, m: nat, q: Phase, b: seq<Bit01>, size: nat)
    requires 2 <= t <= VALUES && m <= 16 && q.Valid()
    ensures ResumeMap(Tree(t, m, q), b, size) ==
      match Resume(q, b, t + m, t + m)
      case Got(text, rest) => ResumeMap(Items(t, m, text, [], 0), rest, size)
      case Malformed => Invalid
      case Waiting(q', rest) => Waits(Tree(t, m, q'), rest)
  {
    hide Resume;
    Unfold(Tree(t, m, q), b, size);
  }

  lemma TransformStep(t: nat, e: seq<nat>, b: seq<Bit01>, size: nat)
    requires 2 <= t <= VALUES && |e| == size && Bytes(e)
    ensures var p := MapPhase.Transform(t, e);
      if |b| < 1 then ResumeMap(p, b, size) == Waits(p, b)
      else ResumeMap(p, b, size) == Mapped(t, if Number(b[..1]) != 0 then Inverse(Identity(), e) else e, b[1..])
  {
    hide Inverse;
    Unfold(MapPhase.Transform(t, e), b, size);
    if |b| >= 1 {
      FirstBit(b, 1);
      NumberBelow(b, 1);
      assert Pow2(1) == 2;
    }
  }

  lemma RunStep(t: nat, m: nat, text: Text, e: seq<nat>, run: nat, b: seq<Bit01>, size: nat)
    requires 2 <= t <= VALUES && m <= 16 && text.Valid() && |e| < size && Bytes(e) && 1 <= run <= m
    ensures var p := Items(t, m, text, e, run);
      if |b| < run then ResumeMap(p, b, size) == Waits(p, b)
      else
        var reps := Number(b[..run]) + Pow2(run);
        if |e| + reps > size then ResumeMap(p, b, size) == Invalid
        else ResumeMap(p, b, size) == ResumeMap(Items(t, m, text, e + Zeros(reps), 0), b[run..], size)
  {
    hide Number, Text.Valid, CodeOf, Code.Lookup, Code.Valid, Pow2;
    Unfold(Items(t, m, text, e, run), b, size);
  }

  lemma EntryStep(t: nat, m: nat, text: Text, e: seq<nat>, b: seq<Bit01>, size: nat)
    requires 2 <= t <= VALUES && m <= 16 && text.Valid() && |e| < size && Bytes(e) && CodeOf(text).Valid()
    ensures var p, (v, n) := Items(t, m, text, e, 0), CodeOf(text).Lookup(Number(b));
      ResumeMap(p, b, size) == if n > |b| then Waits(p, b) else ResumeMap(After(t, m, text, e, v, size), b[n..], size)
  {
    hide Number, Text.Valid, CodeOf, Code.Lookup, Code.Valid;
    Unfold(Items(t, m, text, e, 0), b, size);
  }

  lemma LastStep(t: nat, m: nat, text: Text, e: seq<nat>, b: seq<Bit01>, size: nat)
    requires 2 <= t <= VALUES && m <= 16 && text.Valid() && |e| == size && Bytes(e)
    ensures ResumeMap(Items(t, m, text, e, 0), b, size) == ResumeMap(MapPhase.Transform(t, e), b, size)
  {
    Unfold(Items(t, m, text, e, 0), b, size);
  }

  const NO_CODE := 0xFFFF

  /** `BROTLI_HUFFMAN_MAX_SIZE_272`. */
  const TABLE_ROOM := 646

  datatype Stage = Start | ReadPrefix | Huffman | Decode | Last

  datatype Uint8 = NoBits | ShortBits | LongBits

  /** The decoder's state while it reads a context map. */
  class MapReader {
    const reader: CodeReader
    const m: MoveToFront
    const table: array<HuffmanCode>
    var stage: Stage
    var uint8: Uint8
    var trees: nat
    var contextMap: array<nat>
    var index: nat
    var maxRun: nat
    var code: nat
    ghost var text: Text

    constructor (storage: array<nat>)
      requires storage.Length == 4 + VALUES
      ensures forall size :: Valid(size) && PhaseOf(size) == Flag
      ensures m.mtf == storage && fresh(reader) && fresh(table) && fresh(contextMap) && fresh(m)
    {
      reader := new CodeReader(MAX_ALPHABET);
      m := new MoveToFront(storage);
      table := new HuffmanCode[TABLE_ROOM](_ => HuffmanCode(0, 0));
      contextMap := new nat[0];
      stage, uint8, trees, index, maxRun, code := Start, NoBits, 0, 0, 0, NO_CODE;
      text := Complex([]);
    }

    ghost predicate Foreign(a: array<nat>) {
      a !in {reader.val, reader.collector.lens, reader.collector.count,
             reader.lengths.lists, reader.lengths.histo, reader.lengths.next}
    }

    ghost predicate Separate(a: array<nat>) {
      && table.Length == TABLE_ROOM && table != reader.small && reader.lengths.Fits(MAX_ALPHABET)
      && Foreign(a) && Foreign(m.mtf) && a != m.mtf
    }

    /** No prefix code is half read. */
    ghost predicate Idle()
      reads reader, reader.val, reader.small, reader.collector, reader.collector.lens
      reads reader.collector.count, reader.lengths, reader.lengths.lists, reader.lengths.histo, reader.lengths.next
    {
      reader.Valid(MAX_ALPHABET) && reader.substate == Substate.None
    }

    /** Reading a context map of `size` entries. */
    ghost predicate Valid(size: nat)
      reads this, table, contextMap, m, m.mtf, reader, reader.val, reader.small, reader.collector, reader.collector.lens
      reads reader.collector.count, reader.lengths, reader.lengths.lists, reader.lengths.histo, reader.lengths.next
    {
      && Separate(contextMap) && m.Valid()
      && (stage == Start ==> Idle() && (uint8 == LongBits ==> 1 <= trees <= 7))
      && (stage != Start ==> uint8 == NoBits && 2 <= trees <= VALUES && contextMap.Length == size)
      && (stage == ReadPrefix ==> Idle() && index == 0)
      && (stage == Huffman ==> maxRun <= 16 && reader.Valid(trees + maxRun) && index == 0)
      && (stage == Decode ==> maxRun <= 16 && Idle() && Decoding(size))
      && (stage == Last ==> Idle() && Bytes(contextMap[..]))
    }

    ghost predicate Decoding(size: nat)
      reads this, table, contextMap
    {
      && text.Valid() && CodeOf(text).Valid() && Describes(table[..], CodeOf(text))
      && index <= size == contextMap.Length && Bytes(contextMap[..index])
      && (code != NO_CODE ==> 1 <= code <= maxRun && index < size)
    }

    ghost function CountPhase(): MapPhase
      reads this
    {
      match uint8
      case NoBits => Flag
      case ShortBits => Short
      case LongBits => Long(trees)
    }

    ghost function PhaseOf(size: nat): (p: MapPhase)
      requires Valid(size)
      ensures p.Valid(size)
      reads this, table, contextMap, m, m.mtf, reader, reader.val, reader.small, reader.collector, reader.collector.lens
      reads reader.collector.count, reader.lengths, reader.lengths.lists, reader.lengths.histo, reader.lengths.next
    {
      match stage
      case Start => CountPhase()
      case ReadPrefix => Prefix(trees)
      case Huffman => Tree(trees, maxRun, reader.PhaseOf(trees + maxRun))
      case Decode => Items(trees, maxRun, text, contextMap[..index], if code == NO_CODE then 0 else code)
      case Last => MapPhase.Transform(trees, contextMap[..])
    }

    /** What a step from an earlier phase and stream has come to. */
    ghost predicate Reached(result: Progress, br: Reader, outcome: MapOutcome, size: nat)
      requires br.Valid()
      reads this, table, contextMap, m, m.mtf, reader, reader.val, reader.small, reader.collector, reader.collector.lens
      reads reader.collector.count, reader.lengths, reader.lengths.lists, reader.lengths.histo, reader.lengths.next, br
    {
      match result
      case Success => Valid(size) && outcome == ResumeMap(PhaseOf(size), br.Stream(), size)
      case NeedsInput => Valid(size) && outcome == Waits(PhaseOf(size), br.Stream()) && br.availIn == 0
      case Failed => outcome == Invalid
    }

    /** `DecodeVarLenUint8`: one less than the number of trees. */
    method DecodeVarLenUint8(br: Reader, ghost size: nat) returns (result: Progress)
      requires br.Valid() && (uint8 == LongBits ==> 1 <= trees <= 7)
      modifies `uint8, `trees, br`val, br`bitPos, br`nextIn, br`availIn
      ensures br.Valid() && br.nextIn + br.availIn == old(br.nextIn + br.availIn) && (old(br.Backed()) ==> br.Backed())
      ensures result != Failed && (uint8 == LongBits ==> 1 <= trees <= 7)
      ensures (result == Success ==> uint8 == NoBits && trees < VALUES)
      ensures var r := ResumeMap(old(CountPhase()), old(br.Stream()), size);
        if result == NeedsInput then r == Waits(CountPhase(), br.Stream()) && br.availIn == 0
        else r == if trees == 0 then Mapped(1, Zeros(size), br.Stream())
          else ResumeMap(Prefix(trees + 1), br.Stream(), size)
    {
      hide BitsOf, BytesBits, BackedBy, Number, Pow2, ResumeMap, Reader.Stream, Reader.AccBits, Reader.Backed;
      var ok, bits;
      if uint8 == NoBits {
        FlagStep(br.Stream(), size);
        ok, bits := br.SafeReadBits(1);
        if !ok {
          return NeedsInput;
        }
        if bits == 0 {
          trees := 0;
          return Success;
        }
      }
      if uint8 == NoBits || uint8 == ShortBits {
        ShortStep(br.Stream(), size);
        ok, bits := br.SafeReadBits(3);
        if !ok {
          uint8 := ShortBits;
          return NeedsInput;
        }
        if bits == 0 {
          trees, uint8 := 1, NoBits;
          return Success;
        }
        trees := bits;
      }
      LongStep(trees, br.Stream(), size);
      ok, bits := br.SafeReadBits(trees);
      if !ok {
        uint8 := LongBits;
        return NeedsInput;
      }
      trees, uint8 := Pow2(trees) + bits, NoBits;
      result := Success;
    }

    lemma IdleFits(alphabet: nat)
      requires Idle() && alphabet <= MAX_ALPHABET
      ensures reader.Valid(alphabet) && reader.PhaseOf(alphabet) == Begin
    {
    }

    lemma FitsIdle(alphabet: nat)
      requires reader.lengths.Fits(MAX_ALPHABET) && reader.Valid(alphabet) && reader.PhaseOf(alphabet) == Begin
      ensures Idle()
    {
    }

    /** A fresh map, which is complete if there is one tree. */
    method Allocate(size: nat) returns (done: bool)
      requires Separate(contextMap) && m.Valid() && stage == Start && uint8 == NoBits && Idle() && trees < VALUES
      modifies `trees, `index, `contextMap, `stage
      ensures fresh(contextMap) && Separate(contextMap) && trees == old(trees) + 1 && done == (trees == 1)
      ensures Valid(size)
      ensures PhaseOf(size) == if done then Flag else Prefix(trees)
      ensures contextMap[..] == Zeros(size) && (!done ==> stage == ReadPrefix)
    {
      hide Idle, MoveToFront.Valid, CodeReader.Valid, CodeReader.PhaseOf, Decoding, MapPhase.Valid;
      trees := trees + 1;
      index := 0;
      contextMap := new nat[size](_ => 0);
      done := trees <= 1;
      if !done {
        stage := ReadPrefix;
      }
    }

    /** The number of trees, and the map's memory; with one tree the map is complete. */
    method ReadCount(br: Reader, size: nat) returns (result: Progress, done: bool)
      requires Valid(size) && stage == Start && br.Valid()
      modifies this, br`val, br`bitPos, br`nextIn, br`availIn
      ensures br.Valid() && br.nextIn + br.availIn == old(br.nextIn + br.availIn) && (old(br.Backed()) ==> br.Backed())
      ensures Separate(contextMap)
      ensures contextMap == old(contextMap) || fresh(contextMap)
      ensures !done ==> Reached(result, br, ResumeMap(old(PhaseOf(size)), old(br.Stream()), size), size)
      ensures !done && result == Success ==> stage == ReadPrefix
      ensures done ==> result == Success && Valid(size) && PhaseOf(size) == Flag && trees == 1
      ensures done ==>
        ResumeMap(old(PhaseOf(size)), old(br.Stream()), size) == Mapped(trees, contextMap[..], br.Stream())
    {
      hide BitsOf, BytesBits, BackedBy, ResumeMap, Reader.Stream, Reader.AccBits, Reader.Backed, Idle;
      hide MoveToFront.Valid;
      hide CodeReader.Valid, CodeReader.PhaseOf, Decoding, Advance, MapPhase.Valid, Pow2, Separate;
      done := false;
      result := DecodeVarLenUint8(br, size);
      if result == Success {
        done := Allocate(size);
      }
    }

    method StartTree(ghost size: nat, runs: nat)
      requires Valid(size) && stage == ReadPrefix && runs <= 16
      modifies `stage, `maxRun
      ensures Valid(size) && stage == Huffman && PhaseOf(size) == Tree(old(trees), runs, Begin)
    {
      hide Idle, MoveToFront.Valid, CodeReader.Valid, CodeReader.PhaseOf, Decoding, MapPhase.Valid;
      IdleFits(trees + runs);
      maxRun, stage := runs, Huffman;
    }

    /** Whether runs of zeros have symbols of their own, and how many. */
    method ReadRuns(br: Reader, size: nat) returns (result: Progress)
      requires Valid(size) && stage == ReadPrefix && br.Valid()
      modifies `stage, `maxRun, br`val, br`bitPos, br`nextIn, br`availIn
      ensures br.Valid() && br.nextIn + br.availIn == old(br.nextIn + br.availIn) && (old(br.Backed()) ==> br.Backed())
      ensures Reached(result, br, ResumeMap(old(PhaseOf(size)), old(br.Stream()), size), size)
      ensures result == Success ==> stage == Huffman
    {
      hide BitsOf, BytesBits, BackedBy, ResumeMap, Reader.Stream, Reader.AccBits, Reader.Backed, Idle;
      hide MoveToFront.Valid;
      hide CodeReader.Valid, CodeReader.PhaseOf, Decoding, Advance, MapPhase.Valid;
      var ok, runs := SafeReadRuns(br, trees, size);
      if !ok {
        return NeedsInput;
      }
      StartTree(size, runs);
      result := Success;
    }

    /** The prefix code of the entries. */
    method ReadCode(br: Reader, alphabet: nat) returns (result: Progress)
      requires br.Valid() && 0 < alphabet <= MAX_ALPHABET && reader.Valid(alphabet)
      requires table.Length == TABLE_ROOM && table != reader.small && reader.lengths.Fits(MAX_ALPHABET)
      modifies reader, reader.val, reader.small, reader.collector, reader.collector.lens, reader.collector.count
      modifies reader.lengths, reader.lengths.lists, reader.lengths.histo, reader.lengths.next
      modifies table, br`val, br`bitPos, br`nextIn, br`availIn
      ensures br.Valid() && br.nextIn + br.availIn == old(br.nextIn + br.availIn) && (old(br.Backed()) ==> br.Backed())
      ensures match Resume(old(reader.PhaseOf(alphabet)), old(br.Stream()), alphabet, alphabet)
        case Got(text, rest) =>
          result == Success && Idle() && br.Stream() == rest
          && CodeOf(text).Valid() && Describes(table[..], CodeOf(text))
        case Malformed => result == Failed
        case Waiting(p, rest) =>
          result == NeedsInput && reader.Valid(alphabet) && reader.PhaseOf(alphabet) == p
          && br.Stream() == rest && br.availIn == 0
    {
      hide BitsOf, BytesBits, BackedBy, Resume, Reader.Stream, Reader.AccBits, Reader.Backed, CodeReader.Valid;
      hide CodeReader.PhaseOf;
      hide Gives, Describes, Code.Valid, CodeOf, Idle, Text.Valid;
      ghost var r := Resume(reader.PhaseOf(alphabet), br.Stream(), alphabet, alphabet);
      var size: nat;
      ghost var read;
      result, size, read := reader.ReadHuffmanCode(br, alphabet, alphabet, table, 0);
      if result == Success {
        GivesCode(r.text, read);
        FitsIdle(alphabet);
        DescribesMore(table[..size], table[size..], read);
        assert table[..] == table[..size] + table[size..] && table[0..size] == table[..size];
      }
    }

    method StartEntries(ghost size: nat, ghost t: Text)
      requires Separate(contextMap) && m.Valid() && stage == Huffman && uint8 == NoBits && Idle()
      requires 2 <= trees <= VALUES && maxRun <= 16
      requires contextMap.Length == size && index == 0 && t.Valid() && CodeOf(t).Valid()
      requires Describes(table[..], CodeOf(t))
      modifies `stage, `code, `text
      ensures Valid(size) && stage == Decode && PhaseOf(size) == Items(trees, maxRun, t, [], 0)
    {
      hide Idle, MoveToFront.Valid, CodeReader.Valid, CodeReader.PhaseOf, MapPhase.Valid, Describes, Code.Valid, CodeOf;
      hide Text.Valid;
      stage, code, text := Decode, NO_CODE, t;
      assert contextMap[..index] == [];
    }

    /** The code, and nothing of the entries yet. */
    method ReadTree(br: Reader, size: nat) returns (result: Progress)
      requires Valid(size) && stage == Huffman && br.Valid()
      modifies reader, reader.val, reader.small, reader.collector, reader.collector.lens, reader.collector.count
      modifies reader.lengths, reader.lengths.lists, reader.lengths.histo, reader.lengths.next
      modifies `stage, `code, `text, table, br`val, br`bitPos, br`nextIn, br`availIn
      ensures br.Valid() && br.nextIn + br.availIn == old(br.nextIn + br.availIn) && (old(br.Backed()) ==> br.Backed())
      ensures Reached(result, br, ResumeMap(old(PhaseOf(size)), old(br.Stream()), size), size)
      ensures result == Success ==> stage == Decode
    {
      hide BitsOf, BytesBits, BackedBy, Resume, ResumeMap, Reader.Stream, Reader.AccBits, Reader.Backed, Idle;
      hide MoveToFront.Valid, CodeReader.Valid, CodeReader.PhaseOf, MapPhase.Valid, Describes, Code.Valid, CodeOf;
      hide Text.Valid;
      var alphabet := trees + maxRun;
      ghost var q, b := reader.PhaseOf(alphabet), br.Stream();
      TreeStep(trees, maxRun, q, b, size);
      result := ReadCode(br, alphabet);
      if result == Success {
        StartEntries(size, Resume(q, b, alphabet, alphabet).text);
      }
    }

    method FillZeros(start: nat, end: nat)
      requires start <= end <= contextMap.Length
      modifies contextMap
      ensures contextMap[..end] == old(contextMap[..start]) + Zeros(end - start)
    {
      var i := start;
      while i < end
        invariant start <= i <= end && contextMap[..i] == old(contextMap[..start]) + Zeros(i - start)
      {
        contextMap[i] := 0;
        i := i + 1;
      }
    }

    /** The extra bits of a run, and its zeros. */
    method ReadRun(br: Reader, size: nat, i: nat, c: nat) returns (result: Progress, next: nat)
      requires br.Valid() && 2 <= trees <= VALUES && text.Valid() && 1 <= c <= maxRun <= 16
      requires i < size == contextMap.Length && Bytes(contextMap[..i])
      modifies contextMap, br`val, br`bitPos, br`nextIn, br`availIn
      ensures br.Valid() && br.nextIn + br.availIn == old(br.nextIn + br.availIn) && (old(br.Backed()) ==> br.Backed())
      ensures result != Success ==> contextMap[..] == old(contextMap[..])
      ensures result == Success ==> i < next <= size && Bytes(contextMap[..next])
      ensures var r := ResumeMap(Items(trees, maxRun, text, old(contextMap[..i]), c), old(br.Stream()), size);
        match result
        case Success => r == ResumeMap(Items(trees, maxRun, text, contextMap[..next], 0), br.Stream(), size)
        case NeedsInput => r == Waits(Items(trees, maxRun, text, contextMap[..i], c), br.Stream()) && br.availIn == 0
        case Failed => r == Invalid
    {
      hide BitsOf, BytesBits, BackedBy, Number, Pow2, ResumeMap, Reader.Stream, Reader.AccBits, Reader.Backed;
      hide Text.Valid;
      ghost var e := contextMap[..i];
      RunStep(trees, maxRun, text, e, c, br.Stream(), size);
      next := i;
      var ok, reps := br.SafeReadBits(c);
      if !ok {
        return NeedsInput, i;
      }
      reps := reps + Pow2(c);
      if i + reps > size {
        return Failed, i;
      }
      next := i + reps;
      FillZeros(i, next);
      result := Success;
    }

    /** The symbol of an entry; that of a run leaves the run to be read. */
    method ReadEntry(br: Reader, size: nat, i: nat) returns (result: Progress, next: nat, c: nat)
      requires br.Valid() && 2 <= trees <= VALUES && text.Valid() && maxRun <= 16
      requires CodeOf(text).Valid() && Describes(table[..], CodeOf(text))
      requires i < size == contextMap.Length && Bytes(contextMap[..i])
      modifies contextMap, br`val, br`bitPos, br`nextIn, br`availIn
      ensures br.Valid() && br.nextIn + br.availIn == old(br.nextIn + br.availIn) && (old(br.Backed()) ==> br.Backed())
      ensures result != Failed && (result == NeedsInput ==> next == i && contextMap[..] == old(contextMap[..]))
      ensures result == Success ==>
        i <= next <= size && Bytes(contextMap[..next]) && if 1 <= c <= maxRun then next == i else next == i + 1
      ensures var r := ResumeMap(Items(trees, maxRun, text, old(contextMap[..i]), 0), old(br.Stream()), size);
        match result
        case Success =>
          var run := if c <= maxRun then c else 0;
          r == ResumeMap(Items(trees, maxRun, text, contextMap[..next], run), br.Stream(), size)
        case NeedsInput => r == Waits(Items(trees, maxRun, text, contextMap[..i], 0), br.Stream()) && br.availIn == 0
        case Failed => false
    {
      hide BitsOf, BytesBits, BackedBy, Number, ResumeMap, Reader.Stream, Reader.AccBits, Reader.Backed, Text.Valid;
      hide Describes, CodeOf, Code.Valid, Code.Lookup;
      ghost var e := contextMap[..i];
      EntryStep(trees, maxRun, text, e, br.Stream(), size);
      next := i;
      var ok;
      ok, c := SafeReadSymbol(table[..], br, CodeOf(text));
      if !ok {
        return NeedsInput, i, c;
      }
      if c == 0 {
        contextMap[i] := 0;
        next := i + 1;
        assert contextMap[..next] == e + [0];
      } else if c > maxRun {
        contextMap[i] := (c - maxRun) % 256;
        next := i + 1;
        assert contextMap[..next] == e + [(c - maxRun) % 256];
      }
      result := Success;
    }

    /** The phase in the middle of the entries; `c` is the run that is half read, or 0. */
    ghost function At(i: nat, c: nat): MapPhase
      requires i <= contextMap.Length
      reads this, contextMap
    {
      Items(trees, maxRun, text, contextMap[..i], c)
    }

    /** What the bits give from there. */
    ghost function Onward(i: nat, c: nat, b: seq<Bit01>, size: nat): MapOutcome
      requires Among(i, c, size)
      reads this, table, contextMap
    {
      ResumeMap(At(i, c), b, size)
    }

    ghost predicate Among(i: nat, c: nat, size: nat)
      reads this, table, contextMap
    {
      && 2 <= trees <= VALUES && text.Valid() && maxRun <= 16 && CodeOf(text).Valid()
      && Describes(table[..], CodeOf(text))
      && i <= size == contextMap.Length && Bytes(contextMap[..i]) && c <= maxRun && (c > 0 ==> i < size)
    }

    /** An entry, or what is missing of it: the symbol is there already if a run is half read. */
    method ReadItem(br: Reader, size: nat, i: nat, half: nat) returns (result: Progress, next: nat, c: nat)
      requires br.Valid() && Among(i, half, size) && i < size
      modifies contextMap, br`val, br`bitPos, br`nextIn, br`availIn
      ensures br.Valid() && br.nextIn + br.availIn == old(br.nextIn + br.availIn) && (old(br.Backed()) ==> br.Backed())
      ensures result != Failed ==> Among(next, c, size)
      ensures result == Success ==> i < next && c == 0
      ensures var r := old(Onward(i, half, br.Stream(), size));
        match result
        case Success => r == Onward(next, 0, br.Stream(), size)
        case NeedsInput => r == Waits(At(next, c), br.Stream()) && br.availIn == 0
        case Failed => r == Invalid
    {
      hide BitsOf, BytesBits, BackedBy, ResumeMap, Reader.Stream, Reader.AccBits, Reader.Backed;
      hide Describes, Code.Valid, CodeOf, Text.Valid;
      result, next, c := Success, i, half;
      if half == 0 {
        result, next, c := ReadEntry(br, size, i);
        if result != Success {
          return result, i, 0;
        }
        if c == 0 || c > maxRun {
          return Success, next, 0;
        }
      }
      ghost var entries := contextMap[..next];
      var end;
      result, end := ReadRun(br, size, next, c);
      if result == Success {
        return Success, end, 0;
      }
      assert contextMap[..next] == entries;
    }

    /** All that holds among the entries but what is said of them. */
    ghost predicate Stopped(size: nat)
      reads this, m, m.mtf, reader, reader.val, reader.small, reader.collector, reader.collector.lens
      reads reader.collector.count, reader.lengths, reader.lengths.lists, reader.lengths.histo, reader.lengths.next
    {
      Separate(contextMap) && m.Valid() && stage == Decode && uint8 == NoBits && Idle()
    }

    method Stop(i: nat, c: nat, ghost size: nat)
      requires Stopped(size) && Among(i, c, size)
      modifies `index, `code
      ensures Valid(size) && PhaseOf(size) == old(At(i, c))
    {
      hide MoveToFront.Valid, CodeReader.Valid, CodeReader.PhaseOf, Describes, Code.Valid, CodeOf, Text.Valid, Idle;
      code, index := if c == 0 then NO_CODE else c, i;
    }

    method Finish(size: nat, ghost b: seq<Bit01>)
      requires Stopped(size) && Among(size, 0, size)
      modifies `stage
      ensures Valid(size) && stage == Last && ResumeMap(PhaseOf(size), b, size) == old(Onward(size, 0, b, size))
    {
      hide ResumeMap, MoveToFront.Valid, CodeReader.Valid, CodeReader.PhaseOf, Describes, Code.Valid, CodeOf;
      hide Text.Valid, Idle;
      LastStep(trees, maxRun, text, contextMap[..size], b, size);
      assert contextMap[..size] == contextMap[..];
      stage := Last;
    }

    /** All entries. */
    method ReadEntries(br: Reader, size: nat) returns (result: Progress)
      requires Valid(size) && stage == Decode && br.Valid()
      modifies `stage, `index, `code, contextMap, br`val, br`bitPos, br`nextIn, br`availIn
      ensures br.Valid() && br.nextIn + br.availIn == old(br.nextIn + br.availIn) && (old(br.Backed()) ==> br.Backed())
      ensures Reached(result, br, ResumeMap(old(PhaseOf(size)), old(br.Stream()), size), size)
      ensures result == Success ==> stage == Last
    {
      hide BitsOf, BytesBits, BackedBy, ResumeMap, Reader.Stream, Reader.AccBits, Reader.Backed, Idle;
      hide MoveToFront.Valid, CodeReader.Valid, CodeReader.PhaseOf, Describes, Code.Valid, CodeOf, Text.Valid;
      ghost var outcome := ResumeMap(PhaseOf(size), br.Stream(), size);
      var i: nat, c: nat := index, if code == NO_CODE then 0 else code;
      while i < size
        invariant br.Valid() && br.nextIn + br.availIn == old(br.nextIn + br.availIn)
        invariant (old(br.Backed()) ==> br.Backed())
        invariant Among(i, c, size) && outcome == Onward(i, c, br.Stream(), size)
        invariant Stopped(size) && (i == size ==> c == 0)
        decreases size - i
      {
        result, i, c := ReadItem(br, size, i, c);
        if result == Failed {
          return;
        } else if result == NeedsInput {
          Stop(i, c, size);
          return;
        }
      }
      Finish(size, br.Stream());
      result := Success;
    }

    /** The entries, inverted or not, are the map. */
    method Transform(moved: bool, ghost size: nat)
      requires Valid(size) && stage == Last
      modifies `stage, contextMap, m, m.mtf
      ensures Valid(size) && PhaseOf(size) == Flag && Bytes(old(contextMap[..]))
      ensures contextMap[..] == if moved then Inverse(Identity(), old(contextMap[..])) else old(contextMap[..])
    {
      hide Idle, MoveToFront.Valid, CodeReader.Valid, CodeReader.PhaseOf, MapPhase.Valid, Describes, Inverse;
      if moved {
        m.InverseTransform(contextMap);
      }
      stage := Start;
    }

    /** The bit that says whether the entries are move-to-front indices. */
    method ReadTransform(br: Reader, size: nat) returns (result: Progress)
      requires Valid(size) && stage == Last && br.Valid()
      modifies `stage, contextMap, m, m.mtf, br`val, br`bitPos, br`nextIn, br`availIn
      ensures br.Valid() && br.nextIn + br.availIn == old(br.nextIn + br.availIn) && (old(br.Backed()) ==> br.Backed())
      ensures var r := ResumeMap(old(PhaseOf(size)), old(br.Stream()), size);
        match result
        case Success => Valid(size) && PhaseOf(size) == Flag && r == Mapped(trees, contextMap[..], br.Stream())
        case NeedsInput => Reached(result, br, r, size)
        case Failed => false
    {
      hide BitsOf, BytesBits, BackedBy, Number, ResumeMap, Reader.Stream, Reader.AccBits, Reader.Backed, Idle;
      hide MoveToFront.Valid, CodeReader.Valid, CodeReader.PhaseOf, MapPhase.Valid, Describes, Code.Valid, CodeOf;
      hide Text.Valid, Inverse;
      TransformStep(trees, contextMap[..], br.Stream(), size);
      var ok, bit := br.SafeReadBits(1);
      if !ok {
        return NeedsInput;
      }
      Transform(bit != 0, size);
      result := Success;
    }

    /** A call has come to an end, or has to wait. */
    ghost predicate Ended(result: Progress, br: Reader, outcome: MapOutcome, size: nat)
      requires br.Valid()
      reads this, table, contextMap, m, m.mtf, reader, reader.val, reader.small, reader.collector, reader.collector.lens
      reads reader.collector.count, reader.lengths, reader.lengths.lists, reader.lengths.histo, reader.lengths.next, br
    {
      match outcome
      case Mapped(t, entries, rest) =>
        && result == Success && Valid(size) && PhaseOf(size) == Flag && trees == t && contextMap[..] == entries
        && br.Stream() == rest
      case Invalid => result == Failed
      case Waits(p, rest) =>
        result == NeedsInput && Valid(size) && PhaseOf(size) == p && br.Stream() == rest && br.availIn == 0
    }

    /** From the prefix code on. */
    method ReadBody(br: Reader, size: nat) returns (result: Progress)
      requires Valid(size) && stage in {Huffman, Decode, Last} && br.Valid()
      modifies reader, reader.val, reader.small, reader.collector, reader.collector.lens, reader.collector.count
      modifies reader.lengths, reader.lengths.lists, reader.lengths.histo, reader.lengths.next
      modifies `stage, `index, `code, `text, table, contextMap, m, m.mtf, br`val, br`bitPos, br`nextIn, br`availIn
      ensures br.Valid() && br.nextIn + br.availIn == old(br.nextIn + br.availIn) && (old(br.Backed()) ==> br.Backed())
      ensures Ended(result, br, ResumeMap(old(PhaseOf(size)), old(br.Stream()), size), size)
    {
      hide BitsOf, BytesBits, BackedBy, ResumeMap, Reader.Stream, Reader.AccBits, Reader.Backed, Idle;
      hide Valid, PhaseOf, Separate;
      if stage == Huffman {
        result := ReadTree(br, size);
        if result != Success {
          return;
        }
      }
      if stage == Decode {
        result := ReadEntries(br, size);
        if result != Success {
          return;
        }
      }
      result := ReadTransform(br, size);
    }

    /** `DecodeContextMap`, from wherever the last call stopped: the result is what the bits
        say, however they arrive, and no bit is lost by waiting. */
    method DecodeContextMap(br: Reader, size: nat) returns (result: Progress)
      requires Valid(size) && br.Valid()
      modifies reader, reader.val, reader.small, reader.collector, reader.collector.lens, reader.collector.count
      modifies reader.lengths, reader.lengths.lists, reader.lengths.histo, reader.lengths.next
      modifies this, table, contextMap, m, m.mtf, br`val, br`bitPos, br`nextIn, br`availIn
      ensures br.Valid() && br.nextIn + br.availIn == old(br.nextIn + br.availIn) && (old(br.Backed()) ==> br.Backed())
      ensures contextMap == old(contextMap) || fresh(contextMap)
      ensures Ended(result, br, ResumeMap(old(PhaseOf(size)), old(br.Stream()), size), size)
    {
      hide BitsOf, BytesBits, BackedBy, ResumeMap, Reader.Stream, Reader.AccBits, Reader.Backed, Idle;
      hide Valid, PhaseOf, Separate;
      if stage == Start {
        var done;
        result, done := ReadCount(br, size);
        if done || result != Success {
          return;
        }
      }
      if stage == ReadPrefix {
        result := ReadRuns(br, size);
        if result != Success {
          return;
        }
      }
      result := ReadBody(br, size);
    }
  }
}
