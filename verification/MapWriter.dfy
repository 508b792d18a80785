/** Writing a context map (section 7.3 of RFC 7932), and reading it back. */
module MapWriter {
  import opened Arith
  import opened PrefixCode
  import opened HuffmanTable
  import opened BitReader
  import opened SymbolReader
  import opened BitWriter
  import opened HuffmanReader
  import opened TextCode
  import TextWriter
  import opened ContextMap
  import opened ContextMapReader

  /** Tree 0 once, or `2^bits + extra` times, or another tree. */
  datatype Entry = Zero | Run(bits: nat, extra: nat) | Other(tree: nat) {
    predicate Valid(trees: nat, maxRun: nat) {
      match this
      case Zero => true
      case Run(n, extra) => 1 <= n <= maxRun && extra < Pow2(n)
      case Other(t) => 0 < t < trees
    }

    /** Tree 0 is symbol 0, the runs are the symbols after it, and the other trees come last. */
    function Symbol(maxRun: nat): nat {
      match this
      case Zero => 0
      case Run(n, _) => n
      case Other(t) => maxRun + t
    }

    function Meaning(): (v: seq<nat>)
      ensures |v| > 0
    {
      match this
      case Zero => [0]
      case Run(n, extra) => seq(Pow2(n) + extra, _ => 0)
      case Other(t) => [t]
    }
  }

  function Meanings(es: seq<Entry>): seq<nat> {
    if es == [] then [] else es[0].Meaning() + Meanings(es[1..])
  }

  ghost predicate Writable(es: seq<Entry>, trees: nat, maxRun: nat, code: Code) {
    forall i :: 0 <= i < |es| ==> es[i].Valid(trees, maxRun) && Spelled(code, es[i].Symbol(maxRun))
  }

  ghost function EntryBits(e: Entry, maxRun: nat, code: Code): (b: seq<Bit01>)
    requires Spelled(code, e.Symbol(maxRun))
  {
    Spell(code, e.Symbol(maxRun)) + if e.Run? then BitsOf(e.extra, e.bits) else []
  }

  ghost function EntriesBits(es: seq<Entry>, trees: nat, maxRun: nat, code: Code): (b: seq<Bit01>)
    requires Writable(es, trees, maxRun, code)
  {
    if es == [] then [] else EntryBits(es[0], maxRun, code) + EntriesBits(es[1..], trees, maxRun, code)
  }

  /** 1, 2, or 2^n + 1 and `n` bits. */
  function CountBits(trees: nat): (b: seq<Bit01>)
    requires trees >= 1
  {
    if trees == 1 then [0]
    else
      var n := Width(trees - 1) - 1;
      [1] + BitsOf(n, 3) + BitsOf(trees - 1 - Pow2(n), n)
  }

  /** How many lengths of runs have symbols. */
  function RunsBits(maxRun: nat): (b: seq<Bit01>) {
    if maxRun == 0 then [0] else [1] + BitsOf(maxRun - 1, 4)
  }

  /** A map of several trees as it is to be written: its entries, moved to the front or not, and
      the code they are written in. */
  datatype MapDraft = MapDraft(trees: nat, maxRun: nat, code: TextWriter.Draft, entries: seq<Entry>, moved: bool) {
    function Alphabet(): nat { trees + maxRun }

    ghost predicate Valid() {
      && 2 <= trees <= VALUES && maxRun <= 16 && code.Valid(Alphabet(), Alphabet()) && code.Meaning().Valid()
      && Writable(entries, trees, maxRun, CodeOf(code.Meaning()))
    }

    ghost function Bits(): (b: seq<Bit01>)
      requires Valid()
    {
      CountBits(trees) + RunsBits(maxRun) + TextWriter.DraftBits(code, Alphabet(), Alphabet())
      + EntriesBits(entries, trees, maxRun, CodeOf(code.Meaning())) + [if moved then 1 else 0]
    }
  }

  /** The entries spell the map, or its indices. */
  ghost predicate Says(d: MapDraft, target: seq<nat>) {
    && (forall i :: 0 <= i < |target| ==> target[i] < d.trees <= VALUES) && AllThere(target)
    && Meanings(d.entries) == if d.moved then Forward(Identity(), target) else target
  }

  ghost predicate AllThere(target: seq<nat>) {
    forall x :: x in target ==> x in Identity()
  }

  lemma WidthIs(x: nat)
    requires 1 <= x < 256
    ensures 1 <= Width(x) <= 8 && Pow2(Width(x) - 1) <= x < Pow2(Width(x))
  {
    if Width(x) > 8 {
      Pow2Values();
      Pow2Monotone(8, Width(x) - 1);
      assert false;
    }
  }

  lemma CountRead(trees: nat, rest: seq<Bit01>, size: nat)
    requires 1 <= trees <= VALUES
    ensures ResumeMap(Flag, CountBits(trees) + rest, size) ==
      if trees == 1 then Mapped(1, Zeros(size), rest) else ResumeMap(Prefix(trees), rest, size)
  {
    hide Number, BitsOf, ResumeMap, Width, Pow2;
    var b := CountBits(trees) + rest;
    NumberOne();
    if trees == 1 {
      FlagStep(b, size);
      assert b[..1] == [0] && b[1..] == rest;
    } else {
      var n := Width(trees - 1) - 1;
      WidthIs(trees - 1);
      var suffix := BitsOf(trees - 1 - Pow2(n), n) + rest;
      assert b == [1] + (BitsOf(n, 3) + suffix);
      FlagRead(BitsOf(n, 3) + suffix, size);
      LengthRead(n, suffix, size);
      SuffixRead(trees, n, rest, size);
    }
  }

  lemma FlagRead(b: seq<Bit01>, size: nat)
    ensures ResumeMap(Flag, [1] + b, size) == ResumeMap(Short, b, size)
  {
    hide Number, ResumeMap;
    FlagStep([1] + b, size);
    assert ([1] + b)[..1] == [1] && ([1] + b)[1..] == b;
    NumberOne();
  }

  lemma LengthRead(n: nat, b: seq<Bit01>, size: nat)
    requires n <= 7
    ensures ResumeMap(Short, BitsOf(n, 3) + b, size) == ResumeMap(if n == 0 then Prefix(2) else Long(n), b, size)
  {
    hide Number, BitsOf, ResumeMap;
    assert Pow2(3) == 8;
    BitsRead(n, 3, b);
    ShortStep(BitsOf(n, 3) + b, size);
  }

  lemma SuffixRead(trees: nat, n: nat, rest: seq<Bit01>, size: nat)
    requires 2 <= trees <= VALUES && n <= 7 && Pow2(n) <= trees - 1 < Pow2(n + 1)
    ensures var b := BitsOf(trees - 1 - Pow2(n), n) + rest;
      ResumeMap(if n == 0 then Prefix(2) else Long(n), b, size) == ResumeMap(Prefix(trees), rest, size)
  {
    hide Number, ResumeMap;
    var b := BitsOf(trees - 1 - Pow2(n), n) + rest;
    if n == 0 {
      assert b == rest;
    } else {
      BitsRead(trees - 1 - Pow2(n), n, rest);
      LongStep(n, b, size);
    }
  }

  lemma NumberOne()
    ensures Number([0]) == 0 && Number([1]) == 1
  {
  }

  lemma RunsRead(t: nat, maxRun: nat, rest: seq<Bit01>, size: nat)
    requires 2 <= t <= VALUES && maxRun <= 16 && |rest| >= 4
    ensures ResumeMap(Prefix(t), RunsBits(maxRun) + rest, size) == ResumeMap(Tree(t, maxRun, Begin), rest, size)
  {
    hide BitsOf, ResumeMap;
    var b := RunsBits(maxRun) + rest;
    PrefixStep(t, b, size);
    if maxRun == 0 {
      FirstBit(b, 5);
      assert b[1..] == rest;
    } else {
      var x := BitsOf(maxRun - 1, 4);
      FirstBit(b, 5);
      assert b[..5] == [1] + x && b[5..] == rest;
      NumberBits(maxRun - 1, 4);
      assert Pow2(4) == 16;
      assert ([1] + x)[1..] == x;
    }
  }

  /** What the bits give after these entries ... */
  ghost function Onward(t: nat, m: nat, text: Text, before: seq<nat>, b: seq<Bit01>, size: nat): MapOutcome
    requires 2 <= t <= VALUES && m <= 16 && text.Valid() && Bytes(before) && |before| <= size
  {
    ResumeMap(Items(t, m, text, before, 0), b, size)
  }

  /** ... and after all of them. */
  ghost function AtEnd(t: nat, entries: seq<nat>, b: seq<Bit01>, size: nat): MapOutcome
    requires 2 <= t <= VALUES && |entries| == size && Bytes(entries)
  {
    ResumeMap(MapPhase.Transform(t, entries), b, size)
  }

  lemma EntryRead(e: Entry, trees: nat, m: nat, text: Text, before: seq<nat>, rest: seq<Bit01>, size: nat)
    requires 2 <= trees <= VALUES && m <= 16 && text.Valid() && Bytes(before)
    requires e.Valid(trees, m) && Spelled(CodeOf(text), e.Symbol(m)) && |before| + |e.Meaning()| <= size
    ensures Bytes(before + e.Meaning())
    ensures Onward(trees, m, text, before, EntryBits(e, m, CodeOf(text)) + rest, size)
         == Onward(trees, m, text, before + e.Meaning(), rest, size)
  {
    hide Number, BitsOf, ResumeMap, CodeOf, Code.Valid, Code.Lookup, Spells, Text.Valid, Pow2;
    CodeOfValid(text);
    var w := Spell(CodeOf(text), e.Symbol(m));
    var extra := (if e.Run? then BitsOf(e.extra, e.bits) else []) + rest;
    assert EntryBits(e, m, CodeOf(text)) + rest == w + extra;
    SpellRead(CodeOf(text), e.Symbol(m), w, extra);
    EntryStep(trees, m, text, before, w + extra, size);
    match e
    case Zero => assert extra == rest;
    case Other(t) => assert extra == rest;
    case Run(n, x) => RunRead(trees, m, text, before, n, x, rest, size);
  }

  lemma RunRead(t: nat, m: nat, text: Text, before: seq<nat>, n: nat, x: nat, rest: seq<Bit01>, size: nat)
    requires 2 <= t <= VALUES && m <= 16 && text.Valid() && Bytes(before)
    requires 1 <= n <= m && x < Pow2(n) && |before| + Pow2(n) + x <= size
    ensures ResumeMap(Items(t, m, text, before, n), BitsOf(x, n) + rest, size)
         == Onward(t, m, text, before + Run(n, x).Meaning(), rest, size)
  {
    hide Number, BitsOf, ResumeMap, Text.Valid, Pow2;
    BitsRead(x, n, rest);
    RunStep(t, m, text, before, n, BitsOf(x, n) + rest, size);
    assert Zeros(x + Pow2(n)) == Run(n, x).Meaning();
  }

  lemma {:induction false} EntriesRead(es: seq<Entry>, trees: nat, m: nat, text: Text, before: seq<nat>,
                                       rest: seq<Bit01>, size: nat)
    requires 2 <= trees <= VALUES && m <= 16 && text.Valid() && Bytes(before)
    requires Writable(es, trees, m, CodeOf(text)) && |before| + |Meanings(es)| == size
    ensures Bytes(before + Meanings(es))
    ensures Onward(trees, m, text, before, EntriesBits(es, trees, m, CodeOf(text)) + rest, size)
         == AtEnd(trees, before + Meanings(es), rest, size)
    decreases |es|
  {
    hide Number, ResumeMap, CodeOf, Code.Valid, Text.Valid, EntryBits, Entry.Meaning, Spells, Pow2;
    if es == [] {
      assert [] + rest == rest && before + [] == before;
      LastStep(trees, m, text, before, rest, size);
    } else {
      var more := EntriesBits(es[1..], trees, m, CodeOf(text)) + rest;
      assert EntriesBits(es, trees, m, CodeOf(text)) + rest == EntryBits(es[0], m, CodeOf(text)) + more;
      assert before + es[0].Meaning() + Meanings(es[1..]) == before + Meanings(es);
      EntryRead(es[0], trees, m, text, before, more, size);
      EntriesRead(es[1..], trees, m, text, before + es[0].Meaning(), rest, size);
    }
  }

  lemma CodeRead(d: MapDraft, rest: seq<Bit01>, size: nat)
    requires d.Valid()
    ensures var b := TextWriter.DraftBits(d.code, d.Alphabet(), d.Alphabet());
      && |b| >= 4
      && ResumeMap(Tree(d.trees, d.maxRun, Begin), b + rest, size)
         == Onward(d.trees, d.maxRun, d.code.Meaning(), [], rest, size)
  {
    hide Number, ResumeMap, Resume, CodeOf, Writable, TextWriter.DraftBits;
    TextWriter.DraftLong(d.code, d.Alphabet(), d.Alphabet());
    TextWriter.DraftRead(d.code, rest, d.Alphabet(), d.Alphabet());
    TreeStep(d.trees, d.maxRun, Begin, TextWriter.DraftBits(d.code, d.Alphabet(), d.Alphabet()) + rest, size);
  }

  lemma TransformRead(t: nat, moved: bool, target: seq<nat>, rest: seq<Bit01>, size: nat)
    requires 2 <= t <= VALUES && |target| == size && AllThere(target)
    requires Bytes(if moved then Forward(Identity(), target) else target)
    ensures ResumeMap(MapPhase.Transform(t, if moved then Forward(Identity(), target) else target),
                      [if moved then 1 else 0] + rest, size) == Mapped(t, target, rest)
  {
    hide Number, ResumeMap, Inverse, Forward, Identity;
    var b := [if moved then 1 else 0] + rest;
    TransformStep(t, if moved then Forward(Identity(), target) else target, b, size);
    assert b[..1] == [if moved then 1 else 0] && b[1..] == rest;
    NumberOne();
    InverseForward(Identity(), target);
  }

  lemma JoinFive(a: seq<Bit01>, b: seq<Bit01>, c: seq<Bit01>, d: seq<Bit01>, e: seq<Bit01>, rest: seq<Bit01>)
    ensures a + b + c + d + e + rest == a + (b + (c + (d + (e + rest))))
  {
  }

  /** A map that is written is read back, moved to the front or not, and nothing behind it is
      touched. */
  lemma MapRead(d: MapDraft, target: seq<nat>, rest: seq<Bit01>)
    requires d.Valid() && Says(d, target)
    ensures ResumeMap(Flag, d.Bits() + rest, |target|) == Mapped(d.trees, target, rest)
  {
    hide ResumeMap, CodeOf, Writable, TextWriter.DraftBits, Forward, Identity, EntriesBits, CountBits, RunsBits;
    var text := d.code.Meaning();
    var end := [if d.moved then 1 else 0] + rest;
    var entries := EntriesBits(d.entries, d.trees, d.maxRun, CodeOf(text)) + end;
    var code := TextWriter.DraftBits(d.code, d.Alphabet(), d.Alphabet());
    JoinFive(CountBits(d.trees), RunsBits(d.maxRun), code, EntriesBits(d.entries, d.trees, d.maxRun, CodeOf(text)),
             [if d.moved then 1 else 0], rest);
    HeadRead(d, entries, |target|);
    BodyRead(d, target, rest);
  }

  lemma HeadRead(d: MapDraft, b: seq<Bit01>, size: nat)
    requires d.Valid()
    ensures var code := TextWriter.DraftBits(d.code, d.Alphabet(), d.Alphabet());
      ResumeMap(Flag, CountBits(d.trees) + (RunsBits(d.maxRun) + (code + b)), size)
      == Onward(d.trees, d.maxRun, d.code.Meaning(), [], b, size)
  {
    hide ResumeMap, CodeOf, Writable, TextWriter.DraftBits, CountBits, RunsBits, TextWriter.Draft.Valid;
    var code := TextWriter.DraftBits(d.code, d.Alphabet(), d.Alphabet());
    CountRead(d.trees, RunsBits(d.maxRun) + (code + b), size);
    CodeRead(d, b, size);
    RunsRead(d.trees, d.maxRun, code + b, size);
  }

  lemma BodyRead(d: MapDraft, target: seq<nat>, rest: seq<Bit01>)
    requires d.Valid() && Says(d, target)
    ensures var end := [if d.moved then 1 else 0] + rest;
      var text := d.code.Meaning();
      Onward(d.trees, d.maxRun, text, [], EntriesBits(d.entries, d.trees, d.maxRun, CodeOf(text)) + end, |target|)
      == Mapped(d.trees, target, rest)
  {
    hide ResumeMap, CodeOf, Writable, Forward, Identity, EntriesBits, TextWriter.Draft.Valid;
    var size, end := |target|, [if d.moved then 1 else 0] + rest;
    assert [] + Meanings(d.entries) == Meanings(d.entries);
    EntriesRead(d.entries, d.trees, d.maxRun, d.code.Meaning(), [], end, size);
    TransformRead(d.trees, d.moved, target, rest, size);
  }

  /** A map of one tree is a single bit. */
  lemma OneTreeRead(rest: seq<Bit01>, size: nat)
    ensures ResumeMap(Flag, CountBits(1) + rest, size) == Mapped(1, Zeros(size), rest)
  {
    hide ResumeMap;
    CountRead(1, rest, size);
  }
}
