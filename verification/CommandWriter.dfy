/** Writing the commands of a meta-block as bits (sections 4, 5 and 6 of RFC 7932): block switches,
    insert and copy lengths, literals and distances; and reading them back. */
module CommandWriter {
  import opened Arith
  import opened Wrappers
  import opened PrefixCode
  import opened HuffmanTable
  import opened BitReader
  import opened SymbolReader
  import opened BitWriter
  import opened Restart
  import opened CommandReader
  import Distances
  import DistanceTable
  import Lz77

  /** A block to come: its type, the code that names it, and the symbol of its length. */
  datatype Change = Change(target: nat, code: nat, symbol: nat, length: nat)

  /** What a category has left of its block, the types of this block and of the one before, and
      the blocks to come. */
  datatype Blocks = Blocks(left: nat, previous: nat, current: nat, later: seq<Change>) {
    predicate Sane(types: nat) {
      types > 1 ==> previous < types && current < types
    }

    /** A new block is due. */
    predicate Due(types: nat) { types > 1 && left == 0 }

    /** Code 0 is the type before, code 1 is the type after the current one, and any type has a
        code two above it. */
    predicate Names(types: nat, c: Change) {
      && c.target < types
      && ((c.code == 0 && c.target == previous) || (c.code == 1 && c.target == (current + 1) % types)
          || c.code == c.target + 2)
    }

    /** The next block begins if it is due. */
    function Entered(types: nat): Blocks {
      if Due(types) && later != [] then Blocks(later[0].length, current, later[0].target, later[1..]) else this
    }

    /** One symbol is written; only categories of several types count them. */
    function Used(types: nat): Blocks {
      if types > 1 && left > 0 then this.(left := left - 1) else this
    }

    function Seen(): Block { Block(left, previous, current) }
  }

  /** The next block can be written if it is due. */
  ghost predicate CanEnter(h: Header, category: nat, b: Blocks, types: nat)
    requires category < 3 && |h.codes| >= 6
  {
    b.Sane(types) && (b.Due(types) ==> b.later != [] && CanChange(h, category, b, types, b.later[0]))
  }

  ghost predicate CanChange(h: Header, category: nat, b: Blocks, types: nat, c: Change)
    requires category < 3 && |h.codes| >= 6
  {
    && b.Names(types, c) && Spelled(h.codes[category], c.code) && Spelled(h.codes[3 + category], c.symbol)
    && h.lengthOffset(c.symbol) <= c.length < h.lengthOffset(c.symbol) + Pow2(h.lengthBits(c.symbol))
  }

  ghost function EnterBits(h: Header, category: nat, b: Blocks, types: nat): (bits: seq<Bit01>)
    requires category < 3 && |h.codes| >= 6 && CanEnter(h, category, b, types)
  {
    if b.Due(types) then ChangeBits(h, category, b, types, b.later[0]) else []
  }

  /** The type's code, the symbol of the length's range, and the place in the range. */
  ghost function ChangeBits(h: Header, category: nat, b: Blocks, types: nat, c: Change): (bits: seq<Bit01>)
    requires category < 3 && |h.codes| >= 6 && CanChange(h, category, b, types, c)
  {
    Spell(h.codes[category], c.code)
    + (Spell(h.codes[3 + category], c.symbol)
       + BitsOf(c.length - h.lengthOffset(c.symbol), h.lengthBits(c.symbol)))
  }

  /** A command as it is to be written: its literals, copy length and distance, and the symbol for
      its lengths. */
  datatype Plan = Plan(symbol: nat, literals: seq<Byte>, copy: nat, distance: Lz77.DistanceSymbol)

  datatype Writer = Writer(literal: Blocks, command: Blocks, distance: Blocks, out: Lz77.State, maxBackward: nat)

  ghost predicate CanWriteLengths(h: Header, b: Blocks, p: Plan)
    requires h.Valid()
  {
    var cell := h.cells(p.symbol);
    && CanEnter(h, 1, b, h.types.1) && Spelled(h.codes[h.commandTree(b.Entered(h.types.1).current)], p.symbol)
    && cell.insertOffset <= |p.literals| < cell.insertOffset + Pow2(cell.insertBits)
    && cell.copyOffset <= p.copy < cell.copyOffset + Pow2(cell.copyBits)
  }

  /** Section 5: the symbol, the insert length's bits and the copy length's bits. */
  ghost function LengthsBits(h: Header, b: Blocks, p: Plan): (bits: seq<Bit01>)
    requires h.Valid() && CanWriteLengths(h, b, p)
  {
    var cell := h.cells(p.symbol);
    Spell(h.codes[h.commandTree(b.Entered(h.types.1).current)], p.symbol)
    + (BitsOf(|p.literals| - cell.insertOffset, cell.insertBits)
       + BitsOf(p.copy - cell.copyOffset, cell.copyBits))
  }

  /** Literals in their blocks; the tree of each depends on the bytes before it. */
  ghost predicate CanWriteLiterals(h: Header, b: Blocks, past: seq<Byte>, literals: seq<Byte>)
    requires h.Valid()
    decreases |literals|
  {
    literals == [] ||
    (&& CanEnter(h, 0, b, h.types.0)
     && Spelled(h.codes[h.literalTree(b.Entered(h.types.0).current, past)], literals[0])
     && CanWriteLiterals(h, b.Entered(h.types.0).Used(h.types.0), past + [literals[0]], literals[1..]))
  }

  ghost function LiteralsBits(h: Header, b: Blocks, past: seq<Byte>, literals: seq<Byte>): (bits: seq<Bit01>)
    requires h.Valid() && CanWriteLiterals(h, b, past, literals)
    decreases |literals|
  {
    if literals == [] then []
    else
      EnterBits(h, 0, b, h.types.0)
      + (Spell(h.codes[h.literalTree(b.Entered(h.types.0).current, past)], literals[0])
         + LiteralsBits(h, b.Entered(h.types.0).Used(h.types.0), past + [literals[0]], literals[1..]))
  }

  function AfterLiterals(b: Blocks, types: nat, n: nat): Blocks
    decreases n
  {
    if n == 0 then b else AfterLiterals(b.Entered(types).Used(types), types, n - 1)
  }

  /** The code of a spelled-out distance, or of one in the cache. */
  function DistanceCode(h: Header, d: Lz77.DistanceSymbol): (nat, nat)
    requires d.Valid()
  {
    match d
    case Last => (0, 0)
    case Short(code) => (code, 0)
    case Direct(distance) => DistanceTable.Encode(h.format, distance)
  }

  ghost predicate CanWriteDistance(h: Header, b: Blocks, context: nat, implicit: bool, d: Lz77.DistanceSymbol)
    requires h.Valid()
  {
    && d.Valid() && (implicit <==> d == Lz77.Last)
    && (!implicit ==>
          && CanEnter(h, 2, b, h.types.2)
          && Spelled(h.codes[h.distanceTree(b.Entered(h.types.2).current, context)], DistanceCode(h, d).0)
          && (d.Direct? ==> DistanceTable.ExtraBits(h.format, DistanceCode(h, d).0) <= 29))
  }

  /** Section 4: nothing for the implicit last distance; otherwise the code, and the extra bits of
      a spelled-out one. */
  ghost function DistanceBits(h: Header, b: Blocks, context: nat, implicit: bool, d: Lz77.DistanceSymbol)
    : (bits: seq<Bit01>)
    requires h.Valid() && CanWriteDistance(h, b, context, implicit, d)
  {
    if implicit then []
    else
      EnterBits(h, 2, b, h.types.2)
      + (Spell(h.codes[h.distanceTree(b.Entered(h.types.2).current, context)], DistanceCode(h, d).0)
         + if d.Direct? then BitsOf(DistanceCode(h, d).1, DistanceTable.ExtraBits(h.format, DistanceCode(h, d).0))
           else [])
  }

  /** The literals of a command end the meta-block, so that its copy is not written. */
  predicate EndsEarly(w: Writer, p: Plan) {
    |p.literals| > 0 && |p.literals| >= w.out.remaining
  }

  ghost predicate CanWrite(h: Header, w: Writer, p: Plan)
    requires h.Valid()
  {
    var cell := h.cells(p.symbol);
    && CanWriteLengths(h, w.command, p) && CanWriteLiterals(h, w.literal, w.out.history, p.literals)
    && (if EndsEarly(w, p) then p.distance == Lz77.Last
        else CanWriteDistance(h, w.distance, cell.context, cell.implicit, p.distance))
  }

  ghost function PlanBits(h: Header, w: Writer, p: Plan): (bits: seq<Bit01>)
    requires h.Valid() && CanWrite(h, w, p)
  {
    var cell := h.cells(p.symbol);
    EnterBits(h, 1, w.command, h.types.1)
    + (LengthsBits(h, w.command, p)
       + (LiteralsBits(h, w.literal, w.out.history, p.literals)
          + if EndsEarly(w, p) then [] else DistanceBits(h, w.distance, cell.context, cell.implicit, p.distance)))
  }

  /** The command itself. */
  function Command(p: Plan): Lz77.Command {
    Lz77.Command(p.literals, p.copy, p.distance)
  }

  function Listed(ps: seq<Plan>): seq<Lz77.Command> {
    if ps == [] then [] else [Command(ps[0])] + Listed(ps[1..])
  }

  /** After a command. */
  function Next(h: Header, w: Writer, p: Plan): Writer
    requires p.distance.Valid() && Lz77.Positive(w.out.cache)
  {
    var implicit := h.cells(p.symbol).implicit;
    Writer(AfterLiterals(w.literal, h.types.0, |p.literals|),
           w.command.Entered(h.types.1).Used(h.types.1),
           if implicit then w.distance else w.distance.Entered(h.types.2).Used(h.types.2),
           Lz77.Execute(w.out, Command(p), w.maxBackward, h.words), w.maxBackward)
  }

  lemma WriteSymbol(m: Machine<Live>, s: Live, vs: seq<nat>, i: nat, v: nat, b: seq<Bit01>)
    requires m.Valid() && m.script(s, vs) == Read.Symbol(i) && i < |m.codes| && Spelled(m.codes[i], v)
    ensures m.Parse(s, vs, Spell(m.codes[i], v) + b) ==
      Machine<Live>.Later(m.Parse(s, vs + [v], b), |Spell(m.codes[i], v)|)
  {
    hide Code.Lookup, Number, Spells, Code.Valid;
    assert m.codes[i].Valid();
    SpellRead(m.codes[i], v, Spell(m.codes[i], v), b);
    m.ReadsSymbol(s, vs, Spell(m.codes[i], v) + b);
  }

  lemma WriteBits(m: Machine<Live>, s: Live, vs: seq<nat>, n: nat, v: nat, b: seq<Bit01>)
    requires m.Valid() && m.script(s, vs) == Bits(n) && v < Pow2(n)
    ensures m.Parse(s, vs, BitsOf(v, n) + b) == Machine<Live>.Later(m.Parse(s, vs + [v], b), n)
  {
    hide BitsOf, Number;
    BitsRead(v, n, b);
    m.ReadsBits(s, vs, BitsOf(v, n) + b);
  }

  lemma RunStep(m: Machine<Live>, s: Live, b: seq<Bit01>, n: nat, rest: seq<Bit01>, t: Live)
    requires m.Valid() && m.Progress() && m.kind(s) == Reading
    requires m.Parse(s, [], b) == Some((t, n)) && n <= |b| && b[n..] == rest
    ensures m.Run(s, b) == m.Run(t, rest)
  {
    hide Machine<Live>.Parse, Machine<Live>.Valid, Machine<Live>.Progress;
  }

  /** A transaction of three reads. */
  lemma ReadThree(m: Machine<Live>, s: Live, x: nat, y: nat, z: nat, b0: seq<Bit01>, b1: seq<Bit01>, b2: seq<Bit01>,
                  b3: seq<Bit01>, n1: nat, n2: nat, n3: nat, t: Live)
    requires m.Valid() && m.Progress() && m.kind(s) == Reading && m.script(s, [x, y, z]) == Commit(t)
    requires m.Parse(s, [], b0) == Machine<Live>.Later(m.Parse(s, [x], b1), n1)
    requires m.Parse(s, [x], b1) == Machine<Live>.Later(m.Parse(s, [x, y], b2), n2)
    requires m.Parse(s, [x, y], b2) == Machine<Live>.Later(m.Parse(s, [x, y, z], b3), n3)
    requires n1 + n2 + n3 <= |b0| && b0[n1 + n2 + n3..] == b3
    ensures m.Run(s, b0) == m.Run(t, b3)
  {
    hide Machine<Live>.Run, Machine<Live>.Parse, Machine<Live>.Valid, Machine<Live>.Progress;
    m.ParseCommit(s, [x, y, z], b3);
    RunStep(m, s, b0, n1 + n2 + n3, b3, t);
  }

  lemma JoinThree(w1: seq<Bit01>, w2: seq<Bit01>, w3: seq<Bit01>, b: seq<Bit01>)
    ensures w1 + (w2 + w3) + b == w1 + (w2 + (w3 + b))
    ensures (w1 + (w2 + (w3 + b)))[|w1| + |w2| + |w3|..] == b
  {
  }

  ghost predicate Works(h: Header) {
    h.Valid() && Commands(h).Valid() && Commands(h).Progress()
  }

  /** The three reads of a block switch. */
  lemma ChangeRead(h: Header, s: Live, category: nat, blocks: Blocks, types: nat, c: Change, t: Live, b: seq<Bit01>)
    requires Works(h) && category < 3 && CanChange(h, category, blocks, types, c) && s.phase != Over
    requires Script(h, s, []) == Read.Symbol(category) && Script(h, s, [c.code]) == Read.Symbol(3 + category)
    requires Script(h, s, [c.code, c.symbol]) == Bits(h.lengthBits(c.symbol))
    requires Script(h, s, [c.code, c.symbol, c.length - h.lengthOffset(c.symbol)]) == Commit(t)
    ensures Commands(h).Run(s, ChangeBits(h, category, blocks, types, c) + b)
         == Commands(h).Run(t, b)
  {
    hide Script, Machine<Live>.Run, Machine<Live>.Parse, Machine<Live>.Valid, Machine<Live>.Progress, Spells, Pow2;
    var m, extra, n := Commands(h), c.length - h.lengthOffset(c.symbol), h.lengthBits(c.symbol);
    var w1, w2, w3 := Spell(h.codes[category], c.code), Spell(h.codes[3 + category], c.symbol), BitsOf(extra, n);
    assert [] + [c.code] == [c.code] && [c.code] + [c.symbol] == [c.code, c.symbol];
    assert [c.code, c.symbol] + [extra] == [c.code, c.symbol, extra];
    WriteSymbol(m, s, [], category, c.code, w2 + (w3 + b));
    WriteSymbol(m, s, [c.code], 3 + category, c.symbol, w3 + b);
    WriteBits(m, s, [c.code, c.symbol], n, extra, b);
    JoinThree(w1, w2, w3, b);
    ReadThree(m, s, c.code, c.symbol, extra, w1 + (w2 + (w3 + b)), w2 + (w3 + b), w3 + b, b, |w1|, |w2|, n, t);
  }

  /** The code names the type for the reader as well. */
  lemma SwitchNames(blocks: Blocks, types: nat, c: Change)
    requires blocks.Sane(types) && blocks.Due(types) && blocks.Names(types, c)
    requires blocks.later != [] && blocks.later[0] == c
    ensures blocks.Seen().Switch(c.code, types, c.length) == blocks.Entered(types).Seen()
  {
    if blocks.current + 1 < types {
      assert (blocks.current + 1) % types == blocks.current + 1;
    } else {
      assert blocks.current + 1 == types;
    }
  }

  /** A block of commands, of literals, or of distances begins if it is due. */
  lemma EnterCommandsScripts(h: Header, s: Live, blocks: Blocks, extra: nat, t: Live)
    requires t == s.(command := blocks.Entered(h.types.1).Seen())
    requires s.phase == Begin && s.command == blocks.Seen()
    requires blocks.Sane(h.types.1) && blocks.Due(h.types.1)
    requires blocks.later != [] && blocks.Names(h.types.1, blocks.later[0])
    requires blocks.later[0].length == h.lengthOffset(blocks.later[0].symbol) + extra
    ensures var c := blocks.later[0];
      && Script(h, s, []) == Read.Symbol(1) && Script(h, s, [c.code]) == Read.Symbol(4)
      && Script(h, s, [c.code, c.symbol]) == Bits(h.lengthBits(c.symbol))
      && Script(h, s, [c.code, c.symbol, extra]) == Commit(t)
  {
    SwitchNames(blocks, h.types.1, blocks.later[0]);
    hide Block.Switch, Blocks.Names;
  }

  lemma EnterCommands(h: Header, s: Live, blocks: Blocks, b: seq<Bit01>)
    requires Works(h) && s.phase == Begin && s.command == blocks.Seen()
    requires CanEnter(h, 1, blocks, h.types.1)
    ensures Commands(h).Run(s, EnterBits(h, 1, blocks, h.types.1) + b)
         == Commands(h).Run(s.(command := blocks.Entered(h.types.1).Seen()), b)
  {
    hide Machine<Live>.Run, Machine<Live>.Valid, Machine<Live>.Progress, ChangeBits, Script, Spells, Pow2;
    if blocks.Due(h.types.1) {
      var c := blocks.later[0];
      var t := s.(command := blocks.Entered(h.types.1).Seen());
      EnterCommandsScripts(h, s, blocks, c.length - h.lengthOffset(c.symbol), t);
      ChangeRead(h, s, 1, blocks, h.types.1, c, t, b);
    } else {
      assert [] + b == b;
    }
  }

  lemma EnterLiteralsScripts(h: Header, s: Live, blocks: Blocks, extra: nat, t: Live)
    requires t == s.(literal := blocks.Entered(h.types.0).Seen(), switched := true)
    requires s.phase == Inner && s.literal == blocks.Seen()
    requires blocks.Sane(h.types.0) && blocks.Due(h.types.0)
    requires blocks.later != [] && blocks.Names(h.types.0, blocks.later[0])
    requires blocks.later[0].length == h.lengthOffset(blocks.later[0].symbol) + extra
    ensures var c := blocks.later[0];
      && Script(h, s, []) == Read.Symbol(0) && Script(h, s, [c.code]) == Read.Symbol(3)
      && Script(h, s, [c.code, c.symbol]) == Bits(h.lengthBits(c.symbol))
      && Script(h, s, [c.code, c.symbol, extra]) == Commit(t)
  {
    SwitchNames(blocks, h.types.0, blocks.later[0]);
    hide Block.Switch, Blocks.Names;
  }

  lemma EnterLiterals(h: Header, s: Live, blocks: Blocks, b: seq<Bit01>)
    requires Works(h) && s.phase == Inner && s.literal == blocks.Seen()
    requires CanEnter(h, 0, blocks, h.types.0)
    ensures Commands(h).Run(s, EnterBits(h, 0, blocks, h.types.0) + b)
         == Commands(h).Run(s.(literal := blocks.Entered(h.types.0).Seen(),
                               switched := s.switched || blocks.Due(h.types.0)), b)
  {
    hide Machine<Live>.Run, Machine<Live>.Valid, Machine<Live>.Progress, ChangeBits, Script, Spells, Pow2;
    if blocks.Due(h.types.0) {
      var c := blocks.later[0];
      var t := s.(literal := blocks.Entered(h.types.0).Seen(), switched := true);
      EnterLiteralsScripts(h, s, blocks, c.length - h.lengthOffset(c.symbol), t);
      ChangeRead(h, s, 0, blocks, h.types.0, c, t, b);
    } else {
      assert [] + b == b;
    }
  }

  lemma EnterDistancesScripts(h: Header, s: Live, blocks: Blocks, extra: nat, t: Live)
    requires t == s.(distance := blocks.Entered(h.types.2).Seen())
    requires s.phase == PostDecode && s.distance == blocks.Seen() && !s.implicit
    requires blocks.Sane(h.types.2) && blocks.Due(h.types.2)
    requires blocks.later != [] && blocks.Names(h.types.2, blocks.later[0])
    requires blocks.later[0].length == h.lengthOffset(blocks.later[0].symbol) + extra
    ensures var c := blocks.later[0];
      && Script(h, s, []) == Read.Symbol(2) && Script(h, s, [c.code]) == Read.Symbol(5)
      && Script(h, s, [c.code, c.symbol]) == Bits(h.lengthBits(c.symbol))
      && Script(h, s, [c.code, c.symbol, extra]) == Commit(t)
  {
    SwitchNames(blocks, h.types.2, blocks.later[0]);
    hide Block.Switch, Blocks.Names;
  }

  lemma EnterDistances(h: Header, s: Live, blocks: Blocks, b: seq<Bit01>)
    requires Works(h) && s.phase == PostDecode && s.distance == blocks.Seen() && !s.implicit
    requires CanEnter(h, 2, blocks, h.types.2)
    ensures Commands(h).Run(s, EnterBits(h, 2, blocks, h.types.2) + b)
         == Commands(h).Run(s.(distance := blocks.Entered(h.types.2).Seen()), b)
  {
    hide Machine<Live>.Run, Machine<Live>.Valid, Machine<Live>.Progress, ChangeBits, Script, Spells, Pow2;
    if blocks.Due(h.types.2) {
      var c := blocks.later[0];
      var t := s.(distance := blocks.Entered(h.types.2).Seen());
      EnterDistancesScripts(h, s, blocks, c.length - h.lengthOffset(c.symbol), t);
      ChangeRead(h, s, 2, blocks, h.types.2, c, t, b);
    } else {
      assert [] + b == b;
    }
  }

  /** The lengths of a command. */
  lemma LengthsRead(h: Header, s: Live, blocks: Blocks, p: Plan, b: seq<Bit01>) returns (t: Live)
    requires Works(h) && s.phase == Begin && CanWriteLengths(h, blocks, p)
    requires s.command == blocks.Entered(h.types.1).Seen()
    ensures Commands(h).Run(s, LengthsBits(h, blocks, p) + b) == Commands(h).Run(t, b)
    ensures var cell := h.cells(p.symbol);
      t == s.(phase := if p.literals == [] then PostDecode else Inner, switched := false,
              command := blocks.Entered(h.types.1).Used(h.types.1).Seen(), insert := |p.literals|, copy := p.copy,
              implicit := cell.implicit, context := cell.context)
  {
    hide Machine<Live>.Run, Machine<Live>.Valid, Machine<Live>.Progress, Pow2, Script, Spells;
    var cell := h.cells(p.symbol);
    var x, y := |p.literals| - cell.insertOffset, p.copy - cell.copyOffset;
    t := StartCommand(s, h.types.1, cell, x, y);
    StartRead(h, s, p.symbol, x, y, b);
  }

  lemma StartRead(h: Header, s: Live, v: nat, x: nat, y: nat, b: seq<Bit01>)
    requires Works(h) && s.phase == Begin && !Exhausted(h.types.1, s.command)
    requires Spelled(h.codes[h.commandTree(s.command.current)], v)
    requires x < Pow2(h.cells(v).insertBits) && y < Pow2(h.cells(v).copyBits)
    ensures var w := Spell(h.codes[h.commandTree(s.command.current)], v);
      Commands(h).Run(s, w + (BitsOf(x, h.cells(v).insertBits) + BitsOf(y, h.cells(v).copyBits)) + b)
      == Commands(h).Run(StartCommand(s, h.types.1, h.cells(v), x, y), b)
  {
    hide Machine<Live>.Run, Machine<Live>.Parse, Machine<Live>.Valid, Machine<Live>.Progress, Pow2, Script, Spells;
    hide StartCommand, BitsOf;
    var m, i, n1, n2 := Commands(h), h.commandTree(s.command.current), h.cells(v).insertBits, h.cells(v).copyBits;
    var w1, w2, w3 := Spell(h.codes[i], v), BitsOf(x, n1), BitsOf(y, n2);
    StartScripts(h, s, v, x, y);
    assert [] + [v] == [v] && [v] + [x] == [v, x] && [v, x] + [y] == [v, x, y];
    WriteSymbol(m, s, [], i, v, w2 + (w3 + b));
    WriteBits(m, s, [v], n1, x, w3 + b);
    WriteBits(m, s, [v, x], n2, y, b);
    JoinThree(w1, w2, w3, b);
    ReadThree(m, s, v, x, y, w1 + (w2 + (w3 + b)), w2 + (w3 + b), w3 + b, b, |w1|, n1, n2,
              StartCommand(s, h.types.1, h.cells(v), x, y));
  }

  /** Symbol, insert bits, copy bits. */
  lemma StartScripts(h: Header, s: Live, symbol: nat, x: nat, y: nat)
    requires s.phase == Begin && !Exhausted(h.types.1, s.command)
    ensures Script(h, s, []) == Read.Symbol(h.commandTree(s.command.current))
    ensures Script(h, s, [symbol]) == Bits(h.cells(symbol).insertBits)
    ensures Script(h, s, [symbol, x]) == Bits(h.cells(symbol).copyBits)
    ensures Script(h, s, [symbol, x, y]) == Commit(StartCommand(s, h.types.1, h.cells(symbol), x, y))
  {
  }

  /** One literal in its block. */
  lemma LiteralRead(h: Header, s: Live, blocks: Blocks, v: Byte, b: seq<Bit01>)
    requires Works(h) && s.phase == Inner && s.literal == blocks.Seen() && CanEnter(h, 0, blocks, h.types.0)
    requires Spelled(h.codes[h.literalTree(blocks.Entered(h.types.0).current, s.out.history + s.literals)], v)
    ensures var w := Spell(h.codes[h.literalTree(blocks.Entered(h.types.0).current, s.out.history + s.literals)], v);
      Commands(h).Run(s, EnterBits(h, 0, blocks, h.types.0) + (w + b))
      == Commands(h).Run(AddLiteral(h, s.(literal := blocks.Entered(h.types.0).Seen()), v), b)
  {
    hide Machine<Live>.Run, Machine<Live>.Valid, Machine<Live>.Progress, Pow2, EnterBits, Script, AddLiteral, Spells;
    var entered := blocks.Entered(h.types.0);
    var t := s.(literal := entered.Seen(), switched := s.switched || blocks.Due(h.types.0));
    var w := Spell(h.codes[h.literalTree(entered.current, s.out.history + s.literals)], v);
    EnteredNotDue(h, 0, blocks, h.types.0);
    EnterLiterals(h, s, blocks, w + b);
    SameLiteral(h, s.(literal := entered.Seen()), t.switched, v);
    OneLiteral(h, t, v, b);
  }

  lemma OneLiteral(h: Header, s: Live, v: Byte, b: seq<Bit01>)
    requires Works(h) && s.phase == Inner && !Exhausted(h.types.0, s.literal)
    requires Spelled(h.codes[h.literalTree(s.literal.current, s.out.history + s.literals)], v)
    ensures var w := Spell(h.codes[h.literalTree(s.literal.current, s.out.history + s.literals)], v);
      Commands(h).Run(s, w + b) == Commands(h).Run(AddLiteral(h, s, v), b)
  {
    hide Machine<Live>.Run, Machine<Live>.Valid, Machine<Live>.Progress, Script, AddLiteral, Spells;
    LiteralScripts(h, s, v);
    SymbolOnly(h, s, h.literalTree(s.literal.current, s.out.history + s.literals), v, b, AddLiteral(h, s, v));
  }

  lemma SameLiteral(h: Header, s: Live, switched: bool, v: Byte)
    requires s.phase == Inner
    ensures AddLiteral(h, s.(switched := switched), v) == AddLiteral(h, s, v)
  {
    hide Lz77.Execute;
  }

  lemma LiteralScripts(h: Header, s: Live, v: Byte)
    requires s.phase == Inner && !Exhausted(h.types.0, s.literal)
    ensures Script(h, s, []) == Read.Symbol(h.literalTree(s.literal.current, s.out.history + s.literals))
    ensures Script(h, s, [v]) == Commit(AddLiteral(h, s, v))
  {
  }

  /** The state when the literals of a command are read. */
  function AllLiterals(h: Header, s: Live, blocks: Blocks, literals: seq<Byte>): (t: Live)
    requires s.phase == Inner && literals != [] && s.insert == |s.literals| + |literals|
  {
    var all := s.literals + literals;
    if s.insert < s.out.remaining then
      s.(phase := PostDecode, literals := all, literal := blocks.Seen(), switched := false)
    else
      var c := Lz77.Command(all, s.copy, Lz77.Last);
      Lz77.ExecuteRecent(s.out, c, s.maxBackward, h.words);
      Ended(s.maxBackward, Lz77.Execute(s.out, c, s.maxBackward, h.words), s.executed + [c])
  }

  lemma LiteralStep(h: Header, s: Live, before: Blocks, blocks: Blocks, v: Byte, more: seq<Byte>, after: Blocks)
    requires s.phase == Inner && s.insert == |s.literals| + 1 + |more|
    requires blocks == before.Entered(h.types.0) && !blocks.Due(h.types.0)
    requires more == [] ==> after == blocks.Used(h.types.0)
    ensures var t := AddLiteral(h, s.(literal := blocks.Seen()), v);
      && (more == [] ==> t == AllLiterals(h, s, after, [v]))
      && (more != [] ==> t.phase == Inner && t.literal == blocks.Used(h.types.0).Seen())
      && (more != [] ==> t.literals == s.literals + [v] && t.out == s.out && t.insert == |t.literals| + |more|)
      && (more != [] ==> AllLiterals(h, t, after, more) == AllLiterals(h, s, after, [v] + more))
  {
    assert s.literals + [v] + more == s.literals + ([v] + more);
  }

  /** The literals of a command, each in its block and in the tree for the bytes before it. */
  lemma {:induction false} LiteralsRead(h: Header, s: Live, blocks: Blocks, literals: seq<Byte>, b: seq<Bit01>)
    requires Works(h) && s.phase == Inner && s.literal == blocks.Seen() && literals != []
    requires s.insert == |s.literals| + |literals|
    requires CanWriteLiterals(h, blocks, s.out.history + s.literals, literals)
    ensures Commands(h).Run(s, LiteralsBits(h, blocks, s.out.history + s.literals, literals) + b)
         == Commands(h).Run(AllLiterals(h, s, AfterLiterals(blocks, h.types.0, |literals|), literals), b)
    decreases |literals|
  {
    hide Machine<Live>.Run, Machine<Live>.Valid, Machine<Live>.Progress, Script, Spells, AddLiteral, AllLiterals;
    var past, v, more := s.out.history + s.literals, literals[0], literals[1..];
    var entered := blocks.Entered(h.types.0);
    var next, after := entered.Used(h.types.0), AfterLiterals(blocks, h.types.0, |literals|);
    var e, w := EnterBits(h, 0, blocks, h.types.0), Spell(h.codes[h.literalTree(entered.current, past)], v);
    var rest := LiteralsBits(h, next, past + [v], more) + b;
    assert LiteralsBits(h, blocks, past, literals) + b == e + (w + rest);
    LiteralRead(h, s, blocks, v, rest);
    EnteredNotDue(h, 0, blocks, h.types.0);
    assert literals == [v] + more;
    assert more == [] ==> after == next by {
      if more == [] { assert AfterLiterals(next, h.types.0, 0) == next; }
    }
    LiteralStep(h, s, blocks, entered, v, more, after);
    var t := AddLiteral(h, s.(literal := entered.Seen()), v);
    if more == [] {
      assert literals == [v] && rest == b;
    } else {
      assert s.out.history + t.literals == past + [v];
      LiteralsRead(h, t, next, more, b);
    }
  }

  lemma EnteredNotDue(h: Header, category: nat, blocks: Blocks, types: nat)
    requires h.Valid() && category < 3 && CanEnter(h, category, blocks, types)
    ensures !blocks.Entered(types).Due(types) && blocks.Entered(types).Sane(types)
  {
  }

  /** The distance of a command, if there is one to read. */
  lemma DistanceRead(h: Header, s: Live, blocks: Blocks, d: Lz77.DistanceSymbol, b: seq<Bit01>)
    requires Works(h) && s.phase == PostDecode && s.distance == blocks.Seen()
    requires CanWriteDistance(h, blocks, s.context, s.implicit, d)
    ensures var after := if s.implicit then blocks else blocks.Entered(h.types.2).Used(h.types.2);
      Commands(h).Run(s, DistanceBits(h, blocks, s.context, s.implicit, d) + b)
      == Commands(h).Run(FinishCommand(h, s.(distance := after.Seen()), d), b)
  {
    hide Machine<Live>.Run, Machine<Live>.Parse, Machine<Live>.Valid, Machine<Live>.Progress, Spells, FinishCommand;
    var m := Commands(h);
    if s.implicit {
      assert [] + b == b && s.(distance := blocks.Seen()) == s;
      m.ParseCommit(s, [], b);
      RunStep(m, s, b, 0, b, FinishCommand(h, s, Lz77.Last));
    } else {
      var entered := blocks.Entered(h.types.2);
      var w := Spell(h.codes[h.distanceTree(entered.current, s.context)], DistanceCode(h, d).0)
        + if d.Direct? then BitsOf(DistanceCode(h, d).1, DistanceTable.ExtraBits(h.format, DistanceCode(h, d).0))
          else [];
      var e := EnterBits(h, 2, blocks, h.types.2);
      assert DistanceBits(h, blocks, s.context, s.implicit, d) + b == e + (w + b);
      EnterDistances(h, s, blocks, w + b);
      EnteredNotDue(h, 2, blocks, h.types.2);
      DistanceCodeRead(h, s.(distance := entered.Seen()), d, b);
      assert entered.Seen().Used(h.types.2) == entered.Used(h.types.2).Seen();
    }
  }

  lemma DistanceCodeRead(h: Header, s: Live, d: Lz77.DistanceSymbol, b: seq<Bit01>)
    requires Works(h) && s.phase == PostDecode && !s.implicit && !Exhausted(h.types.2, s.distance)
    requires d.Valid() && d != Lz77.Last
    requires Spelled(h.codes[h.distanceTree(s.distance.current, s.context)], DistanceCode(h, d).0)
    requires d.Direct? ==> DistanceTable.ExtraBits(h.format, DistanceCode(h, d).0) <= 29
    ensures var w := Spell(h.codes[h.distanceTree(s.distance.current, s.context)], DistanceCode(h, d).0)
        + if d.Direct? then BitsOf(DistanceCode(h, d).1, DistanceTable.ExtraBits(h.format, DistanceCode(h, d).0))
          else [];
      Commands(h).Run(s, w + b)
      == Commands(h).Run(FinishCommand(h, s.(distance := s.distance.Used(h.types.2)), d), b)
  {
    hide Machine<Live>.Run, Machine<Live>.Valid, Machine<Live>.Progress, Spells, FinishCommand, Script;
    hide DistanceTable.Encode, DistanceTable.ExtraBits, DistanceTable.Distance, Pow2, BitsOf;
    var i, t := h.distanceTree(s.distance.current, s.context), s.(distance := s.distance.Used(h.types.2));
    var (code, extra) := DistanceCode(h, d);
    var w := Spell(h.codes[i], code);
    DistanceScripts(h, s, d, FinishCommand(h, t, d));
    match d
    case Short(_) =>
      assert w + [] + b == w + b;
      SymbolOnly(h, s, i, code, b, FinishCommand(h, t, d));
    case Direct(distance) =>
      var n := DistanceTable.ExtraBits(h.format, code);
      DistanceTable.EncodeDecode(h.format, distance);
      assert w + BitsOf(extra, n) + b == w + (BitsOf(extra, n) + b);
      SymbolAndBits(h, s, i, code, n, extra, b, FinishCommand(h, t, d));
  }

  /** Code, then extra bits if it is not one for the cache. */
  lemma DistanceScripts(h: Header, s: Live, d: Lz77.DistanceSymbol, t: Live)
    requires h.Valid() && s.phase == PostDecode && !s.implicit && !Exhausted(h.types.2, s.distance)
    requires d.Valid() && d != Lz77.Last && t == FinishCommand(h, s.(distance := s.distance.Used(h.types.2)), d)
    requires d.Direct? ==> DistanceTable.ExtraBits(h.format, DistanceCode(h, d).0) <= 29
    ensures Script(h, s, []) == Read.Symbol(h.distanceTree(s.distance.current, s.context))
    ensures d.Short? ==> Script(h, s, [d.code]) == Commit(t)
    ensures d.Direct? ==> var (code, extra) := DistanceTable.Encode(h.format, d.distance);
      Script(h, s, [code]) == Bits(DistanceTable.ExtraBits(h.format, code)) && Script(h, s, [code, extra]) == Commit(t)
  {
    hide DistanceTable.Encode, DistanceTable.ExtraBits, DistanceTable.Distance, FinishCommand;
    if d.Direct? { DistanceTable.EncodeDecode(h.format, d.distance); }
  }

  lemma SymbolOnly(h: Header, s: Live, i: nat, code: nat, b: seq<Bit01>, t: Live)
    requires Works(h) && s.phase != Over && i < |h.codes| && Spelled(h.codes[i], code)
    requires Script(h, s, []) == Read.Symbol(i) && Script(h, s, [code]) == Commit(t)
    ensures Commands(h).Run(s, Spell(h.codes[i], code) + b) == Commands(h).Run(t, b)
  {
    hide Machine<Live>.Run, Machine<Live>.Parse, Machine<Live>.Valid, Machine<Live>.Progress, Spells, Script;
    var m, w := Commands(h), Spell(h.codes[i], code);
    assert [] + [code] == [code] && (w + b)[|w|..] == b;
    WriteSymbol(m, s, [], i, code, b);
    m.ParseCommit(s, [code], b);
    RunStep(m, s, w + b, |w|, b, t);
  }

  lemma SymbolAndBits(h: Header, s: Live, i: nat, code: nat, n: nat, extra: nat, b: seq<Bit01>, t: Live)
    requires Works(h) && s.phase != Over && i < |h.codes| && Spelled(h.codes[i], code) && extra < Pow2(n)
    requires Script(h, s, []) == Read.Symbol(i) && Script(h, s, [code]) == Bits(n)
    requires Script(h, s, [code, extra]) == Commit(t)
    ensures Commands(h).Run(s, Spell(h.codes[i], code) + (BitsOf(extra, n) + b)) == Commands(h).Run(t, b)
  {
    hide Machine<Live>.Run, Machine<Live>.Parse, Machine<Live>.Valid, Machine<Live>.Progress, Spells, Script;
    var m, w, x := Commands(h), Spell(h.codes[i], code), BitsOf(extra, n);
    assert [] + [code] == [code] && [code] + [extra] == [code, extra];
    assert (w + (x + b))[|w| + n..] == b;
    WriteSymbol(m, s, [], i, code, x + b);
    WriteBits(m, s, [code], n, extra, b);
    m.ParseCommit(s, [code, extra], b);
    RunStep(m, s, w + (x + b), |w| + n, b, t);
  }

  /** The reader is where the writer is, between two commands. */
  ghost predicate Matches(s: Live, w: Writer) {
    && s.phase == Begin && s.out == w.out && s.maxBackward == w.maxBackward
    && s.literal == w.literal.Seen() && s.command == w.command.Seen() && s.distance == w.distance.Seen()
  }

  /** What a command leads to. */
  ghost predicate Reaches(h: Header, s: Live, w: Writer, p: Plan, t: Live)
    requires p.distance.Valid() && Lz77.Positive(w.out.cache)
  {
    var next := Next(h, w, p);
    && t.out == next.out && t.maxBackward == next.maxBackward && t.executed == s.executed + [Command(p)]
    && (if t.out.status.Running? then Matches(t, next) else t.phase == Over)
  }

  /** A command that is written is read back and executed. */
  lemma PlanRead(h: Header, s: Live, w: Writer, p: Plan, b: seq<Bit01>) returns (t: Live)
    requires Works(h) && Matches(s, w) && CanWrite(h, w, p)
    ensures p.distance.Valid() && Commands(h).Run(s, PlanBits(h, w, p) + b) == Commands(h).Run(t, b)
    ensures Reaches(h, s, w, p, t)
  {
    hide Machine<Live>.Run, Machine<Live>.Valid, Machine<Live>.Progress, Spells, EnterBits, LengthsBits, LiteralsBits;
    hide DistanceBits, CanWriteLengths, CanWriteLiterals, CanWriteDistance, Lz77.Execute;
    PlanDistance(h, w, p);
    var cell := h.cells(p.symbol);
    var d := if EndsEarly(w, p) then [] else DistanceBits(h, w.distance, cell.context, cell.implicit, p.distance);
    var l := LiteralsBits(h, w.literal, w.out.history, p.literals) + (d + b);
    assert PlanBits(h, w, p) + b == EnterBits(h, 1, w.command, h.types.1) + (LengthsBits(h, w.command, p) + l);
    t := HeadRead(h, s, w, p, l);
    if p.literals == [] {
      assert l == d + b by { NoLiterals(h, w.literal, w.out.history); }
      t := TailRead(h, s, w, p, t, b);
    } else {
      assert w.out.history + t.literals == w.out.history;
      LiteralsRead(h, t, w.literal, p.literals, d + b);
      t := AllLiterals(h, t, AfterLiterals(w.literal, h.types.0, |p.literals|), p.literals);
      assert [] + p.literals == p.literals;
      if EndsEarly(w, p) {
        assert d + b == b;
        EarlyEnd(h, w, p);
      } else {
        t := TailRead(h, s, w, p, t, b);
      }
    }
  }

  lemma PlanDistance(h: Header, w: Writer, p: Plan)
    requires h.Valid() && CanWrite(h, w, p)
    ensures p.distance.Valid() && CanEnter(h, 1, w.command, h.types.1)
  {
  }

  lemma NoLiterals(h: Header, blocks: Blocks, past: seq<Byte>)
    requires h.Valid()
    ensures CanWriteLiterals(h, blocks, past, []) && LiteralsBits(h, blocks, past, []) == []
  {
  }

  lemma EarlyEnd(h: Header, w: Writer, p: Plan)
    requires EndsEarly(w, p) && p.distance == Lz77.Last && Lz77.Positive(w.out.cache)
    ensures !Lz77.Execute(w.out, Command(p), w.maxBackward, h.words).status.Running?
  {
  }

  lemma HeadRead(h: Header, s: Live, w: Writer, p: Plan, b: seq<Bit01>) returns (t: Live)
    requires Works(h) && Matches(s, w) && CanWriteLengths(h, w.command, p)
    ensures CanEnter(h, 1, w.command, h.types.1)
    ensures Commands(h).Run(s, EnterBits(h, 1, w.command, h.types.1) + (LengthsBits(h, w.command, p) + b))
         == Commands(h).Run(t, b)
    ensures var cell := h.cells(p.symbol);
      t == s.(phase := if p.literals == [] then PostDecode else Inner, switched := false,
              command := w.command.Entered(h.types.1).Used(h.types.1).Seen(), insert := |p.literals|, copy := p.copy,
              implicit := cell.implicit, context := cell.context)
  {
    hide Machine<Live>.Run, Machine<Live>.Valid, Machine<Live>.Progress, Spells, EnterBits, LengthsBits;
    EnterCommands(h, s, w.command, LengthsBits(h, w.command, p) + b);
    t := LengthsRead(h, s.(command := w.command.Entered(h.types.1).Seen()), w.command, p, b);
  }

  /** The end of a command whose literals are read. */
  lemma TailRead(h: Header, s: Live, w: Writer, p: Plan, u: Live, b: seq<Bit01>) returns (t: Live)
    requires Works(h) && Matches(s, w) && CanWrite(h, w, p) && !EndsEarly(w, p)
    requires u.phase == PostDecode && u.literals == p.literals && u.out == w.out && u.maxBackward == w.maxBackward
    requires u.copy == p.copy && u.executed == s.executed && u.distance == s.distance
    requires u.implicit == h.cells(p.symbol).implicit && u.context == h.cells(p.symbol).context
    requires u.literal == AfterLiterals(w.literal, h.types.0, |p.literals|).Seen()
    requires u.command == w.command.Entered(h.types.1).Used(h.types.1).Seen()
    ensures p.distance.Valid() && Reaches(h, s, w, p, t)
    ensures var cell := h.cells(p.symbol);
      Commands(h).Run(u, DistanceBits(h, w.distance, cell.context, cell.implicit, p.distance) + b)
      == Commands(h).Run(t, b)
  {
    hide Machine<Live>.Run, Machine<Live>.Valid, Machine<Live>.Progress, Spells, DistanceBits, Lz77.Execute;
    hide CanWriteLengths, CanWriteLiterals;
    var after := if u.implicit then w.distance else w.distance.Entered(h.types.2).Used(h.types.2);
    DistanceRead(h, u, w.distance, p.distance, b);
    t := FinishCommand(h, u.(distance := after.Seen()), p.distance);
  }

  /** Commands one after the other, each on the output of those before it. */
  ghost predicate CanWriteAll(h: Header, w: Writer, ps: seq<Plan>)
    requires h.Valid() && Lz77.Positive(w.out.cache)
    decreases |ps|
  {
    ps == [] || (w.out.status.Running? && CanWrite(h, w, ps[0]) && ps[0].distance.Valid()
                 && CanWriteAll(h, Next(h, w, ps[0]), ps[1..]))
  }

  ghost function PlansBits(h: Header, w: Writer, ps: seq<Plan>): (bits: seq<Bit01>)
    requires h.Valid() && Lz77.Positive(w.out.cache) && CanWriteAll(h, w, ps)
    decreases |ps|
  {
    if ps == [] then [] else PlanBits(h, w, ps[0]) + PlansBits(h, Next(h, w, ps[0]), ps[1..])
  }

  /** The commands of a meta-block that are written are read back, with their block switches, and
      executed; nothing behind them is touched. */
  lemma {:induction false} PlansRead(h: Header, s: Live, w: Writer, ps: seq<Plan>, b: seq<Bit01>) returns (t: Live)
    requires Works(h) && Matches(s, w) && CanWriteAll(h, w, ps)
    ensures Commands(h).Run(s, PlansBits(h, w, ps) + b) == Commands(h).Run(t, b)
    ensures t.executed == s.executed + Listed(ps) && Lz77.ValidCommands(Listed(ps))
    ensures t.out == Lz77.ExecuteAll(w.out, Listed(ps), w.maxBackward, h.words)
    ensures !t.out.status.Running? ==> Commands(h).Run(t, b) == (t, b)
    decreases |ps|
  {
    hide Machine<Live>.Run, Machine<Live>.Valid, Machine<Live>.Progress, CanWrite, PlanBits, Lz77.Execute, Next;
    if ps == [] {
      t := s;
      assert [] + b == b && s.executed + [] == s.executed;
    } else {
      var p, more := ps[0], ps[1..];
      NextOut(h, w, p);
      var rest := PlansBits(h, Next(h, w, p), more) + b;
      assert PlansBits(h, w, ps) + b == PlanBits(h, w, p) + rest;
      var u := PlanRead(h, s, w, p, rest);
      assert Listed(ps) == [Command(p)] + Listed(more);
      assert s.executed + [Command(p)] + Listed(more) == s.executed + Listed(ps);
      if u.out.status.Running? {
        t := PlansRead(h, u, Next(h, w, p), more, b);
      } else {
        assert more == [] && rest == b;
        t := u;
        RunOver(h, t, b);
      }
    }
  }

  lemma NextOut(h: Header, w: Writer, p: Plan)
    requires p.distance.Valid() && Lz77.Positive(w.out.cache)
    ensures var next := Next(h, w, p);
      && next.out == Lz77.Execute(w.out, Command(p), w.maxBackward, h.words) && next.maxBackward == w.maxBackward
      && Lz77.Positive(next.out.cache)
  {
  }

  lemma RunOver(h: Header, t: Live, b: seq<Bit01>)
    requires Works(h) && t.phase == Over
    ensures Commands(h).Run(t, b) == (t, b)
  {
  }

  /** The bits are those of these commands, which end the meta-block, and of what follows it. */
  ghost predicate Written(h: Header, s: Live, w: Writer, ps: seq<Plan>, bits: seq<Bit01>, b: seq<Bit01>)
    requires h.Valid()
  {
    && Matches(s, w) && CanWriteAll(h, w, ps) && bits == PlansBits(h, w, ps) + b && Lz77.ValidCommands(Listed(ps))
    && !Lz77.ExecuteAll(w.out, Listed(ps), w.maxBackward, h.words).status.Running?
  }

  /** Then reading stops behind them, after executing exactly these commands. */
  lemma WrittenRead(h: Header, s: Live, w: Writer, ps: seq<Plan>, bits: seq<Bit01>, b: seq<Bit01>)
    requires Works(h) && Written(h, s, w, ps, bits, b)
    ensures var (t, rest) := Commands(h).Run(s, bits);
      t.phase == Over && t.executed == s.executed + Listed(ps) && rest == b
  {
    hide Machine<Live>.Run, Machine<Live>.Valid, Machine<Live>.Progress, CanWriteAll, PlansBits, Lz77.ExecuteAll;
    var t := PlansRead(h, s, w, ps, b);
  }

  lemma AllWritten(h: Header, s: Live, bits: seq<Bit01>)
    requires Works(h)
    ensures forall w, ps, b :: Written(h, s, w, ps, bits, b) ==>
      var (t, rest) := Commands(h).Run(s, bits);
      t.phase == Over && t.executed == s.executed + Listed(ps) && rest == b
  {
    hide Machine<Live>.Run, Machine<Live>.Valid, Machine<Live>.Progress, Written;
    forall w, ps, b | Written(h, s, w, ps, bits, b)
      ensures var (t, rest) := Commands(h).Run(s, bits);
        t.phase == Over && t.executed == s.executed + Listed(ps) && rest == b
    {
      WrittenRead(h, s, w, ps, bits, b);
    }
  }
}
