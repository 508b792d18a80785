/** Reading the commands of a meta-block from its bits: block switches, commands, literals and
    distances as transactions of the restartable decoder. */
module CommandReader {
  import opened Arith
  import opened Wrappers
  import opened PrefixCode
  import opened HuffmanTable
  import opened BitReader
  import opened Restart
  import opened Streaming
  import Distances
  import DistanceTable
  import Lz77

  const MAX_INSERT_OFFSET := 22594

  /** What an insert-and-copy symbol stands for. */
  datatype Cell = Cell(insertBits: nat, copyBits: nat, insertOffset: nat, copyOffset: nat, implicit: bool, context: nat)

  type ValidCell = c: Cell | c.insertBits <= 24 && c.copyBits <= 24
      && c.insertOffset <= MAX_INSERT_OFFSET && c.copyOffset > 0
    witness Cell(0, 0, 0, 1, false, 0)

  type Count = n: nat | n > 0 witness 1

  type CountBits = n: nat | n <= 24

  /** What is fixed before the first command of a meta-block. Trees 0 to 2 are those of block
      types, 3 to 5 those of block lengths, by category: literals, commands, distances. */
  datatype Header = Header(
    tables: seq<seq<HuffmanCode>>,
    ghost codes: seq<Code>,
    types: (nat, nat, nat),
    literalTree: (nat, seq<Byte>) -> nat,
    commandTree: nat -> nat,
    distanceTree: (nat, nat) -> nat,
    cells: nat -> ValidCell,
    lengthBits: nat -> CountBits,
    lengthOffset: nat -> Count,
    format: DistanceTable.Format,
    words: Lz77.Dictionary)
  {
    ghost predicate Valid() {
      && |codes| == |tables| >= 6 && format.Valid()
      && (forall i :: 0 <= i < |tables| ==> codes[i].Valid() && Describes(tables[i], codes[i]))
      && (forall t, h :: literalTree(t, h) < |tables|)
      && (forall t :: commandTree(t) < |tables|)
      && (forall t, c :: distanceTree(t, c) < |tables|)
    }

    /** The extra bits of a distance code. `DistanceTable.ExtraBound`: no code within the
        distances of a stream has more than 29. */
    function ExtraBits(code: nat): (n: nat)
      requires code >= DistanceTable.FIRST_CODE
      ensures n <= 29
    {
      Min(DistanceTable.ExtraBits(format, code), 29)
    }
  }

  /** The addresses that a command can name without taking a bit. */
  const NEAR := DistanceTable.MAX_NDIRECT

  /** No word at such an address is transformed to nothing. */
  ghost predicate Productive(words: Lz77.Dictionary) {
    forall n: nat, a: nat :: 0 < n && a < NEAR && words(n, a).Some? ==> |words(n, a).value| > 0
  }

  datatype Phase = Begin | Inner | PostDecode | Over

  /** The current block of a category: symbols left, and the last two block types. */
  datatype Block = Block(left: nat, previous: nat, current: nat) {
    /** One symbol less; the only block of a category with a single type has no end. */
    function Used(types: nat): Block { if types <= 1 || left == 0 then this else this.(left := left - 1) }

    /** `DecodeBlockTypeAndLength`: type codes 0 and 1 are the type before the current one
        and the type after it. */
    function Switch(code: nat, types: nat, length: nat): Block {
      var t := if code == 1 then current + 1 else if code == 0 then previous else code - 2;
      Block(length, current, if t >= types then t - types else t)
    }
  }

  /** Where the decoder is in a meta-block, its output and the commands executed so far. */
  datatype Progression = Progression(
    phase: Phase, literal: Block, command: Block, distance: Block, switched: bool,
    insert: nat, copy: nat, implicit: bool, context: nat, literals: seq<Byte>, maxBackward: nat, out: Lz77.State,
    executed: seq<Lz77.Command>)

  ghost predicate Alive(s: Progression) {
    && Lz77.Positive(s.out.cache) && Lz77.Recent(s.out, s.maxBackward) && Lz77.ValidCommands(s.executed)
    && (s.phase != Over <==> s.out.status.Running?) && (s.phase != Over ==> s.out.remaining > 0)
    && (s.out.status.Done? ==> s.out.remaining == 0)
    && (s.phase == Inner ==> s.copy > 0 && |s.literals| < s.insert)
    && (s.phase == PostDecode ==> s.copy > 0 && |s.literals| < s.out.remaining)
    && (s.phase == Begin ==> s.literals == [])
  }

  type Live = s: Progression | Alive(s)
    ghost witness Ended(0, Lz77.State([], Distances.INITIAL, 0, Lz77.Done), [])

  function Ended(maxBackward: nat, out: Lz77.State, executed: seq<Lz77.Command>): Progression {
    var b := Block(0, 0, 0);
    Progression(Over, b, b, b, false, 0, 0, false, 0, [], maxBackward, out, executed)
  }

  predicate Exhausted(types: nat, b: Block) {
    types > 1 && b.left == 0
  }

  /** The reads of a block switch, up to the new block. */
  function SwitchScript(h: Header, category: nat, b: Block, types: nat, vs: seq<nat>): Switching {
    if |vs| == 0 then More(Read.Symbol(category))
    else if |vs| == 1 then More(Read.Symbol(3 + category))
    else if |vs| == 2 then More(Bits(h.lengthBits(vs[1])))
    else To(b.Switch(vs[0], types, h.lengthOffset(vs[1]) + vs[2]))
  }

  datatype Switching = More(read: Read<Live>) | To(block: Block)

  /** A command read: its insert and copy lengths. */
  function StartCommand(s: Live, types: nat, cell: ValidCell, insertExtra: nat, copyExtra: nat): Live
    requires s.phase == Begin
  {
    var insert := cell.insertOffset + insertExtra;
    s.(phase := if insert == 0 then PostDecode else Inner, command := s.command.Used(types), switched := false,
       insert := insert, copy := cell.copyOffset + copyExtra, implicit := cell.implicit, context := cell.context)
  }

  /** One more literal; the last one may end the meta-block. */
  function AddLiteral(h: Header, s: Live, v: nat): Live
    requires s.phase == Inner
  {
    var literals := s.literals + [v % 256];
    var t := s.(literals := literals, literal := s.literal.Used(h.types.0), switched := false);
    if |literals| < s.insert then t
    else if s.insert < s.out.remaining then t.(phase := PostDecode)
    else
      var c := Lz77.Command(literals, s.copy, Lz77.Last);
      Lz77.ExecuteRecent(s.out, c, s.maxBackward, h.words);
      Ended(s.maxBackward, Lz77.Execute(s.out, c, s.maxBackward, h.words), s.executed + [c])
  }

  /** The command with its distance, executed. */
  function FinishCommand(h: Header, s: Live, symbol: Lz77.DistanceSymbol): Live
    requires symbol.Valid() && s.phase == PostDecode
  {
    var c := Lz77.Command(s.literals, s.copy, symbol);
    Lz77.ExecuteRecent(s.out, c, s.maxBackward, h.words);
    var out := Lz77.Execute(s.out, c, s.maxBackward, h.words);
    if out.status.Running? then s.(phase := Begin, literals := [], out := out, executed := s.executed + [c])
    else Ended(s.maxBackward, out, s.executed + [c])
  }

  function BeginScript(h: Header, s: Live, vs: seq<nat>): Read<Live>
    requires s.phase == Begin
  {
    if Exhausted(h.types.1, s.command) then
      match SwitchScript(h, 1, s.command, h.types.1, vs)
      case More(read) => read
      case To(b) => Commit(s.(command := b))
    else if |vs| == 0 then Read.Symbol(h.commandTree(s.command.current))
    else if |vs| == 1 then Bits(h.cells(vs[0]).insertBits)
    else if |vs| == 2 then Bits(h.cells(vs[0]).copyBits)
    else Commit(StartCommand(s, h.types.1, h.cells(vs[0]), vs[1], vs[2]))
  }

  function InnerScript(h: Header, s: Live, vs: seq<nat>): Read<Live>
    requires s.phase == Inner
  {
    if Exhausted(h.types.0, s.literal) then
      match SwitchScript(h, 0, s.literal, h.types.0, vs)
      case More(read) => read
      case To(b) => Commit(s.(literal := b, switched := true))
    else if |vs| == 0 then Read.Symbol(h.literalTree(s.literal.current, s.out.history + s.literals))
    else Commit(AddLiteral(h, s, vs[0]))
  }

  function DistanceScript(h: Header, s: Live, vs: seq<nat>): Read<Live>
    requires s.phase == PostDecode
  {
    if s.implicit then Commit(FinishCommand(h, s, Lz77.Last))
    else if Exhausted(h.types.2, s.distance) then
      match SwitchScript(h, 2, s.distance, h.types.2, vs)
      case More(read) => read
      case To(b) => Commit(s.(distance := b))
    else if |vs| == 0 then Read.Symbol(h.distanceTree(s.distance.current, s.context))
    else
      var t := s.(distance := s.distance.Used(h.types.2));
      if vs[0] < Distances.NUM_SHORT_CODES then Commit(FinishCommand(h, t, Lz77.Short(vs[0])))
      else if |vs| == 1 then Bits(h.ExtraBits(vs[0]))
      else Commit(FinishCommand(h, t, Lz77.Direct(DistanceTable.Distance(h.format, vs[0], vs[1]))))
  }

  /** The reads of `ProcessCommands` in each of its states. */
  function Script(h: Header, s: Live, vs: seq<nat>): Read<Live> {
    match s.phase
    case Begin => BeginScript(h, s, vs)
    case Inner => InnerScript(h, s, vs)
    case PostDecode => DistanceScript(h, s, vs)
    case Over => Commit(s)
  }

  /** Whether the next transaction of a state is a block switch. */
  predicate Switches(h: Header, s: Live) {
    match s.phase
    case Begin => Exhausted(h.types.1, s.command)
    case Inner => Exhausted(h.types.0, s.literal)
    case PostDecode => !s.implicit && Exhausted(h.types.2, s.distance)
    case Over => false
  }

  /** The most bits a transaction can still take after `k` reads. */
  function Budget(h: Header, s: Live, k: nat): nat {
    if Switches(h, s) then (if k == 0 then 54 else if k == 1 then 39 else if k == 2 then 24 else 0)
    else
      match s.phase
      case Begin => if k == 0 then 63 else if k == 1 then 48 else if k == 2 then 24 else 0
      case Inner => if k == 0 then 15 else 0
      case PostDecode => if s.implicit then 0 else if k == 0 then 44 else if k == 1 then 29 else 0
      case Over => 0
  }

  /** The most bits up to the next check of the input amount. */
  function Credit(h: Header, s: Live): nat {
    match s.phase
    case Begin => if Switches(h, s) then 54 else 161
    case Inner => if Switches(h, s) then 167 else 113
    case PostDecode => if s.implicit then 0 else if Switches(h, s) then 98 else 44
    case Over => 0
  }

  /** What is left to do without input: output first, then the states of one command. */
  function Rank(h: Header, s: Live): nat {
    var switch := if Switches(h, s) then 1 else 0;
    match s.phase
    case Begin => 131072 * s.out.remaining + 131070 + switch
    case Inner => 131072 * s.out.remaining + 4 * (s.insert - |s.literals|) + switch
    case PostDecode => 131072 * s.out.remaining + 1 + switch
    case Over => 0
  }

  function Commands(h: Header): Machine<Live> {
    Machine(
      (s: Live, vs: seq<nat>) => Script(h, s, vs),
      (s: Live) => if s.phase == Over then Finished else Reading,
      (s: Live) => s,
      (s: Live) => s.phase != Over,
      (s: Live) => s.phase == Begin || (s.phase == Inner && !s.switched),
      h.tables, h.codes,
      (s: Live, vs: seq<nat>) => Budget(h, s, |vs|),
      (s: Live, vs: seq<nat>) => if |vs| < 4 then 4 - |vs| else 0,
      (s: Live) => Credit(h, s),
      (s: Live) => Rank(h, s))
  }

  /** The budgets of the reads: at most 64 bits a transaction. */
  lemma CommandsValid(h: Header)
    requires h.Valid()
    ensures Commands(h).Valid()
  {
    var m := Commands(h);
    forall s: Live, vs ensures m.ValidRead(s, vs) {
      ReadValid(h, s, vs);
    }
    forall s: Live, vs, v ensures m.StepBudget(s, vs, v) {
      ReadBudget(h, s, vs, v);
    }
  }

  lemma ReadValid(h: Header, s: Live, vs: seq<nat>)
    requires h.Valid()
    ensures match Script(h, s, vs)
      case Bits(n) => n <= 32
      case Symbol(i) => i < |h.tables|
      case Commit(_) => true
  {
  }

  lemma ReadBudget(h: Header, s: Live, vs: seq<nat>, v: nat)
    ensures match Script(h, s, vs)
      case Bits(n) => |vs| < 4 && n + Budget(h, s, |vs| + 1) <= Budget(h, s, |vs|)
      case Symbol(_) => |vs| < 4 && MAX_LENGTH + Budget(h, s, |vs| + 1) <= Budget(h, s, |vs|)
      case Commit(_) => true
  {
  }

  /** The checks for 28 bytes are close enough together. */
  lemma CommandsChecked(h: Header)
    ensures Commands(h).Checked()
  {
    var m := Commands(h);
    forall s: Live, vs | s.phase != Over
      ensures var r := Script(h, s, vs);
        r.Commit? && r.next.phase != Over && !m.checks(r.next) ==> Budget(h, s, 0) + Credit(h, r.next) <= Credit(h, s)
    {
      CreditStep(h, s, vs);
    }
  }

  lemma CreditStep(h: Header, s: Live, vs: seq<nat>)
    requires s.phase != Over
    ensures var r := Script(h, s, vs);
      r.Commit? && r.next.phase != Over && r.next.phase != Begin && (r.next.phase == Inner ==> r.next.switched)
      ==> Budget(h, s, 0) + Credit(h, r.next) <= Credit(h, s)
  {
  }

  /** A distance that takes no bits: from the cache, or a direct one. */
  predicate Near(symbol: Lz77.DistanceSymbol) {
    symbol.Direct? ==> symbol.distance <= NEAR
  }

  /** When it names a word, the word's address is small, because the cached distances reach no
      further back than a copy may. */
  lemma NearAddress(s: Live, symbol: Lz77.DistanceSymbol)
    requires symbol.Valid() && Near(symbol)
    ensures var d, max := Lz77.Resolve(symbol, s.out.cache), Min(|s.out.history|, s.maxBackward);
      max < d <= Distances.MAX_ALLOWED_DISTANCE ==> d - max - 1 < NEAR
  {
    hide Lz77.Execute;
  }

  /** A command with such a distance ends the meta-block or puts out at least one byte. */
  lemma ExecuteProgress(h: Header, s: Live, symbol: Lz77.DistanceSymbol)
    requires Productive(h.words) && s.phase == PostDecode && symbol.Valid() && Near(symbol)
    ensures var t := FinishCommand(h, s, symbol); t.phase == Over || t.out.remaining < s.out.remaining
  {
    var out := s.out.(history := s.out.history + s.literals);
    assert Lz77.Recent(out, s.maxBackward);
    NearAddress(s.(out := out), symbol);
    hide Distances.ShortDistance, Lz77.CopyFrom;
  }

  /** A transaction that takes no bits lowers the rank. */
  lemma CommandsProgress(h: Header)
    requires h.Valid() && Productive(h.words) && Commands(h).Valid()
    ensures Commands(h).Progress()
  {
    var m := Commands(h);
    forall s: Live, b | m.kind(s) == Reading && m.Parse(s, [], b).Some? && m.Parse(s, [], b).value.1 == 0
      ensures m.rank(m.Parse(s, [], b).value.0) < m.rank(s)
    {
      StepProgress(h, s, b);
    }
  }

  /** The committed state of a transaction without bits: its values are those of empty reads. */
  ghost predicate Without(h: Header, s: Live, vs: seq<nat>, t: Live) {
    && Script(h, s, vs) == Commit(t)
    && Empty(h, s, vs)
  }

  ghost predicate Empty(h: Header, s: Live, vs: seq<nat>) {
    forall i :: 0 <= i < |vs| ==> EmptyRead(h, Script(h, s, vs[..i]), vs[i])
  }

  ghost predicate EmptyRead(h: Header, read: Read<Live>, v: nat) {
    match read
    case Bits(n) => n == 0 && v == 0
    case Symbol(i) => i < |h.codes| && h.codes[i] == One(v)
    case Commit(_) => true
  }

  lemma EmptyMore(h: Header, s: Live, vs: seq<nat>, v: nat)
    requires Empty(h, s, vs) && EmptyRead(h, Script(h, s, vs), v)
    ensures Empty(h, s, vs + [v])
  {
    hide Script, EmptyRead;
    forall i | 0 <= i < |vs| + 1 ensures EmptyRead(h, Script(h, s, (vs + [v])[..i]), (vs + [v])[i]) {
      assert (vs + [v])[..i] == vs[..i];
      if i == |vs| { assert vs[..i] == vs; }
    }
  }

  lemma {:induction false} ParseWithout(h: Header, s: Live, vs: seq<nat>, b: seq<Bit01>) returns (ws: seq<nat>)
    requires Commands(h).Valid() && Commands(h).Parse(s, vs, b).Some? && Commands(h).Parse(s, vs, b).value.1 == 0
    requires Empty(h, s, vs)
    ensures Without(h, s, ws, Commands(h).Parse(s, vs, b).value.0)
    decreases Commands(h).left(s, vs)
  {
    hide Script, Empty;
    var m := Commands(h);
    assert m.ValidRead(s, vs);
    match m.script(s, vs)
    case Commit(_) => ws := vs;
    case Bits(n) =>
      assert m.StepBudget(s, vs, 0) && n == 0 && b[..0] == [] && b[0..] == b;
      NumberNone();
      EmptyMore(h, s, vs, 0);
      ws := ParseWithout(h, s, vs + [0], b);
    case Symbol(i) =>
      var (v, n) := m.codes[i].Lookup(Number(b));
      assert m.StepBudget(s, vs, v) && n == 0 && b[0..] == b;
      EmptyMore(h, s, vs, v);
      ws := ParseWithout(h, s, vs + [v], b);
  }

  lemma StepProgress(h: Header, s: Live, b: seq<Bit01>)
    requires h.Valid() && Productive(h.words) && Commands(h).Valid() && s.phase != Over
    requires Commands(h).Parse(s, [], b).Some? && Commands(h).Parse(s, [], b).value.1 == 0
    ensures Rank(h, Commands(h).Parse(s, [], b).value.0) < Rank(h, s)
  {
    var ws := ParseWithout(h, s, [], b);
    WithoutLess(h, s, ws, Commands(h).Parse(s, [], b).value.0);
  }

  lemma WithoutLess(h: Header, s: Live, vs: seq<nat>, t: Live)
    requires h.Valid() && Productive(h.words) && s.phase != Over && Without(h, s, vs, t)
    ensures Rank(h, t) < Rank(h, s)
  {
    match s.phase
    case Begin => BeginLess(h, s, vs, t);
    case Inner => InnerLess(h, s, vs, t);
    case PostDecode => DistanceLess(h, s, vs, t);
  }

  lemma BeginLess(h: Header, s: Live, vs: seq<nat>, t: Live)
    requires s.phase == Begin && Without(h, s, vs, t)
    ensures Rank(h, t) < Rank(h, s)
  {
    if !Switches(h, s) {
      assert EmptyRead(h, Script(h, s, vs[..0]), vs[0]);
      assert vs[..1][0] == vs[0] && vs[..2][0] == vs[0];
      assert EmptyRead(h, Script(h, s, vs[..1]), vs[1]);
      assert EmptyRead(h, Script(h, s, vs[..2]), vs[2]);
    }
  }

  lemma InnerLess(h: Header, s: Live, vs: seq<nat>, t: Live)
    requires s.phase == Inner && Without(h, s, vs, t)
    ensures Rank(h, t) < Rank(h, s)
  {
    hide Empty, Lz77.Execute;
  }

  lemma DistanceLess(h: Header, s: Live, vs: seq<nat>, t: Live)
    requires h.Valid() && Productive(h.words) && s.phase == PostDecode && Without(h, s, vs, t)
    ensures Rank(h, t) < Rank(h, s)
  {
    hide Lz77.Execute;
    if !Switches(h, s) {
      var u := if s.implicit then s else s.(distance := s.distance.Used(h.types.2));
      var symbol := if s.implicit then Lz77.Last
        else if vs[0] < Distances.NUM_SHORT_CODES then Lz77.Short(vs[0])
        else Lz77.Direct(DistanceTable.Distance(h.format, vs[0], vs[1]));
      assert t == FinishCommand(h, u, symbol);
      if symbol.Direct? {
        assert vs[..1][0] == vs[0];
        assert EmptyRead(h, Script(h, s, vs[..1]), vs[1]);
        DirectNear(h, vs[0]);
      }
      ExecuteProgress(h, u, symbol);
    }
  }

  /** `size_bits_by_length`: there are 2^bits words of each length from 4 to 24. */
  function SizeBits(length: nat): nat {
    if length < 4 || length > 24 then 0
    else [10, 10, 11, 11, 10, 10, 10, 10, 10, 9, 9, 8, 7, 7, 8, 7, 7, 6, 6, 5, 5][length - 4]
  }

  /** The built-in dictionary: the first 2^bits addresses of a length are its words as they are,
      and the transforms of the further ones omit at most nine bytes. */
  ghost predicate BuiltIn(words: Lz77.Dictionary) {
    forall n: nat, a: nat :: words(n, a).Some? ==>
      4 <= n <= 24 && |words(n, a).value| >= n - 9 && (a < Pow2(SizeBits(n)) ==> |words(n, a).value| == n)
  }

  /** No word of it is empty that a command can name without taking a bit. */
  lemma BuiltInProductive(words: Lz77.Dictionary)
    requires BuiltIn(words)
    ensures Productive(words)
  {
    forall n: nat, a: nat | 0 < n && a < NEAR && words(n, a).Some? ensures |words(n, a).value| > 0 {
      if n <= 20 {
        assert SizeBits(n) >= 7;
        Pow2Values();
        Pow2Monotone(7, SizeBits(n));
      }
    }
  }

  /** A distance code without extra bits stands for a direct distance. */
  lemma DirectNear(h: Header, code: nat)
    requires h.Valid() && code >= DistanceTable.FIRST_CODE && h.ExtraBits(code) == 0
    ensures DistanceTable.Distance(h.format, code, 0) <= NEAR
  {
    DistanceTable.DirectBound(h.format);
  }

  /** A meta-block whose commands and distances are coded without bits: copy length `n`, and
      direct distance `a + 1`. */
  function Idle(words: Lz77.Dictionary, n: nat, a: nat): (h: Header)
    requires n > 0 && a < NEAR
    ensures h.Valid() && h.words == words
  {
    var c := Cell(0, 0, 0, n, false, 0);
    var t := One(DistanceTable.FIRST_CODE + a);
    assert Shl(15, 3) == 120;
    Header(seq(6, _ => seq(ROOT_SIZE, _ => HuffmanCode(0, 0))) + [seq(ROOT_SIZE, _ => HuffmanCode(0, t.symbol))],
           seq(6, _ => One(0)) + [t], (1, 1, 1),
           (t: nat, past: seq<Byte>) => 0, (t: nat) => 0, (t: nat, context: nat) => 6, (v: nat) => c,
           (v: nat) => 2, (v: nat) => 1, DistanceTable.Format(3, DistanceTable.MAX_NDIRECT), words)
  }

  /** The start of a stream whose first meta-block is `length` bytes long; `copy` is left over
      from the command before, if there was one. */
  function Start(length: nat, copy: nat, executed: seq<Lz77.Command>): (s: Live)
    requires length > 0 && Lz77.ValidCommands(executed)
  {
    var b := Block(0x100_0000, 1, 0);
    Progression(Begin, b, b, b, false, 0, copy, false, 0, [], 1008,
                Lz77.State([], Distances.INITIAL, length, Lz77.Running),
                executed)
  }

  /** Its first command is read, up to the distance. */
  function Named(length: nat, copy: nat, executed: seq<Lz77.Command>): (s: Live)
    requires length > 0 && copy > 0 && Lz77.ValidCommands(executed)
  {
    Start(length, copy, executed).(phase := PostDecode)
  }

  /** The command those meta-blocks consist of. */
  function Stall(n: nat, a: nat): Lz77.Command { Lz77.Command([], n, Lz77.Direct(a + 1)) }

  /** The transactions of such a command, when the word it names is empty. */
  lemma IdleScripts(words: Lz77.Dictionary, n: nat, a: nat, length: nat, copy: nat, executed: seq<Lz77.Command>)
    requires Lz77.ValidCommands(executed) && n > 0 && a < NEAR && words(n, a) == Some([]) && length > 0
    ensures var h, s, t := Idle(words, n, a), Start(length, copy, executed), Named(length, n, executed);
      && Script(h, s, []) == Read.Symbol(0) && Script(h, s, [0]) == Bits(0) && Script(h, s, [0, 0]) == Bits(0)
      && Script(h, s, [0, 0, 0]) == Commit(t)
      && Script(h, t, []) == Read.Symbol(6) && Script(h, t, [DistanceTable.FIRST_CODE + a]) == Bits(0)
      && Script(h, t, [DistanceTable.FIRST_CODE + a, 0]) == Commit(Start(length, n, executed + [Stall(n, a)]))
  {
  }

  /** A command can name an empty word without taking a bit: from the start of a stream, and
      whatever the input, two transactions lead back to where they began, one command later. */
  lemma EmptyWordStalls(words: Lz77.Dictionary, n: nat, a: nat, length: nat, copy: nat, executed: seq<Lz77.Command>,
                        b: seq<Bit01>)
    requires Lz77.ValidCommands(executed) && n > 0 && a < NEAR && words(n, a) == Some([]) && length > 0
    ensures var m, s, t := Commands(Idle(words, n, a)), Start(length, copy, executed), Named(length, n, executed);
      && m.Valid() && m.Parse(s, [], b) == Some((t, 0))
      && m.Parse(t, [], b) == Some((Start(length, n, executed + [Stall(n, a)]), 0))
  {
    var h, d := Idle(words, n, a), DistanceTable.FIRST_CODE + a;
    CommandsValid(h);
    var m, s, t := Commands(h), Start(length, copy, executed), Named(length, n, executed);
    IdleScripts(words, n, a, length, copy, executed);
    IdleCodes(words, n, a);
    hide Script, Idle, Start, Named;
    NumberNone();
    assert b[..0] == [] && b[0..] == b;
    assert [0] + [0] == [0, 0] && [0, 0] + [0] == [0, 0, 0] && [] + [0] == [0]
      && [] + [d] == [d] && [d] + [0] == [d, 0];
    m.ParseCommit(s, [0, 0, 0], b);
    assert m.Parse(s, [0, 0], b) == Some((t, 0));
    assert m.Parse(s, [0], b) == Some((t, 0));
    m.ParseCommit(t, [d, 0], b);
    assert m.Parse(t, [d], b) == Some((Start(length, n, executed + [Stall(n, a)]), 0));
  }

  lemma IdleCodes(words: Lz77.Dictionary, n: nat, a: nat)
    requires n > 0 && a < NEAR
    ensures var codes := Idle(words, n, a).codes;
      |codes| == 7 && codes[0] == One(0) && codes[6] == One(DistanceTable.FIRST_CODE + a)
  {
  }

  /** Reading ends on every meta-block if and only if no word is empty that a command can name
      without taking a bit. */
  lemma EndsExactly(words: Lz77.Dictionary)
    ensures Productive(words) <==>
      forall h: Header :: h.Valid() && h.words == words ==> Commands(h).Valid() && Commands(h).Progress()
  {
    if Productive(words) {
      forall h: Header | h.Valid() && h.words == words ensures Commands(h).Valid() && Commands(h).Progress() {
        CommandsValid(h);
        CommandsProgress(h);
      }
    } else {
      var n: nat, a: nat :| 0 < n && a < NEAR && words(n, a).Some? && |words(n, a).value| == 0;
      assert words(n, a).value == [];
      IdleEndless(words, n, a);
    }
  }

  lemma IdleEndless(words: Lz77.Dictionary, n: nat, a: nat)
    requires n > 0 && a < NEAR && words(n, a) == Some([])
    ensures Commands(Idle(words, n, a)).Valid() && !Commands(Idle(words, n, a)).Progress()
  {
    EmptyWordStalls(words, n, a, 1, n, [], []);
    var m, s, t := Commands(Idle(words, n, a)), Start(1, n, []), Named(1, n, []);
    assert m.kind(s) == Reading && m.kind(t) == Reading;
    hide Script, Idle, Machine<Live>.Parse, Machine<Live>.Valid, Rank;
  }

  lemma CommandsSound(h: Header)
    requires h.Valid() && Productive(h.words)
    ensures Commands(h).Sound()
  {
    CommandsValid(h);
    CommandsProgress(h);
    CommandsChecked(h);
  }
}
