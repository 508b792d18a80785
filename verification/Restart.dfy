/** Restartable reading: transactions of bits and symbols that either complete or leave the
    reader as it was, and why cutting the input into pieces does not change what they read. */
module Restart {
  import opened Arith
  import opened Wrappers
  import opened PrefixCode
  import opened HuffmanTable
  import opened BitReader
  import opened SymbolReader

  /** The next read of a transaction, or its end in state `next`. */
  datatype Read<S> = Bits(n: nat) | Symbol(table: nat) | Commit(next: S)

  datatype Kind = Reading | Writing | Finished

  /** Most bits the fast path takes between two checks for 28 bytes of input. */
  const FAST_BITS := 167
  const FAST_BYTES := 28

  /** Bits that must be left at a fast read besides the ones it takes. */
  const FAST_MARGIN := 58

  /** What is left of a stream after some bits were taken. */
  ghost predicate Dropped(rest: seq<Bit01>, all: seq<Bit01>) {
    |rest| <= |all| && rest == all[|all| - |rest|..]
  }

  /** A decoder seen from its input: what each state reads, given the values its transaction
      has read so far, and what it does between reads. `checks` are the states where the fast
      path looks at the amount of input and `quick` those it handles. For the proofs, `budget`
      and `left` bound the bits and the reads a transaction can still take, `credit` the bits
      up to the next check, and `rank` the steps without input. */
  datatype Machine<!S(!new)> = Machine(
    script: (S, seq<nat>) -> Read<S>,
    kind: S -> Kind,
    wrote: S -> S,
    quick: S -> bool,
    checks: S -> bool,
    tables: seq<seq<HuffmanCode>>,
    ghost codes: seq<Code>,
    ghost budget: (S, seq<nat>) -> nat,
    ghost left: (S, seq<nat>) -> nat,
    ghost credit: S -> nat,
    ghost rank: S -> nat)
  {
    ghost predicate Valid() {
      && |codes| == |tables|
      && (forall i :: 0 <= i < |tables| ==> codes[i].Valid() && Describes(tables[i], codes[i]))
      && (forall s, vs :: ValidRead(s, vs))
      && (forall s :: budget(s, []) <= REGISTER_BITS)
      && (forall s, vs, v :: StepBudget(s, vs, v))
    }

    ghost predicate ValidRead(s: S, vs: seq<nat>) {
      match script(s, vs)
      case Bits(n) => n <= 32
      case Symbol(i) => i < |tables|
      case Commit(_) => true
    }

    /** Every read takes its bits from the budget. */
    ghost predicate StepBudget(s: S, vs: seq<nat>, v: nat) {
      match script(s, vs)
      case Bits(n) => n + budget(s, vs + [v]) <= budget(s, vs) && left(s, vs + [v]) < left(s, vs)
      case Symbol(_) => MAX_LENGTH + budget(s, vs + [v]) <= budget(s, vs) && left(s, vs + [v]) < left(s, vs)
      case Commit(t) => true
    }

    static function Later(r: Option<(S, nat)>, n: nat): Option<(S, nat)> {
      if r == None then None else Some((r.value.0, r.value.1 + n))
    }

    /** The outcome of a transaction on a stream: the next state and the bits taken. */
    ghost function Parse(s: S, vs: seq<nat>, b: seq<Bit01>): (r: Option<(S, nat)>)
      requires Valid()
      ensures r.Some? ==> r.value.1 <= |b| && r.value.1 <= budget(s, vs)
      ensures r == None ==> |b| < budget(s, vs)
      decreases left(s, vs)
    {
      assert ValidRead(s, vs);
      match script(s, vs)
      case Commit(t) => Some((t, 0))
      case Bits(n) =>
        assert StepBudget(s, vs, if n <= |b| then Number(b[..n]) else 0);
        if n > |b| then None else Later(Parse(s, vs + [Number(b[..n])], b[n..]), n)
      case Symbol(i) =>
        var (v, n) := codes[i].Lookup(Number(b));
        assert StepBudget(s, vs, v);
        if n > |b| then None else Later(Parse(s, vs + [v], b[n..]), n)
    }

    /** A transaction that happens commits after some reads. */
    lemma {:induction false} ParseScript(s: S, vs: seq<nat>, b: seq<Bit01>) returns (ws: seq<nat>)
      requires Valid() && Parse(s, vs, b).Some?
      ensures script(s, ws) == Commit(Parse(s, vs, b).value.0)
      decreases left(s, vs)
    {
      assert ValidRead(s, vs);
      match script(s, vs)
      case Commit(t) => ws := vs;
      case Bits(n) =>
        assert StepBudget(s, vs, Number(b[..n]));
        ws := ParseScript(s, vs + [Number(b[..n])], b[n..]);
      case Symbol(i) =>
        var (v, n) := codes[i].Lookup(Number(b));
        assert StepBudget(s, vs, v);
        ws := ParseScript(s, vs + [v], b[n..]);
    }

    /** Reading `v` takes the transaction from one stream to the rest of it. */
    ghost predicate Reads(s: S, vs: seq<nat>, b: seq<Bit01>, v: nat, rest: seq<Bit01>)
      requires Valid()
    {
      && Dropped(rest, b) && left(s, vs + [v]) < left(s, vs)
      && Parse(s, vs, b) == Later(Parse(s, vs + [v], rest), |b| - |rest|)
    }

    lemma ReadsBits(s: S, vs: seq<nat>, b: seq<Bit01>)
      requires Valid() && script(s, vs).Bits? && script(s, vs).n <= |b|
      ensures var n := script(s, vs).n; Reads(s, vs, b, Number(b[..n]), b[n..])
    {
      var n := script(s, vs).n;
      assert StepBudget(s, vs, Number(b[..n]));
    }

    lemma ReadsSymbol(s: S, vs: seq<nat>, b: seq<Bit01>)
      requires Valid() && script(s, vs).Symbol? && script(s, vs).table < |tables|
      requires HasSymbol(codes[script(s, vs).table], b)
      ensures var (v, n) := codes[script(s, vs).table].Lookup(Number(b)); Reads(s, vs, b, v, b[n..])
    {
      var (v, n) := codes[script(s, vs).table].Lookup(Number(b));
      assert StepBudget(s, vs, v);
    }

    lemma ParseCommit(s: S, vs: seq<nat>, b: seq<Bit01>)
      requires Valid() && script(s, vs).Commit?
      ensures Parse(s, vs, b) == Some((script(s, vs).next, 0))
    {
    }

    /** A transaction that began on `all` has read `vs` and has `rest` left. */
    ghost predicate Taken(s: S, vs: seq<nat>, all: seq<Bit01>, rest: seq<Bit01>)
      requires Valid()
    {
      Dropped(rest, all) && Parse(s, [], all) == Later(Parse(s, vs, rest), |all| - |rest|)
    }

    lemma TakenNone(s: S, all: seq<Bit01>)
      requires Valid()
      ensures Taken(s, [], all, all)
    {
      hide Parse, Valid;
    }

    lemma TakenRead(s: S, vs: seq<nat>, all: seq<Bit01>, b: seq<Bit01>, v: nat, rest: seq<Bit01>)
      requires Valid() && Taken(s, vs, all, b) && Reads(s, vs, b, v, rest)
      ensures Taken(s, vs + [v], all, rest) && left(s, vs + [v]) < left(s, vs)
    {
      hide Parse, Valid;
    }

    lemma TakenAll(s: S, vs: seq<nat>, all: seq<Bit01>, rest: seq<Bit01>)
      requires Valid() && Taken(s, vs, all, rest) && script(s, vs).Commit?
      ensures var r := Parse(s, [], all); r.Some? && r.value.0 == script(s, vs).next && rest == all[r.value.1..]
    {
      ParseCommit(s, vs, rest);
      hide Parse, Valid;
    }

    lemma TakenStuck(s: S, vs: seq<nat>, all: seq<Bit01>, rest: seq<Bit01>)
      requires Valid() && Taken(s, vs, all, rest) && Parse(s, vs, rest) == None
      ensures Parse(s, [], all) == None
    {
      hide Parse, Valid;
    }

    /** A transaction that has its bits is not changed by more input. */
    lemma {:induction false} ParseMore(s: S, vs: seq<nat>, b: seq<Bit01>, more: seq<Bit01>)
      requires Valid() && Parse(s, vs, b).Some?
      ensures Parse(s, vs, b + more) == Parse(s, vs, b)
      decreases left(s, vs)
    {
      assert ValidRead(s, vs);
      match script(s, vs)
      case Commit(t) =>
      case Bits(n) =>
        var v := Number(b[..n]);
        assert StepBudget(s, vs, v);
        assert (b + more)[..n] == b[..n] && (b + more)[n..] == b[n..] + more;
        ParseMore(s, vs + [v], b[n..], more);
      case Symbol(i) =>
        var (v, n) := codes[i].Lookup(Number(b));
        assert StepBudget(s, vs, v);
        HasSymbolMore(codes[i], b, more);
        assert (b + more)[n..] == b[n..] + more;
        ParseMore(s, vs + [v], b[n..], more);
    }

    /** A transaction looks at no bit beyond those it takes. */
    lemma {:induction false} ParseLess(s: S, vs: seq<nat>, b: seq<Bit01>, more: seq<Bit01>)
      requires Valid() && Parse(s, vs, b + more).Some? && Parse(s, vs, b + more).value.1 <= |b|
      ensures Parse(s, vs, b) == Parse(s, vs, b + more)
      decreases left(s, vs)
    {
      assert ValidRead(s, vs);
      match script(s, vs)
      case Commit(t) =>
      case Bits(n) =>
        var v := Number((b + more)[..n]);
        assert StepBudget(s, vs, v);
        assert (b + more)[..n] == b[..n] && (b + more)[n..] == b[n..] + more;
        ParseLess(s, vs + [v], b[n..], more);
      case Symbol(i) =>
        var (v, n) := codes[i].Lookup(Number(b + more));
        assert StepBudget(s, vs, v);
        HasSymbolLess(codes[i], b, more);
        assert (b + more)[n..] == b[n..] + more;
        ParseLess(s, vs + [v], b[n..], more);
    }

    /** Steps without input make progress. */
    ghost predicate Progress()
      requires Valid()
    {
      && (forall s :: kind(s) == Writing ==> rank(wrote(s)) < rank(s))
      && (forall s, b :: kind(s) == Reading && Parse(s, [], b).Some? && Parse(s, [], b).value.1 == 0 ==>
            rank(Parse(s, [], b).value.0) < rank(s))
    }

    /** The fast path checks the input often enough. */
    ghost predicate Checked() {
      && (forall s :: quick(s) ==> kind(s) == Reading && budget(s, []) <= credit(s) <= FAST_BITS)
      && (forall s, vs :: quick(s) ==> var r := script(s, vs);
            r.Commit? && quick(r.next) && !checks(r.next) ==> budget(s, []) + credit(r.next) <= credit(s))
    }

    ghost predicate Sound() {
      Valid() && Progress() && Checked()
    }

    /** As far as the bits go: the final state and the bits left. */
    ghost function Run(s: S, b: seq<Bit01>): (S, seq<Bit01>)
      requires Valid() && Progress()
      decreases |b|, rank(s)
    {
      match kind(s)
      case Finished => (s, b)
      case Writing => Run(wrote(s), b)
      case Reading =>
        match Parse(s, [], b)
        case None => (s, b)
        case Some((t, n)) => Run(t, b[n..])
    }

    /** Running on part of the input first, then on the rest, is the same. */
    lemma {:induction false} RunSplit(s: S, b: seq<Bit01>, more: seq<Bit01>)
      requires Valid() && Progress()
      ensures var (t, rest) := Run(s, b); Run(s, b + more) == Run(t, rest + more)
      decreases |b|, rank(s)
    {
      match kind(s)
      case Finished =>
      case Writing => RunSplit(wrote(s), b, more);
      case Reading =>
        match Parse(s, [], b) {
          case None =>
          case Some((t, n)) =>
            ParseMore(s, [], b, more);
            assert (b + more)[n..] == b[n..] + more;
            RunSplit(t, b[n..], more);
        }
    }

    /** The two situations lead to the same result whatever input follows. */
    ghost predicate SameFuture(s: S, b: seq<Bit01>, t: S, c: seq<Bit01>)
      requires Valid() && Progress()
    {
      forall f :: Run(s, b + f) == Run(t, c + f)
    }

    lemma StepFuture(s: S, b: seq<Bit01>)
      requires Valid() && Progress() && kind(s) == Reading && Parse(s, [], b).Some?
      ensures var (t, n) := Parse(s, [], b).value; SameFuture(s, b, t, b[n..])
    {
      var (t, n) := Parse(s, [], b).value;
      forall f ensures Run(s, b + f) == Run(t, b[n..] + f) {
        ParseMore(s, [], b, f);
        assert (b + f)[n..] == b[n..] + f;
      }
    }

    lemma FutureChain(s: S, b: seq<Bit01>, t: S, c: seq<Bit01>, u: S, d: seq<Bit01>)
      requires Valid() && Progress() && SameFuture(s, b, t, c) && SameFuture(t, c, u, d)
      ensures SameFuture(s, b, u, d)
    {
      hide Run;
    }

    lemma FutureMore(s: S, b: seq<Bit01>, t: S, c: seq<Bit01>, more: seq<Bit01>)
      requires Valid() && Progress() && SameFuture(s, b, t, c)
      ensures SameFuture(s, b + more, t, c + more)
    {
      hide Run;
      forall f ensures Run(s, b + more + f) == Run(t, c + more + f) {
        assert b + more + f == b + (more + f) && c + more + f == c + (more + f);
      }
    }

    /** A machine that waits for input, or is done, is where the reference run ends. */
    lemma FutureEnd(s: S, b: seq<Bit01>, t: S, c: seq<Bit01>)
      requires Valid() && Progress() && SameFuture(s, b, t, c)
      requires kind(t) == Finished || (kind(t) == Reading && Parse(t, [], c) == None)
      ensures Run(s, b) == (t, c)
    {
      assert b + [] == b && c + [] == c;
    }
  }

  /** A symbol whose codeword ends within the first part is there already. */
  lemma HasSymbolLess(code: Code, b: seq<Bit01>, more: seq<Bit01>)
    requires code.Valid() && code.Lookup(Number(b + more)).1 <= |b|
    ensures code.Lookup(Number(b)) == code.Lookup(Number(b + more))
  {
    var n := code.Lookup(Number(b + more)).1;
    NumberLow(b, n);
    assert (b + more)[..n] == b[..n];
    NumberReads(b + more, Number(b), n);
    LookupPrefix(code, Number(b + more), Number(b), n);
  }

  /** One read of a transaction that succeeds exactly when its bits are there. */
  method SafeRead<S(!new)>(m: Machine<S>, s: S, vs: seq<nat>, br: Reader) returns (ok: bool, v: nat)
    requires m.Valid() && br.Valid() && !m.script(s, vs).Commit?
    modifies br`val, br`bitPos, br`nextIn, br`availIn
    ensures br.Valid() && br.nextIn + br.availIn == old(br.nextIn + br.availIn)
    ensures ok ==> m.Reads(s, vs, old(br.Stream()), v, br.Stream())
    ensures !ok ==> m.Parse(s, vs, old(br.Stream())) == None && br.Stream() == old(br.Stream()) && br.availIn == 0
  {
    hide BitsOf, BytesBits, Number, Code.Lookup, Describes, Shr, BackedBy, Reader.AccBits;
    assert m.ValidRead(s, vs);
    match m.script(s, vs) {
      case Bits(n) => ok, v := br.SafeReadBits(n);
      case Symbol(i) => ok, v := SafeReadSymbol(m.tables[i], br, m.codes[i]);
    }
    assert m.StepBudget(s, vs, v);
  }

  /** A transaction with the safe reads: it happens exactly when its bits are there. A failed
      first read keeps the bits it pulled; any later failure puts the reader back. */
  method SafeTransaction<S(!new)>(m: Machine<S>, s: S, br: Reader) returns (ok: bool, t: S)
    requires m.Valid() && br.Valid()
    modifies br`val, br`bitPos, br`nextIn, br`availIn
    ensures br.Valid() && br.nextIn + br.availIn == old(br.nextIn + br.availIn)
    ensures var r := m.Parse(s, [], old(br.Stream()));
      if r.Some? then ok && t == r.value.0 && br.Stream() == old(br.Stream())[r.value.1..]
      else !ok && t == s && br.Stream() == old(br.Stream()) && (br.availIn == 0 || br.Save() == old(br.Save()))
  {
    hide BitsOf, BytesBits, Reader.Backed, BackedBy, Machine<S>.Valid, Machine<S>.Parse, Machine<S>.Reads;
    hide Machine<S>.Taken;
    var memento := br.Save();
    var vs := [];
    ghost var all := br.Stream();
    m.TakenNone(s, all);
    while !m.script(s, vs).Commit?
      invariant br.Valid() && br.nextIn + br.availIn == old(br.nextIn + br.availIn)
      invariant m.Taken(s, vs, all, br.Stream())
      invariant vs == [] ==> br.Save() == memento
      decreases m.left(s, vs)
    {
      ghost var b := br.Stream();
      var got, v := SafeRead(m, s, vs, br);
      if !got {
        m.TakenStuck(s, vs, all, b);
        if vs != [] {
          br.Restore(memento);
        }
        return false, s;
      }
      m.TakenRead(s, vs, all, b, v, br.Stream());
      vs := vs + [v];
    }
    m.TakenAll(s, vs, all, br.Stream());
    return true, m.script(s, vs).next;
  }

  /** One read on the fast path: the input left bounds its bits and keeps its loads inside
      the input. */
  method FastRead<S(!new)>(m: Machine<S>, s: S, vs: seq<nat>, br: Reader) returns (v: nat)
    requires m.Valid() && br.Valid() && !m.script(s, vs).Commit?
    requires 0 < br.Available() && |br.Stream()| >= m.budget(s, vs) + FAST_MARGIN
    modifies br`val, br`bitPos, br`nextIn, br`availIn
    ensures br.Valid() && br.nextIn + br.availIn == old(br.nextIn + br.availIn) && 0 < br.Available()
    ensures m.Reads(s, vs, old(br.Stream()), v, br.Stream())
    ensures |br.Stream()| >= m.budget(s, vs + [v]) + FAST_MARGIN
  {
    hide BitsOf, BytesBits, Number, Code.Lookup, Describes, Shr, BackedBy, Reader.AccBits, Machine<S>.Parse;
    hide Machine<S>.Reads;
    ghost var b := br.Stream();
    assert m.ValidRead(s, vs) && m.StepBudget(s, vs, 0);
    match m.script(s, vs) {
      case Bits(n) =>
        v := br.ReadBits(n);
        m.ReadsBits(s, vs, b);
      case Symbol(i) =>
        v := ReadSymbol(m.tables[i], br, m.codes[i]);
        m.ReadsSymbol(s, vs, b);
    }
    assert m.StepBudget(s, vs, v);
  }

  /** A transaction on the fast path: no read fails, and the outcome is the same. */
  method FastTransaction<S(!new)>(m: Machine<S>, s: S, br: Reader) returns (t: S)
    requires m.Valid() && br.Valid()
    requires 0 < br.Available() && |br.Stream()| >= m.budget(s, []) + FAST_MARGIN
    modifies br`val, br`bitPos, br`nextIn, br`availIn
    ensures br.Valid() && br.nextIn + br.availIn == old(br.nextIn + br.availIn) && 0 < br.Available()
    ensures var r := m.Parse(s, [], old(br.Stream()));
      r.Some? && t == r.value.0 && br.Stream() == old(br.Stream())[r.value.1..]
    ensures exists vs :: m.script(s, vs) == Commit(t)
  {
    hide BitsOf, BytesBits, Reader.Backed, BackedBy, Machine<S>.Valid, Machine<S>.Parse, Machine<S>.Reads;
    hide Machine<S>.Taken;
    var vs := [];
    ghost var all := br.Stream();
    m.TakenNone(s, all);
    while !m.script(s, vs).Commit?
      invariant br.Valid() && br.nextIn + br.availIn == old(br.nextIn + br.availIn)
      invariant 0 < br.Available() && |br.Stream()| >= m.budget(s, vs) + FAST_MARGIN
      invariant m.Taken(s, vs, all, br.Stream())
      decreases m.left(s, vs)
    {
      ghost var b := br.Stream();
      var v := FastRead(m, s, vs, br);
      m.TakenRead(s, vs, all, b, v, br.Stream());
      vs := vs + [v];
    }
    m.TakenAll(s, vs, all, br.Stream());
    return m.script(s, vs).next;
  }
}
