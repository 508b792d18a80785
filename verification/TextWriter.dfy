/** Writing a prefix code, simple or by its code lengths (sections 3.4 and 3.5 of RFC 7932), and
    reading it back. */
module TextWriter {
  import opened Arith
  import opened Wrappers
  import opened PrefixCode
  import opened HuffmanTable
  import opened BitReader
  import opened SymbolReader
  import opened BitWriter
  import opened CodeLengths
  import opened RunCode
  import opened CodeLengthCode
  import opened TokenReader
  import opened HuffmanReader
  import TextCode

  /** The symbol of a token in the code of code lengths. */
  function SymbolOf(t: Token): nat {
    match t
    case Len(n) => n
    case Prev(_) => 16
    case Zeros(_) => 17
  }

  ghost predicate Writable(code: Code, ts: seq<Token>) {
    ValidTokens(ts) && forall i :: 0 <= i < |ts| ==> Spelled(code, SymbolOf(ts[i]))
  }

  ghost function TokenBits(code: Code, t: Token): (b: seq<Bit01>)
    requires t.Valid() && Spelled(code, SymbolOf(t))
  {
    Spell(code, SymbolOf(t)) + match t
      case Len(_) => []
      case Prev(extra) => BitsOf(extra, 2)
      case Zeros(extra) => BitsOf(extra, 3)
  }

  ghost function TokensBits(code: Code, ts: seq<Token>): (b: seq<Bit01>)
    requires Writable(code, ts)
  {
    if ts == [] then [] else TokenBits(code, ts[0]) + TokensBits(code, ts[1..])
  }

  lemma TokenRead(code: Code, t: Token, rest: seq<Bit01>)
    requires LengthCode(code) && t.Valid() && Spelled(code, SymbolOf(t))
    ensures var b := TokenBits(code, t); TokenAt(code, b + rest) == Some((t, |b|)) && (b + rest)[|b|..] == rest
  {
    hide Code.Lookup, Spells, Number, Code.Valid;
    var w, b := Spell(code, SymbolOf(t)), TokenBits(code, t);
    var extra := b[|w|..];
    assert b + rest == w + (extra + rest);
    SpellRead(code, SymbolOf(t), w, extra + rest);
    assert (b + rest)[|w|..|b|] == extra;
    assert Pow2(2) == 4 && Pow2(3) == 8;
    match t
    case Len(n) =>
    case Prev(e) =>
      assert extra == BitsOf(e, 2);
      NumberBits(e, 2);
    case Zeros(e) =>
      assert extra == BitsOf(e, 3);
      NumberBits(e, 3);
  }

  /** Fewer lengths use less space. */
  lemma {:induction false} UsedPrefix(a: seq<nat>, b: seq<nat>)
    requires a <= b && forall i :: 0 <= i < |b| ==> b[i] <= MAX_LENGTH
    ensures SpaceUsed(a) <= SpaceUsed(b)
    ensures |a| < |b| && b[|b| - 1] > 0 ==> SpaceUsed(a) < SpaceUsed(b)
    decreases |b|
  {
    hide SpaceUsed;
    if |a| == |b| {
      assert a == b;
    } else {
      var n := |b| - 1;
      assert b == b[..n] + [b[n]];
      UsedPrefix(a, b[..n]);
      UsedNext(b[..n], b[n]);
    }
  }

  /** Tokens that use the space up with their last length are read back, whatever follows. */
  lemma {:induction false} TokensRead(x: Expansion, ts: seq<Token>, code: Code, rest: seq<Bit01>, alphabet: nat)
    requires x.Valid() && LengthCode(code) && Writable(code, ts)
    requires var lens := Expand(x, ts).lens;
      && SpaceUsed(lens) == SPACE && |lens| <= alphabet && (ts != [] ==> lens[|lens| - 1] > 0)
    ensures ReadTokens(x, code, TokensBits(code, ts) + rest, alphabet) == Accept(Expand(x, ts), rest)
    decreases |ts|
  {
    hide SpaceUsed, TokenAt, Extend, LengthCode, Spells, TokenBits;
    if ts == [] {
      assert [] + rest == rest;
    } else {
      var t, more := ts[0], ts[1..];
      assert ts == [t] + more && [t][..0] == [];
      ExpandAppend(x, [t], more);
      assert Expand(x, [t]) == Extend(x, t);
      UsedPrefix(x.lens, Expand(x, ts).lens);
      var b := TokenBits(code, t);
      assert TokensBits(code, ts) + rest == b + (TokensBits(code, more) + rest);
      TokenRead(code, t, TokensBits(code, more) + rest);
      TokensRead(Extend(x, t), more, code, rest, alphabet);
    }
  }

  /** The first `i` lengths in their order. */
  function Masked(lens: Lengths, i: nat): (l: Lengths)
    requires i <= CODES
  {
    if i == 0 then NoLengths() else Masked(lens, i - 1)[Order(i - 1) := lens[Order(i - 1)]]
  }

  lemma {:induction false} MaskedAt(lens: Lengths, i: nat, k: nat)
    requires i <= CODES && k < CODES
    ensures Masked(lens, i)[Order(k)] == if k < i then lens[Order(k)] else 0
  {
    hide Order;
    if i > 0 {
      MaskedAt(lens, i - 1, k);
      if k < i - 1 { OrderOnce(k, i - 1); } else if i - 1 < k { OrderOnce(i - 1, k); }
    }
  }

  lemma OrderAll(c: nat) returns (k: nat)
    requires c < CODES
    ensures k < CODES && Order(k) == c
  {
    var places := [4, 0, 1, 2, 3, 5, 7, 9, 10, 11, 12, 13, 14, 15, 16, 17, 8, 6];
    k := places[c];
  }

  lemma MaskedWhole(lens: Lengths, i: nat)
    requires i <= CODES && forall k :: i <= k < CODES ==> lens[Order(k)] == 0
    ensures Masked(lens, i) == lens
  {
    forall c | 0 <= c < CODES ensures Masked(lens, i)[c] == lens[c] {
      var k := OrderAll(c);
      MaskedAt(lens, i, k);
    }
  }

  lemma MaskedUsed(lens: Lengths, i: nat)
    requires i < CODES
    ensures SpaceUsed(Masked(lens, i + 1)) ==
      SpaceUsed(Masked(lens, i)) + if lens[Order(i)] == 0 then 0 else 1024 * Share(lens[Order(i)])
    ensures lens[Order(i)] > 0 ==> 0 < Share(lens[Order(i)]) <= 16
    ensures NonZero(Masked(lens, i + 1)) == NonZero(Masked(lens, i)) + if lens[Order(i)] == 0 then 0 else 1
  {
    hide SpaceUsed, NonZero, Order, Share;
    MaskedAt(lens, i, i);
    UsedSet(Masked(lens, i), Order(i), lens[Order(i)]);
    ShrSpaceSmall(lens[Order(i)]);
  }

  lemma {:induction false} MaskedLater(lens: Lengths, i: nat, k: nat)
    requires i <= k <= CODES
    ensures SpaceUsed(Masked(lens, i)) <= SpaceUsed(Masked(lens, k))
    ensures SpaceUsed(Masked(lens, i)) == SpaceUsed(Masked(lens, k)) ==> forall j :: i <= j < k ==> lens[Order(j)] == 0
    decreases k
  {
    hide SpaceUsed, NonZero, Order, Share, Masked;
    if i < k {
      MaskedLater(lens, i, k - 1);
      MaskedUsed(lens, k - 1);
    }
  }

  lemma {:induction false} MaskedBound(lens: Lengths, i: nat)
    requires i <= CODES
    ensures SpaceUsed(Masked(lens, i)) <= 16384 * NonZero(Masked(lens, i))
  {
    if i == 0 {
      NothingUsed(CODES);
      assert NoLengths()[..CODES] == NoLengths();
    } else {
      hide SpaceUsed, NonZero, Order, Share, Masked;
      MaskedBound(lens, i - 1);
      MaskedUsed(lens, i - 1);
    }
  }

  /** When the space is used up, no length is left. */
  lemma MaskedEnough(lens: Lengths, i: nat)
    requires i <= CODES && Accepted(lens) && (i == CODES || SpaceUsed(Masked(lens, i)) >= SPACE)
    ensures Masked(lens, i) == lens
  {
    hide SpaceUsed, NonZero, Order, Share, Masked;
    MaskedWhole(lens, CODES);
    MaskedBound(lens, CODES);
    MaskedLater(lens, i, CODES);
    MaskedWhole(lens, i);
  }

  /** The bits of one length, by the fixed code. */
  function FixedBits(length: nat): (b: seq<Bit01>)
    requires length <= LONGEST
  {
    match length
    case 0 => [0, 0]
    case 1 => [1, 1, 1, 0]
    case 2 => [1, 1, 0]
    case 3 => [0, 1]
    case 4 => [1, 0]
    case _ => [1, 1, 1, 1]
  }

  lemma FixedNumber(length: nat)
    requires length <= LONGEST
    ensures |FixedBits(length)| == FixedCode(length).0 && Number(FixedBits(length)) == FixedCode(length).1
  {
    NumberTwo();
    match length
    case 1 => assert [1, 1, 1, 0][1..] == [1, 1, 0];
    case 5 =>
      assert [1, 1, 1, 1][1..] == [1, 1, 1] && [1, 1, 1][1..] == [1, 1];
      assert Number([1, 1, 1]) == 7;
    case _ =>
  }

  lemma NumberTwo()
    ensures Number([0, 0]) == 0 && Number([0, 1]) == 2 && Number([1, 0]) == 1 && Number([1, 1]) == 3
    ensures Number([1, 1, 0]) == 3
  {
    assert [0, 0][1..] == [0] && [0, 1][1..] == [1] && [1, 0][1..] == [0] && [1, 1][1..] == [1];
    assert Number([0]) == 0 && Number([1]) == 1;
    assert [1, 1, 0][1..] == [1, 0];
  }

  lemma FixedRead(length: nat, rest: seq<Bit01>)
    requires length <= LONGEST
    ensures var b := FixedBits(length);
      && PrefixValue(Ahead(b + rest)) == length && PrefixLength(Ahead(b + rest)) == |b|
      && (b + rest)[|b|..] == rest
  {
    hide Number, PrefixValue, PrefixLength, FixedBits, FixedCode;
    var b := FixedBits(length);
    FixedNumber(length);
    FixedLengthBound(length);
    var a := (b + rest)[..Min(4, |b + rest|)];
    NumberLow(a, |b|);
    assert a[..|b|] == b;
    FixedTables(Ahead(b + rest), length);
  }

  lemma FixedLengthBound(length: nat)
    requires length <= LONGEST
    ensures FixedCode(length).0 <= 4
  {
  }

  /** All lengths from the i-th on, until the space is used up. */
  function LengthBits(lens: Lengths, i: nat): (b: seq<Bit01>)
    requires i <= CODES
    decreases CODES - i
  {
    if i == CODES || SpaceUsed(Masked(lens, i)) >= SPACE then []
    else FixedBits(lens[Order(i)]) + LengthBits(lens, i + 1)
  }

  lemma {:induction false} LengthsRead(lens: Lengths, i: nat, rest: seq<Bit01>)
    requires i <= CODES && Accepted(lens)
    ensures ReadLengths(Masked(lens, i), i, LengthBits(lens, i) + rest) == Whole(lens, rest)
    decreases CODES - i
  {
    hide SpaceUsed, NonZero, Order, FixedBits, ReadLengths, Accepted;
    if i == CODES || SpaceUsed(Masked(lens, i)) >= SPACE {
      MaskedEnough(lens, i);
      assert [] + rest == rest;
      LengthsDone(lens, i, rest);
    } else {
      var more := LengthBits(lens, i + 1) + rest;
      assert LengthBits(lens, i) + rest == FixedBits(lens[Order(i)]) + more;
      LengthRead(Masked(lens, i), i, lens[Order(i)], more);
      LengthsRead(lens, i + 1, rest);
    }
  }

  lemma LengthsDone(lens: Lengths, i: nat, b: seq<Bit01>)
    requires i <= CODES && Accepted(lens) && (i == CODES || SpaceUsed(lens) >= SPACE)
    ensures ReadLengths(lens, i, b) == Whole(lens, b)
  {
    hide SpaceUsed, NonZero;
  }

  lemma LengthRead(l: Lengths, i: nat, length: nat, b: seq<Bit01>)
    requires i < CODES && SpaceUsed(l) < SPACE && length <= LONGEST
    ensures ReadLengths(l, i, FixedBits(length) + b) == ReadLengths(l[Order(i) := length], i + 1, b)
  {
    hide SpaceUsed, NonZero, Order, PrefixLength, PrefixValue, Ahead, FixedBits;
    FixedRead(length, b);
  }

  /** The symbols of a simple code, or the pieces that make up all code lengths with the code
      that they are written in. */
  datatype Draft = Few(symbols: seq<nat>, deep: bool) | Full(skip: nat, lens: Lengths, pieces: seq<Piece>) {
    /** What it says. */
    function Meaning(): Text {
      match this
      case Few(v, deep) => Simple(v, deep)
      case Full(_, _, pieces) => Complex(Plain(pieces))
    }

    ghost predicate Valid(max: nat, limit: nat) {
      match this
      case Few(v, deep) =>
        1 <= |v| <= 4 && (deep ==> |v| == 4) && Distinct(v) && forall i :: 0 <= i < |v| ==> v[i] < limit && v[i] < max
      case Full(skip, lens, pieces) =>
        && skip in {0, 2, 3} && Accepted(lens) && (forall k :: 0 <= k < skip ==> lens[Order(k)] == 0)
        && ValidPieces(pieces) && Writable(SmallCode(lens), Tokens(pieces))
        && Fills(Plain(pieces)) && |Plain(pieces)| <= limit
    }
  }

  /** The lengths use the space exactly, and end in one that does. */
  predicate Fills(lens: seq<nat>) {
    && (forall i :: 0 <= i < |lens| ==> lens[i] <= MAX_LENGTH) && SpaceUsed(lens) == SPACE
    && lens != [] && lens[|lens| - 1] > 0
  }

  function SymbolBits(v: seq<nat>, w: nat): (b: seq<Bit01>) {
    if v == [] then [] else BitsOf(v[0], w) + SymbolBits(v[1..], w)
  }

  ghost function DraftBits(d: Draft, max: nat, limit: nat): (b: seq<Bit01>)
    requires max > 0 && d.Valid(max, limit)
  {
    match d
    case Few(v, deep) =>
      [1, 0] + BitsOf(|v| - 1, 2) + SymbolBits(v, Width(max - 1)) + if |v| == 4 then [if deep then 1 else 0] else []
    case Full(skip, lens, pieces) =>
      BitsOf(skip, 2) + LengthBits(lens, skip) + TokensBits(SmallCode(lens), Tokens(pieces))
  }

  lemma {:induction false} SymbolsRead(n: nat, read: seq<nat>, v: seq<nat>, rest: seq<Bit01>, max: nat, limit: nat)
    requires max > 0 && n == |read| + |v| && 1 <= n <= 4 && Distinct(read + v)
    requires forall i :: 0 <= i < |v| ==> v[i] < limit && v[i] < max
    ensures Resume(SimpleSymbols(n, read), SymbolBits(v, Width(max - 1)) + rest, max, limit)
         == Resume(Phase.SimpleBuild(read + v), rest, max, limit)
    decreases |v|
  {
    hide BitsOf, Width, Distinct, Pow2, Resume;
    var w := Width(max - 1);
    if v == [] {
      assert [] + rest == rest && read + [] == read;
      SymbolsDone(n, read, rest, max, limit);
    } else {
      var more := SymbolBits(v[1..], w) + rest;
      assert SymbolBits(v, w) + rest == BitsOf(v[0], w) + more;
      SymbolRead(n, read, v[0], more, max, limit);
      assert read + [v[0]] + v[1..] == read + v;
      SymbolsRead(n, read + [v[0]], v[1..], rest, max, limit);
    }
  }

  lemma SymbolsDone(n: nat, read: seq<nat>, b: seq<Bit01>, max: nat, limit: nat)
    requires max > 0 && 1 <= n <= 4 && |read| == n && Distinct(read)
    ensures Resume(SimpleSymbols(n, read), b, max, limit) == Resume(Phase.SimpleBuild(read), b, max, limit)
  {
    hide Distinct;
  }

  lemma SymbolRead(n: nat, read: seq<nat>, v: nat, b: seq<Bit01>, max: nat, limit: nat)
    requires max > 0 && |read| < n <= 4 && v < limit && v < max
    ensures Resume(SimpleSymbols(n, read), BitsOf(v, Width(max - 1)) + b, max, limit)
         == Resume(SimpleSymbols(n, read + [v]), b, max, limit)
  {
    hide Number, BitsOf, Distinct, Width, Pow2;
    WidthHolds(v, max - 1);
    BitsRead(v, Width(max - 1), b);
  }

  lemma WidthHolds(v: nat, max: nat)
    requires v <= max
    ensures v < Pow2(Width(max))
  {
  }

  lemma FewRead(v: seq<nat>, deep: bool, rest: seq<Bit01>, max: nat, limit: nat)
    requires max > 0 && Few(v, deep).Valid(max, limit)
    ensures Resume(Begin, DraftBits(Few(v, deep), max, limit) + rest, max, limit) == Got(Simple(v, deep), rest)
  {
    hide BitsOf, Width, Distinct, SymbolBits, Number, Resume;
    var last := (if |v| == 4 then [if deep then 1 else 0] else []) + rest;
    var symbols := SymbolBits(v, Width(max - 1)) + last;
    var size := BitsOf(|v| - 1, 2) + symbols;
    assert DraftBits(Few(v, deep), max, limit) + rest == [1, 0] + size;
    StartRead(size, max, limit);
    SizeRead(|v|, symbols, max, limit);
    assert [] + v == v;
    SymbolsRead(|v|, [], v, last, max, limit);
    DeepRead(v, deep, rest, max, limit);
  }

  lemma DeepRead(v: seq<nat>, deep: bool, rest: seq<Bit01>, max: nat, limit: nat)
    requires max > 0 && 1 <= |v| <= 4 && (deep ==> |v| == 4)
    ensures Resume(Phase.SimpleBuild(v), (if |v| == 4 then [if deep then 1 else 0] else []) + rest, max, limit)
         == Got(Simple(v, deep), rest)
  {
    assert [] + rest == rest;
  }

  lemma StartRead(b: seq<Bit01>, max: nat, limit: nat)
    requires max > 0
    ensures Resume(Begin, [1, 0] + b, max, limit) == Resume(SimpleSize, b, max, limit)
  {
    assert ([1, 0] + b)[..2] == [1, 0] && ([1, 0] + b)[2..] == b;
    assert Number([1, 0]) == 1;
  }

  lemma SizeRead(n: nat, b: seq<Bit01>, max: nat, limit: nat)
    requires max > 0 && 1 <= n <= 4
    ensures Resume(SimpleSize, BitsOf(n - 1, 2) + b, max, limit) == Resume(SimpleSymbols(n, []), b, max, limit)
  {
    hide Number, BitsOf;
    assert Pow2(2) == 4;
    BitsRead(n - 1, 2, b);
  }

  lemma FullRead(skip: nat, lens: Lengths, pieces: seq<Piece>, rest: seq<Bit01>, max: nat, limit: nat)
    requires max > 0 && Full(skip, lens, pieces).Valid(max, limit)
    ensures Resume(Begin, DraftBits(Full(skip, lens, pieces), max, limit) + rest, max, limit)
         == Got(Complex(Plain(pieces)), rest)
  {
    hide BitsOf, LengthBits, TokensBits, Accepted, Writable, Fills, Order;
    var tokens := TokensBits(SmallCode(lens), Tokens(pieces)) + rest;
    var lengths := LengthBits(lens, skip) + tokens;
    assert DraftBits(Full(skip, lens, pieces), max, limit) + rest == BitsOf(skip, 2) + lengths;
    SkipRead(skip, lengths, max, limit);
    LengthsPhase(skip, lens, tokens, max, limit);
    TokensPhase(lens, pieces, rest, max, limit);
  }

  lemma SkipRead(skip: nat, b: seq<Bit01>, max: nat, limit: nat)
    requires max > 0 && skip in {0, 2, 3}
    ensures Resume(Begin, BitsOf(skip, 2) + b, max, limit) == Resume(LengthLengths(NoLengths(), skip), b, max, limit)
  {
    hide BitsOf, Number, ReadTokens, ReadLengths, NoLengths;
    assert Pow2(2) == 4;
    BitsRead(skip, 2, b);
  }

  lemma LengthsPhase(skip: nat, lens: Lengths, b: seq<Bit01>, max: nat, limit: nat)
    requires max > 0 && skip <= CODES && Accepted(lens) && forall k :: 0 <= k < skip ==> lens[Order(k)] == 0
    ensures Resume(LengthLengths(NoLengths(), skip), LengthBits(lens, skip) + b, max, limit)
         == Resume(Symbols(lens, START), b, max, limit)
  {
    SkipNothing(lens, skip);
    LengthsRead(lens, skip, b);
    hide ReadTokens, ReadLengths, NoLengths, Masked, Order, Accepted, LengthBits;
  }

  lemma TokensPhase(lens: Lengths, pieces: seq<Piece>, rest: seq<Bit01>, max: nat, limit: nat)
    requires max > 0 && Accepted(lens) && ValidPieces(pieces) && Writable(SmallCode(lens), Tokens(pieces))
    requires Fills(Plain(pieces)) && |Plain(pieces)| <= limit
    ensures Resume(Symbols(lens, START), TokensBits(SmallCode(lens), Tokens(pieces)) + rest, max, limit)
         == Got(Complex(Plain(pieces)), rest)
  {
    hide SpaceUsed, ReadTokens, Writable, TokensBits, LengthCode, SmallCode, Tokens, Expand, Plain;
    SmallCodeLengths(lens);
    TokensPlain(pieces);
    TokensRead(START, Tokens(pieces), SmallCode(lens), rest, limit);
  }

  lemma SkipNothing(lens: Lengths, skip: nat)
    requires skip <= CODES && forall k :: 0 <= k < skip ==> lens[Order(k)] == 0
    ensures Masked(lens, skip) == NoLengths()
  {
    forall c | 0 <= c < CODES ensures Masked(lens, skip)[c] == 0 {
      var k := OrderAll(c);
      MaskedAt(lens, skip, k);
    }
  }

  /** A prefix code that is written is read back, and nothing behind it is touched. */
  lemma DraftRead(d: Draft, rest: seq<Bit01>, max: nat, limit: nat)
    requires max > 0 && d.Valid(max, limit)
    ensures Resume(Begin, DraftBits(d, max, limit) + rest, max, limit) == Got(d.Meaning(), rest)
  {
    hide Resume;
    match d
    case Few(v, deep) => FewRead(v, deep, rest, max, limit);
    case Full(skip, lens, pieces) => FullRead(skip, lens, pieces, rest, max, limit);
  }

  lemma DraftLong(d: Draft, max: nat, limit: nat)
    requires max > 1 && d.Valid(max, limit)
    ensures |DraftBits(d, max, limit)| >= 4
  {
    hide BitsOf, TokensBits, LengthBits, Accepted, Writable, Fills, SpaceUsed, Order, Masked, Distinct, Tokens, Plain;
    match d
    case Few(_, _) =>
    case Full(skip, lens, _) => LengthsLong(lens, skip);
  }

  lemma LengthsLong(lens: Lengths, skip: nat)
    requires skip < CODES && forall k :: 0 <= k < skip ==> lens[Order(k)] == 0
    ensures |LengthBits(lens, skip)| >= 2
  {
    hide SpaceUsed, Order, Masked, NoLengths;
    SkipNothing(lens, skip);
    NothingUsed(CODES);
    assert NoLengths()[..CODES] == NoLengths();
  }
}
