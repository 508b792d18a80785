/** Reading the code lengths of a complex prefix code from their tokens (section 3.5 of RFC 7932),
    fast while there is enough input and byte by byte otherwise. */
module TokenReader {
  import opened Arith
  import opened Wrappers
  import opened PrefixCode
  import opened HuffmanTable
  import opened BitReader
  import opened SymbolReader
  import opened CodeLengths
  import opened CodeLengthCode

  /** Extra bits of a symbol of the lengths' code: 16 and 17 are runs. */
  function ExtraBits(v: nat): nat {
    if v < 16 then 0 else if v == 16 then 2 else 3
  }

  function TokenOf(v: nat, extra: nat): (t: Token)
    requires v < CODES && (v == 16 ==> extra < 4) && (v == 17 ==> extra < 8)
    ensures t.Valid()
  {
    if v < 16 then Len(v) else if v == 16 then Prev(extra) else Zeros(extra)
  }

  /** Five bits are enough to look up any symbol. */
  lemma SmallLookup(t: seq<HuffmanCode>, code: Code, w: nat)
    requires SmallTable(t, code)
    ensures code.Lookup(Low(w, 5)) == code.Lookup(w) && code.Lookup(w).0 < CODES && code.Lookup(w).1 <= LONGEST
    ensures Low(w, 5) < TABLE_SIZE && t[Low(w, 5)] == HuffmanCode(code.Lookup(w).1, code.Lookup(w).0)
  {
    hide Code.Lookup, Low, Rev;
    assert Pow2(5) == TABLE_SIZE;
    RevLow(w, 5);
    assert SmallEntry(t, code, Low(w, 5));
    LookupPrefix(code, Low(w, 5), w, 5);
  }

  lemma ExtraBound(b: seq<Bit01>, v: nat)
    requires v < CODES && |b| == ExtraBits(v)
    ensures (v == 16 ==> Number(b) < 4) && (v == 17 ==> Number(b) < 8)
  {
    assert Pow2(2) == 4 && Pow2(3) == 8;
  }

  /** The token at the start of a stream, if all of it is there, and its length. */
  ghost function TokenAt(code: Code, b: seq<Bit01>): (r: Option<(Token, nat)>)
    requires LengthCode(code)
    ensures r.Some? ==> r.value.0.Valid() && r.value.1 <= |b|
  {
    var (v, n) := code.Lookup(Number(b));
    if n + ExtraBits(v) > |b| then None
    else
      var extra := b[n..n + ExtraBits(v)];
      ExtraBound(extra, v);
      Some((TokenOf(v, Number(extra)), n + ExtraBits(v)))
  }

  datatype TokensOutcome = Accept(x: Expansion, rest: seq<Bit01>) | Refuse | Pause(x: Expansion, rest: seq<Bit01>)

  /** Section 3.5: tokens are read until the code space is used up, which has to happen within
      the alphabet. */
  ghost function ReadTokens(x: Expansion, code: Code, b: seq<Bit01>, alphabet: nat): (r: TokensOutcome)
    requires x.Valid() && LengthCode(code)
    ensures r.Accept? ==>
      r.x.Valid() && SpaceUsed(r.x.lens) == SPACE && (|x.lens| <= alphabet ==> |r.x.lens| <= alphabet)
    ensures r.Pause? ==> r.x.Valid() && (|x.lens| <= alphabet ==> |r.x.lens| <= alphabet)
    decreases alphabet - |x.lens|
  {
    if SpaceUsed(x.lens) == SPACE then Accept(x, b)
    else if |x.lens| >= alphabet then Refuse
    else
      match TokenAt(code, b)
      case None => Pause(x, b)
      case Some((t, n)) =>
        var y := Extend(x, t);
        if |y.lens| > alphabet then Refuse else ReadTokens(y, code, b[n..], alphabet)
  }

  /** A token that is there stays the same with more input. */
  lemma TokenMore(code: Code, b: seq<Bit01>, more: seq<Bit01>)
    requires LengthCode(code) && TokenAt(code, b).Some?
    ensures TokenAt(code, b + more) == TokenAt(code, b)
  {
    var (v, n) := code.Lookup(Number(b));
    HasSymbolMore(code, b, more);
    assert (b + more)[n..n + ExtraBits(v)] == b[n..n + ExtraBits(v)];
  }

  /** Reading can stop for lack of input and go on later. */
  lemma {:induction false} ReadTokensMore(x: Expansion, code: Code, b: seq<Bit01>, more: seq<Bit01>, alphabet: nat)
    requires x.Valid() && LengthCode(code)
    ensures ReadTokens(x, code, b + more, alphabet) ==
      match ReadTokens(x, code, b, alphabet)
      case Accept(y, rest) => Accept(y, rest + more)
      case Refuse => Refuse
      case Pause(y, rest) => ReadTokens(y, code, rest + more, alphabet)
    decreases alphabet - |x.lens|
  {
    hide SpaceUsed, TokenAt, Extend, LengthCode;
    if SpaceUsed(x.lens) != SPACE && |x.lens| < alphabet && TokenAt(code, b).Some? {
      var (t, n) := TokenAt(code, b).value;
      TokenMore(code, b, more);
      assert (b + more)[n..] == b[n..] + more;
      var y := Extend(x, t);
      if |y.lens| <= alphabet { ReadTokensMore(y, code, b[n..], more, alphabet); }
    }
  }

  /** What the accumulator shows of the next codeword: all of it, or all there is. */
  lemma AccumulatorLookup(br: Reader, t: seq<HuffmanCode>, code: Code)
    requires br.Valid() && SmallTable(t, code)
    ensures var (v, n) := code.Lookup(br.GetBitsUnmasked());
      n <= br.Available() || br.availIn == 0 ==> code.Lookup(Number(br.Stream())) == (v, n)
  {
    hide Code.Lookup, Low, Rev, BitsOf, BytesBits, Number;
    var acc := br.GetBitsUnmasked();
    var (v, n) := code.Lookup(acc);
    if n <= br.Available() {
      WindowReads(br, n);
      LookupPrefix(code, acc, Number(br.Stream()), n);
    } else if br.availIn == 0 {
      WindowReads(br, br.Available());
      ShrBound(br.val, br.Available(), br.bitPos);
      LowSelf(acc, br.Available());
      assert br.Stream()[..br.Available()] == br.Stream();
    }
  }

  /** The next token, if the accumulator holds all of it. */
  method NextToken(table: array<HuffmanCode>, br: Reader, ghost code: Code) returns (ok: bool, token: Token)
    requires br.Valid() && SmallTable(table[..], code) && LengthCode(code)
    modifies br`bitPos
    ensures br.Valid() && token.Valid() && (old(br.Backed()) ==> br.Backed())
    ensures ok ==> var r := TokenAt(code, old(br.Stream()));
      r.Some? && r.value.0 == token && br.Stream() == old(br.Stream())[r.value.1..]
      && r.value.1 <= 8 && br.bitPos == old(br.bitPos) + r.value.1
    ensures !ok ==>
      br.Save() == old(br.Save()) && br.Available() < 8 && (br.availIn == 0 ==> TokenAt(code, br.Stream()) == None)
  {
    hide Code.Lookup, Low, Rev, BitsOf, BytesBits, Number, BackedBy;
    var bits := br.GetBitsUnmasked();
    SmallLookup(table[..], code, bits);
    AccumulatorLookup(br, table[..], code);
    var entry := table[Low(bits, 5)];
    var n, v := entry.bits, entry.value;
    token := Len(0);
    if n + ExtraBits(v) > br.Available() {
      return false, token;
    }
    br.DropBits(n);
    var extra := br.TakeBits(ExtraBits(v));
    ghost var b := old(br.Stream());
    assert b[n..][..ExtraBits(v)] == b[n..n + ExtraBits(v)];
    ExtraBound(b[n..n + ExtraBits(v)], v);
    assert b[n..][ExtraBits(v)..] == b[n + ExtraBits(v)..];
    return true, TokenOf(v, extra);
  }

  /** Reading has come to an end with the outcome `r`. */
  ghost predicate Settled(h: LengthReader, br: Reader, r: TokensOutcome)
    requires br.Valid()
    reads h, h.lists, h.histo, h.next, br
  {
    match r
    case Accept(y, rest) => h.Valid() && h.space == 0 && h.x == y && br.Stream() == rest
    case Refuse => h.space != 0
    case Pause(_, _) => false
  }

  /** In the loop: nothing is decided yet, or the lengths have run over the alphabet. */
  ghost predicate Going(h: LengthReader, br: Reader, code: Code, r: TokensOutcome, overrun: bool)
    requires br.Valid() && LengthCode(code)
    reads h, h.lists, h.histo, h.next, br
  {
    h.symbol <= h.alphabet && if overrun then h.Overrun() && r == Refuse
      else h.Valid() && r == ReadTokens(h.x, code, br.Stream(), h.alphabet)
  }

  lemma GoingEnds(h: LengthReader, br: Reader, code: Code, r: TokensOutcome, overrun: bool)
    requires br.Valid() && LengthCode(code) && Going(h, br, code, r, overrun)
    requires (h.symbol >= h.alphabet || h.space == 0)
    ensures Settled(h, br, r)
  {
    hide SpaceUsed, LengthCode;
    if !overrun { h.SpaceLeft(); }
  }

  /** One token of the loop. */
  method EnterToken(h: LengthReader, br: Reader, t: Token, ghost code: Code, ghost r: TokensOutcome,
                    ghost b: seq<Bit01>)
    returns (ghost overrun: bool)
    requires br.Valid() && LengthCode(code) && h.Valid() && h.symbol < h.alphabet && h.space > 0
    requires r == ReadTokens(h.x, code, b, h.alphabet)
    requires var e := TokenAt(code, b); e.Some? && e.value.0 == t && br.Stream() == b[e.value.1..]
    modifies h, h.lists, h.histo, h.next
    ensures Going(h, br, code, r, overrun) && h.symbol > old(h.symbol) && h.alphabet == old(h.alphabet)
  {
    hide SpaceUsed, LengthCode, TokenAt, Extend, Histogram, Entered, Tail;
    h.SpaceLeft();
    ghost var y := Extend(h.x, t);
    overrun := |y.lens| > h.alphabet;
    h.Enter(t);
  }

  /** `ReadSymbolCodeLengths`: while at least four bytes of input are left, a token and its
      extra bits are in the accumulator after one fill. */
  method ReadSymbolCodeLengths(h: LengthReader, table: array<HuffmanCode>, br: Reader, ghost code: Code)
    returns (more: bool)
    requires h.Valid() && SmallTable(table[..], code) && LengthCode(code) && br.Valid()
    modifies h, h.lists, h.histo, h.next, br`val, br`bitPos, br`nextIn, br`availIn
    ensures br.Valid() && br.nextIn + br.availIn == old(br.nextIn + br.availIn) && (old(br.Backed()) ==> br.Backed())
    ensures var r := ReadTokens(old(h.x), code, old(br.Stream()), old(h.alphabet));
      h.alphabet == old(h.alphabet) && if more then h.Valid() && r == ReadTokens(h.x, code, br.Stream(), h.alphabet)
        else Settled(h, br, r)
  {
    hide SpaceUsed, LengthCode, TokenAt, Extend, Histogram, Entered, Tail, SmallTable, BitsOf, BytesBits, BackedBy;
    ghost var r := ReadTokens(h.x, code, br.Stream(), h.alphabet);
    var warm := br.Warmup();
    if !warm {
      return true;
    }
    ghost var overrun := false;
    while h.symbol < h.alphabet && h.space > 0
      invariant br.Valid() && br.nextIn + br.availIn == old(br.nextIn + br.availIn)
      invariant (old(br.Backed()) ==> br.Backed())
      invariant h.alphabet == old(h.alphabet) && Going(h, br, code, r, overrun) && 0 < br.Available()
      decreases h.alphabet - h.symbol
    {
      if br.availIn < 4 {
        return true;
      }
      br.FillBitWindow(17, true);
      ghost var b := br.Stream();
      var ok, t := NextToken(table, br, code);
      overrun := EnterToken(h, br, t, code, r, b);
    }
    GoingEnds(h, br, code, r, overrun);
    more := false;
  }

  /** `SafeReadSymbolCodeLengths`: byte by byte; it asks for more input only when the next token
      is not all there, and then has taken all that came before it. */
  method SafeReadSymbolCodeLengths(h: LengthReader, table: array<HuffmanCode>, br: Reader, ghost code: Code)
    returns (more: bool)
    requires h.Valid() && SmallTable(table[..], code) && LengthCode(code) && br.Valid()
    modifies h, h.lists, h.histo, h.next, br`val, br`bitPos, br`nextIn, br`availIn
    ensures br.Valid() && br.nextIn + br.availIn == old(br.nextIn + br.availIn) && (old(br.Backed()) ==> br.Backed())
    ensures var r := ReadTokens(old(h.x), code, old(br.Stream()), old(h.alphabet));
      h.alphabet == old(h.alphabet) && if more then h.Valid() && r == Pause(h.x, br.Stream()) && br.availIn == 0
        else Settled(h, br, r)
  {
    hide SpaceUsed, LengthCode, TokenAt, Extend, Histogram, Entered, Tail, SmallTable, BitsOf, BytesBits, BackedBy;
    ghost var r := ReadTokens(h.x, code, br.Stream(), h.alphabet);
    ghost var overrun := false;
    var getByte := false;
    while h.symbol < h.alphabet && h.space > 0
      invariant br.Valid() && br.nextIn + br.availIn == old(br.nextIn + br.availIn)
      invariant (old(br.Backed()) ==> br.Backed())
      invariant h.alphabet == old(h.alphabet) && Going(h, br, code, r, overrun)
      invariant getByte ==> br.Available() < 8 && (br.availIn == 0 ==> TokenAt(code, br.Stream()) == None)
      decreases h.alphabet - h.symbol, br.availIn, if getByte then 0 else 1
    {
      if getByte {
        var pulled := br.PullByte();
        if !pulled {
          h.SpaceLeft();
          return true;
        }
      }
      ghost var b := br.Stream();
      var ok, t := NextToken(table, br, code);
      getByte := !ok;
      if ok {
        overrun := EnterToken(h, br, t, code, r, b);
      }
    }
    GoingEnds(h, br, code, r, overrun);
    more := false;
  }
}
