/** Reading one symbol from the bit reader, on the fast path and near the end of input. */
module SymbolReader {
  import opened Arith
  import opened PrefixCode
  import opened HuffmanTable
  import opened BitReader

  /** The low bits of a stream read as a number are its first bits. */
  lemma {:induction false} NumberLow(b: seq<Bit01>, n: nat)
    requires n <= |b|
    ensures Low(Number(b), n) == Number(b[..n])
  {
    if n > 0 {
      assert Number(b) == b[0] + 2 * Number(b[1..]);
      assert b[1..][..n - 1] == b[..n][1..];
      NumberLow(b[1..], n - 1);
    }
  }

  /** Streams with the same first bits read the same there. */
  lemma NumberReads(b: seq<Bit01>, w: nat, n: nat)
    requires n <= |b| && Low(w, n) == Number(b[..n])
    ensures Rev(w, n) == Rev(Number(b), n)
  {
    NumberLow(b, n);
    RevLow(w, n);
    RevLow(Number(b), n);
  }

  /** The symbol at the start of a stream is there when its codeword is there in full. */
  ghost predicate HasSymbol(code: Code, b: seq<Bit01>)
    requires code.Valid()
  {
    code.Lookup(Number(b)).1 <= |b|
  }

  /** More input does not change a symbol that is there. */
  lemma HasSymbolMore(code: Code, b: seq<Bit01>, more: seq<Bit01>)
    requires code.Valid() && HasSymbol(code, b)
    ensures HasSymbol(code, b + more) && code.Lookup(Number(b + more)) == code.Lookup(Number(b))
  {
    var n := code.Lookup(Number(b)).1;
    NumberLow(b + more, |b|);
    assert (b + more)[..|b|] == b;
    NumberLow(b, n);
    LowLow(Number(b + more), |b|, n);
    assert (b + more)[..n] == b[..n];
    NumberLow(b + more, n);
    NumberReads(b, Number(b + more), n);
    LookupPrefix(code, Number(b), Number(b + more), n);
  }

  lemma {:induction false} LowLow(w: nat, m: nat, n: nat)
    requires n <= m
    ensures Low(Low(w, m), n) == Low(w, n)
    decreases n
  {
    hide Pow2;
    if n > 0 {
      var x := Low(w, m);
      assert x == w % 2 + 2 * Low(w / 2, m - 1);
      assert x % 2 == w % 2 && x / 2 == Low(w / 2, m - 1);
      LowLow(w / 2, m - 1, n - 1);
    }
  }

  /** The accumulator as a window: its first `n` bits are the stream's. */
  lemma WindowReads(br: Reader, n: nat)
    requires br.Valid() && n <= br.Available()
    ensures Low(br.GetBitsUnmasked(), n) == Number(br.Stream()[..n])
    ensures Rev(br.GetBitsUnmasked(), n) == Rev(Number(br.Stream()), n)
  {
    var acc := br.GetBitsUnmasked();
    BitsSplit(acc, n, br.Available() - n);
    NumberBits(acc, n);
    assert br.Stream()[..n] == BitsOf(acc, n);
    NumberReads(br.Stream(), acc, n);
  }

  /** `ReadSymbol`: peeks 16 bits and drops the codeword. */
  method ReadSymbol(t: seq<HuffmanCode>, br: Reader, ghost code: Code) returns (symbol: nat)
    requires br.Valid() && Describes(t, code) && code.Valid() && 0 < br.Available()
    requires |br.Stream()| >= WindowMargin(16, true)
    modifies br`val, br`bitPos, br`nextIn, br`availIn
    ensures br.Valid() && 0 < br.Available() && HasSymbol(code, old(br.Stream()))
    ensures var (value, len) := code.Lookup(Number(old(br.Stream())));
      symbol == value && len <= |old(br.Stream())| && br.Stream() == old(br.Stream())[len..]
    ensures br.nextIn + br.availIn == old(br.nextIn + br.availIn) && (old(br.Backed()) ==> br.Backed())
  {
    hide Describes, Code.Lookup, Number, BitsOf, BytesBits, Rev, BackedBy;
    br.FillBitWindow(16, true);
    var bits := Low(br.GetBitsUnmasked(), 32);
    WindowReads(br, 15);
    RevLow15(br.GetBitsUnmasked(), 32);
    DecodeAgrees(t, code, bits);
    LookupPrefix(code, bits, Number(br.Stream()), 15);
    var (value, len) := DecodeSymbol(t, bits);
    br.DropBits(len);
    symbol := value;
  }

  lemma RevLow15(w: nat, n: nat)
    requires n >= 15
    ensures Rev(Low(w, n), 15) == Rev(w, 15)
  {
    LowLow(w, n, 15);
    RevLow(w, 15);
    RevLow(Low(w, n), 15);
  }

  /** `SafeReadSymbol`: succeeds exactly when the codeword is there in full, and agrees
      with the fast path; otherwise no bit is lost and all input is in the accumulator. */
  method SafeReadSymbol(t: seq<HuffmanCode>, br: Reader, ghost code: Code) returns (ok: bool, symbol: nat)
    requires br.Valid() && Describes(t, code) && code.Valid()
    modifies br`val, br`bitPos, br`nextIn, br`availIn
    ensures br.Valid() && br.nextIn + br.availIn == old(br.nextIn + br.availIn) && (old(br.Backed()) ==> br.Backed())
    ensures ok == HasSymbol(code, old(br.Stream()))
    ensures ok ==> var (value, len) := code.Lookup(Number(old(br.Stream())));
      symbol == value && len <= |old(br.Stream())| && br.Stream() == old(br.Stream())[len..]
    ensures !ok ==> br.Stream() == old(br.Stream()) && br.availIn == 0 && |br.Stream()| < 15
  {
    hide Describes, Code.Lookup, Number, BitsOf, BytesBits, Rev, BackedBy, Low, SafeDecode, Step;
    symbol := 0;
    var enough := br.PullUntil(15);
    if enough {
      var val := Low(br.GetBitsUnmasked(), 15);
      WindowReads(br, 15);
      RevLow15(br.GetBitsUnmasked(), 15);
      DecodeAgrees(t, code, val);
      LookupPrefix(code, val, Number(br.Stream()), 15);
      var (value, len) := DecodeSymbol(t, val);
      br.DropBits(len);
      return true, value;
    }
    ghost var n := br.Available();
    var val := Low(br.GetBitsUnmasked(), 32);
    AccumulatorShort(br);
    SafeDecodeExact(t, code, val, br.Available());
    match SafeDecode(t, val, br.Available()) {
      case NotEnough => ok := false;
      case Symbol(value, len) =>
        br.DropBits(len);
        return true, value;
    }
  }

  /** With all input in the accumulator, the accumulator is the stream as a number. */
  lemma AccumulatorShort(br: Reader)
    requires br.Valid() && br.availIn == 0 && br.Available() < 15
    ensures Low(br.GetBitsUnmasked(), 32) == Number(br.Stream())
    ensures br.Available() == 0 ==> Number(br.Stream()) == 0
  {
    hide Low;
    WindowReads(br, br.Available());
    ShrBound(br.val, br.Available(), br.bitPos);
    assert br.Stream()[..br.Available()] == br.Stream();
    Pow2Monotone(br.Available(), 32);
    LowSelf(br.GetBitsUnmasked(), br.Available());
    LowSelf(br.GetBitsUnmasked(), 32);
  }

}
