/** The bit reader: a 64-bit accumulator and a byte pointer standing for one stream of bits. */
module BitReader {
  import opened Arith
  import opened PrefixCode

  type Bit01 = x: nat | x < 2

  const REGISTER_BITS := 64

  /** The low `n` bits of `x`, first bit first. */
  function BitsOf(x: nat, n: nat): (b: seq<Bit01>)
    ensures |b| == n
  {
    if n == 0 then [] else [x % 2] + BitsOf(x / 2, n - 1)
  }

  function BytesBits(bytes: seq<Byte>): (b: seq<Bit01>)
    ensures |b| == 8 * |bytes|
  {
    if bytes == [] then [] else BitsOf(bytes[0], 8) + BytesBits(bytes[1..])
  }

  lemma BytesBitsNone()
    ensures BytesBits([]) == []
  {
  }

  lemma NumberNone()
    ensures Number([]) == 0
  {
  }

  /** The number whose binary digits these are. */
  function Number(b: seq<Bit01>): (x: nat)
    ensures x < Pow2(|b|)
  {
    if b == [] then 0 else b[0] + 2 * Number(b[1..])
  }

  lemma {:induction false} BytesBitsAppend(a: seq<Byte>, b: seq<Byte>)
    ensures BytesBits(a + b) == BytesBits(a) + BytesBits(b)
  {
    if a == [] {
      assert a + b == b;
    } else {
      assert (a + b)[1..] == a[1..] + b;
      BytesBitsAppend(a[1..], b);
    }
  }

  lemma {:induction false} NumberBits(x: nat, n: nat)
    ensures Number(BitsOf(x, n)) == Low(x, n)
  {
    if n > 0 { NumberBits(x / 2, n - 1); }
  }

  /** The bits of a number taken apart at bit `n`. */
  lemma {:induction false} BitsSplit(x: nat, n: nat, m: nat)
    ensures BitsOf(x, n + m) == BitsOf(x, n) + BitsOf(Shr(x, n), m)
  {
    if n > 0 { BitsSplit(x / 2, n - 1, m); }
  }

  /** Bits put together at bit `n`. */
  lemma {:induction false} BitsJoin(x: nat, y: nat, n: nat, m: nat)
    requires x < Pow2(n)
    ensures BitsOf(x + Shl(y, n), n + m) == BitsOf(x, n) + BitsOf(y, m)
    decreases n
  {
    if n > 0 {
      assert (x + Shl(y, n)) / 2 == x / 2 + Shl(y, n - 1);
      BitsJoin(x / 2, y, n - 1, m);
    }
  }

  lemma {:induction false} ShrShr(x: nat, m: nat, n: nat)
    ensures Shr(Shr(x, m), n) == Shr(x, m + n)
    decreases m
  {
    if m > 0 { ShrShr(x / 2, m - 1, n); }
  }

  lemma {:induction false} ShrJoin(x: nat, y: nat, m: nat, n: nat)
    requires n <= m
    ensures Shr(x + Shl(y, m), n) == Shr(x, n) + Shl(y, m - n)
    decreases n
  {
    if n > 0 {
      assert (x + Shl(y, m)) / 2 == x / 2 + Shl(y, m - 1);
      ShrJoin(x / 2, y, m - 1, n - 1);
    }
  }

  lemma {:induction false} ShrBound(x: nat, m: nat, n: nat)
    requires x < Pow2(m + n)
    ensures Shr(x, n) < Pow2(m)
    decreases n
  {
    if n > 0 { ShrBound(x / 2, m, n - 1); }
  }

  /** Bitwise exclusive or. */
  function Xor(a: nat, b: nat): nat
    decreases a + b
  {
    if a == 0 && b == 0 then 0
    else 2 * Xor(a / 2, b / 2) + (if a % 2 == b % 2 then 0 else 1)
  }

  lemma {:induction false} XorSelf(a: nat)
    ensures Xor(a, a) == 0
    decreases a
  {
    if a > 0 { XorSelf(a / 2); }
  }

  /** Flipping high bits that are all set subtracts them. */
  lemma {:induction false} XorSubtracts(q: nat, low: nat, m: nat)
    requires low < Pow2(m)
    ensures Xor(Shl(q, m) + low, Shl(q, m)) == low
    decreases m
  {
    if m == 0 {
      XorSelf(q);
    } else {
      XorSubtracts(q, low / 2, m - 1);
      assert (Shl(q, m) + low) / 2 == Shl(q, m - 1) + low / 2;
    }
  }

  /** `bit_pos_ ^= drop` for the three strides of the fill: a subtraction when the
      accumulator is not empty, and wrong when it is. */
  lemma FillXor(bitPos: nat, drop: nat)
    requires drop == 56 || drop == 48 || drop == 32
    requires drop <= bitPos <= 64
    ensures Xor(bitPos, drop) == bitPos - drop <==> bitPos < 64
  {
    hide Xor, Shl, Pow2;
    Pow2Values();
    FillXorValues();
    var q, m := if drop == 56 then 7 else if drop == 48 then 3 else 1,
             if drop == 56 then 3 else if drop == 48 then 4 else 5;
    if bitPos < 64 {
      XorSubtracts(q, bitPos - drop, m);
    }
  }

  lemma FillXorValues()
    ensures Shl(7, 3) == 56 && Shl(3, 4) == 48 && Shl(1, 5) == 32
    ensures Xor(64, 56) == 120 && Xor(64, 48) == 112 && Xor(64, 32) == 96
  {
  }

  /** Bytes loaded as a little-endian number. */
  function LoadLE(bytes: seq<Byte>): nat {
    if bytes == [] then 0 else bytes[0] + 256 * LoadLE(bytes[1..])
  }

  lemma {:induction false} LoadBits(bytes: seq<Byte>)
    ensures BitsOf(LoadLE(bytes), 8 * |bytes|) == BytesBits(bytes)
  {
    if bytes != [] {
      var rest := LoadLE(bytes[1..]);
      LoadBits(bytes[1..]);
      Pow2Values();
      assert Shl(rest, 8) == 256 * rest by { ShlByte(rest); }
      BitsJoin(bytes[0], rest, 8, 8 * |bytes[1..]|);
    }
  }

  lemma ShlByte(x: nat)
    ensures Shl(x, 8) == 256 * x
  {
    assert Shl(x, 1) == 2 * x && Shl(x, 2) == 4 * x && Shl(x, 3) == 8 * x && Shl(x, 4) == 16 * x;
    assert Shl(x, 5) == 32 * x && Shl(x, 6) == 64 * x && Shl(x, 7) == 128 * x;
  }

  /** Shifting the register right and placing loaded bytes on top appends their bits. */
  lemma FillBits(val: nat, bitPos: nat, bytes: seq<Byte>)
    requires val < Pow2(64) && 8 * |bytes| <= bitPos <= 64
    ensures var k := 8 * |bytes|; var v := Shr(val, k) + Shl(LoadLE(bytes), 64 - k);
      && v < Pow2(64)
      && BitsOf(Shr(v, bitPos - k), 64 - (bitPos - k)) == BitsOf(Shr(val, bitPos), 64 - bitPos) + BytesBits(bytes)
  {
    hide Shr, Shl, Pow2, LoadLE, BitsOf, BytesBits;
    var k := 8 * |bytes|;
    LoadBits(bytes);
    LoadBound(bytes);
    ShrBound(val, 64 - k, k);
    ShlBound'(LoadLE(bytes), k, Shr(val, k), 64 - k);
    ShrJoin(Shr(val, k), LoadLE(bytes), 64 - k, bitPos - k);
    ShrShr(val, k, bitPos - k);
    ShrBound(val, 64 - bitPos, bitPos);
    BitsJoin(Shr(val, bitPos), LoadLE(bytes), 64 - bitPos, k);
  }

  lemma {:induction false} LoadBound(bytes: seq<Byte>)
    ensures LoadLE(bytes) < Pow2(8 * |bytes|)
  {
    if bytes != [] {
      LoadBound(bytes[1..]);
      Pow2Byte(8 * |bytes[1..]|);
    }
  }

  lemma Pow2Byte(n: nat)
    ensures Pow2(n + 8) == 256 * Pow2(n)
  {
    assert Pow2(n + 8) == 2 * Pow2(n + 7) && Pow2(n + 7) == 2 * Pow2(n + 6) && Pow2(n + 6) == 2 * Pow2(n + 5);
    assert Pow2(n + 5) == 2 * Pow2(n + 4) && Pow2(n + 4) == 2 * Pow2(n + 3) && Pow2(n + 3) == 2 * Pow2(n + 2);
    assert Pow2(n + 2) == 2 * Pow2(n + 1);
  }

  lemma LoadOne(b: Byte)
    ensures LoadLE([b]) == b
  {
    assert [b][1..] == [];
  }

  lemma {:induction false} ShlBound'(x: nat, b: nat, low: nat, n: nat)
    requires x < Pow2(b) && low < Pow2(n)
    ensures low + Shl(x, n) < Pow2(b + n)
  {
    if n > 0 { ShlBound'(x, b, low / 2, n - 1); }
  }

  /** Cutting a shifted number off at the register's end cuts the number itself. */
  lemma {:induction false} LowShl(x: nat, n: nat, m: nat)
    ensures Low(Shl(x, n), n + m) == Shl(Low(x, m), n)
    decreases n
  {
    if n > 0 { LowShl(x, n - 1, m); }
  }

  lemma {:induction false} LowJoin(x: nat, y: nat, n: nat)
    requires x < Pow2(n)
    ensures Low(x + Shl(y, n), n) == x
    decreases n
  {
    if n > 0 {
      assert (x + Shl(y, n)) / 2 == x / 2 + Shl(y, n - 1);
      LowJoin(x / 2, y, n - 1);
    }
  }

  /** The low bytes of a longer load. */
  lemma {:induction false} LoadAppend(a: seq<Byte>, b: seq<Byte>)
    ensures LoadLE(a + b) == LoadLE(a) + Shl(LoadLE(b), 8 * |a|)
  {
    if a == [] {
      assert a + b == b;
    } else {
      assert (a + b)[1..] == a[1..] + b;
      LoadAppend(a[1..], b);
      ShlByte(Shl(LoadLE(b), 8 * |a[1..]|));
      ShlShl(LoadLE(b), 8 * |a[1..]|, 8);
    }
  }

  lemma LoadLow(bytes: seq<Byte>, n: nat)
    requires n <= |bytes|
    ensures Low(LoadLE(bytes), 8 * n) == LoadLE(bytes[..n])
  {
    assert bytes == bytes[..n] + bytes[n..];
    LoadAppend(bytes[..n], bytes[n..]);
    LoadBound(bytes[..n]);
    LowJoin(LoadLE(bytes[..n]), LoadLE(bytes[n..]), 8 * n);
  }

  /** The whole bytes at the end of `acc` are those before `nextIn`. */
  ghost predicate BackedBy(acc: seq<Bit01>, input: seq<Byte>, nextIn: nat) {
    var k := |acc| / 8;
    k <= nextIn <= |input| && acc[|acc| - 8 * k..] == BytesBits(input[nextIn - k..nextIn])
  }

  lemma BackedAppend(acc: seq<Bit01>, input: seq<Byte>, nextIn: nat, n: nat)
    requires BackedBy(acc, input, nextIn) && nextIn + n <= |input|
    ensures BackedBy(acc + BytesBits(input[nextIn..nextIn + n]), input, nextIn + n)
  {
    hide BytesBits;
    var k := |acc| / 8;
    BytesBitsAppend(input[nextIn - k..nextIn], input[nextIn..nextIn + n]);
    assert input[nextIn - k..nextIn] + input[nextIn..nextIn + n] == input[nextIn - k..nextIn + n];
  }

  lemma BackedDrop(acc: seq<Bit01>, input: seq<Byte>, nextIn: nat, n: nat)
    requires BackedBy(acc, input, nextIn) && n <= |acc|
    ensures BackedBy(acc[n..], input, nextIn)
  {
    hide BytesBits;
    var k, k' := |acc| / 8, (|acc| - n) / 8;
    BytesBitsAppend(input[nextIn - k..nextIn - k'], input[nextIn - k'..nextIn]);
    assert input[nextIn - k..nextIn - k'] + input[nextIn - k'..nextIn] == input[nextIn - k..nextIn];
  }

  /** Bits left that keep a fill inside the input: the load's bytes but one bit, and the most
      the accumulator can hold when it loads. */
  function WindowMargin(n: nat, isConstant: bool): nat {
    if isConstant && n <= 8 then 65 else if isConstant && n <= 16 then 73 else 57
  }

  datatype Memento = Memento(val: nat, bitPos: nat, nextIn: nat, availIn: nat)

  class Reader {
    var val: nat
    var bitPos: nat
    var input: seq<Byte>
    var nextIn: nat
    var availIn: nat

    ghost predicate Valid()
      reads this
    {
      val < Pow2(64) && bitPos <= 64 && nextIn + availIn <= |input|
    }

    function Available(): nat
      requires Valid()
      reads this
    {
      REGISTER_BITS - bitPos
    }

    /** The unread bits in the accumulator. */
    ghost function AccBits(): (b: seq<Bit01>)
      requires Valid()
      reads this
      ensures |b| == Available()
    {
      BitsOf(Shr(val, bitPos), Available())
    }

    /** All unread bits. */
    ghost function Stream(): (b: seq<Bit01>)
      requires Valid()
      reads this
    {
      AccBits() + BytesBits(input[nextIn..nextIn + availIn])
    }

    /** The whole bytes in the accumulator are the last ones taken from the input, so that
        they can be given back. */
    ghost predicate Backed()
      requires Valid()
      reads this
    {
      BackedBy(AccBits(), input, nextIn)
    }

    constructor ()
      ensures Valid() && bitPos == 64 && availIn == 0 && Stream() == []
    {
      val, bitPos, input, nextIn, availIn := 0, 64, [], 0, 0;
    }

    function Save(): Memento
      reads this
    {
      Memento(val, bitPos, nextIn, availIn)
    }

    method Restore(m: Memento)
      modifies `val, `bitPos, `nextIn, `availIn
      ensures Save() == m
    {
      val, bitPos, nextIn, availIn := m.val, m.bitPos, m.nextIn, m.availIn;
    }

    /** Points the reader at other input; the accumulator keeps its bits. */
    method Connect(bytes: seq<Byte>, n: nat)
      requires Valid() && n <= |bytes|
      modifies `input, `nextIn, `availIn
      ensures Valid() && input == bytes && nextIn == 0 && availIn == n && AccBits() == old(AccBits())
      ensures Stream() == AccBits() + BytesBits(bytes[..n])
    {
      input, nextIn, availIn := bytes, 0, n;
    }

    /** Takes `n` bytes into the accumulator; the new register value is already computed. */
    ghost predicate Takes(n: nat, v: nat)
      requires Valid()
      reads this
    {
      n <= availIn && 8 * n <= bitPos && v == Shr(val, 8 * n) + Shl(LoadLE(input[nextIn..nextIn + n]), 64 - 8 * n)
    }

    method TakeBytes(n: nat, v: nat)
      requires Valid() && Takes(n, v)
      modifies `val, `bitPos, `nextIn, `availIn
      ensures Valid() && Stream() == old(Stream()) && (old(Backed()) ==> Backed())
      ensures bitPos == old(bitPos) - 8 * n && availIn == old(availIn) - n && nextIn == old(nextIn) + n
    {
      hide Pow2, Shl, Shr, LoadLE, BitsOf, BytesBits, BackedBy;
      ghost var bytes := input[nextIn..nextIn + n];
      FillBits(val, bitPos, bytes);
      BytesBitsAppend(bytes, input[nextIn + n..nextIn + availIn]);
      assert bytes + input[nextIn + n..nextIn + availIn] == input[nextIn..nextIn + availIn];
      if Backed() {
        BackedAppend(AccBits(), input, nextIn, n);
      }
      ghost var acc := AccBits();
      val, bitPos, nextIn, availIn := v, bitPos - 8 * n, nextIn + n, availIn - n;
      assert AccBits() == acc + BytesBits(bytes);
    }

    /** One byte, if there is one. */
    method PullByte() returns (ok: bool)
      requires Valid() && bitPos >= 8
      modifies `val, `bitPos, `nextIn, `availIn
      ensures Valid() && Stream() == old(Stream()) && (old(Backed()) ==> Backed())
      ensures ok == (old(availIn) > 0)
      ensures ok ==> bitPos == old(bitPos) - 8 && availIn == old(availIn) - 1 && nextIn == old(nextIn) + 1
      ensures !ok ==> Save() == old(Save())
    {
      hide Pow2, Shl, Shr, BitsOf, BytesBits;
      if availIn == 0 {
        return false;
      }
      assert input[nextIn..nextIn + 1] == [input[nextIn]];
      LoadOne(input[nextIn]);
      TakeBytes(1, Shr(val, 8) + Shl(input[nextIn], 56));
      ok := true;
    }

    /** `BrotliFillBitWindow`: on the fast path, more than `n` bits in the accumulator
        afterwards. It may load a byte more than it takes; how many bits must be left for
        all of its loads to stay within the input depends on its stride. Four bytes of input
        are enough for the four-byte stride. */
    method FillBitWindow(n: nat, isConstant: bool)
      requires Valid() && n <= 32 && 0 < Available()
      requires |Stream()| >= WindowMargin(n, isConstant) || (WindowMargin(n, isConstant) == 57 && availIn >= 4)
      modifies `val, `bitPos, `nextIn, `availIn
      ensures Valid() && Available() > n && nextIn + availIn == old(nextIn + availIn)
      ensures Stream() == old(Stream()) && (old(Backed()) ==> Backed())
    {
      hide Pow2, Shl, Shr, BitsOf, BytesBits, LoadLE, Low, Xor;
      if isConstant && n <= 8 {
        if bitPos >= 56 {
          FillXor(bitPos, 56);
          LoadTop(input[nextIn..nextIn + 8], 7);
          assert input[nextIn..nextIn + 8][..7] == input[nextIn..nextIn + 7];
          var v := Shr(val, 56) + Low(Shl(LoadLE(input[nextIn..nextIn + 8]), 8), 64);
          TakeBytes(7, v);
        }
      } else if isConstant && n <= 16 {
        if bitPos >= 48 {
          FillXor(bitPos, 48);
          LoadTop(input[nextIn..nextIn + 8], 6);
          assert input[nextIn..nextIn + 8][..6] == input[nextIn..nextIn + 6];
          var v := Shr(val, 48) + Low(Shl(LoadLE(input[nextIn..nextIn + 8]), 16), 64);
          TakeBytes(6, v);
        }
      } else {
        if bitPos >= 32 {
          FillXor(bitPos, 32);
          TakeBytes(4, Shr(val, 32) + Shl(LoadLE(input[nextIn..nextIn + 4]), 32));
        }
      }
    }

    /** The unread accumulator bits as a number, possibly followed by zeros. */
    function GetBitsUnmasked(): nat
      reads this
    {
      Shr(val, bitPos)
    }

    method DropBits(n: nat)
      requires Valid() && n <= Available()
      modifies `bitPos
      ensures Valid() && bitPos == old(bitPos) + n && Stream() == old(Stream())[n..]
      ensures AccBits() == old(AccBits())[n..] && (old(Backed()) ==> Backed())
    {
      hide Pow2, Shr, BitsOf, BytesBits, BackedBy;
      BitsSplit(Shr(val, bitPos), n, Available() - n);
      ShrShr(val, bitPos, n);
      if Backed() {
        BackedDrop(AccBits(), input, nextIn, n);
      }
      bitPos := bitPos + n;
    }

    /** Reads `n` bits that are in the accumulator. */
    method TakeBits(n: nat) returns (r: nat)
      requires Valid() && n <= Available()
      modifies `bitPos
      ensures Valid() && Stream() == old(Stream())[n..] && r == Number(old(Stream())[..n])
      ensures bitPos == old(bitPos) + n && (old(Backed()) ==> Backed())
    {
      hide Pow2, Shr, BitsOf, BytesBits, Number, Low;
      r := Low(GetBitsUnmasked(), n);
      BitsSplit(Shr(val, bitPos), n, Available() - n);
      NumberBits(Shr(val, bitPos), n);
      assert Stream()[..n] == BitsOf(Shr(val, bitPos), n);
      DropBits(n);
    }

    /** `BrotliReadBits24` and `BrotliReadBits32` of the 64-bit build. */
    method ReadBits(n: nat) returns (r: nat)
      requires Valid() && n <= 32 && 0 < Available() && |Stream()| >= WindowMargin(n, false)
      modifies `val, `bitPos, `nextIn, `availIn
      ensures Valid() && 0 < Available() && n <= |old(Stream())|
      ensures Stream() == old(Stream())[n..] && r == Number(old(Stream())[..n])
      ensures nextIn + availIn == old(nextIn + availIn) && (old(Backed()) ==> Backed())
    {
      hide BitsOf, BytesBits, Number;
      FillBitWindow(n, false);
      r := TakeBits(n);
    }

    /** Pulls bytes until `n` bits are in the accumulator; failing that, all input is. */
    method PullUntil(n: nat) returns (ok: bool)
      requires Valid() && n <= 57
      modifies `val, `bitPos, `nextIn, `availIn
      ensures Valid() && Stream() == old(Stream()) && (old(Backed()) ==> Backed())
      ensures ok == (|old(Stream())| >= n)
      ensures ok ==> Available() >= n
      ensures !ok ==> availIn == 0 && Available() == |Stream()| < n
      ensures Available() < n + 8 || Save() == old(Save())
      ensures nextIn + availIn == old(nextIn + availIn)
    {
      hide BitsOf, BytesBits;
      while Available() < n
        invariant Valid() && Stream() == old(Stream()) && (old(Backed()) ==> Backed())
        invariant Available() < n + 8 || Save() == old(Save())
        invariant nextIn + availIn == old(nextIn + availIn)
        decreases availIn
      {
        var pulled := PullByte();
        if !pulled {
          return false;
        }
      }
      ok := true;
    }

    /** `BrotliSafeReadBits`: succeeds exactly when there are `n` bits, and otherwise keeps
        them all. */
    method SafeReadBits(n: nat) returns (ok: bool, r: nat)
      requires Valid() && n <= 32
      modifies `val, `bitPos, `nextIn, `availIn
      ensures Valid() && nextIn + availIn == old(nextIn + availIn) && (old(Backed()) ==> Backed())
      ensures ok == (|old(Stream())| >= n)
      ensures ok ==> Stream() == old(Stream())[n..] && r == Number(old(Stream())[..n])
      ensures !ok ==> Stream() == old(Stream()) && availIn == 0
    {
      hide BitsOf, BytesBits, Number;
      r := 0;
      ok := PullUntil(n);
      if ok {
        r := TakeBits(n);
      }
    }

    /** `BrotliWarmupBitReader`: at least one bit in the accumulator, if there is any. */
    method Warmup() returns (ok: bool)
      requires Valid()
      modifies `val, `bitPos, `nextIn, `availIn
      ensures Valid() && Stream() == old(Stream()) && (old(Backed()) ==> Backed())
      ensures ok == (|Stream()| > 0) == (Available() > 0) && nextIn + availIn == old(nextIn + availIn)
    {
      hide BitsOf, BytesBits;
      ok := true;
      if Available() == 0 {
        ok := PullByte();
      }
    }

    /** `BrotliBitReaderUnload`: whole unread bytes go back to the input. */
    method Unload()
      requires Valid() && Backed()
      modifies `val, `bitPos, `nextIn, `availIn
      ensures Valid() && Backed() && Stream() == old(Stream()) && Available() == old(Available()) % 8
      ensures nextIn == old(nextIn) - old(Available()) / 8 && nextIn + availIn == old(nextIn + availIn)
    {
      hide Pow2, Shr, Shl, Low, BitsOf, BytesBits, Unloaded, BackedBy;
      var unusedBytes := Available() / 8;
      var unusedBits := 8 * unusedBytes;
      ghost var acc, rest, keep := AccBits(), input[nextIn..nextIn + availIn], Available() - unusedBits;
      UnloadAcc(acc, input, nextIn);
      ghost var bytes := input[nextIn - unusedBytes..nextIn];
      BitsSplit(Shr(val, bitPos), keep, unusedBits);
      ShiftOut(val, bitPos, unusedBits);
      BytesBitsAppend(bytes, rest);
      assert bytes + rest == input[nextIn - unusedBytes..nextIn + availIn];
      availIn := availIn + unusedBytes;
      nextIn := nextIn - unusedBytes;
      val := Unloaded(val, unusedBits);
      bitPos := bitPos + unusedBits;
      assert AccBits() == acc[..keep];
      BackedSmall(AccBits(), input, nextIn);
    }

    /** The next byte, from the accumulator. */
    method CopyByte() returns (b: Byte)
      requires Valid() && Available() >= 8
      modifies `bitPos
      ensures Valid() && bitPos == old(bitPos) + 8
      ensures BytesBits([b]) == old(Stream())[..8] && Stream() == old(Stream())[8..]
    {
      hide Pow2, Shr, BitsOf, BytesBits, BackedBy;
      b := GetBitsUnmasked() % 256;
      BitsSplit(GetBitsUnmasked(), 8, Available() - 8);
      FirstByte(GetBitsUnmasked());
      DropBits(8);
    }

    /** `memcpy` of bytes of the input, once the accumulator is empty. */
    method CopyInput(n: nat) returns (bytes: seq<Byte>)
      requires Valid() && n <= availIn && (n > 0 ==> Available() == 0)
      modifies `nextIn, `availIn
      ensures Valid() && |bytes| == n && nextIn + availIn == old(nextIn + availIn)
      ensures 8 * n <= |old(Stream())| && BytesBits(bytes) == old(Stream())[..8 * n]
      ensures Stream() == old(Stream())[8 * n..]
    {
      hide Pow2, Shr, BitsOf, BytesBits;
      ghost var acc := AccBits();
      bytes := input[nextIn..nextIn + n];
      BytesBitsAppend(bytes, input[nextIn + n..nextIn + availIn]);
      assert bytes + input[nextIn + n..nextIn + availIn] == input[nextIn..nextIn + availIn];
      BytesBitsNone();
      availIn := availIn - n;
      nextIn := nextIn + n;
      assert AccBits() == acc;
    }

    /** `BrotliCopyBytes`: whole bytes, first those of the accumulator, then those of the input;
        the reader has to be at a byte boundary. */
    method CopyBytes(num: nat) returns (dest: seq<Byte>)
      requires Valid() && Available() % 8 == 0 && 8 * num <= |Stream()|
      modifies `bitPos, `nextIn, `availIn
      ensures Valid() && |dest| == num && nextIn + availIn == old(nextIn + availIn)
      ensures BytesBits(dest) == old(Stream())[..8 * num] && Stream() == old(Stream())[8 * num..]
    {
      hide Pow2, Shr, BitsOf, BytesBits, BackedBy;
      ghost var all := Stream();
      dest := [];
      BytesBitsNone();
      while Available() >= 8 && |dest| < num
        invariant Valid() && |dest| <= num && Available() % 8 == 0 && nextIn == old(nextIn) && availIn == old(availIn)
        invariant 8 * |dest| <= |all| && BytesBits(dest) == all[..8 * |dest|] && Stream() == all[8 * |dest|..]
        decreases num - |dest|
      {
        var b := CopyByte();
        BytesBitsAppend(dest, [b]);
        dest := dest + [b];
      }
      ghost var head := dest;
      var rest := CopyInput(num - |dest|);
      BytesBitsAppend(head, rest);
      dest := dest + rest;
    }

    /** `BrotliJumpToByteBoundary`: drops the bits left of the current byte. */
    method JumpToByteBoundary() returns (ok: bool)
      requires Valid()
      modifies `bitPos
      ensures Valid() && (old(Backed()) ==> Backed())
      ensures var pad := |old(Stream())| % 8;
        && Stream() == old(Stream())[pad..] && Available() % 8 == 0
        && ok == (Number(old(Stream())[..pad]) == 0)
    {
      hide Pow2, BitsOf, BytesBits, BackedBy;
      NumberNone();
      hide Number;
      assert |Stream()| % 8 == Available() % 8;
      var padBitsCount := Available() % 8;
      var padBits := 0;
      if padBitsCount != 0 {
        padBits := TakeBits(padBitsCount);
      }
      ok := padBits == 0;
    }
  }

  /** The first byte of the accumulator. */
  lemma FirstByte(x: nat)
    ensures BytesBits([x % 256]) == BitsOf(x, 8)
  {
    hide BitsOf;
    BytesBitsOne(x % 256);
    BitsLow(x, 8);
    LowModulo(x, 8);
    Pow2Values();
  }

  lemma BytesBitsOne(b: Byte)
    ensures BytesBits([b]) == BitsOf(b, 8)
  {
    assert [b][1..] == [];
  }

  /** An eight-byte load shifted up keeps only its low `n` bytes in the register. */
  lemma LoadTop(bytes: seq<Byte>, n: nat)
    requires |bytes| == 8 && n <= 8
    ensures Low(Shl(LoadLE(bytes), 64 - 8 * n), 64) == Shl(LoadLE(bytes[..n]), 64 - 8 * n)
  {
    LowShl(LoadLE(bytes), 64 - 8 * n, 8 * n);
    LoadLow(bytes, n);
  }

  /** The accumulator is its last partial byte and the bytes to give back. */
  lemma UnloadAcc(acc: seq<Bit01>, input: seq<Byte>, nextIn: nat)
    requires BackedBy(acc, input, nextIn)
    ensures var k := |acc| / 8;
      k <= nextIn && acc == acc[..|acc| - 8 * k] + BytesBits(input[nextIn - k..nextIn])
  {
  }

  lemma BackedSmall(acc: seq<Bit01>, input: seq<Byte>, nextIn: nat)
    requires |acc| < 8 && nextIn <= |input|
    ensures BackedBy(acc, input, nextIn)
  {
    assert |acc| / 8 == 0;
    assert input[nextIn..nextIn] == [] && acc[|acc|..] == [];
  }

  /** `val << u` in a 64-bit register, where a shift by 64 is written out. */
  function Unloaded(val: nat, u: nat): nat {
    if u == 64 then 0 else Low(Shl(val, u), 64)
  }

  /** Shifting the register left by `u` keeps the low unread bits on top. */
  lemma ShiftOut(val: nat, bitPos: nat, u: nat)
    requires val < Pow2(64) && bitPos + u <= 64
    ensures Unloaded(val, u) < Pow2(64)
    ensures BitsOf(Shr(Unloaded(val, u), bitPos + u), 64 - bitPos - u) == BitsOf(Shr(val, bitPos), 64 - bitPos - u)
  {
    hide Pow2;
    if u < 64 {
      hide BitsOf;
      LowShl(val, u, 64 - u);
      ShrShl(Low(val, 64 - u), u, bitPos);
      ShrLow(val, bitPos, 64 - bitPos - u);
      BitsLow(Shr(val, bitPos), 64 - bitPos - u);
    }
  }

  lemma {:induction false} ShrShl(x: nat, u: nat, n: nat)
    ensures Shr(Shl(x, u), u + n) == Shr(x, n)
    decreases u
  {
    if u > 0 { ShrShl(x, u - 1, n); }
  }

  lemma {:induction false} ShrLow(x: nat, n: nat, m: nat)
    ensures Shr(Low(x, n + m), n) == Low(Shr(x, n), m)
    decreases n
  {
    if n > 0 { ShrLow(x / 2, n - 1, m); }
  }

  lemma {:induction false} BitsLow(x: nat, n: nat)
    ensures BitsOf(Low(x, n), n) == BitsOf(x, n)
  {
    if n > 0 { BitsLow(x / 2, n - 1); }
  }
}
