/** Writing numbers and symbols as bits, for the readers to read back. */
module BitWriter {
  import opened Arith
  import opened PrefixCode
  import opened HuffmanTable
  import opened BitReader
  import opened SymbolReader

  /** A number whose first bit counts most. */
  function Big(x: nat, n: nat): (b: seq<Bit01>)
    ensures |b| == n
  {
    if n == 0 then [] else Big(x / 2, n - 1) + [x % 2]
  }

  lemma {:induction false} NumberBit(b: seq<Bit01>, i: nat)
    requires i < |b|
    ensures Bit(Number(b), i) == b[i]
  {
    assert Number(b) == b[0] + 2 * Number(b[1..]);
    if i > 0 { NumberBit(b[1..], i - 1); }
  }

  lemma {:induction false} BigRead(x: nat, n: nat, rest: seq<Bit01>)
    requires x < Pow2(n)
    ensures Rev(Number(Big(x, n) + rest), n) == x
  {
    if n > 0 {
      var b := Big(x, n) + rest;
      assert b == Big(x / 2, n - 1) + ([x % 2] + rest);
      BigRead(x / 2, n - 1, [x % 2] + rest);
      NumberBit(b, n - 1);
    }
  }

  /** The k-th codeword of length `len` is that of the symbol. */
  ghost predicate SpellsAt(code: Code, v: nat, b: seq<Bit01>, len: nat, k: nat)
    requires code.Many?
  {
    && 1 <= len <= MAX_LENGTH && k < code.counts[len] && k < |code.symbols[len]| && code.symbols[len][k] == v
    && b == Big(FirstCode(code.counts, len) + k, len)
  }

  /** Section 3.2 of RFC 7932: the bits are a codeword of the symbol. */
  ghost predicate Spells(code: Code, v: nat, b: seq<Bit01>) {
    match code
    case One(symbol) => v == symbol && b == []
    case Many(_, _) => exists len: nat, k: nat :: SpellsAt(code, v, b, len, k)
  }

  ghost predicate Spelled(code: Code, v: nat) {
    exists b: seq<Bit01> :: Spells(code, v, b)
  }

  ghost function Spell(code: Code, v: nat): (b: seq<Bit01>)
    requires Spelled(code, v)
    ensures Spells(code, v, b)
  {
    var b: seq<Bit01> :| Spells(code, v, b);
    b
  }

  /** A symbol that is written is read, and nothing behind it is touched. */
  lemma SpellRead(code: Code, v: nat, b: seq<Bit01>, rest: seq<Bit01>)
    requires code.Valid() && Spells(code, v, b)
    ensures code.Lookup(Number(b + rest)) == (v, |b|) && HasSymbol(code, b + rest) && (b + rest)[|b|..] == rest
  {
    if code.Many? {
      var len: nat, k: nat :| SpellsAt(code, v, b, len, k);
      EndCodeBound(code.counts, len);
      BigRead(FirstCode(code.counts, len) + k, len, rest);
      OwnerUnique(code.counts, Number(b + rest), len, k);
    }
  }

  /** So is a number of `n` bits. */
  lemma BitsRead(v: nat, n: nat, rest: seq<Bit01>)
    requires v < Pow2(n)
    ensures var b := BitsOf(v, n) + rest; |b| >= n && Number(b[..n]) == v && b[n..] == rest
  {
    NumberBits(v, n);
    assert (BitsOf(v, n) + rest)[..n] == BitsOf(v, n);
  }

  /** Two symbols of a code that stand at different places are not written alike, nor is one the
      beginning of the other. */
  lemma SpellApart(code: Code, v: nat, b: seq<Bit01>, v': nat, b': seq<Bit01>)
    requires code.Valid() && Spells(code, v, b) && Spells(code, v', b') && b <= b'
    ensures v == v' && b == b'
  {
    SpellRead(code, v, b, b'[|b|..]);
    SpellRead(code, v', b', []);
    assert b + b'[|b|..] == b' == b' + [];
  }
}
