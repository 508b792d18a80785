/** Reading the code lengths of a complex prefix code (section 3.5 of RFC 7932): run-length
    tokens are expanded into chains of symbols by length, under a budget of code space. */
module CodeLengths {
  import opened Arith
  import opened PrefixCode
  import opened HuffmanTable
  import opened HuffmanRoot

  const INITIAL_REPEATED_LENGTH := 8
  const UINT32 := 0x1_0000_0000

  /** A code length, a repetition of the last nonzero length, or a run of zeros. */
  datatype Token = Len(n: nat) | Prev(extra: nat) | Zeros(extra: nat) {
    predicate Valid() {
      match this
      case Len(n) => n <= MAX_LENGTH
      case Prev(extra) => extra < 4
      case Zeros(extra) => extra < 8
    }
  }

  /** The run the last tokens belong to. */
  datatype Run = NoRun | PrevRun(count: nat) | ZeroRun(count: nat)

  /** The lengths so far, the last nonzero one, and the current run. */
  datatype Expansion = Expansion(lens: seq<nat>, prev: nat, run: Run) {
    predicate Valid() {
      && (forall i :: 0 <= i < |lens| ==> lens[i] <= MAX_LENGTH) && 1 <= prev <= MAX_LENGTH
      && (run.PrevRun? ==> 3 <= run.count <= |lens|) && (run.ZeroRun? ==> 3 <= run.count <= |lens|)
    }
  }

  const START := Expansion([], INITIAL_REPEATED_LENGTH, NoRun)

  function Times(len: nat, n: nat): (s: seq<nat>)
    ensures |s| == n && forall i :: 0 <= i < n ==> s[i] == len
  {
    if n == 0 then [] else Times(len, n - 1) + [len]
  }

  /** Section 3.5: repeated tokens 16 or 17 make one run, of 4 * (old - 2) + 3 to 6 or
      8 * (old - 2) + 3 to 10 lengths in all. */
  function Extend(x: Expansion, t: Token): (y: Expansion)
    requires x.Valid() && t.Valid()
    ensures y.Valid() && |y.lens| > |x.lens| && x.lens <= y.lens
  {
    match t
    case Len(n) => Expansion(x.lens + [n], if n == 0 then x.prev else n, NoRun)
    case Prev(extra) =>
      var before := if x.run.PrevRun? then x.run.count else 0;
      var count := (if before > 0 then 4 * (before - 2) else 0) + 3 + extra;
      Expansion(x.lens + Times(x.prev, count - before), x.prev, PrevRun(count))
    case Zeros(extra) =>
      var before := if x.run.ZeroRun? then x.run.count else 0;
      var count := (if before > 0 then 8 * (before - 2) else 0) + 3 + extra;
      Expansion(x.lens + Times(0, count - before), x.prev, ZeroRun(count))
  }

  function Bump(c: Counts, len: nat): Counts
    requires len <= MAX_LENGTH
  {
    if len == 0 then c else c[len := c[len] + 1]
  }

  /** How often each nonzero length occurs. */
  function Histogram(lens: seq<nat>): (c: Counts)
    requires forall i :: 0 <= i < |lens| ==> lens[i] <= MAX_LENGTH
    ensures c[0] == 0
  {
    if lens == [] then seq(16, _ => 0) else Bump(Histogram(lens[..|lens| - 1]), lens[|lens| - 1])
  }

  /** The code space used, out of 32768. */
  function SpaceUsed(lens: seq<nat>): nat
    requires forall i :: 0 <= i < |lens| ==> lens[i] <= MAX_LENGTH
  {
    EndCode(Histogram(lens), MAX_LENGTH)
  }

  /** The symbols of one length, in increasing order. */
  function Positions(lens: seq<nat>, len: nat): seq<nat> {
    if lens == [] then []
    else
      var n := |lens| - 1;
      Positions(lens[..n], len) + if lens[n] == len then [n] else []
  }

  /** The symbols of every length. */
  function ByLength(lens: seq<nat>): Symbols {
    seq(16, len requires 0 <= len < 16 => Positions(lens, len))
  }

  /** One more codeword of length `l` takes its share of the space of every longer length. */
  lemma {:induction false} EndCodeBump(c: Counts, l: nat, len: nat)
    requires 1 <= l <= MAX_LENGTH && 1 <= len <= MAX_LENGTH
    ensures EndCode(Bump(c, l), len) == EndCode(c, len) + if len >= l then Pow2(len - l) else 0
    decreases len
  {
    if len > 1 { EndCodeBump(c, l, len - 1); }
  }

  lemma UsedNext(lens: seq<nat>, l: nat)
    requires (forall i :: 0 <= i < |lens| ==> lens[i] <= MAX_LENGTH) && l <= MAX_LENGTH
    ensures Histogram(lens + [l]) == Bump(Histogram(lens), l)
    ensures SpaceUsed(lens + [l]) == SpaceUsed(lens) + if l == 0 then 0 else Pow2(MAX_LENGTH - l)
  {
    hide EndCode, FirstCode, Pow2;
    assert (lens + [l])[..|lens|] == lens;
    if l > 0 { EndCodeBump(Histogram(lens), l, MAX_LENGTH); }
  }

  lemma {:induction false} UsedBound(lens: seq<nat>)
    requires forall i :: 0 <= i < |lens| ==> lens[i] <= MAX_LENGTH
    ensures SpaceUsed(lens) <= 16384 * |lens|
  {
    if lens == [] {
      EmptyCode(MAX_LENGTH);
    } else {
      var n := |lens| - 1;
      UsedBound(lens[..n]);
      UsedNext(lens[..n], lens[n]);
      assert lens[..n] + [lens[n]] == lens;
      Pow2Monotone(MAX_LENGTH - lens[n], if lens[n] == 0 then 15 else 14);
      assert Pow2(15) == 2 * Pow2(14) && Pow2(15) == 32768 by { Pow2Values(); }
    }
  }

  lemma {:induction false} EmptyCode(len: nat)
    requires 1 <= len <= MAX_LENGTH
    ensures EndCode(Histogram([]), len) == 0
  {
    if len > 1 { EmptyCode(len - 1); }
  }

  /** The index whose entry names the next symbol of a length: the last symbol's, or the head. */
  function Tail(lens: seq<nat>, len: nat): (i: nat)
    ensures i == len || 16 <= i < 16 + |lens|
  {
    if lens == [] then len
    else
      var n := |lens| - 1;
      if lens[n] == len then 16 + n else Tail(lens[..n], len)
  }

  /** Each symbol is entered where its length's chain ended before it. */
  ghost predicate Linked(lists: seq<nat>, lens: seq<nat>) {
    forall x :: 0 <= x < |lens| && lens[x] > 0 ==> LinkedAt(lists, lens, x)
  }

  ghost predicate LinkedAt(lists: seq<nat>, lens: seq<nat>, x: nat)
    requires x < |lens|
  {
    var t := Tail(lens[..x], lens[x]);
    t < |lists| && lists[t] == x
  }

  /** The end of a chain is not an entry of any chain yet. */
  lemma {:induction false} TailFresh(lens: seq<nat>, len: nat, x: nat)
    requires x < |lens| && 0 < len < 16 && 0 < lens[x] < 16
    ensures Tail(lens, len) != Tail(lens[..x], lens[x])
    decreases |lens|
  {
    var n := |lens| - 1;
    if x < n && lens[n] != len {
      assert lens[..n][..x] == lens[..x];
      TailFresh(lens[..n], len, x);
    } else if lens[n] != len && lens[x] == len {
    } else if lens[n] != len {
      TailOther(lens[..n], len, lens[n]);
    }
  }

  /** Chains of different lengths end at different indices. */
  lemma {:induction false} TailOther(lens: seq<nat>, a: nat, b: nat)
    requires a != b && a < 16 && b < 16
    ensures Tail(lens, a) != Tail(lens, b)
  {
    if lens != [] { TailOther(lens[..|lens| - 1], a, b); }
  }

  lemma {:induction false} TailLast(lens: seq<nat>, len: nat)
    ensures var p := Positions(lens, len); Tail(lens, len) == if p == [] then len else 16 + p[|p| - 1]
  {
    if lens != [] { TailLast(lens[..|lens| - 1], len); }
  }

  lemma LinkedBefore(lists: seq<nat>, lens: seq<nat>)
    requires Linked(lists, lens) && lens != []
    ensures Linked(lists, lens[..|lens| - 1])
  {
    hide Tail;
    var n := |lens| - 1;
    forall x | 0 <= x < n && lens[..n][x] > 0 ensures LinkedAt(lists, lens[..n], x) {
      assert lens[..n][..x] == lens[..x];
      assert LinkedAt(lists, lens, x);
    }
  }

  /** Linked entries make the chains table building follows. */
  lemma {:induction false} LinkedChain(lists: seq<nat>, lens: seq<nat>, len: nat)
    requires Linked(lists, lens) && 0 < len < 16
    ensures Chain(lists, len, Positions(lens, len))
  {
    if lens != [] {
      hide Tail, Chain;
      var n := |lens| - 1;
      LinkedBefore(lists, lens);
      LinkedChain(lists, lens[..n], len);
      TailLast(lens[..n], len);
      if lens[n] == len {
        assert LinkedAt(lists, lens, n);
        ChainMore(lists, len, Positions(lens[..n], len), n);
      } else {
        assert Positions(lens, len) == Positions(lens[..n], len);
      }
    }
  }

  lemma {:induction false} ChainMore(lists: seq<nat>, head: nat, p: seq<nat>, x: nat)
    requires Chain(lists, head, p)
    requires var t := if p == [] then head else 16 + p[|p| - 1]; t < |lists| && lists[t] == x
    ensures Chain(lists, head, p + [x])
    decreases |p|
  {
    if p == [] {
      assert ([] + [x])[1..] == [];
    } else {
      assert (p + [x])[1..] == p[1..] + [x];
      ChainMore(lists, 16 + p[0], p[1..], x);
    }
  }

  lemma {:induction false} CountsMatch(lens: seq<nat>, len: nat)
    requires (forall i :: 0 <= i < |lens| ==> lens[i] <= MAX_LENGTH) && 0 < len <= MAX_LENGTH
    ensures |Positions(lens, len)| == Histogram(lens)[len]
  {
    if lens != [] { CountsMatch(lens[..|lens| - 1], len); }
  }

  /** The symbols of a length are exactly those, in increasing order. */
  lemma {:induction false} PositionsExact(lens: seq<nat>, len: nat)
    ensures var p := Positions(lens, len);
      && (forall x: nat :: x in p <==> x < |lens| && lens[x] == len)
      && (forall i, j :: 0 <= i < j < |p| ==> p[i] < p[j])
  {
    if lens != [] {
      var n := |lens| - 1;
      var p, q := Positions(lens, len), Positions(lens[..n], len);
      PositionsExact(lens[..n], len);
      forall x: nat ensures x in p <==> x < |lens| && lens[x] == len {
        assert x in p <==> x in q || (x == n && lens[n] == len);
        assert x in q <==> x < n && lens[..n][x] == len;
      }
      forall i | 0 <= i < |q| ensures q[i] < n {
        assert q[i] in q;
      }
    }
  }

  /** A 32-bit difference. */
  function Minus(a: nat, b: nat): nat
    requires a < UINT32 && b < UINT32
  {
    if a >= b then a - b else a + UINT32 - b
  }

  /** Entering the next symbol at the end of its chain disturbs no other. */
  lemma LinkedNext(lists: seq<nat>, lens: seq<nat>, l: nat, lists': seq<nat>)
    requires Linked(lists, lens) && l < 16 && |lists| >= 16 + |lens|
    requires forall i :: 0 <= i < |lens| ==> lens[i] <= MAX_LENGTH
    requires lists' == if l == 0 then lists else lists[Tail(lens, l) := |lens|]
    ensures Linked(lists', lens + [l])
  {
    hide Tail, LinkedAt;
    var lens' := lens + [l];
    forall x | 0 <= x < |lens'| && lens'[x] > 0 ensures LinkedAt(lists', lens', x) {
      if x < |lens| {
        LinkedKeeps(lists, lens, l, lists', x);
      } else {
        LinkedNew(lists, lens, l, lists');
      }
    }
  }

  lemma LinkedKeeps(lists: seq<nat>, lens: seq<nat>, l: nat, lists': seq<nat>, x: nat)
    requires x < |lens| && 0 < lens[x] < 16 && LinkedAt(lists, lens, x) && l < 16 && |lists| >= 16 + |lens|
    requires lists' == if l == 0 then lists else lists[Tail(lens, l) := |lens|]
    ensures LinkedAt(lists', lens + [l], x)
  {
    hide Tail;
    assert (lens + [l])[..x] == lens[..x];
    if l > 0 { TailFresh(lens, l, x); }
  }

  lemma LinkedNew(lists: seq<nat>, lens: seq<nat>, l: nat, lists': seq<nat>)
    requires 0 < l < 16 && |lists| >= 16 + |lens| && lists' == lists[Tail(lens, l) := |lens|]
    ensures LinkedAt(lists', lens + [l], |lens|)
  {
    hide Tail;
    assert (lens + [l])[..|lens|] == lens;
  }

  /** The chains and their heads; the head of an empty chain is marked. */
  ghost predicate Entered(lists: seq<nat>, lens: seq<nat>) {
    && Linked(lists, lens) && |lists| >= 16
    && forall l :: 1 <= l <= MAX_LENGTH ==> (lists[l] == NO_SYMBOL <==> Tail(lens, l) == l)
  }

  lemma EnteredNext(lists: seq<nat>, lens: seq<nat>, l: nat, lists': seq<nat>)
    requires Entered(lists, lens) && l <= MAX_LENGTH && |lists| >= 16 + |lens| && |lens| < NO_SYMBOL
    requires forall i :: 0 <= i < |lens| ==> lens[i] <= MAX_LENGTH
    requires lists' == if l == 0 then lists else lists[Tail(lens, l) := |lens|]
    ensures Entered(lists', lens + [l])
  {
    LinkedNext(lists, lens, l, lists');
    hide Linked;
    forall k | 1 <= k <= MAX_LENGTH ensures lists'[k] == NO_SYMBOL <==> Tail(lens + [l], k) == k {
      TailNext(lens, l, k);
    }
  }

  lemma TailNext(lens: seq<nat>, l: nat, k: nat)
    ensures Tail(lens + [l], k) == if k == l then 16 + |lens| else Tail(lens, k)
  {
    assert (lens + [l])[..|lens|] == lens;
  }

  /** Space and histogram after several symbols of one length. */
  lemma {:induction false} UsedTimes(lens: seq<nat>, l: nat, n: nat)
    requires (forall i :: 0 <= i < |lens| ==> lens[i] <= MAX_LENGTH) && 0 < l <= MAX_LENGTH
    ensures Histogram(lens + Times(l, n)) == Histogram(lens)[l := Histogram(lens)[l] + n]
    ensures SpaceUsed(lens + Times(l, n)) == SpaceUsed(lens) + Shl(n, MAX_LENGTH - l)
    decreases n
  {
    hide EndCode, Shl, Histogram, SpaceUsed, Pow2;
    if n == 0 {
      assert lens + Times(l, 0) == lens;
      ShlZero(MAX_LENGTH - l);
    } else {
      UsedTimes(lens, l, n - 1);
      UsedNext(lens + Times(l, n - 1), l);
      assert lens + Times(l, n) == lens + Times(l, n - 1) + [l];
      ShlAdd(n - 1, 1, MAX_LENGTH - l);
    }
  }

  /** Zeros change nothing but the number of symbols. */
  lemma {:induction false} ZeroTimes(lists: seq<nat>, lens: seq<nat>, n: nat)
    requires forall i :: 0 <= i < |lens| ==> lens[i] <= MAX_LENGTH
    requires Entered(lists, lens) && |lists| >= 16 + |lens| + n && |lens| + n <= NO_SYMBOL
    ensures Histogram(lens + Times(0, n)) == Histogram(lens) && Entered(lists, lens + Times(0, n))
    ensures forall k :: 1 <= k <= MAX_LENGTH ==> Tail(lens + Times(0, n), k) == Tail(lens, k)
    decreases n
  {
    hide EndCode, Entered;
    if n == 0 {
      assert lens + Times(0, 0) == lens;
    } else {
      var before := lens + Times(0, n - 1);
      ZeroTimes(lists, lens, n - 1);
      UsedNext(before, 0);
      EnteredNext(lists, before, 0, lists);
      assert lens + Times(0, n) == before + [0];
      forall k | 1 <= k <= MAX_LENGTH ensures Tail(before + [0], k) == Tail(before, k) { TailNext(before, 0, k); }
    }
  }

  lemma {:induction false} ShrSpace(l: nat)
    requires l <= MAX_LENGTH
    ensures Shr(SPACE, l) == Pow2(MAX_LENGTH - l)
  {
    Pow2Values();
    ShrPow2(MAX_LENGTH - l, l);
  }

  lemma {:induction false} ShrPow2(a: nat, b: nat)
    ensures Shr(Pow2(a + b), b) == Pow2(a)
    decreases b
  {
    if b > 0 { ShrPow2(a, b - 1); }
  }

  /** What table building is handed: a complete code and the chains of its symbols. */
  lemma CompleteLists(lists: seq<nat>, lens: seq<nat>)
    requires Entered(lists, lens) && (forall i :: 0 <= i < |lens| ==> lens[i] <= MAX_LENGTH) && SpaceUsed(lens) == SPACE
    ensures Complete(Histogram(lens)) && Lists(lists, Histogram(lens), ByLength(lens))
  {
    hide Histogram, Tail, Linked, Chain, EndCode;
    forall len | 1 <= len <= MAX_LENGTH
      ensures Chain(lists, len, Positions(lens, len)) && |Positions(lens, len)| == Histogram(lens)[len]
      ensures Tail(lens, len) == len <==> Histogram(lens)[len] == 0
    {
      LinkedChain(lists, lens, len);
      CountsMatch(lens, len);
      TailLast(lens, len);
    }
  }

  class LengthReader {
    const lists: array<nat>
    const histo: array<nat>
    const next: array<nat>
    var alphabet: nat
    var symbol: nat
    var repeat: nat
    var space: nat
    var prevCodeLen: nat
    var repeatCodeLen: nat
    ghost var x: Expansion

    ghost predicate Sizes()
      reads this
    {
      Fits(alphabet)
    }

    ghost predicate Fits(alphabetSize: nat) {
      && lists.Length >= 16 + alphabetSize && histo.Length == 16 && next.Length == 16 && alphabetSize < NO_SYMBOL
      && lists != histo && lists != next && histo != next
    }

    /** The fields describe the lengths read so far, as long as they fit the alphabet. */
    ghost predicate Valid()
      reads this, lists, histo, next
    {
      && Sizes() && x.Valid() && symbol == |x.lens| <= alphabet
      && Entered(lists[..], x.lens) && histo[..] == Histogram(x.lens)
      && (forall l :: 1 <= l <= MAX_LENGTH ==> next[l] == Tail(x.lens, l))
      && space < UINT32 && SpaceUsed(x.lens) < UINT32 && space == Minus(SPACE, SpaceUsed(x.lens))
      && prevCodeLen == x.prev
      && match x.run
         case NoRun => repeat == 0
         case PrevRun(n) => repeat == n && repeatCodeLen == x.prev
         case ZeroRun(n) => repeat == n && repeatCodeLen == 0
    }

    /** The fields of a code that does not fit the alphabet. */
    ghost predicate Overrun()
      reads this
    {
      symbol == alphabet && space == 0xFFFFF
    }

    constructor (capacity: nat)
      requires capacity < NO_SYMBOL
      ensures Fits(capacity) && lists.Length == 16 + capacity && fresh(lists) && fresh(histo) && fresh(next)
    {
      lists, histo, next := new nat[16 + capacity](_ => 0), new nat[16](_ => 0), new nat[16](_ => 0);
      alphabet, symbol, repeat, repeatCodeLen, prevCodeLen, space := 0, 0, 0, 0, 0, 0;
      x := START;
    }

    /** Before the first token: the heads of the chains are marked, whatever an earlier code has
        left behind them. */
    method Reset(alphabetSize: nat)
      requires Fits(alphabetSize)
      modifies this, lists, histo, next
      ensures Valid() && x == START && alphabet == alphabetSize
    {
      for i := 0 to 16
        invariant forall k :: 0 <= k < i ==> lists[k] == NO_SYMBOL && next[k] == k && histo[k] == 0
      {
        histo[i], next[i] := 0, i;
        lists[i] := NO_SYMBOL;
      }
      alphabet := alphabetSize;
      symbol, repeat, repeatCodeLen, prevCodeLen, space := 0, 0, 0, INITIAL_REPEATED_LENGTH, SPACE;
      x := START;
      EmptyCode(MAX_LENGTH);
      assert histo[..] == Histogram([]);
    }

    /** `ProcessSingleCodeLength`. */
    method ProcessSingle(codeLen: nat)
      requires Valid() && codeLen <= MAX_LENGTH && symbol < alphabet
      modifies this, lists, histo, next
      ensures alphabet == old(alphabet)
      ensures Valid() && x == Extend(old(x), Len(codeLen))
    {
      hide EndCode, Linked, Tail, Shr, Entered, Histogram, Pow2;
      ghost var lens := x.lens;
      EnteredNext(lists[..], lens, codeLen,
                  if codeLen == 0 then lists[..] else lists[..][Tail(lens, codeLen) := |lens|]);
      UsedNext(lens, codeLen);
      UsedBound(lens + [codeLen]);
      forall k | 1 <= k <= MAX_LENGTH
        ensures Tail(lens + [codeLen], k) == if k == codeLen then 16 + |lens| else Tail(lens, k)
      {
        TailNext(lens, codeLen, k);
      }
      repeat := 0;
      if codeLen != 0 {
        lists[next[codeLen]] := symbol;
        next[codeLen] := 16 + symbol;
        prevCodeLen := codeLen;
        ShrSpace(codeLen);
        space := Minus(space, Shr(SPACE, codeLen));
        histo[codeLen] := histo[codeLen] + 1;
      }
      symbol := symbol + 1;
      x := Extend(x, Len(codeLen));
    }

    /** The loop that enters `delta` symbols of length `len`. */
    method EnterRun(len: nat, delta: nat)
      requires Sizes() && x.Valid() && symbol == |x.lens| && symbol + delta <= alphabet && 0 < len <= MAX_LENGTH
      requires 0 < delta
      requires Entered(lists[..], x.lens) && next[len] == Tail(x.lens, len)
      modifies `symbol, lists, next
      ensures symbol == old(symbol) + delta && Entered(lists[..], x.lens + Times(len, delta))
      ensures forall k :: 0 <= k < 16 && k != len ==> next[k] == old(next[k])
      ensures next[len] == Tail(x.lens + Times(len, delta), len)
      ensures forall k :: 1 <= k <= MAX_LENGTH && k != len ==> Tail(x.lens + Times(len, delta), k) == Tail(x.lens, k)
    {
      hide EndCode, Tail, Entered, Histogram;
      ghost var k := 0;
      ghost var lens := x.lens;
      assert lens + Times(len, 0) == lens;
      var last, link := symbol + delta, next[len];
      while symbol != last
        invariant k <= delta && symbol == old(symbol) + k && lens == x.lens + Times(len, k)
        invariant Entered(lists[..], lens) && link == Tail(lens, len) && next[..] == old(next[..])
        invariant forall j :: 1 <= j <= MAX_LENGTH && j != len ==> Tail(lens, j) == Tail(x.lens, j)
        decreases delta - k
      {
        EnteredNext(lists[..], lens, len, lists[..][link := symbol]);
        TailNext(lens, len, len);
        forall j | 1 <= j <= MAX_LENGTH && j != len
          ensures Tail(lens + [len], j) == Tail(lens, j)
        {
          TailNext(lens, len, j);
        }
        assert x.lens + Times(len, k + 1) == lens + [len];
        lists[link] := symbol;
        link := 16 + symbol;
        symbol := symbol + 1;
        k, lens := k + 1, lens + [len];
      }
      next[len] := link;
    }

    /** The length of the run's symbols, and by how many the run grows. */
    method UpdateRepeat(previous: bool, extra: nat) returns (newLen: nat, delta: nat)
      requires Valid() && extra < if previous then 4 else 8
      modifies `repeat, `repeatCodeLen
      ensures var y := Extend(x, if previous then Prev(extra) else Zeros(extra));
        && y.lens == x.lens + Times(newLen, delta) && y.prev == x.prev && repeat == y.run.count
        && repeatCodeLen == newLen
        && newLen == (if previous then x.prev else 0) && y.run == if previous then PrevRun(repeat) else ZeroRun(repeat)
    {
      hide EndCode, Tail, Entered, Histogram, Shl, SpaceUsed;
      var extraBits := 3;
      newLen := 0;
      if previous {
        newLen, extraBits := prevCodeLen, 2;
      }
      if repeatCodeLen != newLen {
        repeat, repeatCodeLen := 0, newLen;
      }
      var oldRepeat := repeat;
      if repeat > 0 {
        repeat := repeat - 2;
        repeat := if extraBits == 2 then 4 * repeat else 8 * repeat;
      }
      repeat := repeat + extra + 3;
      delta := repeat - oldRepeat;
    }

    /** `ProcessRepeatedCodeLength`: extends the current run, or starts one; a run that goes
        beyond the alphabet ends the reading with a space that is not zero. */
    method ProcessRepeated(previous: bool, extra: nat)
      requires Valid() && symbol < alphabet && extra < if previous then 4 else 8
      modifies this, lists, histo, next
      ensures alphabet == old(alphabet)
      ensures var y := Extend(old(x), if previous then Prev(extra) else Zeros(extra));
        if |y.lens| <= alphabet then Valid() && x == y else Overrun()
    {
      hide EndCode, Tail, Entered, Histogram, Shl;
      ghost var y := Extend(x, if previous then Prev(extra) else Zeros(extra));
      ghost var lens := x.lens;
      var newLen, delta := UpdateRepeat(previous, extra);
      if symbol + delta > alphabet {
        symbol, space := alphabet, 0xFFFFF;
        return;
      }
      UsedBound(y.lens);
      if repeatCodeLen != 0 {
        UsedTimes(lens, newLen, delta);
        EnterRun(newLen, delta);
        space := Minus(space, Shl(delta, MAX_LENGTH - newLen));
        histo[newLen] := histo[newLen] + delta;
      } else {
        ZeroTimes(lists[..], lens, delta);
        symbol := symbol + delta;
      }
      x := y;
    }

    /** One token. */
    method Enter(t: Token)
      requires Valid() && symbol < alphabet && t.Valid()
      modifies this, lists, histo, next
      ensures alphabet == old(alphabet)
      ensures var y := Extend(old(x), t); if |y.lens| <= alphabet then Valid() && x == y else Overrun()
    {
      hide Entered, Tail, Histogram, SpaceUsed, Extend;
      match t {
        case Len(n) => ProcessSingle(n);
        case Prev(extra) => ProcessRepeated(true, extra);
        case Zeros(extra) => ProcessRepeated(false, extra);
      }
    }

    /** There is space left exactly as long as it is not all used, even when it has wrapped. */
    lemma SpaceLeft()
      requires Valid()
      ensures space == 0 <==> SpaceUsed(x.lens) == SPACE
    {
      UsedBound(x.lens);
    }
  }
}
