/** The reference decoder: commands executed one byte at a time over an unbounded
    output history. It is what the ring buffer has to agree with. */
module Lz77 {
  import opened Arith
  import opened Wrappers
  import opened Distances

  /** How a command names its distance: the implicit last distance, one of the 16 short
      codes, or a distance spelled out. */
  datatype DistanceSymbol = Last | Short(code: nat) | Direct(distance: nat) {
    predicate Valid() {
      (Short? ==> code < NUM_SHORT_CODES) && (Direct? ==> distance > 0)
    }
  }

  datatype Command = Command(literals: seq<Byte>, copyLength: nat, symbol: DistanceSymbol)

  /** A transformed dictionary word by coded length and address. It has at most
      5 + 24 + 8 bytes; None is a word length or transform outside the dictionary. */
  type Dictionary = (nat, nat) -> Option<seq<Byte>>

  ghost predicate Bounded(words: Dictionary) {
    forall length: nat, address: nat :: words(length, address).Some? ==> |words(length, address).value| <= 37
  }

  datatype Status = Running | Done | BadDistance | BadDictionary | BadLength

  datatype State = State(history: seq<Byte>, cache: Cache, remaining: int, status: Status)

  /** Appends `n` bytes, each copied from `distance` bytes back; the copy may overlap itself. */
  function CopyFrom(h: seq<Byte>, distance: nat, n: nat): (r: seq<Byte>)
    requires 0 < distance <= |h|
    ensures |r| == |h| + n && h <= r
    decreases n
  {
    if n == 0 then h else CopyFrom(h + [h[|h| - distance]], distance, n - 1)
  }

  lemma CopyFromZero(h: seq<Byte>, distance: nat)
    requires 0 < distance <= |h|
    ensures CopyFrom(h, distance, 0) == h
  {
  }

  lemma {:induction false} CopyFromSplit(h: seq<Byte>, distance: nat, a: nat, b: nat)
    requires 0 < distance <= |h|
    ensures CopyFrom(h, distance, a + b) == CopyFrom(CopyFrom(h, distance, a), distance, b)
    decreases a
  {
    if a > 0 {
      CopyFromSplit(h + [h[|h| - distance]], distance, a - 1, b);
    }
  }

  /** A copy that does not overlap itself is a plain block copy. */
  lemma {:induction false} CopyFromBlock(h: seq<Byte>, distance: nat, n: nat)
    requires 0 < distance <= |h| && n <= distance
    ensures CopyFrom(h, distance, n) == h + h[|h| - distance..|h| - distance + n]
    decreases n
  {
    if n > 0 {
      CopyFromBlock(h, distance, n - 1);
      CopyFromSplit(h, distance, n - 1, 1);
      var g := CopyFrom(h, distance, n - 1);
      assert CopyFrom(g, distance, 1) == g + [g[|g| - distance]];
      assert g[|g| - distance] == h[|h| - distance + n - 1];
      assert h[|h| - distance..|h| - distance + n]
        == h[|h| - distance..|h| - distance + n - 1] + [h[|h| - distance + n - 1]];
    }
  }

  /** Every byte of a copy equals the byte `distance` before it. */
  lemma {:induction false} CopyFromPeriod(h: seq<Byte>, distance: nat, n: nat, k: nat)
    requires 0 < distance <= |h| && |h| <= k < |h| + n
    ensures CopyFrom(h, distance, n)[k] == CopyFrom(h, distance, n)[k - distance]
    decreases n
  {
    var g := h + [h[|h| - distance]];
    assert g <= CopyFrom(g, distance, n - 1);
    if k > |h| {
      CopyFromPeriod(g, distance, n - 1, k);
    }
  }

  predicate Positive(c: Cache) {
    forall i :: 0 <= i < 4 ==> 0 < c[i]
  }

  /** The distance a symbol stands for; a non-positive sum becomes a distance no stream allows. */
  function Resolve(symbol: DistanceSymbol, c: Cache): (d: int)
    requires symbol.Valid() && Positive(c)
    ensures d > 0
  {
    match symbol
    case Last => c[0]
    case Short(code) =>
      var d := ShortDistance(code, c);
      if d <= 0 then 0x7FFFFFFF else d
    case Direct(distance) => distance
  }

  predicate RepeatsLast(symbol: DistanceSymbol) {
    symbol == Last || symbol == Short(0)
  }

  /** The copy or dictionary part of a command, once the literals are out. */
  function ExecuteCopy(s: State, length: nat, symbol: DistanceSymbol, maxBackward: nat, words: Dictionary): (r: State)
    requires symbol.Valid() && Positive(s.cache)
    ensures s.history <= r.history && Positive(r.cache)
    ensures (r.status.Running? ==> r.remaining > 0) && (r.status.Done? ==> r.remaining == 0)
  {
    var d := Resolve(symbol, s.cache);
    var maxDistance := Min(|s.history|, maxBackward);
    if d <= maxDistance then
      Finish(State(CopyFrom(s.history, d, length),
                   if RepeatsLast(symbol) then s.cache else Push(s.cache, d),
                   s.remaining - length, Running))
    else if d > MAX_ALLOWED_DISTANCE then s.(status := BadDistance)
    else
      match words(length, d - maxDistance - 1)
      case None => s.(status := BadDictionary)
      case Some(word) => Finish(State(s.history + word, s.cache, s.remaining - |word|, Running))
  }

  /** The first distance that no copy can have names word 0 of a length, the next one word 1, and
      so on; the cache stays as it is. */
  lemma WordNamed(s: State, length: nat, a: nat, maxBackward: nat, words: Dictionary)
    requires Positive(s.cache) && Min(|s.history|, maxBackward) + 1 + a <= MAX_ALLOWED_DISTANCE
    requires words(length, a).Some?
    ensures var r := ExecuteCopy(s, length, Direct(Min(|s.history|, maxBackward) + 1 + a), maxBackward, words);
      r.history == s.history + words(length, a).value && r.cache == s.cache
  {
  }

  /** The end of a meta-block is reached when no byte of it remains. */
  function Finish(s: State): State {
    s.(status := if s.remaining < 0 then BadLength else if s.remaining == 0 then Done else Running)
  }

  /** One command of section 10 of RFC 7932; the copy of the last command is dropped when
      its literals already complete the meta-block. */
  function Execute(s: State, c: Command, maxBackward: nat, words: Dictionary): (r: State)
    requires c.symbol.Valid() && Positive(s.cache)
    ensures s.history <= r.history && Positive(r.cache)
    ensures (r.status.Running? ==> r.remaining > 0) && (r.status.Done? ==> r.remaining == 0)
  {
    var t := s.(history := s.history + c.literals, remaining := s.remaining - |c.literals|);
    if |c.literals| > 0 && t.remaining <= 0 then Finish(t)
    else ExecuteCopy(t, c.copyLength, c.symbol, maxBackward, words)
  }

  /** Every cached distance is one of the four it started with, or reaches no further back than
      a copy may. */
  predicate Recent(s: State, maxBackward: nat) {
    forall i :: 0 <= i < 4 ==> s.cache[i] <= Max(16, Min(|s.history|, maxBackward))
  }

  lemma ExecuteRecent(s: State, c: Command, maxBackward: nat, words: Dictionary)
    requires c.symbol.Valid() && Positive(s.cache) && Recent(s, maxBackward)
    ensures Recent(Execute(s, c, maxBackward, words), maxBackward)
  {
    hide CopyFrom, ShortDistance;
  }

  lemma {:induction false} ExecuteAllRecent(s: State, cs: seq<Command>, maxBackward: nat, words: Dictionary)
    requires ValidCommands(cs) && Positive(s.cache) && Recent(s, maxBackward)
    ensures Recent(ExecuteAll(s, cs, maxBackward, words), maxBackward)
    decreases |cs|
  {
    if s.status.Running? && cs != [] {
      ExecuteRecent(s, cs[0], maxBackward, words);
      ExecuteAllRecent(Execute(s, cs[0], maxBackward, words), cs[1..], maxBackward, words);
    }
  }

  /** So it is throughout a stream, from its start on. */
  lemma {:induction false} DecodeRecent(s: State, bs: seq<Block>, maxBackward: nat, words: Dictionary)
    requires ValidBlocks(bs) && Positive(s.cache)
    requires Recent(s, maxBackward) || s == State([], INITIAL, 0, Done)
    ensures Recent(Decode(s, bs, maxBackward, words), maxBackward)
    decreases |bs|
  {
    assert Recent(s, maxBackward);
    if s.status.Done? && bs != [] {
      match bs[0] {
        case Compressed(n, cs) => ExecuteAllRecent(s.(remaining := n, status := Running), cs, maxBackward, words);
        case _ =>
      }
      DecodeRecent(ExecuteBlock(s, bs[0], maxBackward, words), bs[1..], maxBackward, words);
    }
  }

  predicate ValidCommands(cs: seq<Command>) {
    forall i :: 0 <= i < |cs| ==> cs[i].symbol.Valid()
  }

  /** Executes commands until the meta-block ends, fails, or the commands run out. */
  function ExecuteAll(s: State, cs: seq<Command>, maxBackward: nat, words: Dictionary): (r: State)
    requires ValidCommands(cs) && Positive(s.cache)
    ensures s.history <= r.history && Positive(r.cache)
    decreases |cs|
  {
    if !s.status.Running? || cs == [] then s
    else ExecuteAll(Execute(s, cs[0], maxBackward, words), cs[1..], maxBackward, words)
  }

  lemma {:induction false} ExecuteAppend(s: State, a: seq<Command>, b: seq<Command>, limit: nat, words: Dictionary)
    requires ValidCommands(a) && ValidCommands(b) && Positive(s.cache)
    ensures ExecuteAll(s, a + b, limit, words) == ExecuteAll(ExecuteAll(s, a, limit, words), b, limit, words)
    decreases |a|
  {
    if a == [] {
      assert a + b == b;
    } else if s.status.Running? {
      assert (a + b)[1..] == a[1..] + b;
      ExecuteAppend(Execute(s, a[0], limit, words), a[1..], b, limit, words);
    }
  }

  lemma ExecuteOne(s: State, c: Command, limit: nat, words: Dictionary)
    requires c.symbol.Valid() && Positive(s.cache) && s.status.Running?
    ensures ExecuteAll(s, [c], limit, words) == Execute(s, c, limit, words)
  {
  }

  lemma ExecuteChain(s: State, cs: seq<Command>, t: State, c: Command, limit: nat, words: Dictionary)
    requires ValidCommands(cs) && c.symbol.Valid() && Positive(s.cache) && t.status.Running?
    requires ExecuteAll(s, cs, limit, words) == t
    ensures Positive(t.cache) && ExecuteAll(s, cs + [c], limit, words) == Execute(t, c, limit, words)
  {
    ExecuteAppend(s, cs, [c], limit, words);
    ExecuteOne(t, c, limit, words);
  }

  /** The meta-blocks of a stream. A compressed one carries its length MLEN. */
  datatype Block = Compressed(length: nat, commands: seq<Command>) | Uncompressed(bytes: seq<Byte>) | Metadata {
    predicate Valid() {
      (Compressed? ==> length > 0 && ValidCommands(commands)) && (Uncompressed? ==> |bytes| > 0)
    }

    function Length(): nat {
      match this
      case Compressed(n, _) => n
      case Uncompressed(bytes) => |bytes|
      case Metadata => 0
    }
  }

  predicate ValidBlocks(bs: seq<Block>) {
    forall i :: 0 <= i < |bs| ==> bs[i].Valid()
  }

  function ExecuteBlock(s: State, b: Block, maxBackward: nat, words: Dictionary): (r: State)
    requires b.Valid() && Positive(s.cache)
    ensures s.history <= r.history && Positive(r.cache)
  {
    match b
    case Compressed(n, cs) => ExecuteAll(s.(remaining := n, status := Running), cs, maxBackward, words)
    case Uncompressed(bytes) => State(s.history + bytes, s.cache, 0, Done)
    case Metadata => State(s.history, s.cache, 0, Done)
  }

  /** A whole stream; `Running` means that it ends in the middle of a meta-block. */
  function Decode(s: State, bs: seq<Block>, maxBackward: nat, words: Dictionary): (r: State)
    requires ValidBlocks(bs) && Positive(s.cache)
    ensures s.history <= r.history && Positive(r.cache)
    decreases |bs|
  {
    if !s.status.Done? || bs == [] then s
    else Decode(ExecuteBlock(s, bs[0], maxBackward, words), bs[1..], maxBackward, words)
  }

  function TotalLength(bs: seq<Block>): nat {
    if bs == [] then 0 else bs[0].Length() + TotalLength(bs[1..])
  }

  /** Within a meta-block, bytes produced and bytes remaining always add up to its length. */
  lemma {:induction false} ExecuteAllConserves(s: State, cs: seq<Command>, maxBackward: nat, words: Dictionary)
    requires ValidCommands(cs) && Positive(s.cache)
    requires (s.status.Running? ==> s.remaining > 0) && (s.status.Done? ==> s.remaining == 0)
    ensures var r := ExecuteAll(s, cs, maxBackward, words);
      && (r.status.Running? || r.status.Done? ==> |r.history| + r.remaining == |s.history| + s.remaining)
      && (r.status.Running? ==> r.remaining > 0) && (r.status.Done? ==> r.remaining == 0)
    decreases |cs|
  {
    if s.status.Running? && cs != [] {
      ExecuteAllConserves(Execute(s, cs[0], maxBackward, words), cs[1..], maxBackward, words);
    }
  }

  /** A stream that decodes to its end produces exactly the sum of its MLENs (section 9.2
      of RFC 7932). */
  lemma {:induction false} DecodeConserves(s: State, bs: seq<Block>, maxBackward: nat, words: Dictionary)
    requires ValidBlocks(bs) && Positive(s.cache)
    requires s.status.Done? ==> s.remaining == 0
    ensures var r := Decode(s, bs, maxBackward, words);
      s.status.Done? && r.status.Done? ==> |r.history| == |s.history| + TotalLength(bs) && r.remaining == 0
    decreases |bs|
  {
    if s.status.Done? && bs != [] {
      match bs[0]
      case Compressed(n, cs) =>
        ExecuteAllConserves(s.(remaining := n, status := Running), cs, maxBackward, words);
      case Uncompressed(_) =>
      case Metadata =>
    }
    if s.status.Done? && bs != [] {
      DecodeConserves(ExecuteBlock(s, bs[0], maxBackward, words), bs[1..], maxBackward, words);
    }
  }
}
