/** What the encoder's commands mean: replaying them with the reference decoder. Both parsers
    are proved against it. */
module EncoderReplay {
  import opened Arith
  import opened Wrappers
  import opened Distances
  import Lz77

  /** A copy as a match finder reports it. `lenCode` is the length that is coded; it differs
      from the length copied only for words of the static dictionary. */
  datatype Match = Match(len: nat, lenCode: nat, distance: nat)

  /** A command: literals, copy, and the distance code with 16 and up for spelled-out ones. */
  datatype Emitted = Emitted(insert: nat, copy: nat, lenCode: nat, distanceCode: nat) {
    function Length(): nat { insert + copy }
  }

  /** The stream seen from the encoder: all bytes up to the end of its input, the window's
      limit and the dictionary. */
  datatype Source = Source(stream: seq<Byte>, limit: nat, words: Lz77.Dictionary)

  /** Distances up to here are copies, those beyond are dictionary references. */
  function DictionaryStart(src: Source, at: nat): nat {
    Min(at, src.limit)
  }

  /** The match is a true one: the bytes at `at` repeat those `distance` back, or are the
      dictionary word named. */
  ghost predicate Truthful(src: Source, at: nat, m: Match) {
    && m.len > 0 && at + m.len <= |src.stream| && 0 < m.distance <= MAX_ALLOWED_DISTANCE
    && if m.distance <= DictionaryStart(src, at)
       then m.lenCode == m.len && Repeats(src.stream, at, m.distance, m.len)
       else src.words(m.lenCode, m.distance - DictionaryStart(src, at) - 1) == Some(src.stream[at..at + m.len])
  }

  ghost predicate Repeats(stream: seq<Byte>, at: nat, distance: nat, len: nat)
    requires distance <= at && at + len <= |stream|
  {
    forall j :: 0 <= j < len ==> RepeatsAt(stream, at, distance, j)
  }

  ghost predicate RepeatsAt(stream: seq<Byte>, at: nat, distance: nat, j: nat)
    requires distance <= at && at + j < |stream|
  {
    stream[at + j] == stream[at + j - distance]
  }

  /** Copying a true match byte by byte continues the stream, even where it overlaps itself. */
  lemma {:induction false} MatchCopies(stream: seq<Byte>, at: nat, distance: nat, len: nat)
    requires 0 < distance <= at && at + len <= |stream| && Repeats(stream, at, distance, len)
    ensures Lz77.CopyFrom(stream[..at], distance, len) == stream[..at + len]
    decreases len
  {
    if len > 0 {
      assert RepeatsAt(stream, at, distance, 0);
      assert stream[..at] + [stream[at - distance]] == stream[..at + 1];
      forall j {:trigger RepeatsAt(stream, at + 1, distance, j)} | 0 <= j < len - 1
        ensures RepeatsAt(stream, at + 1, distance, j)
      {
        assert RepeatsAt(stream, at, distance, j + 1);
      }
      MatchCopies(stream, at + 1, distance, len - 1);
    }
  }

  /** The decoder's view of a distance code. */
  function Symbol(code: nat): (s: Lz77.DistanceSymbol)
    ensures s.Valid()
  {
    if code < NUM_SHORT_CODES then Lz77.Short(code) else Lz77.Direct(code - (NUM_SHORT_CODES - 1))
  }

  /** A command with its literals, which start at `at`. */
  function Decoded(src: Source, at: nat, e: Emitted): (c: Lz77.Command)
    requires at + e.insert <= |src.stream|
    ensures c.symbol.Valid()
  {
    Lz77.Command(src.stream[at..at + e.insert], e.lenCode, Symbol(e.distanceCode))
  }

  function TotalLength(es: seq<Emitted>): nat {
    if es == [] then 0 else TotalLength(es[..|es| - 1]) + es[|es| - 1].Length()
  }

  /** Commands one after the other, from `at` on. */
  function DecodedAll(src: Source, at: nat, es: seq<Emitted>): (cs: seq<Lz77.Command>)
    requires at + TotalLength(es) <= |src.stream|
    ensures Lz77.ValidCommands(cs)
    decreases |es|
  {
    if es == [] then []
    else
      var n := |es| - 1;
      DecodedAll(src, at, es[..n]) + [Decoded(src, at + TotalLength(es[..n]), es[n])]
  }

  /** The decoder in step with the encoder: it has the stream up to `at`, and the meta-block
      ends when no byte of it remains. */
  function InStep(src: Source, at: nat, cache: Cache, remaining: int): Lz77.State
    requires at <= |src.stream|
  {
    Lz77.State(src.stream[..at], cache, remaining, if remaining == 0 then Lz77.Done else Lz77.Running)
  }

  predicate ValidCache(c: Cache) {
    forall i :: 0 <= i < 4 ==> 0 < c[i] <= MAX_ALLOWED_DISTANCE
  }

  /** The encoder's cache after a command. */
  function NextCache(src: Source, at: nat, m: Match, code: nat, c: Cache): Cache {
    Update(c, code, m.distance, m.distance > DictionaryStart(src, at))
  }

  /** The distance code names the match's distance, as any choice of code has to: a short
      code only for a copy, and code 0 for the last distance. */
  predicate CodeFor(src: Source, at: nat, m: Match, code: nat, c: Cache) {
    if code < NUM_SHORT_CODES then ShortDistance(code, c) == m.distance && m.distance <= DictionaryStart(src, at)
    else code - (NUM_SHORT_CODES - 1) == m.distance
  }

  /** One command decodes to the next piece of the stream and leaves both caches equal. */
  lemma CommandReplays(src: Source, at: nat, insert: nat, m: Match, code: nat, c: Cache, remaining: int)
    requires ValidCache(c) && at + insert <= |src.stream| && Truthful(src, at + insert, m)
    requires CodeFor(src, at + insert, m, code, c)
    requires remaining >= insert + m.len
    ensures ValidCache(NextCache(src, at + insert, m, code, c))
    ensures Lz77.Execute(InStep(src, at, c, remaining), Decoded(src, at, Emitted(insert, m.len, m.lenCode, code)),
                         src.limit, src.words)
         == InStep(src, at + insert + m.len, NextCache(src, at + insert, m, code, c), remaining - insert - m.len)
  {
    hide ShortDistance, Lz77.ExecuteCopy, Truthful, NextCache, CodeFor;
    var p := at + insert;
    assert src.stream[..at] + src.stream[at..p] == src.stream[..p];
    if m.distance <= DictionaryStart(src, p) {
      CopyReplays(src, p, m, code, c, remaining - insert);
    } else {
      WordReplays(src, p, m, code, c, remaining - insert);
    }
  }

  /** A copy, once the literals are out. */
  lemma CopyReplays(src: Source, p: nat, m: Match, code: nat, c: Cache, remaining: int)
    requires ValidCache(c) && Truthful(src, p, m) && CodeFor(src, p, m, code, c)
    requires m.distance <= DictionaryStart(src, p) && remaining >= m.len
    ensures ValidCache(NextCache(src, p, m, code, c)) && m.len > 0
    ensures Lz77.ExecuteCopy(Lz77.State(src.stream[..p], c, remaining, Lz77.Running),
                             m.lenCode, Symbol(code), src.limit, src.words)
         == InStep(src, p + m.len, NextCache(src, p, m, code, c), remaining - m.len)
  {
    hide ShortDistance, Lz77.CopyFrom;
    assert Lz77.Resolve(Symbol(code), c) == m.distance;
    ShortDistanceFirst(c);
    MatchCopies(src.stream, p, m.distance, m.len);
  }

  /** A word of the dictionary, once the literals are out. */
  lemma WordReplays(src: Source, p: nat, m: Match, code: nat, c: Cache, remaining: int)
    requires ValidCache(c) && Truthful(src, p, m) && CodeFor(src, p, m, code, c)
    requires m.distance > DictionaryStart(src, p) && remaining >= m.len
    ensures ValidCache(NextCache(src, p, m, code, c)) && m.len > 0
    ensures Lz77.ExecuteCopy(Lz77.State(src.stream[..p], c, remaining, Lz77.Running),
                             m.lenCode, Symbol(code), src.limit, src.words)
         == InStep(src, p + m.len, NextCache(src, p, m, code, c), remaining - m.len)
  {
    hide ShortDistance, Lz77.CopyFrom;
    assert Lz77.Resolve(Symbol(code), c) == m.distance;
    assert src.stream[..p] + src.stream[p..p + m.len] == src.stream[..p + m.len];
  }

  /** Replaying the commands from `start` with cache `c0` gives back the stream they cover
      and ends with cache `c`, in any meta-block long enough. */
  ghost predicate ReplaysTo(src: Source, start: nat, c0: Cache, es: seq<Emitted>, c: Cache) {
    && start + TotalLength(es) <= |src.stream| && ValidCache(c0) && ValidCache(c)
    && forall remaining: int :: remaining >= TotalLength(es) ==> ReplaysIn(src, start, c0, es, c, remaining)
  }

  ghost predicate ReplaysIn(src: Source, start: nat, c0: Cache, es: seq<Emitted>, c: Cache, remaining: int)
    requires start + TotalLength(es) <= |src.stream| && ValidCache(c0)
  {
    Lz77.ExecuteAll(InStep(src, start, c0, remaining), DecodedAll(src, start, es), src.limit, src.words)
      == InStep(src, start + TotalLength(es), c, remaining - TotalLength(es))
  }

  lemma ReplaysNone(src: Source, start: nat, c: Cache)
    requires start <= |src.stream| && ValidCache(c)
    ensures ReplaysTo(src, start, c, [], c)
  {
  }

  /** One more true match keeps it so. */
  lemma ReplaysMore(src: Source, start: nat, c0: Cache, es: seq<Emitted>, c: Cache, insert: nat, m: Match, code: nat)
    requires ReplaysTo(src, start, c0, es, c)
    requires var p := start + TotalLength(es) + insert;
      p <= |src.stream| && Truthful(src, p, m) && CodeFor(src, p, m, code, c)
    ensures var p := start + TotalLength(es) + insert;
      ReplaysTo(src, start, c0, es + [Emitted(insert, m.len, m.lenCode, code)], NextCache(src, p, m, code, c))
  {
    hide ReplaysIn, Truthful, CodeFor, NextCache, ValidCache;
    var e := Emitted(insert, m.len, m.lenCode, code);
    var at := start + TotalLength(es);
    TotalMore(es, e);
    TruthfulFits(src, at + insert, m);
    CommandReplays(src, at, insert, m, code, c, insert + m.len + 1);
    var es', c' := es + [e], NextCache(src, at + insert, m, code, c);
    forall remaining: int {:trigger ReplaysIn(src, start, c0, es', c', remaining)} | remaining >= TotalLength(es')
      ensures ReplaysIn(src, start, c0, es', c', remaining)
    {
      assert ReplaysIn(src, start, c0, es, c, remaining);
      ReplaysInMore(src, start, c0, es, c, insert, m, code, remaining);
    }
  }

  lemma ReplaysInMore(src: Source, start: nat, c0: Cache, es: seq<Emitted>, c: Cache, insert: nat, m: Match, code: nat,
                      remaining: int)
    requires start + TotalLength(es) + insert + m.len <= |src.stream| && ValidCache(c0) && ValidCache(c)
    requires remaining >= TotalLength(es) + insert + m.len && ReplaysIn(src, start, c0, es, c, remaining)
    requires var p := start + TotalLength(es) + insert; Truthful(src, p, m) && CodeFor(src, p, m, code, c)
    ensures var e := Emitted(insert, m.len, m.lenCode, code);
      && TotalLength(es + [e]) == TotalLength(es) + insert + m.len
      && ReplaysIn(src, start, c0, es + [e], NextCache(src, start + TotalLength(es) + insert, m, code, c), remaining)
  {
    hide Lz77.ExecuteAll, Lz77.Execute, DecodedAll, Decoded, Truthful, CodeFor, NextCache, TotalLength, ShortDistance;
    var e := Emitted(insert, m.len, m.lenCode, code);
    var at := start + TotalLength(es);
    TotalMore(es, e);
    TruthfulFits(src, at + insert, m);
    CommandReplays(src, at, insert, m, code, c, remaining - TotalLength(es));
    DecodedMore(src, start, es, e);
    Lz77.ExecuteChain(InStep(src, start, c0, remaining), DecodedAll(src, start, es),
                      InStep(src, at, c, remaining - TotalLength(es)),
                 Decoded(src, at, e), src.limit, src.words);
  }

  lemma TruthfulFits(src: Source, at: nat, m: Match)
    requires Truthful(src, at, m)
    ensures at + m.len <= |src.stream| && m.len > 0
  {
  }

  lemma TotalMore(es: seq<Emitted>, e: Emitted)
    ensures TotalLength(es + [e]) == TotalLength(es) + e.Length()
  {
    assert (es + [e])[..|es|] == es;
  }

  lemma DecodedMore(src: Source, start: nat, es: seq<Emitted>, e: Emitted)
    requires start + TotalLength(es) + e.Length() <= |src.stream|
    ensures start + TotalLength(es + [e]) <= |src.stream|
    ensures DecodedAll(src, start, es + [e]) == DecodedAll(src, start, es) + [Decoded(src, start + TotalLength(es), e)]
  {
    TotalMore(es, e);
    assert (es + [e])[..|es|] == es;
  }

  /** The commands and the trailing literals rebuild the whole stream and end the meta-block. */
  lemma Rebuilds(src: Source, start: nat, c0: Cache, es: seq<Emitted>, c: Cache, lastInsert: nat, copyLength: nat)
    requires ReplaysTo(src, start, c0, es, c) && start + TotalLength(es) + lastInsert == |src.stream|
    ensures var trailing := Lz77.Command(src.stream[start + TotalLength(es)..], copyLength, Lz77.Last);
      Lz77.ExecuteAll(InStep(src, start, c0, TotalLength(es) + lastInsert),
                      DecodedAll(src, start, es) + if lastInsert > 0 then [trailing] else [], src.limit, src.words)
      == Lz77.State(src.stream, c, 0, Lz77.Done)
  {
    hide DecodedAll, Lz77.ExecuteAll, Lz77.Execute, TotalLength;
    var at, remaining: int := start + TotalLength(es), TotalLength(es) + lastInsert;
    assert ReplaysIn(src, start, c0, es, c, remaining);
    var cs := DecodedAll(src, start, es);
    if lastInsert > 0 {
      Trailing(src, at, c, copyLength);
      Lz77.ExecuteChain(InStep(src, start, c0, remaining), cs, InStep(src, at, c, lastInsert),
                   Lz77.Command(src.stream[at..], copyLength, Lz77.Last), src.limit, src.words);
    } else {
      assert cs + [] == cs && src.stream[..at] == src.stream;
    }
  }

  lemma Trailing(src: Source, at: nat, c: Cache, copyLength: nat)
    requires at < |src.stream| && ValidCache(c)
    ensures Lz77.Execute(InStep(src, at, c, |src.stream| - at), Lz77.Command(src.stream[at..], copyLength, Lz77.Last),
                         src.limit, src.words)
         == Lz77.State(src.stream, c, 0, Lz77.Done)
  {
    assert src.stream[..at] + src.stream[at..] == src.stream;
  }
}
