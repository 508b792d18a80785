/** The greedy parser with lazy matching and its jumps over incompressible data. */
module GreedyParser {
  import opened Arith
  import opened Distances
  import opened EncoderReplay

  const MIN_SCORE := 2020
  const LAZY_COST := 175
  const MAX_DELAYS := 4

  /** What the match finder reports; nothing, unless the score exceeds the least one. */
  datatype Search = Search(found: Match, score: int)

  /** The finder's answers, numbered because its hash tables change between calls: the search
      at a position for a match of at most so many bytes. */
  type Finder = (nat, nat, nat) -> Search

  /** The hasher's key length, the bytes it reads to store a position, and the number of
      literals after which the search becomes sparse. */
  datatype Tuning = Tuning(hashLength: nat, lookahead: nat, spree: nat)

  /** The finder reports only true matches within the input. */
  ghost predicate Honest(src: Source, offset: nat, posEnd: nat, find: Finder) {
    forall call: nat, p: nat, m: nat :: p + m == posEnd ==> HonestAt(src, offset, p, find(call, p, m))
  }

  ghost predicate HonestAt(src: Source, offset: nat, p: nat, r: Search) {
    r.score > MIN_SCORE ==> Truthful(src, p + offset, r.found)
  }

  lemma HonestHere(src: Source, offset: nat, posEnd: nat, find: Finder, call: nat, p: nat, m: nat)
    requires Honest(src, offset, posEnd, find) && p + m == posEnd && posEnd + offset == |src.stream|
    ensures var r := find(call, p, m);
      r.score > MIN_SCORE ==> Truthful(src, p + offset, r.found) && 0 < r.found.len <= m
  {
    assert HonestAt(src, offset, p, find(call, p, m));
  }

  /** The search `d` literals after position `p`, whose own search was the one numbered `call`. */
  function Later(find: Finder, posEnd: nat, call: nat, p: nat, d: nat): Search
    requires p + d <= posEnd
  {
    find(call + d, p + d, posEnd - p - d)
  }

  /** The match at `d + 1` literals is clearly better than the one at `d`. */
  predicate Better(find: Finder, posEnd: nat, call: nat, p: nat, d: nat)
    requires p + d < posEnd
  {
    Later(find, posEnd, call, p, d + 1).score >= Later(find, posEnd, call, p, d).score + 175
  }

  /** Lazy matching waits `d` literals: each of them had a clearly better match behind it, and the
      next has not, or four are enough, or the input ends. */
  ghost predicate Chosen(find: Finder, posEnd: nat, hashLength: nat, call: nat, p: nat, d: nat) {
    && d <= 4 && p + d < posEnd
    && (forall k :: 0 <= k < d ==> Better(find, posEnd, call, p, k))
    && (d > 1 ==> p + d - 1 + hashLength < posEnd)
    && (d == 4 || (d > 0 && p + d + hashLength >= posEnd) || !Better(find, posEnd, call, p, d))
  }

  /** The searches that waiting takes: the last one finds nothing better, unless none is made. */
  function Searches(posEnd: nat, hashLength: nat, p: nat, d: nat): nat {
    if d == MAX_DELAYS || (d > 0 && p + d + hashLength >= posEnd) then d else d + 1
  }

  /** Lazy matching: as long as the next position has a clearly better match, one more literal,
      at most four times. */
  method Delay(src: Source, offset: nat, posEnd: nat, find: Finder, tuning: Tuning, call: nat, position: nat,
               insert: nat, first: Search)
    returns (sr: Search, call': nat, position': nat, insert': nat)
    requires Honest(src, offset, posEnd, find) && posEnd + offset == |src.stream|
    requires position < posEnd && first.score > MIN_SCORE && Truthful(src, position + offset, first.found)
    requires call > 0 && first == Later(find, posEnd, call - 1, position, 0)
    ensures sr.score > MIN_SCORE && Truthful(src, position' + offset, sr.found)
    ensures position <= position' <= position + MAX_DELAYS && position' < posEnd
    ensures insert' - insert == position' - position
    ensures Chosen(find, posEnd, tuning.hashLength, call - 1, position, position' - position)
    ensures sr == Later(find, posEnd, call - 1, position, position' - position)
    ensures call' == call + Searches(posEnd, tuning.hashLength, position, position' - position)
  {
    hide Truthful, Honest;
    sr, call', position', insert' := first, call, position, insert;
    ghost var call0: nat := call - 1;
    var maxLength := posEnd - position;
    maxLength := maxLength - 1;
    var delayed := 0;
    while true
      invariant maxLength == posEnd - position' - 1 && delayed < MAX_DELAYS
      invariant position <= position' == position + delayed < posEnd && insert' - insert == delayed
      invariant sr.score > MIN_SCORE && Truthful(src, position' + offset, sr.found)
      invariant call' == call + delayed && sr == Later(find, posEnd, call0, position, delayed)
      invariant forall k :: 0 <= k < delayed ==> Better(find, posEnd, call0, position, k)
      invariant delayed > 0 ==> position + delayed + tuning.hashLength < posEnd
      decreases MAX_DELAYS - delayed
    {
      var sr2 := find(call', position' + 1, maxLength);
      call' := call' + 1;
      assert sr2 == Later(find, posEnd, call0, position, delayed + 1);
      HonestHere(src, offset, posEnd, find, call' - 1, position' + 1, maxLength);
      if sr2.score >= sr.score + LAZY_COST {
        assert Better(find, posEnd, call0, position, delayed);
        position' := position' + 1;
        insert' := insert' + 1;
        sr := sr2;
        delayed := delayed + 1;
        if delayed < MAX_DELAYS && position' + tuning.hashLength < posEnd {
          maxLength := maxLength - 1;
          continue;
        }
      }
      break;
    }
  }

  /** Positions are stored below `stored` only, and all the bytes hashed are in the input. */
  ghost predicate StoresInside(stored: nat, lookahead: nat, posEnd: nat) {
    stored > 0 ==> stored - 1 + lookahead <= posEnd
  }

  /** A whole number of strides, up to the first that reaches the end of the jump. */
  ghost predicate Strides(from: nat, to: nat, posEnd: nat, lookahead: nat, stride: nat, reach: nat)
    requires stride > 0
  {
    var margin := if lookahead - 1 > stride then lookahead - 1 else stride;
    var end := if from + reach < posEnd - margin then from + reach else posEnd - margin;
    && to >= end && (to > from ==> to - stride < end)
    && exists n: nat :: to == from + n * stride
  }

  /** A jump in strides; the last stride may pass the jump's end, but not the margin. Every
      position stored has its lookahead within the input. */
  method Jump(position: nat, insert: nat, posEnd: nat, lookahead: nat, stride: nat, reach: nat)
    returns (position': nat, insert': nat, ghost stored: nat)
    requires 0 < stride && position <= posEnd && lookahead + stride <= posEnd
    ensures position <= position' <= posEnd && insert' - insert == position' - position
    ensures StoresInside(stored, lookahead, posEnd)
    ensures Strides(position, position', posEnd, lookahead, stride, reach)
  {
    position', insert', stored := position, insert, 0;
    ghost var strides: nat := 0;
    var margin := if lookahead - 1 > stride then lookahead - 1 else stride;
    var jumpEnd := Min(position + reach, posEnd - margin);
    while position' < jumpEnd
      invariant position <= position' <= posEnd && insert' - insert == position' - position
      invariant StoresInside(stored, lookahead, posEnd)
      invariant position' == position + strides * stride && (strides > 0 ==> position' - stride < jumpEnd)
      decreases jumpEnd - position'
    {
      strides := strides + 1;
      stored := Max(stored, position' + 1);
      insert' := insert' + stride;
      position' := position' + stride;
    }
  }

  /** Nothing is skipped unless there was no match for long; then up to 8 or 16 literals are. */
  ghost predicate Skipped(from: nat, to: nat, posEnd: nat, applyRandom: nat, tuning: Tuning) {
    if from <= applyRandom then to == from
    else if from <= applyRandom + 4 * tuning.spree then Strides(from, to, posEnd, tuning.lookahead, 2, 8)
    else Strides(from, to, posEnd, tuning.lookahead, 4, 16)
  }

  /** After a literal: when no match was found for long, the search jumps ahead. */
  method Skip(position: nat, insert: nat, posEnd: nat, applyRandom: nat, tuning: Tuning)
    returns (position': nat, insert': nat, ghost stored: nat)
    requires position <= posEnd && tuning.spree <= applyRandom && tuning.lookahead + 4 <= tuning.spree
    ensures position <= position' <= posEnd && insert' - insert == position' - position
    ensures StoresInside(stored, tuning.lookahead, posEnd)
    ensures Skipped(position, position', posEnd, applyRandom, tuning)
  {
    position', insert', stored := position, insert, 0;
    if position > applyRandom {
      if position > applyRandom + 4 * tuning.spree {
        position', insert', stored := Jump(position, insert, posEnd, tuning.lookahead, 4, 16);
      } else {
        position', insert', stored := Jump(position, insert, posEnd, tuning.lookahead, 2, 8);
      }
    }
  }

  /** One past the last position whose hash is stored for a copy. */
  ghost function StoreRange(position: nat, m: Match, storeEnd: nat): nat {
    var end := Min(position + m.len, storeEnd);
    var start := if m.distance < m.len / 4 then Min(end, Max(position + 2, position + m.len - 4 * m.distance))
      else position + 2;
    if start < end then end else 0
  }

  /** The code of a match, and the cache after it. */
  method ChooseCode(src: Source, at: nat, m: Match, cache: Cache) returns (code: nat, cache': Cache)
    requires Truthful(src, at, m) && ValidCache(cache)
    ensures CodeFor(src, at, m, code, cache) && cache' == NextCache(src, at, m, code, cache) && ValidCache(cache')
  {
    hide Truthful, ShortDistance, ComputeDistanceCode;
    TruthfulDistance(src, at, m);
    var dictionaryStart := DictionaryStart(src, at);
    DistanceCodeRoundTrip(m.distance, dictionaryStart, cache);
    code, cache' := ComputeDistanceCode(m.distance, dictionaryStart, cache), cache;
    if m.distance <= dictionaryStart && code > 0 {
      cache' := [m.distance, cache[0], cache[1], cache[2]];
    }
  }

  lemma TruthfulDistance(src: Source, at: nat, m: Match)
    requires Truthful(src, at, m)
    ensures 0 < m.distance <= MAX_ALLOWED_DISTANCE
  {
  }

  /** The command of a match after `insert` literals. */
  method AddCommand(src: Source, at: nat, ghost start: nat, ghost cache0: Cache, commands: seq<Emitted>,
                    cache: Cache, insert: nat, m: Match)
    returns (commands': seq<Emitted>, cache': Cache)
    requires ReplaysTo(src, start, cache0, commands, cache) && ValidCache(cache)
    requires at == start + TotalLength(commands) + insert && Truthful(src, at, m)
    ensures ReplaysTo(src, start, cache0, commands', cache') && ValidCache(cache')
    ensures TotalLength(commands') == TotalLength(commands) + insert + m.len
    ensures |commands'| == |commands| + 1 && commands'[..|commands|] == commands
    ensures Tells(commands'[|commands|], insert, m)
  {
    hide ReplaysTo, Truthful, CodeFor, NextCache, ValidCache, TotalLength;
    TruthfulFits(src, at, m);
    var code;
    code, cache' := ChooseCode(src, at, m, cache);
    ReplaysMore(src, start, cache0, commands, cache, insert, m, code);
    TotalMore(commands, Emitted(insert, m.len, m.lenCode, code));
    commands' := commands + [Emitted(insert, m.len, m.lenCode, code)];
  }

  /** One round: the position searched, the number of its search, the literals waited for a better
      match, the position up to which literals are not skipped, and the position after it. */
  datatype Turn = Turn(from: nat, call: nat, delays: nat, sparse: nat, next: nat)

  /** The match used, if one was found. */
  function Found(find: Finder, posEnd: nat, t: Turn): Search
    requires t.from + t.delays <= posEnd
  {
    Later(find, posEnd, t.call, t.from, t.delays)
  }

  predicate Copies(find: Finder, posEnd: nat, t: Turn)
    requires t.from <= posEnd
  {
    Later(find, posEnd, t.call, t.from, 0).score > 2020
  }

  /** A match found is used, after lazy matching, and nothing else is; otherwise literals follow. */
  ghost predicate Fair(find: Finder, posEnd: nat, tuning: Tuning, t: Turn) {
    && t.from + tuning.hashLength < posEnd && t.from + t.delays < posEnd && t.next <= posEnd
    && if Copies(find, posEnd, t)
       then Chosen(find, posEnd, tuning.hashLength, t.call, t.from, t.delays)
         && t.next == t.from + t.delays + Found(find, posEnd, t).found.len
       else t.delays == 0 && Skipped(t.from + 1, t.next, posEnd, t.sparse, tuning)
  }

  function CallAfter(find: Finder, posEnd: nat, tuning: Tuning, t: Turn): nat
    requires t.from <= posEnd
  {
    t.call + 1 + if Copies(find, posEnd, t) then Searches(posEnd, tuning.hashLength, t.from, t.delays) else 0
  }

  function SparseAfter(find: Finder, posEnd: nat, tuning: Tuning, t: Turn): nat
    requires t.from + t.delays <= posEnd
  {
    if Copies(find, posEnd, t) then t.from + t.delays + 2 * Found(find, posEnd, t).found.len + tuning.spree
    else t.sparse
  }

  /** The rounds from the first position on. */
  ghost predicate Rounds(find: Finder, posEnd: nat, tuning: Tuning, position0: nat, log: seq<Turn>) {
    && (forall i :: 0 <= i < |log| ==> Fair(find, posEnd, tuning, log[i]))
    && (forall i :: 0 < i < |log| ==>
          log[i] == Turn(log[i - 1].next, CallAfter(find, posEnd, tuning, log[i - 1]), log[i].delays,
                         SparseAfter(find, posEnd, tuning, log[i - 1]), log[i].next))
    && (log != [] ==> log[0].from == position0 && log[0].call == 0 && log[0].sparse == position0 + tuning.spree)
  }

  function Upto(position0: nat, log: seq<Turn>): nat {
    if log == [] then position0 else log[|log| - 1].next
  }

  /** Where the last copy ended; literals from before count as coming after one. */
  ghost function LastEnd(find: Finder, posEnd: nat, start: int, log: seq<Turn>): int
    requires forall i :: 0 <= i < |log| ==> log[i].from <= posEnd
  {
    if log == [] then start
    else
      var t := log[|log| - 1];
      if Copies(find, posEnd, t) then t.next else LastEnd(find, posEnd, start, log[..|log| - 1])
  }

  /** The command of a round has the literals since the last copy and the match found. */
  ghost predicate Tells(e: Emitted, insert: int, m: Match) {
    e.insert == insert && e.copy == m.len && e.lenCode == m.lenCode
  }

  /** The commands are those of the rounds with a copy. */
  ghost predicate Told(find: Finder, posEnd: nat, start: int, log: seq<Turn>, commands: seq<Emitted>)
    requires forall i :: 0 <= i < |log| ==> log[i].from + log[i].delays <= posEnd
    decreases |log|
  {
    if log == [] then commands == []
    else
      var n, t := |commands| - 1, log[|log| - 1];
      if Copies(find, posEnd, t) then
        && n >= 0 && Told(find, posEnd, start, log[..|log| - 1], commands[..n])
        && Tells(commands[n], t.from + t.delays - LastEnd(find, posEnd, start, log[..|log| - 1]),
                 Found(find, posEnd, t).found)
      else Told(find, posEnd, start, log[..|log| - 1], commands)
  }

  /** One more round. */
  lemma RoundMore(find: Finder, posEnd: nat, tuning: Tuning, position0: nat, start: int, log: seq<Turn>, t: Turn,
                  commands: seq<Emitted>, commands': seq<Emitted>)
    requires Rounds(find, posEnd, tuning, position0, log) && Fair(find, posEnd, tuning, t)
    requires t.from == Upto(position0, log)
    requires t.call == if log == [] then 0 else CallAfter(find, posEnd, tuning, log[|log| - 1])
    requires t.sparse ==
      if log == [] then position0 + tuning.spree else SparseAfter(find, posEnd, tuning, log[|log| - 1])
    requires Told(find, posEnd, start, log, commands)
    requires if Copies(find, posEnd, t)
      then |commands'| == |commands| + 1 && commands'[..|commands|] == commands
        && Tells(commands'[|commands|], t.from + t.delays - LastEnd(find, posEnd, start, log),
                 Found(find, posEnd, t).found)
      else commands' == commands
    ensures var l := log + [t];
      && Rounds(find, posEnd, tuning, position0, l) && Told(find, posEnd, start, l, commands')
      && LastEnd(find, posEnd, start, l) ==
           if Copies(find, posEnd, t) then t.next else LastEnd(find, posEnd, start, log)
  {
    hide Fair, Tells, Later;
    assert (log + [t])[..|log|] == log;
    FairFits(find, posEnd, tuning, t);
    forall i | 0 <= i < |log| ensures log[i].from + log[i].delays <= posEnd {
      FairFits(find, posEnd, tuning, log[i]);
    }
  }

  /** The rounds so far, and the state they have led to. */
  ghost predicate Logged(find: Finder, posEnd: nat, tuning: Tuning, position0: nat, start: int, log: seq<Turn>,
                         commands: seq<Emitted>, position: nat, insert: nat, call: nat, sparse: nat) {
    && Rounds(find, posEnd, tuning, position0, log)
    && (forall i :: 0 <= i < |log| ==> log[i].from + log[i].delays < posEnd)
    && Told(find, posEnd, start, log, commands)
    && position == Upto(position0, log) && insert == position - LastEnd(find, posEnd, start, log)
    && call == (if log == [] then 0 else CallAfter(find, posEnd, tuning, log[|log| - 1]))
    && sparse == if log == [] then position0 + tuning.spree else SparseAfter(find, posEnd, tuning, log[|log| - 1])
  }

  lemma LoggedMore(find: Finder, posEnd: nat, tuning: Tuning, position0: nat, start: int, log: seq<Turn>, t: Turn,
                   commands: seq<Emitted>, commands': seq<Emitted>, position: nat, insert: nat, call: nat, sparse: nat,
                   insert': nat, call': nat, sparse': nat)
    requires Logged(find, posEnd, tuning, position0, start, log, commands, position, insert, call, sparse)
    requires Fair(find, posEnd, tuning, t) && t.from == position && t.call == call && t.sparse == sparse
    requires t.from + t.delays < posEnd && position <= t.next
    requires if Copies(find, posEnd, t)
      then |commands'| == |commands| + 1 && commands'[..|commands|] == commands && insert' == 0
        && Tells(commands'[|commands|], insert + t.delays, Found(find, posEnd, t).found)
      else commands' == commands && insert' == insert + t.next - position
    requires call' == CallAfter(find, posEnd, tuning, t) && sparse' == SparseAfter(find, posEnd, tuning, t)
    ensures Logged(find, posEnd, tuning, position0, start, log + [t], commands', t.next, insert', call', sparse')
  {
    hide Fair, Tells, Later, Rounds, Told, LastEnd;
    RoundMore(find, posEnd, tuning, position0, start, log, t, commands, commands');
  }

  lemma FairFits(find: Finder, posEnd: nat, tuning: Tuning, t: Turn)
    requires Fair(find, posEnd, tuning, t)
    ensures t.from + t.delays < posEnd
  {
  }

  lemma CopyFair(find: Finder, posEnd: nat, tuning: Tuning, t: Turn)
    requires t.from + tuning.hashLength < posEnd && t.from + t.delays < posEnd && t.next <= posEnd
    requires Copies(find, posEnd, t) && Chosen(find, posEnd, tuning.hashLength, t.call, t.from, t.delays)
    requires t.next == t.from + t.delays + Found(find, posEnd, t).found.len
    ensures Fair(find, posEnd, tuning, t)
  {
  }

  lemma LiteralFair(find: Finder, posEnd: nat, tuning: Tuning, t: Turn)
    requires t.from + tuning.hashLength < posEnd && t.delays == 0 && t.next <= posEnd
    requires !Copies(find, posEnd, t) && Skipped(t.from + 1, t.next, posEnd, t.sparse, tuning)
    ensures Fair(find, posEnd, tuning, t)
  {
  }

  /** A match found, delayed or not, becomes a command. */
  method Use(src: Source, offset: nat, posEnd: nat, find: Finder, tuning: Tuning, call: nat, position: nat, insert: nat,
             first: Search, storeEnd: nat, ghost start: nat, ghost cache0: Cache, commands: seq<Emitted>, cache: Cache,
             ghost t0: Turn)
    returns (commands': seq<Emitted>, cache': Cache, call': nat, position': nat, applyRandom: nat, ghost more: nat,
             ghost t: Turn)
    requires Honest(src, offset, posEnd, find) && posEnd + offset == |src.stream|
    requires position + tuning.hashLength < posEnd
    requires storeEnd <= position || storeEnd + tuning.lookahead <= posEnd + 1
    requires first.score > MIN_SCORE && Truthful(src, position + offset, first.found)
    requires call == t0.call + 1 && t0.from == position && first == Later(find, posEnd, t0.call, position, 0)
    requires ReplaysTo(src, start, cache0, commands, cache) && ValidCache(cache)
    requires start + TotalLength(commands) + insert == position + offset
    ensures ReplaysTo(src, start, cache0, commands', cache') && ValidCache(cache')
    ensures start + TotalLength(commands') == position' + offset && position < position' <= posEnd
    ensures t == t0.(delays := t.delays, next := position') && t.from + t.delays < posEnd
    ensures Fair(find, posEnd, tuning, t) && Copies(find, posEnd, t)
    ensures |commands'| == |commands| + 1 && commands'[..|commands|] == commands
    ensures Tells(commands'[|commands|], insert + t.delays, Found(find, posEnd, t).found)
    ensures call' == CallAfter(find, posEnd, tuning, t) && applyRandom == SparseAfter(find, posEnd, tuning, t)
    ensures tuning.spree <= applyRandom && StoresInside(more, tuning.lookahead, posEnd)
  {
    hide Honest, ReplaysTo, Truthful, CodeFor, NextCache, ValidCache, Chosen, Tells;
    var sr, at, insert';
    sr, call', at, insert' := Delay(src, offset, posEnd, find, tuning, call, position, insert, first);
    applyRandom := at + 2 * sr.found.len + tuning.spree;
    TruthfulFits(src, at + offset, sr.found);
    commands', cache' := AddCommand(src, at + offset, start, cache0, commands, cache, insert', sr.found);
    position' := at + sr.found.len;
    t := t0.(delays := at - position, next := position');
    CopyFair(find, posEnd, tuning, t);
    more := StoreRange(at, sr.found, storeEnd);
  }

  /** `CreateBackwardReferences`: the commands and the literals left over tile the input; the
      commands, replayed by the decoder, rebuild it exactly and leave the same cache. They are
      those of rounds from the first position to the end of the input, in which every match found
      starts a command, at most four literals later. */
  method CreateBackwardReferences(src: Source, offset: nat, numBytes: nat, position0: nat, find: Finder, tuning: Tuning,
                                  cache0: Cache, lastInsert: nat)
    returns (commands: seq<Emitted>, cache: Cache, lastInsert': nat, ghost stored: nat, ghost log: seq<Turn>)
    requires position0 + numBytes + offset == |src.stream| && lastInsert <= position0 + offset && ValidCache(cache0)
    requires Honest(src, offset, position0 + numBytes, find) && tuning.lookahead + 4 <= tuning.spree
    ensures TotalLength(commands) + lastInsert' == lastInsert + numBytes
    ensures ReplaysTo(src, position0 + offset - lastInsert, cache0, commands, cache)
    ensures StoresInside(stored, tuning.lookahead, position0 + numBytes)
    ensures Rounds(find, position0 + numBytes, tuning, position0, log)
    ensures Upto(position0, log) + tuning.hashLength >= position0 + numBytes
    ensures forall i :: 0 <= i < |log| ==> log[i].from + log[i].delays < position0 + numBytes
    ensures Told(find, position0 + numBytes, position0 - lastInsert, log, commands)
  {
    hide Honest, ReplaysTo, Truthful, CodeFor, NextCache, ValidCache, Chosen, Skipped, Fair, Tells, Logged;
    commands, cache, stored, log := [], cache0, 0, [];
    var position: nat, insert: nat, posEnd := position0, lastInsert, position0 + numBytes;
    ghost var start, start0 := position0 + offset - lastInsert, position0 - lastInsert;
    var storeEnd := if numBytes >= tuning.lookahead then position + numBytes - tuning.lookahead + 1 else position;
    var applyRandom := position + tuning.spree;
    var call := 0;
    ReplaysNone(src, start, cache);
    NoRounds(find, posEnd, tuning, position0, start0, insert);
    while position + tuning.hashLength < posEnd
      invariant position0 <= position <= posEnd && tuning.spree <= applyRandom
      invariant start + TotalLength(commands) + insert == position + offset
      invariant ReplaysTo(src, start, cache0, commands, cache)
      invariant ValidCache(cache) && StoresInside(stored, tuning.lookahead, posEnd)
      invariant Logged(find, posEnd, tuning, position0, start0, log, commands, position, insert, call, applyRandom)
      decreases posEnd - position
    {
      var sr := find(call, position, posEnd - position);
      ghost var t := Turn(position, call, 0, applyRandom, 0);
      ghost var before, insert0, call0 := commands, insert, call;
      HonestHere(src, offset, posEnd, find, call, position, posEnd - position);
      call := call + 1;
      ghost var more: nat;
      if sr.score > MIN_SCORE {
        commands, cache, call, position, applyRandom, more, t :=
          Use(src, offset, posEnd, find, tuning, call, position, insert, sr, storeEnd, start, cache0, commands, cache,
              t);
        insert := 0;
      } else {
        insert := insert + 1;
        position := position + 1;
        position, insert, more := Skip(position, insert, posEnd, applyRandom, tuning);
        t := t.(next := position);
        LiteralFair(find, posEnd, tuning, t);
      }
      LoggedMore(find, posEnd, tuning, position0, start0, log, t, before, commands, t.from, insert0, call0, t.sparse,
                 insert, call, applyRandom);
      log := log + [t];
      stored := Max(stored, more);
    }
    lastInsert' := insert + (posEnd - position);
    LoggedIs(find, posEnd, tuning, position0, start0, log, commands, position, insert, call, applyRandom);
  }

  lemma LoggedIs(find: Finder, posEnd: nat, tuning: Tuning, position0: nat, start: int, log: seq<Turn>,
                 commands: seq<Emitted>, position: nat, insert: nat, call: nat, sparse: nat)
    requires Logged(find, posEnd, tuning, position0, start, log, commands, position, insert, call, sparse)
    ensures Rounds(find, posEnd, tuning, position0, log) && position == Upto(position0, log)
    ensures forall i :: 0 <= i < |log| ==> log[i].from + log[i].delays < posEnd
    ensures Told(find, posEnd, start, log, commands)
  {
  }

  lemma NoRounds(find: Finder, posEnd: nat, tuning: Tuning, position0: nat, start: int, insert: nat)
    requires insert == position0 - start
    ensures Logged(find, posEnd, tuning, position0, start, [], [], position0, insert, 0, position0 + tuning.spree)
  {
  }
}
