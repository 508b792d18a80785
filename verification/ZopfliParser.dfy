/** The Zopfli parser: it records the cheapest commands found to every position, traces the
    path back and emits its commands. */
module ZopfliParser {
  import opened Arith
  import opened Distances
  import opened EncoderReplay
  import opened ZopfliPath
  import opened ZopfliNodes
  import opened ZopfliCost
  import opened StartPosQueue

  /** `kDistanceCacheIndex` and `kDistanceCacheOffset`. */
  const CACHE_INDEX := [0, 1, 2, 3, 0, 0, 0, 0, 0, 0, 1, 1, 1, 1, 1, 1]
  const CACHE_OFFSET := [0, 0, 0, 0, -1, 1, -2, 2, -3, 3, -1, 1, -2, 2, -3, 3]

  lemma TablesAgree(j: nat, c: Cache)
    requires j < NUM_SHORT_CODES
    ensures |CACHE_INDEX| == |CACHE_OFFSET| == NUM_SHORT_CODES && 0 <= CACHE_INDEX[j] < 4
    ensures c[CACHE_INDEX[j]] + CACHE_OFFSET[j] == ShortDistance(j, c)
  {
    if j < 4 {
    } else if j < 10 {
      assert j == 4 || j == 5 || j == 6 || j == 7 || j == 8 || j == 9;
    } else {
      assert j == 10 || j == 11 || j == 12 || j == 13 || j == 14 || j == 15;
    }
  }

  /** `FindMatchLengthWithLimit`. */
  function MatchLength(stream: seq<Byte>, at: nat, distance: nat, limit: nat): (n: nat)
    requires 0 < distance <= at && at + limit <= |stream|
    ensures n <= limit
    decreases limit
  {
    if limit == 0 || stream[at] != stream[at - distance] then 0
    else 1 + MatchLength(stream, at + 1, distance, limit - 1)
  }

  lemma {:induction false} MatchLengthRepeats(stream: seq<Byte>, at: nat, distance: nat, limit: nat)
    requires 0 < distance <= at && at + limit <= |stream|
    ensures Repeats(stream, at, distance, MatchLength(stream, at, distance, limit))
    decreases limit
  {
    var n := MatchLength(stream, at, distance, limit);
    if n > 0 {
      MatchLengthRepeats(stream, at + 1, distance, limit - 1);
      forall j | 0 <= j < n ensures RepeatsAt(stream, at, distance, j) {
        if j > 0 { assert RepeatsAt(stream, at + 1, distance, j - 1); }
      }
    }
  }

  /** A match ends where the bytes differ. */
  lemma {:induction false} MatchLengthStops(stream: seq<Byte>, at: nat, distance: nat, limit: nat, k: nat)
    requires 0 < distance <= at && at + limit <= |stream| && k < limit && stream[at + k] != stream[at + k - distance]
    ensures MatchLength(stream, at, distance, limit) <= k
    decreases limit
  {
    if k > 0 { MatchLengthStops(stream, at + 1, distance, limit - 1, k - 1); }
  }

  /** A shorter copy of a true match is a true match, unless it is a dictionary word. */
  lemma ShorterTruthful(src: Source, at: nat, m: Match, len: nat)
    requires Truthful(src, at, m) && m.distance <= DictionaryStart(src, at) && 0 < len <= m.len
    ensures Truthful(src, at, Match(len, len, m.distance))
  {
    forall j | 0 <= j < len ensures RepeatsAt(src.stream, at, m.distance, j) {
      assert RepeatsAt(src.stream, at, m.distance, j);
    }
  }

  /** Costs only go down, and only from position `from` on. */
  ghost predicate Improves(before: seq<Node>, after: seq<Node>, from: nat) {
    |after| == |before| && forall t :: 0 <= t < |before| ==> ImprovesAt(before, after, from, t)
  }

  ghost predicate ImprovesAt(before: seq<Node>, after: seq<Node>, from: nat, t: nat)
    requires t < |before| && t < |after|
  {
    after[t] == before[t] || (from <= t && before[t].u.Cost? && after[t].u.Cost? && after[t].u.cost < before[t].u.cost)
  }

  lemma ImprovesChain(a: seq<Node>, b: seq<Node>, c: seq<Node>, from: nat)
    requires Improves(a, b, from) && Improves(b, c, from)
    ensures Improves(a, c, from)
  {
    forall t | 0 <= t < |a| ensures ImprovesAt(a, c, from, t) {
      assert ImprovesAt(a, b, from, t) && ImprovesAt(b, c, from, t);
    }
  }

  /** The position's cost went down. */
  ghost predicate Lower(before: seq<Node>, after: seq<Node>, t: nat) {
    t < |before| && t < |after| && before[t].u.Cost? && after[t].u.Cost? && after[t].u.cost < before[t].u.cost
  }

  /** Costs went down, at `pos + result` and not beyond it. */
  ghost predicate Gained(before: seq<Node>, after: seq<Node>, pos: nat, result: nat) {
    && Improves(before, after, pos + 2) && (result > 0 ==> Lower(before, after, pos + result))
    && forall t :: pos + result < t < |before| ==> after[t] == before[t]
  }

  lemma GainedNone(a: seq<Node>, pos: nat)
    ensures Gained(a, a, pos, 0)
  {
  }

  lemma GainedKeeps(a: seq<Node>, b: seq<Node>, pos: nat, r: nat)
    requires Gained(a, b, pos, r) && pos < |a|
    ensures |b| == |a| && b[pos] == a[pos]
  {
    assert ImprovesAt(a, b, pos + 2, pos);
  }

  lemma GainedChain(a: seq<Node>, b: seq<Node>, c: seq<Node>, pos: nat, r: nat, s: nat)
    requires Gained(a, b, pos, r) && Gained(b, c, pos, s)
    ensures Gained(a, c, pos, Max(r, s))
  {
    ImprovesChain(a, b, c, pos + 2);
    if 0 < r < |a| - pos { assert ImprovesAt(b, c, pos + 2, pos + r); }
    if 0 < s < |a| - pos { assert ImprovesAt(a, b, pos + 2, pos + s); }
  }

  /** A candidate was recorded if and only if it is cheaper than what its end had. */
  ghost predicate Recorded(before: seq<Node>, after: seq<Node>, t: nat, improved: bool, cost: real) {
    && |after| == |before| && t < |before| && before[t].u.Cost? && after[t].u.Cost?
    && (improved <==> cost < before[t].u.cost)
    && (if improved then after[t].u.cost == cost else after[t] == before[t])
    && forall i :: 0 <= i < |before| && i != t ==> after[i] == before[i]
  }

  /** Trying a longer length. */
  lemma RecordedGains(a: seq<Node>, b: seq<Node>, c: seq<Node>, pos: nat, r: nat, l: nat, improved: bool, cost: real)
    requires Gained(a, b, pos, r) && Recorded(b, c, pos + l, improved, cost) && r < l && l >= 2
    ensures Gained(a, c, pos, if improved then l else r)
  {
    var from := pos + 2;
    forall i | 0 <= i < |b| ensures ImprovesAt(b, c, from, i) {
    }
    GainedChain(a, b, c, pos, r, if improved then l else 0);
  }

  /** The buckets of copy lengths 10 to 13, 14 to 21, 22 to 37 and so on that a length is past
      the start of. */
  function Buckets(len: nat, offset: nat, size: nat): nat
    requires size > 0
    decreases len + 1 - offset
  {
    if len < offset then 0 else 1 + Buckets(len, offset + size, 2 * size)
  }

  /** One update: the position, its matches, the starts so far, the least length tried, the costs
      before and after, and the longest copy that improved one. */
  datatype Update = Update(
    pos: nat, matches: seq<Match>, pushed: seq<PosData>, minLen: nat, before: seq<real>, after: seq<real>, result: nat)

  /** Nodes that are not evaluated have their costs. */
  lemma GainedCosts(model: Model, a: seq<Node>, before: seq<real>, b: seq<Node>, after: seq<real>, pos: nat,
                    result: nat)
    requires Gained(a, b, pos, result) && Costed(model, a, pos + 1, before) && Costed(model, b, pos + 1, after)
    ensures |after| == |before|
    ensures (result > 0 ==> pos + result < |before| && after[pos + result] < before[pos + result])
    ensures forall t :: pos + result < t < |before| ==> after[t] == before[t]
    ensures forall t :: 0 <= t < pos + 2 && t < |before| ==> after[t] == before[t]
  {
    hide Linked, PathCost;
    forall t | 0 <= t < pos + 2 && t < |before| ensures after[t] == before[t] {
      forall i | 0 <= i <= t ensures b[i] == a[i] { assert ImprovesAt(a, b, pos + 2, i); }
      assert CostedAt(model, Hops(a), before, t) && CostedAt(model, Hops(b), after, t);
      if Reached(Hops(a), t) { CostFrame(model, Hops(a), Hops(b), t); }
    }
  }

  class Parser {
    const st: Setting
    const n: nat
    const offset: nat
    const model: Model
    const nodes: array<Node>
    const queue: Queue
    ghost var done: nat
    ghost var costs: seq<real>
    ghost var pushed: seq<PosData>

    ghost predicate Shape() {
      && st.base + n == |st.src.stream| && offset <= st.base && n < LENGTH_LIMIT && nodes.Length == n + 1
      && ValidCache(st.cache) && model.Finite() && st.src.limit <= MAX_ALLOWED_DISTANCE
    }

    ghost predicate Valid()
      reads this, nodes, queue, queue.q
    {
      && Shape() && queue.Valid() && NodesOk(st, nodes[..], done) && QueueOk(st, nodes[..], done, queue.View())
      && (if done == 0 then nodes[0].u == Cost(0.0) else queue.View() != [])
      && Costed(model, nodes[..], done, costs) && AllPriced(model, costs, queue.View())
      && queue.View() == Kept(pushed) && Pushed(model, costs, done, pushed)
    }

    constructor (setting: Setting, numBytes: nat, streamOffset: nat, costModel: Model)
      requires setting.base + numBytes == |setting.src.stream| && streamOffset <= setting.base
      requires numBytes < LENGTH_LIMIT
      requires ValidCache(setting.cache) && costModel.Finite() && setting.src.limit <= MAX_ALLOWED_DISTANCE
      ensures Valid() && done == 0 && st == setting && n == numBytes && offset == streamOffset && model == costModel
      ensures fresh(nodes) && fresh(queue) && fresh(queue.q) && queue.View() == []
      ensures costs == Unreached(n)
    {
      st, n, offset, model := setting, numBytes, streamOffset, costModel;
      nodes := new Node[numBytes + 1](i => Node(if i == 0 then 0 else 1, 0, 0, Cost(if i == 0 then 0.0 else INFINITY)));
      queue := new Queue();
      done, costs, pushed := 0, Unreached(numBytes), [];
      new;
      FreshNodes(st, nodes[..]);
      FreshCosts(model, nodes[..], costs);
    }

    /** The shortcut of a position, from those of earlier ones. */
    method ComputeDistanceShortcut(pos: nat) returns (p: nat)
      requires Valid() && pos == done <= n
      ensures Reached(Hops(nodes[..]), pos) ==> p == ZopfliPath.Shortcut(st, Hops(nodes[..]), pos)
    {
      hide Costed, Pushed, AllPriced, Kept;
      hide Truthful, CodeFor, PathCache;
      var node := nodes[pos];
      var clen, ilen, dist := node.CopyLength(), node.InsertLength(), node.distance;
      ghost var h := Hops(nodes[..]);
      if pos == 0 {
        return 0;
      }
      assert LinkedAt(h, pos) && UnionAt(st, nodes[..], done, pos);
      if dist + clen <= st.base + pos && dist <= st.src.limit && node.DistanceCode() > 0 {
        p := pos;
      } else {
        assert UnionAt(st, nodes[..], done, pos - clen - ilen);
        p := nodes[pos - clen - ilen].u.shortcut;
      }
    }

    /** The cache at an evaluated position, along the shortcuts: the same as replaying every
        command of its path. */
    method ComputeDistanceCache(pos: nat) returns (cache: Cache)
      requires Shape() && NodesOk(st, nodes[..], done) && pos < done && Reached(Hops(nodes[..]), pos)
      ensures cache == PathCache(st, Hops(nodes[..]), pos)
    {
      ghost var ns := nodes[..];
      ghost var h := Hops(ns);
      ShortcutHere(st, ns, done, pos);
      RecentCache(st, h, pos);
      hide NodesOk, Linked, Reached, PathCache, Recent, Pushes, UnionAt, ValidCache;
      var p: nat, recent := nodes[pos].u.shortcut, [];
      while |recent| < 4 && p > 0
        invariant |recent| <= 4 && ShortcutOf(st, ns, done, p) && Recent(st, h, pos) == recent + Recent(st, h, p)
        decreases p
      {
        ShortcutNext(st, ns, done, p);
        var clen, ilen, dist := nodes[p].CopyLength(), nodes[p].InsertLength(), nodes[p].distance;
        ghost var before := recent;
        recent := recent + [dist];
        p := nodes[p - clen - ilen].u.shortcut;
        AppendOne(before, dist, Recent(st, h, p));
      }
      NoneRecent(st, h);
      cache := recent + st.cache[..4 - |recent|];
      FirstFour(recent, Recent(st, h, p), st.cache);
    }

    /** `EvaluateNode`: the next position's cost becomes a shortcut; if it is worth starting
        commands from, it enters the queue with its cache. */
    method EvaluateNode(pos: nat) returns (ghost start: Cache)
      requires Valid() && pos == done <= n
      modifies `done, `pushed, nodes, queue, queue.q
      ensures Valid() && done == pos + 1 && Hops(nodes[..]) == old(Hops(nodes[..]))
      ensures nodes[..] == old(nodes[..])[pos := old(nodes[pos]).(u := nodes[pos].u)]
      ensures var cost := old(CostAt(pos));
        var diff := cost - model.Literals(0, pos);
        && queue.View() == (if diff > 0.0 then old(queue.View())
                            else Insert(PosData(pos, start, diff, cost), Room(old(queue.View()))))
        && pushed == old(pushed) + if diff > 0.0 then [] else [PosData(pos, start, diff, cost)]
    {
      hide Kept, Pushed, AllPriced, CostedAt, Truthful, CodeFor, PathCache, AllTrue, Frozen, Linked, Insert;
      ghost var ns, view := nodes[..], queue.View();
      assert UnionAt(st, ns, done, pos);
      start := st.cache;
      var nodeCost := nodes[pos].u.cost;
      var shortcut := ComputeDistanceShortcut(pos);
      NodeEvaluate(st, ns, done, shortcut);
      CostEvaluate(model, ns, done, costs, Shortcut(shortcut));
      assert costs[pos] == nodeCost;
      nodes[pos] := nodes[pos].(u := Shortcut(shortcut));
      done := pos + 1;
      assert nodes[..] == ns[pos := ns[pos].(u := Shortcut(shortcut))];
      StartsKept(st, ns, pos, nodes[..], done, view);
      if nodeCost <= model.Literals(0, pos) {
        assert model.Literals(0, pos) < INFINITY && Reached(Hops(ns), pos);
        var cache := ComputeDistanceCache(pos);
        var x := PosData(pos, cache, nodeCost - model.Literals(0, pos), nodeCost);
        queue.Push(x);
        PushedMore(model, costs, pos, pushed, x);
        KeptMore(pushed, x);
        pushed := pushed + [x];
        start := cache;
        PushKept(st, nodes[..], done, view, x);
        PushPriced(model, costs, view, x);
      } else {
        PushedSame(model, costs, pos, pushed);
      }
    }

    /** Positions up to `pos` are evaluated, and commands may start at `x`. */
    ghost predicate Ready(pos: nat, x: PosData)
      reads this, nodes, queue, queue.q
    {
      Valid() && done == pos + 1 && pos <= n && StartOk(st, nodes[..], done, x) && Priced(model, costs, x)
    }

    /** `UpdateZopfliNode`: a true match that is cheaper than what reached its end so far. */
    method UpdateZopfliNode(pos: nat, x: PosData, m: Match, shortCode: nat, cost: real)
      requires Ready(pos, x) && pos + m.len <= n && Packable(pos - x.pos, m, shortCode)
      requires nodes[pos + m.len].u.Cost? && cost < nodes[pos + m.len].u.cost
      requires Truthful(st.src, st.base + pos, m)
      requires CodeFor(st.src, st.base + pos, m,
                       if shortCode == 0 then m.distance + NUM_SHORT_CODES - 1 else shortCode - 1, x.cache)
      requires cost == x.cost + CommandCost(model, x.pos, pos - x.pos, m,
                                            if shortCode == 0 then m.distance + NUM_SHORT_CODES - 1 else shortCode - 1)
      modifies nodes, `costs
      ensures Ready(pos, x) && costs == old(costs)[pos + m.len := cost]
      ensures nodes[..] == old(nodes[..])[pos + m.len := Pack(pos - x.pos, m, shortCode, cost)]
    {
      hide Truthful, CodeFor, PathCache, Linked;
      ghost var ns := nodes[..];
      var node := Pack(pos - x.pos, m, shortCode, cost);
      PackRoundTrip(pos - x.pos, m, shortCode, cost);
      assert UnionAt(st, ns, done, pos + m.len);
      NodeUpdate(st, ns, done, pos + m.len, node);
      CostUpdate(st, model, ns, done, costs, pos + m.len, node);
      ghost var costs' := costs[pos + m.len := cost];
      PushedFrame(model, costs, costs', done, pushed);
      costs := costs';
      nodes[pos + m.len] := node;
      assert nodes[..] == ns[pos + m.len := node];
      StartsKept(st, ns, done, nodes[..], done, queue.View());
    }

    /** The cost of a position that is not evaluated yet. */
    function CostAt(t: nat): (c: real)
      requires Valid() && done <= t <= n
      reads this, nodes, queue, queue.q
      ensures nodes[t].u == Cost(c) && c <= INFINITY && c == costs[t]
    {
      assert UnionAt(st, nodes[..], done, t);
      nodes[t].u.cost
    }

    /** Records the command if it is cheaper than what its end has. */
    method TryCost(pos: nat, x: PosData, m: Match, shortCode: nat, cost: real) returns (improved: bool)
      requires Ready(pos, x) && pos + m.len <= n && Packable(pos - x.pos, m, shortCode)
      requires Truthful(st.src, st.base + pos, m)
      requires CodeFor(st.src, st.base + pos, m,
                       if shortCode == 0 then m.distance + NUM_SHORT_CODES - 1 else shortCode - 1, x.cache)
      requires cost == x.cost + CommandCost(model, x.pos, pos - x.pos, m,
                                            if shortCode == 0 then m.distance + NUM_SHORT_CODES - 1 else shortCode - 1)
      modifies nodes, `costs
      ensures Cheaper(old(costs), costs)
      ensures Ready(pos, x) && Recorded(old(nodes[..]), nodes[..], pos + m.len, improved, cost)
      ensures improved ==> nodes[pos + m.len] == Pack(pos - x.pos, m, shortCode, cost)
      ensures Within(costs, pos + m.len, cost)
    {
      hide StartOk;
      hide Pushed, AllPriced, Kept, Linked, CostedAt;
      hide Truthful, CodeFor;
      improved := cost < CostAt(pos + m.len);
      if improved {
        UpdateZopfliNode(pos, x, m, shortCode, cost);
      }
    }

    /** The least copy length worth trying: every shorter one already costs no more than the
        start's cost and a bit for each bucket of lengths, and this one costs more. */
    method ComputeMinimumCopyLength(startCost: real, pos: nat) returns (len: nat)
      requires Valid() && done == pos + 1 && pos <= n
      ensures len >= 2 && forall l :: 2 <= l < len ==> Within(costs, pos + l, startCost + Buckets(l, 10, 4) as real)
      ensures pos + len <= n ==> !Within(costs, pos + len, startCost + Buckets(len, 10, 4) as real)
    {
      hide Pushed, AllPriced, Kept;
      hide NodesOk, QueueOk;
      ghost var passed := 0;
      var minCost := startCost;
      len := 2;
      var nextBucket, nextOffset := 4, 10;
      while pos + len <= n && CostAt(pos + len) <= minCost
        invariant len >= 2 && minCost == startCost + passed as real && len < nextOffset && nextBucket > 0
        invariant forall l :: l >= len ==> Buckets(l, 10, 4) == passed + Buckets(l, nextOffset, nextBucket)
        invariant forall l :: 2 <= l < len ==> Within(costs, pos + l, startCost + Buckets(l, 10, 4) as real)
        decreases n - len
      {
        len := len + 1;
        if len == nextOffset {
          minCost := minCost + 1.0;
          passed := passed + 1;
          nextOffset := nextOffset + nextBucket;
          nextBucket := nextBucket * 2;
        }
      }
      assert Buckets(len, 10, 4) == passed;
    }

    /** What a command from a start position costs before its copy. */
    function BaseCost(pos: nat, x: PosData): real
      requires x.pos <= pos
    {
      x.costDiff + model.insertExtra(pos - x.pos) + model.Literals(0, pos)
    }

    /** What a copy of length `l` at the last distance `j` would cost. */
    function LastCost(pos: nat, x: PosData, j: nat, l: nat, baseCost: real): real
      requires x.pos <= pos
    {
      (if model.implicit(pos - x.pos, l, j == 0) then baseCost else baseCost + model.distanceCost(j))
      + model.copyExtra(l) + model.commandCost(pos - x.pos, l, j == 0)
    }

    /** What length `l` of a match found here would cost. */
    function MatchCost(pos: nat, x: PosData, m: Match, l: nat, baseCost: real): real
      requires x.pos <= pos
    {
      var lenCode := if m.distance > DictionaryStart(st.src, st.base + pos) then m.lenCode else l;
      var code := m.distance + NUM_SHORT_CODES - 1;
      baseCost + model.distanceExtra(code) + model.distanceCost(code) + model.copyExtra(lenCode)
      + model.commandCost(pos - x.pos, lenCode, false)
    }

    /** They are what the start costs and what the command costs. */
    lemma LastPrice(pos: nat, x: PosData, j: nat, l: nat, m: Match)
      requires x.pos <= pos && j < NUM_SHORT_CODES && x.costDiff == x.cost - model.Literals(0, x.pos)
      requires m.len == m.lenCode == l
      ensures LastCost(pos, x, j, l, BaseCost(pos, x)) == x.cost + CommandCost(model, x.pos, pos - x.pos, m, j)
    {
    }

    lemma MatchPrice(pos: nat, x: PosData, m: Match, l: nat, copied: Match)
      requires x.pos <= pos && x.costDiff == x.cost - model.Literals(0, x.pos) && m.distance > 0
      requires copied.distance == m.distance
      requires copied.lenCode == if m.distance > DictionaryStart(st.src, st.base + pos) then m.lenCode else l
      ensures MatchCost(pos, x, m, l, BaseCost(pos, x)) ==
        x.cost + CommandCost(model, x.pos, pos - x.pos, copied, m.distance + NUM_SHORT_CODES - 1)
    {
    }

    /** One length of one of the last distances. */
    method TryLength(pos: nat, x: PosData, j: nat, backward: nat, l: nat, baseCost: real, ghost len: nat)
      returns (improved: bool)
      requires Ready(pos, x) && baseCost == BaseCost(pos, x) && 2 <= l <= len && pos + len <= n && j < NUM_SHORT_CODES
      requires Truthful(st.src, st.base + pos, Match(len, len, backward))
      requires backward <= DictionaryStart(st.src, st.base + pos) && ShortDistance(j, x.cache) == backward
      modifies nodes, `costs
      ensures Cheaper(old(costs), costs)
      ensures Ready(pos, x) && Recorded(old(nodes[..]), nodes[..], pos + l, improved, LastCost(pos, x, j, l, baseCost))
      ensures Within(costs, pos + l, LastCost(pos, x, j, l, baseCost))
    {
      hide Costed, Pushed, AllPriced, Kept;
      hide Truthful, ShortDistance, NodesOk, QueueOk, Recorded, Within;
      var distCost := baseCost + model.distanceCost(j);
      var implicit := model.implicit(pos - x.pos, l, j == 0);
      var cost := (if implicit then baseCost else distCost) + model.copyExtra(l)
        + model.commandCost(pos - x.pos, l, j == 0);
      ShorterTruthful(st.src, st.base + pos, Match(len, len, backward), l);
      LastPrice(pos, x, j, l, Match(l, l, backward));
      improved := TryCost(pos, x, Match(l, l, backward), j + 1, cost);
    }

    /** All lengths of one of the last distances, beyond those tried: each is recorded unless
        its end was reached as cheaply. `result` is the longest one recorded. */
    method TryLengths(pos: nat, x: PosData, j: nat, backward: nat, len: nat, best: nat, baseCost: real)
      returns (best': nat, result: nat)
      requires Ready(pos, x) && baseCost == BaseCost(pos, x) && 1 <= best && pos + len <= n && j < NUM_SHORT_CODES
      requires len > 0 ==> Truthful(st.src, st.base + pos, Match(len, len, backward))
      requires backward <= DictionaryStart(st.src, st.base + pos) && ShortDistance(j, x.cache) == backward
      modifies nodes, `costs
      ensures Cheaper(old(costs), costs)
      ensures Ready(pos, x) && best' == Max(best, len) && Gained(old(nodes[..]), nodes[..], pos, result)
      ensures forall l :: best < l <= len ==> Within(costs, pos + l, LastCost(pos, x, j, l, baseCost))
      ensures result > 0 ==> best < result <= len
    {
      hide Priced;
      hide Costed, Pushed, AllPriced, Kept;
      hide Truthful, ShortDistance, NodesOk, QueueOk, LastCost, Gained, Recorded;
      ghost var ns := nodes[..];
      GainedNone(ns, pos);
      best', result := best, 0;
      var l := best + 1;
      while l <= len
        invariant Ready(pos, x) && Cheaper(old(costs), costs) && best' == l - 1 && best < l <= Max(len, best) + 1
        invariant Gained(ns, nodes[..], pos, result)
        invariant forall k :: best < k < l ==> Within(costs, pos + k, LastCost(pos, x, j, k, baseCost))
        invariant result < l && (result > 0 ==> best < result)
        decreases len - l
      {
        ghost var before, cheap := nodes[..], costs;
        var improved := TryLength(pos, x, j, backward, l, baseCost, len);
        RecordedGains(ns, before, nodes[..], pos, result, l, improved, LastCost(pos, x, j, l, baseCost));
        if improved {
          result := Max(result, l);
        }
        best' := l;
        l := l + 1;
      }
    }

    /** A last distance that names bytes of this input, of which the byte after `best` lies in the
        ring before its end. */
    ghost predicate Comparable(pos: nat, backward: int, best: nat, ringSize: nat)
      requires ringSize > 0 && Shape() && pos <= n
    {
      && 0 < backward <= Min(st.base - offset + pos, st.src.limit)
      && (st.base - offset + pos - backward) % ringSize + best < ringSize
    }

    /** One of the last distances from this start position. `stop` when the ring buffer's end
        is too near; otherwise every longer copy at this distance is recorded unless its end was
        reached as cheaply. */
    method TryLast(pos: nat, x: PosData, j: nat, best: nat, baseCost: real, ringSize: nat)
      returns (stop: bool, best': nat, result: nat)
      requires Ready(pos, x) && baseCost == BaseCost(pos, x) && 1 <= best < n - pos && j < NUM_SHORT_CODES
      requires ringSize > 0
      modifies nodes, `costs
      ensures Cheaper(old(costs), costs)
      ensures Ready(pos, x) && best <= best' <= n - pos && Gained(old(nodes[..]), nodes[..], pos, result)
      ensures stop <==> (st.base - offset + pos) % ringSize + best >= ringSize
      ensures stop || !Comparable(pos, ShortDistance(j, x.cache), best, ringSize) ==>
        best' == best && nodes[..] == old(nodes[..])
      ensures var d := ShortDistance(j, x.cache);
        !stop && Comparable(pos, d, best, ringSize) ==>
          var len := MatchLength(st.src.stream, st.base + pos, d, n - pos);
          best' == Max(best, len)
          && forall l :: best < l <= len ==> Within(costs, pos + l, LastCost(pos, x, j, l, baseCost))
    {
      hide Costed, Pushed, AllPriced, Kept;
      hide Truthful, ShortDistance, MatchLength, Repeats, NodesOk, QueueOk, LastCost, Gained, Recorded, Within;
      GainedNone(nodes[..], pos);
      stop, best', result := false, best, 0;
      var at, cur := st.base + pos, st.base - offset + pos;
      TablesAgree(j, x.cache);
      var backward := x.cache[CACHE_INDEX[j]] + CACHE_OFFSET[j];
      if cur % ringSize + best >= ringSize {
        stop := true;
      } else if backward < 0 || backward > DictionaryStart(st.src, at)
                || backward > Min(cur, st.src.limit) || backward == 0 {
        // a negative sum is a huge size_t; beyond the data of this encoder nothing is touched
      } else {
        MatchLengthRepeats(st.src.stream, at, backward, n - pos);
        if (cur - backward) % ringSize + best < ringSize {
          if st.src.stream[at + best] == st.src.stream[at + best - backward] {
            var len := MatchLength(st.src.stream, at, backward, n - pos);
            RepeatsTruthful(st.src, at, backward, len);
            best', result := TryLengths(pos, x, j, backward, len, best, baseCost);
          } else {
            MatchLengthStops(st.src.stream, at, backward, n - pos, best);
          }
        }
      }
    }

    /** The longest copy known once `j` of the last distances were tried: distances are skipped
        when they are not comparable beyond it, and all of them once it reaches the end of the
        input or of the ring. */
    ghost function Best(pos: nat, x: PosData, minLen: nat, ringSize: nat, j: nat): (best: nat)
      requires Shape() && pos <= n && minLen >= 2 && ringSize > 0 && j <= NUM_SHORT_CODES
      ensures best >= minLen - 1 && (pos + minLen <= n + 1 ==> pos + best <= n)
    {
      if j == 0 then minLen - 1
      else
        var best, d := Best(pos, x, minLen, ringSize, j - 1), ShortDistance(j - 1, x.cache);
        if best >= n - pos || (st.base - offset + pos) % ringSize + best >= ringSize
           || !Comparable(pos, d, best, ringSize) then best
        else Max(best, MatchLength(st.src.stream, st.base + pos, d, n - pos))
    }

    /** Whatever a last distance adds to the lengths is recorded or reached as cheaply. */
    ghost predicate LastTried(cs: seq<real>, pos: nat, x: PosData, minLen: nat, ringSize: nat, baseCost: real, j: nat)
      requires Shape() && x.pos <= pos <= n && minLen >= 2 && ringSize > 0 && j < NUM_SHORT_CODES
    {
      forall l :: Best(pos, x, minLen, ringSize, j) < l <= Best(pos, x, minLen, ringSize, j + 1) ==>
        Within(cs, pos + l, LastCost(pos, x, j, l, baseCost))
    }

    ghost predicate LastTriedTo(cs: seq<real>, pos: nat, x: PosData, minLen: nat, ringSize: nat, baseCost: real,
                                to: nat)
      requires Shape() && x.pos <= pos <= n && minLen >= 2 && ringSize > 0 && to <= NUM_SHORT_CODES
    {
      forall j :: 0 <= j < to ==> LastTried(cs, pos, x, minLen, ringSize, baseCost, j)
    }

    lemma LastTriedKept(a: seq<real>, b: seq<real>, pos: nat, x: PosData, minLen: nat, ringSize: nat,
                        baseCost: real, j: nat)
      requires Shape() && x.pos <= pos <= n && minLen >= 2 && ringSize > 0 && j < NUM_SHORT_CODES
      requires Cheaper(a, b) && LastTried(a, pos, x, minLen, ringSize, baseCost, j)
      ensures LastTried(b, pos, x, minLen, ringSize, baseCost, j)
    {
      hide Best, LastCost;
      forall l | Best(pos, x, minLen, ringSize, j) < l <= Best(pos, x, minLen, ringSize, j + 1)
        ensures Within(b, pos + l, LastCost(pos, x, j, l, baseCost))
      {
        assert Within(a, pos + l, LastCost(pos, x, j, l, baseCost));
      }
    }

    lemma LastKept(a: seq<real>, b: seq<real>, pos: nat, x: PosData, minLen: nat, ringSize: nat, baseCost: real,
                   to: nat)
      requires Shape() && x.pos <= pos <= n && minLen >= 2 && ringSize > 0 && to <= NUM_SHORT_CODES
      requires Cheaper(a, b) && LastTriedTo(a, pos, x, minLen, ringSize, baseCost, to)
      ensures LastTriedTo(b, pos, x, minLen, ringSize, baseCost, to)
    {
      hide LastTried;
      forall j | 0 <= j < to ensures LastTried(b, pos, x, minLen, ringSize, baseCost, j) {
        LastTriedKept(a, b, pos, x, minLen, ringSize, baseCost, j);
      }
    }

    lemma LastMore(cs: seq<real>, pos: nat, x: PosData, minLen: nat, ringSize: nat, baseCost: real, j: nat)
      requires Shape() && x.pos <= pos <= n && minLen >= 2 && ringSize > 0 && j < NUM_SHORT_CODES
      requires LastTriedTo(cs, pos, x, minLen, ringSize, baseCost, j)
      requires var best, d := Best(pos, x, minLen, ringSize, j), ShortDistance(j, x.cache);
        && best < n - pos && (st.base - offset + pos) % ringSize + best < ringSize
        && (Comparable(pos, d, best, ringSize) ==>
             forall l :: best < l <= MatchLength(st.src.stream, st.base + pos, d, n - pos) ==>
              Within(cs, pos + l, LastCost(pos, x, j, l, baseCost)))
      ensures LastTriedTo(cs, pos, x, minLen, ringSize, baseCost, j + 1)
    {
      hide LastCost, Within, MatchLength, ShortDistance;
    }

    /** Every length from the shortest to the longest was tried at the first distance that
        repeats so far, and is a true copy there. */
    lemma {:induction false} LastCovers(pos: nat, x: PosData, minLen: nat, ringSize: nat, j: nat, l: nat)
      returns (i: nat)
      requires Shape() && pos <= n && minLen >= 2 && ringSize > 0 && j <= NUM_SHORT_CODES
      requires minLen <= l <= Best(pos, x, minLen, ringSize, j)
      ensures i < j && Best(pos, x, minLen, ringSize, i) < l <= Best(pos, x, minLen, ringSize, i + 1)
      ensures Truthful(st.src, st.base + pos, Match(l, l, ShortDistance(i, x.cache)))
    {
      hide Truthful, ShortDistance, MatchLength, Comparable;
      if l <= Best(pos, x, minLen, ringSize, j - 1) {
        i := LastCovers(pos, x, minLen, ringSize, j - 1, l);
      } else {
        i := j - 1;
        ComparableTrue(pos, ShortDistance(i, x.cache), Best(pos, x, minLen, ringSize, i), ringSize, l);
      }
    }

    lemma ComparableTrue(pos: nat, d: int, best: nat, ringSize: nat, l: nat)
      requires Shape() && pos <= n && ringSize > 0 && Comparable(pos, d, best, ringSize)
      requires 0 < l <= MatchLength(st.src.stream, st.base + pos, d, n - pos)
      ensures Truthful(st.src, st.base + pos, Match(l, l, d))
    {
      hide Truthful, MatchLength;
      var len := MatchLength(st.src.stream, st.base + pos, d, n - pos);
      MatchLengthRepeats(st.src.stream, st.base + pos, d, n - pos);
      RepeatsTruthful(st.src, st.base + pos, d, len);
      ShorterTruthful(st.src, st.base + pos, Match(len, len, d), l);
    }

    /** The last-distance copies from this start position: none is left that would be cheaper. */
    method TryLastDistances(pos: nat, x: PosData, minLen: nat, baseCost: real, ringSize: nat) returns (result: nat)
      requires Ready(pos, x) && baseCost == BaseCost(pos, x) && minLen >= 2 && ringSize > 0
      modifies nodes, `costs
      ensures Cheaper(old(costs), costs)
      ensures Ready(pos, x) && Gained(old(nodes[..]), nodes[..], pos, result)
      ensures LastTriedTo(costs, pos, x, minLen, ringSize, baseCost, NUM_SHORT_CODES)
    {
      hide Costed, Pushed, AllPriced, Kept;
      hide NodesOk, QueueOk, Gained, MatchLength, ShortDistance, Within, LastCost, LastTriedTo;
      ghost var ns := nodes[..];
      GainedNone(ns, pos);
      result := 0;
      var best, j := minLen - 1, 0;
      LastNone(costs, pos, x, minLen, ringSize, baseCost);
      while j < NUM_SHORT_CODES && best < n - pos
        invariant Ready(pos, x) && Cheaper(old(costs), costs) && best >= 1 && Gained(ns, nodes[..], pos, result)
        invariant 0 <= j <= NUM_SHORT_CODES && best == Best(pos, x, minLen, ringSize, j)
        invariant LastTriedTo(costs, pos, x, minLen, ringSize, baseCost, j)
      {
        var stop, r;
        ghost var before, cheap := nodes[..], costs;
        stop, best, r := TryLast(pos, x, j, best, baseCost, ringSize);
        GainedChain(ns, before, nodes[..], pos, result, r);
        LastKept(cheap, costs, pos, x, minLen, ringSize, baseCost, j);
        result := Max(result, r);
        if stop {
          break;
        }
        LastMore(costs, pos, x, minLen, ringSize, baseCost, j);
        j := j + 1;
      }
      LastRest(costs, pos, x, minLen, ringSize, baseCost, j);
    }

    lemma LastNone(cs: seq<real>, pos: nat, x: PosData, minLen: nat, ringSize: nat, baseCost: real)
      requires Shape() && x.pos <= pos <= n && minLen >= 2 && ringSize > 0
      ensures LastTriedTo(cs, pos, x, minLen, ringSize, baseCost, 0)
    {
    }

    /** Once the end of the input or of the ring is reached, the longest copy stays. */
    lemma LastRest(cs: seq<real>, pos: nat, x: PosData, minLen: nat, ringSize: nat, baseCost: real, j: nat)
      requires Shape() && x.pos <= pos <= n && minLen >= 2 && ringSize > 0 && j <= NUM_SHORT_CODES
      requires LastTriedTo(cs, pos, x, minLen, ringSize, baseCost, j)
      requires var best := Best(pos, x, minLen, ringSize, j);
        j == NUM_SHORT_CODES || best >= n - pos || (st.base - offset + pos) % ringSize + best >= ringSize
      ensures LastTriedTo(cs, pos, x, minLen, ringSize, baseCost, NUM_SHORT_CODES)
    {
      hide ShortDistance, MatchLength, Comparable, LastCost, Within;
      var i := j;
      while i < NUM_SHORT_CODES
        invariant j <= i <= NUM_SHORT_CODES && Best(pos, x, minLen, ringSize, i) == Best(pos, x, minLen, ringSize, j)
        invariant LastTriedTo(cs, pos, x, minLen, ringSize, baseCost, i)
      {
        i := i + 1;
      }
    }

    /** One length of a match. */
    method TryMatchLength(pos: nat, x: PosData, m: Match, len: nat, baseCost: real) returns (improved: bool)
      requires Ready(pos, x) && baseCost == BaseCost(pos, x) && 2 <= len <= m.len && Truthful(st.src, st.base + pos, m)
      requires m.lenCode <= m.len + 9 < m.lenCode + 128
      requires pos + m.len <= n && (m.distance > DictionaryStart(st.src, st.base + pos) ==> len == m.len)
      modifies nodes, `costs
      ensures Cheaper(old(costs), costs)
      ensures Ready(pos, x)
      ensures Recorded(old(nodes[..]), nodes[..], pos + len, improved, MatchCost(pos, x, m, len, baseCost))
      ensures Within(costs, pos + len, MatchCost(pos, x, m, len, baseCost))
    {
      hide Costed, Pushed, AllPriced, Kept;
      hide Truthful, NodesOk, QueueOk, Recorded, Within, Improves;
      var isDictionary := m.distance > DictionaryStart(st.src, st.base + pos);
      var code := m.distance + NUM_SHORT_CODES - 1;
      var distCost := baseCost + model.distanceExtra(code) + model.distanceCost(code);
      var lenCode := if isDictionary then m.lenCode else len;
      var cost := distCost + model.copyExtra(lenCode) + model.commandCost(pos - x.pos, lenCode, false);
      if !isDictionary {
        ShorterTruthful(st.src, st.base + pos, m, len);
      }
      TruthfulCode(st.src, st.base + pos, m, x.cache);
      MatchPrice(pos, x, m, len, Match(len, lenCode, m.distance));
      improved := TryCost(pos, x, Match(len, lenCode, m.distance), 0, cost);
    }

    /** The first length tried of a match: a word, and a copy longer than `maxZopfliLen`, only
        in full. */
    function FirstLength(pos: nat, m: Match, len0: nat, maxZopfliLen: nat): nat {
      if len0 < m.len && (m.distance > DictionaryStart(st.src, st.base + pos) || m.len > maxZopfliLen)
        then m.len else len0
    }

    /** All lengths of one match found at this position: each is recorded unless its end was
        reached as cheaply. */
    method TryMatch(pos: nat, x: PosData, m: Match, len0: nat, baseCost: real, maxZopfliLen: nat)
      returns (len: nat, result: nat)
      requires Ready(pos, x) && baseCost == BaseCost(pos, x) && len0 >= 2 && Truthful(st.src, st.base + pos, m)
      requires m.lenCode <= m.len + 9 < m.lenCode + 128
      modifies nodes, `costs
      ensures Cheaper(old(costs), costs)
      ensures Ready(pos, x) && Gained(old(nodes[..]), nodes[..], pos, result)
      ensures len == Max(FirstLength(pos, m, len0, maxZopfliLen), m.len + 1)
      ensures forall l :: FirstLength(pos, m, len0, maxZopfliLen) <= l <= m.len ==>
        Within(costs, pos + l, MatchCost(pos, x, m, l, baseCost))
    {
      hide Priced;
      hide Costed, Pushed, AllPriced, Kept;
      hide Truthful, NodesOk, QueueOk, MatchCost, Gained, Recorded;
      TruthfulFits(st.src, st.base + pos, m);
      ghost var ns := nodes[..];
      GainedNone(ns, pos);
      len, result := len0, 0;
      var isDictionary := m.distance > DictionaryStart(st.src, st.base + pos);
      if len < m.len && (isDictionary || m.len > maxZopfliLen) {
        len := m.len;
      }
      ghost var first := len;
      while len <= m.len
        invariant Ready(pos, x) && Cheaper(old(costs), costs) && first <= len <= Max(first, m.len + 1)
        invariant (isDictionary ==> len >= m.len)
        invariant result < len
        invariant Gained(ns, nodes[..], pos, result)
        invariant forall l :: first <= l < len && l <= m.len ==>
          Within(costs, pos + l, MatchCost(pos, x, m, l, baseCost))
      {
        ghost var before, cheap := nodes[..], costs;
        var improved := TryMatchLength(pos, x, m, len, baseCost);
        RecordedGains(ns, before, nodes[..], pos, result, len, improved, MatchCost(pos, x, m, len, baseCost));
        if improved {
          result := Max(result, len);
        }
        len := len + 1;
      }
    }

    /** The first length left to try once `i` matches were tried. */
    function Start(pos: nat, matches: seq<Match>, minLen: nat, maxZopfliLen: nat, i: nat): (len: nat)
      requires i <= |matches|
      ensures len >= minLen
    {
      if i == 0 then minLen
      else
        var m := matches[i - 1];
        Max(FirstLength(pos, m, Start(pos, matches, minLen, maxZopfliLen, i - 1), maxZopfliLen), m.len + 1)
    }

    /** Whatever a match adds to the lengths is recorded or reached as cheaply. */
    ghost predicate MatchTried(cs: seq<real>, pos: nat, x: PosData, matches: seq<Match>, minLen: nat, maxZopfliLen: nat,
                               baseCost: real, i: nat)
      requires x.pos <= pos && i < |matches|
    {
      var first := FirstLength(pos, matches[i], Start(pos, matches, minLen, maxZopfliLen, i), maxZopfliLen);
      forall l :: first <= l <= matches[i].len ==> Within(cs, pos + l, MatchCost(pos, x, matches[i], l, baseCost))
    }

    ghost predicate AllMatchesTried(cs: seq<real>, pos: nat, x: PosData, matches: seq<Match>, minLen: nat,
                                    maxZopfliLen: nat,
                                    baseCost: real)
      requires x.pos <= pos
    {
      forall i :: 0 <= i < |matches| ==> MatchTried(cs, pos, x, matches, minLen, maxZopfliLen, baseCost, i)
    }

    lemma MatchTriedKept(a: seq<real>, b: seq<real>, pos: nat, x: PosData, matches: seq<Match>, minLen: nat,
                         maxZopfliLen: nat, baseCost: real, i: nat)
      requires x.pos <= pos && i < |matches| && Cheaper(a, b)
      requires MatchTried(a, pos, x, matches, minLen, maxZopfliLen, baseCost, i)
      ensures MatchTried(b, pos, x, matches, minLen, maxZopfliLen, baseCost, i)
    {
      hide Start, FirstLength, MatchCost;
      var m := matches[i];
      forall l | FirstLength(pos, m, Start(pos, matches, minLen, maxZopfliLen, i), maxZopfliLen) <= l <= m.len
        ensures Within(b, pos + l, MatchCost(pos, x, m, l, baseCost))
      {
        assert Within(a, pos + l, MatchCost(pos, x, m, l, baseCost));
      }
    }

    /** The matches found at this position, from this start position: none is left that would be cheaper. */
    method TryMatches(pos: nat, x: PosData, matches: seq<Match>, minLen: nat, baseCost: real, maxZopfliLen: nat)
      returns (result: nat)
      requires Ready(pos, x) && baseCost == BaseCost(pos, x) && minLen >= 2 && AllHonest(st.src, st.base + pos, matches)
      modifies nodes, `costs
      ensures Cheaper(old(costs), costs)
      ensures Ready(pos, x) && Gained(old(nodes[..]), nodes[..], pos, result)
      ensures AllMatchesTried(costs, pos, x, matches, minLen, maxZopfliLen, baseCost)
    {
      hide Costed, Pushed, AllPriced, Kept;
      hide Truthful, NodesOk, QueueOk, MatchCost, Gained, FirstLength, Within;
      ghost var ns := nodes[..];
      GainedNone(ns, pos);
      result := 0;
      var len := minLen;
      for j := 0 to |matches|
        invariant Ready(pos, x) && Cheaper(old(costs), costs) && len == Start(pos, matches, minLen, maxZopfliLen, j)
        invariant Gained(ns, nodes[..], pos, result)
        invariant forall i :: 0 <= i < j ==> MatchTried(costs, pos, x, matches, minLen, maxZopfliLen, baseCost, i)
      {
        var r;
        ghost var before, cheap := nodes[..], costs;
        len, r := TryMatch(pos, x, matches[j], len, baseCost, maxZopfliLen);
        GainedChain(ns, before, nodes[..], pos, result, r);
        forall i | 0 <= i < j ensures MatchTried(costs, pos, x, matches, minLen, maxZopfliLen, baseCost, i) {
          MatchTriedKept(cheap, costs, pos, x, matches, minLen, maxZopfliLen, baseCost, i);
        }
        result := Max(result, r);
      }
    }

    /** Nothing tried from a queued start position is cheaper than what is recorded. */
    ghost predicate StartTried(cs: seq<real>, pos: nat, view: seq<PosData>, matches: seq<Match>, minLen: nat,
                               maxZopfliLen: nat,
                               ringSize: nat, k: nat)
      requires Shape() && pos <= n && minLen >= 2 && ringSize > 0 && k < |view|
    {
      && view[k].pos <= pos
      && LastTriedTo(cs, pos, view[k], minLen, ringSize, BaseCost(pos, view[k]), NUM_SHORT_CODES)
      && (k < 2 ==> AllMatchesTried(cs, pos, view[k], matches, minLen, maxZopfliLen, BaseCost(pos, view[k])))
    }

    lemma StartTriedKept(a: seq<real>, b: seq<real>, pos: nat, view: seq<PosData>, matches: seq<Match>,
                         minLen: nat,
                         maxZopfliLen: nat, ringSize: nat, k: nat)
      requires Shape() && pos <= n && minLen >= 2 && ringSize > 0 && k < |view| && Cheaper(a, b)
      requires StartTried(a, pos, view, matches, minLen, maxZopfliLen, ringSize, k)
      ensures StartTried(b, pos, view, matches, minLen, maxZopfliLen, ringSize, k)
    {
      hide LastTried, MatchTried, Cheaper;
      var x := view[k];
      LastKept(a, b, pos, x, minLen, ringSize, BaseCost(pos, x), NUM_SHORT_CODES);
      if k < 2 {
        forall i | 0 <= i < |matches|
          ensures MatchTried(b, pos, x, matches, minLen, maxZopfliLen, BaseCost(pos, x), i)
        {
          MatchTriedKept(a, b, pos, x, matches, minLen, maxZopfliLen, BaseCost(pos, x), i);
        }
      }
    }

    /** In terms of what the start and the command cost. */
    lemma LastWithin(cs: seq<real>, pos: nat, view: seq<PosData>, matches: seq<Match>, minLen: nat, maxZopfliLen: nat,
                     ringSize: nat, k: nat, j: nat, l: nat)
      requires Shape() && pos <= n && minLen >= 2 && ringSize > 0 && k < |view| && j < NUM_SHORT_CODES
      requires StartTried(cs, pos, view, matches, minLen, maxZopfliLen, ringSize, k)
      requires view[k].costDiff == view[k].cost - model.Literals(0, view[k].pos)
      requires Best(pos, view[k], minLen, ringSize, j) < l <= Best(pos, view[k], minLen, ringSize, j + 1)
      ensures var x := view[k];
        x.pos <= pos && Within(cs, pos + l, x.cost + CommandCost(model, x.pos, pos - x.pos, Match(l, l, 1), j))
    {
      hide CommandCost, Best, AllMatchesTried, LastCost, BaseCost;
      var x := view[k];
      assert LastTried(cs, pos, x, minLen, ringSize, BaseCost(pos, x), j);
      LastPrice(pos, x, j, l, Match(l, l, 1));
    }

    lemma MatchWithin(cs: seq<real>, pos: nat, view: seq<PosData>, matches: seq<Match>, minLen: nat, maxZopfliLen: nat,
                      ringSize: nat, k: nat, j: nat, l: nat)
      requires Shape() && pos <= n && minLen >= 2 && ringSize > 0 && k < |view| && k < 2 && j < |matches|
      requires StartTried(cs, pos, view, matches, minLen, maxZopfliLen, ringSize, k) && matches[j].distance > 0
      requires view[k].costDiff == view[k].cost - model.Literals(0, view[k].pos)
      requires FirstLength(pos, matches[j], Start(pos, matches, minLen, maxZopfliLen, j), maxZopfliLen) <= l
      requires l <= matches[j].len
      ensures var x := view[k];
        x.pos <= pos && Within(cs, pos + l, x.cost + CommandCost(model, x.pos, pos - x.pos, Copied(pos, matches[j], l),
                                                                 matches[j].distance + NUM_SHORT_CODES - 1))
    {
      hide CommandCost, FirstLength, LastTriedTo, MatchCost, BaseCost;
      var x := view[k];
      assert MatchTried(cs, pos, x, matches, minLen, maxZopfliLen, BaseCost(pos, x), j);
      MatchPrice(pos, x, matches[j], l, Copied(pos, matches[j], l));
    }

    /** A match, or a shorter copy of it; a word has its own coded length. */
    function Copied(pos: nat, m: Match, l: nat): Match {
      Match(l, if m.distance > DictionaryStart(st.src, st.base + pos) then m.lenCode else l, m.distance)
    }

    /** Everything tried from one queued start position. */
    method TryStart(pos: nat, k: nat, matches: seq<Match>, minLen: nat, maxZopfliLen: nat, ringSize: nat)
      returns (result: nat)
      requires Valid() && done == pos + 1 && pos <= n && k < |queue.View()|
      requires minLen >= 2 && ringSize > 0 && AllHonest(st.src, st.base + pos, matches)
      modifies nodes, `costs
      ensures Cheaper(old(costs), costs)
      ensures Valid() && done == old(done) && Gained(old(nodes[..]), nodes[..], pos, result)
      ensures StartTried(costs, pos, queue.View(), matches, minLen, maxZopfliLen, ringSize, k)
    {
      hide Costed, Pushed, Kept;
      hide Truthful, AllHonest, NodesOk, Gained, LastTriedTo, AllMatchesTried;
      ghost var ns := nodes[..];
      var x := queue.At(k);
      assert queue.View()[k] == x;
      var baseCost := x.costDiff + model.insertExtra(pos - x.pos) + model.Literals(0, pos);
      result := TryLastDistances(pos, x, minLen, baseCost, ringSize);
      if k < 2 {
        ghost var before, cheap := nodes[..], costs;
        var r := TryMatches(pos, x, matches, minLen, baseCost, maxZopfliLen);
        LastKept(cheap, costs, pos, x, minLen, ringSize, baseCost, NUM_SHORT_CODES);
        GainedChain(ns, before, nodes[..], pos, result, r);
        result := Max(result, r);
      }
    }

    /** What the cheapest start and the cheapest command would cost at a position. */
    function MinCost(pos: nat, view: seq<PosData>): real
      requires view != []
    {
      view[0].cost + model.minCommand + (model.literals(pos) - model.literals(view[0].pos))
    }

    /** Everything tried from the queued start positions. */
    method TryStarts(pos: nat, matches: seq<Match>, maxIters: nat, minLen: nat, maxZopfliLen: nat, ringSize: nat)
      returns (result: nat)
      requires Valid() && done == pos + 1 && pos <= n
      requires minLen >= 2 && ringSize > 0 && AllHonest(st.src, st.base + pos, matches)
      modifies nodes, `costs
      ensures Cheaper(old(costs), costs)
      ensures Valid() && done == old(done) && Gained(old(nodes[..]), nodes[..], pos, result)
      ensures forall k :: 0 <= k < Min(maxIters, |queue.View()|) ==>
        StartTried(costs, pos, queue.View(), matches, minLen, maxZopfliLen, ringSize, k)
    {
      hide Costed, Pushed, AllPriced, Kept;
      hide Truthful, AllHonest, NodesOk, Gained, StartTried;
      ghost var ns, view := nodes[..], queue.View();
      GainedNone(ns, pos);
      var k := 0;
      result := 0;
      while k < maxIters && k < queue.Size()
        invariant Valid() && done == pos + 1 && Gained(ns, nodes[..], pos, result) && queue.View() == view
        invariant Cheaper(old(costs), costs)
        invariant 0 <= k <= Min(maxIters, |view|)
        invariant forall i :: 0 <= i < k ==>
          StartTried(costs, pos, view, matches, minLen, maxZopfliLen, ringSize, i)
      {
        ghost var before, cheap := nodes[..], costs;
        var r := TryStart(pos, k, matches, minLen, maxZopfliLen, ringSize);
        GainedChain(ns, before, nodes[..], pos, result, r);
        forall i | 0 <= i < k ensures StartTried(costs, pos, view, matches, minLen, maxZopfliLen, ringSize, i) {
          StartTriedKept(cheap, costs, pos, view, matches, minLen, maxZopfliLen, ringSize, i);
        }
        result := Max(result, r);
        k := k + 1;
      }
    }

    /** Everything tried at a position, from the starts that were queued then. */
    ghost predicate AllTried(cs: seq<real>, u: Update, maxIters: nat, maxZopfliLen: nat, ringSize: nat)
      requires Shape() && u.pos <= n && u.minLen >= 2 && ringSize > 0
    {
      var view := Kept(u.pushed);
      forall k :: 0 <= k < Min(maxIters, |view|) ==>
        StartTried(cs, u.pos, view, u.matches, u.minLen, maxZopfliLen, ringSize, k)
    }

    lemma AllTriedKept(a: seq<real>, b: seq<real>, u: Update, maxIters: nat, maxZopfliLen: nat, ringSize: nat)
      requires Shape() && u.pos <= n && u.minLen >= 2 && ringSize > 0 && Cheaper(a, b)
      requires AllTried(a, u, maxIters, maxZopfliLen, ringSize)
      ensures AllTried(b, u, maxIters, maxZopfliLen, ringSize)
    {
      hide StartTried, Cheaper, Kept;
      var view := Kept(u.pushed);
      forall k | 0 <= k < Min(maxIters, |view|)
        ensures StartTried(b, u.pos, view, u.matches, u.minLen, maxZopfliLen, ringSize, k)
      {
        StartTriedKept(a, b, u.pos, view, u.matches, u.minLen, maxZopfliLen, ringSize, k);
      }
    }

    /** Lengths too short to be tried are reached at about the least cost, the first one tried was not. */
    ghost predicate LeastLength(u: Update)
      requires Kept(u.pushed) != []
    {
      && (forall l :: 2 <= l < u.minLen ==>
            Within(u.before, u.pos + l, MinCost(u.pos, Kept(u.pushed)) + Buckets(l, 10, 4) as real))
      && (u.pos + u.minLen <= n ==>
            !Within(u.before, u.pos + u.minLen, MinCost(u.pos, Kept(u.pushed)) + Buckets(u.minLen, 10, 4) as real))
    }

    /** The longest copy that has improved a position. */
    ghost predicate Longest(u: Update)
      requires |u.before| == |u.after| == n + 1
    {
      && (u.result > 0 ==> u.pos + u.result <= n && u.after[u.pos + u.result] < u.before[u.pos + u.result])
      && (forall t :: u.pos + u.result < t <= n ==> u.after[t] == u.before[t])
      && (forall t :: 0 <= t < u.pos + 2 && t <= n ==> u.after[t] == u.before[t])
    }

    /** What `UpdateNodes` has done at a position: its starts are the positions so far that are no
        dearer than literals, as the queue keeps them; whatever it tried is recorded or reached as
        cheaply. */
    ghost predicate Updated(u: Update, maxIters: nat, maxZopfliLen: nat, ringSize: nat)
      requires Shape() && ringSize > 0
    {
      && u.pos <= n && |u.before| == |u.after| == n + 1 && u.minLen >= 2 && Cheaper(u.before, u.after)
      && Pushed(model, u.before, u.pos + 1, u.pushed) && Kept(u.pushed) != []
      && AllTried(u.after, u, maxIters, maxZopfliLen, ringSize) && LeastLength(u) && Longest(u)
    }

    /** `UpdateNodes`: evaluates a position and tries commands that copy from there. In the end
        nothing tried from the queued starts is cheaper than what is recorded, and lengths too
        short to be tried are reached at about the least cost already. */
    method UpdateNodes(pos: nat, matches: seq<Match>, maxIters: nat, maxZopfliLen: nat, ringSize: nat)
      returns (result: nat, ghost u: Update)
      requires Valid() && pos == done <= n && AllHonest(st.src, st.base + pos, matches) && ringSize > 0
      modifies `done, `pushed, `costs, nodes, queue, queue.q
      ensures Valid() && done == pos + 1 && nodes[pos] == old(nodes[pos]).(u := nodes[pos].u)
      ensures Gained(old(nodes[..])[pos := nodes[pos]], nodes[..], pos, result)
      ensures u.pos == pos && u.matches == matches && u.result == result && u.pushed == pushed
      ensures u.before == old(costs) && u.after == costs && Updated(u, maxIters, maxZopfliLen, ringSize)
    {
      hide Truthful, AllHonest, NodesOk, Gained, Insert, Kept, Pushed, Costed, AllPriced, AllTried, LeastLength;
      hide Longest;
      ghost var start := EvaluateNode(pos);
      ghost var ns, before := nodes[..], costs;
      var minLen := LeastToTry(pos);
      StartsBefore(before);
      result := TryStarts(pos, matches, maxIters, minLen, maxZopfliLen, ringSize);
      GainedKeeps(ns, nodes[..], pos, result);
      u := Update(pos, matches, pushed, minLen, before, costs, result);
      MadeUpdate(u, ns, maxIters, maxZopfliLen, ringSize);
    }

    /** The least copy length worth trying at a position. */
    method LeastToTry(pos: nat) returns (minLen: nat)
      requires Valid() && done == pos + 1 && pos <= n
      ensures minLen >= 2 && Kept(pushed) != []
      ensures forall u: Update :: u.pos == pos && u.pushed == pushed && u.minLen == minLen && u.before == costs ==>
        LeastLength(u)
    {
      hide NodesOk, Pushed, Costed, AllPriced, Within, Kept, QueueOk, Buckets;
      var first := queue.At(0);
      assert queue.View()[0] == first;
      var minCost := first.cost + model.minCommand + model.Literals(first.pos, pos);
      minLen := ComputeMinimumCopyLength(minCost, pos);
    }

    lemma MadeUpdate(u: Update, ns: seq<Node>, maxIters: nat, maxZopfliLen: nat, ringSize: nat)
      requires Valid() && done == u.pos + 1 && u.pos <= n && ringSize > 0 && u.minLen >= 2
      requires u.pushed == pushed && u.after == costs && Cheaper(u.before, u.after)
      requires Pushed(model, u.before, u.pos + 1, pushed) && |u.before| == n + 1 && LeastLengthOf(u)
      requires Costed(model, ns, done, u.before) && Gained(ns, nodes[..], u.pos, u.result)
      requires forall k :: 0 <= k < Min(maxIters, |queue.View()|) ==>
        StartTried(costs, u.pos, queue.View(), u.matches, u.minLen, maxZopfliLen, ringSize, k)
      ensures Updated(u, maxIters, maxZopfliLen, ringSize)
    {
      hide NodesOk, QueueOk, Gained, Kept, Pushed, Costed, AllPriced, StartTried, LeastLength;
      GainedCosts(model, ns, u.before, nodes[..], costs, u.pos, u.result);
    }

    ghost predicate LeastLengthOf(u: Update) { Kept(u.pushed) != [] && LeastLength(u) }

    lemma StartsBefore(cs: seq<real>)
      requires Valid() && cs == costs
      ensures Pushed(model, cs, done, pushed) && Kept(pushed) == queue.View() && |cs| == n + 1
      ensures Costed(model, nodes[..], done, cs)
    {
    }

    /** The next position that is updated: the following one, unless a copy is long enough to skip
        some. */
    function NextPos(u: Update, maxZopfliLen: nat): (p: nat)
      ensures p > u.pos
    {
      var skip := if u.result < 16384 then 0 else u.result;
      var longest := if |u.matches| == 1 && u.matches[0].len > maxZopfliLen then Max(u.matches[0].len, skip) else skip;
      u.pos + Max(1, longest)
    }

    /** The positions updated, from the start of the block to its end. */
    ghost predicate History(log: seq<Update>, matchesAt: nat -> seq<Match>, maxIters: nat, maxZopfliLen: nat,
                            ringSize: nat)
      requires Shape() && ringSize > 0
    {
      && (forall i :: 0 <= i < |log| ==>
            Updated(log[i], maxIters, maxZopfliLen, ringSize) && log[i].matches == matchesAt(log[i].pos))
      && (forall i :: 0 < i < |log| ==>
            log[i].pos == NextPos(log[i - 1], maxZopfliLen) && log[i].before == log[i - 1].after)
      && (log != [] ==> log[0].pos == 0 && log[0].before == Unreached(n))
    }

    /** The costs after it. */
    ghost function After(log: seq<Update>): seq<real> {
      if log == [] then Unreached(n) else log[|log| - 1].after
    }

    /** The position after it. */
    function Upto(log: seq<Update>, maxZopfliLen: nat): nat {
      if log == [] then 0 else NextPos(log[|log| - 1], maxZopfliLen)
    }

    lemma HistoryMore(log: seq<Update>, u: Update, matchesAt: nat -> seq<Match>, maxIters: nat, maxZopfliLen: nat,
                      ringSize: nat)
      requires Shape() && ringSize > 0 && History(log, matchesAt, maxIters, maxZopfliLen, ringSize)
      requires Updated(u, maxIters, maxZopfliLen, ringSize) && u.matches == matchesAt(u.pos)
      requires u.pos == Upto(log, maxZopfliLen) && u.before == After(log)
      requires forall i :: 0 <= i < |log| ==> AllTried(u.before, log[i], maxIters, maxZopfliLen, ringSize)
      ensures var l := log + [u];
        && History(l, matchesAt, maxIters, maxZopfliLen, ringSize)
        && (forall i :: 0 <= i < |l| ==> AllTried(u.after, l[i], maxIters, maxZopfliLen, ringSize))
        && After(l) == u.after && Upto(l, maxZopfliLen) == NextPos(u, maxZopfliLen)
    {
      hide AllTried, LeastLength, Longest, Pushed, Kept, NextPos, Cheaper;
      var l := log + [u];
      forall i | 0 <= i < |l| ensures AllTried(u.after, l[i], maxIters, maxZopfliLen, ringSize) {
        if i < |log| { AllTriedKept(u.before, u.after, log[i], maxIters, maxZopfliLen, ringSize); }
      }
    }

    /** `ZopfliIterate` before it traces the path back: every position is updated but those that a
        long copy skips, and in the end nothing that was tried anywhere is cheaper than what is
        recorded where it ends. */
    method Iterate(matchesAt: nat -> seq<Match>, maxIters: nat, maxZopfliLen: nat, ringSize: nat)
      returns (ghost log: seq<Update>)
      requires Valid() && done == 0 && ringSize > 0 && costs == Unreached(n)
      requires forall i: nat :: i <= n ==> AllHonest(st.src, st.base + i, matchesAt(i))
      modifies `done, `pushed, `costs, nodes, queue, queue.q
      ensures Valid() && History(log, matchesAt, maxIters, maxZopfliLen, ringSize)
      ensures costs == After(log) && Upto(log, maxZopfliLen) + 3 >= n
      ensures forall i :: 0 <= i < |log| ==> AllTried(costs, log[i], maxIters, maxZopfliLen, ringSize)
    {
      hide AllHonest, Updated, History, AllTried, Costed, Pushed, Kept, NodesOk, QueueOk, AllPriced;
      log := [];
      NoHistory(matchesAt, maxIters, maxZopfliLen, ringSize);
      var i := 0;
      while i + 3 < n
        invariant Valid() && (i + 3 < n ==> done == i == Upto(log, maxZopfliLen))
        invariant i + 3 >= n ==> Upto(log, maxZopfliLen) + 3 >= n
        invariant History(log, matchesAt, maxIters, maxZopfliLen, ringSize) && costs == After(log)
        invariant forall j :: 0 <= j < |log| ==> log[j].pos <= n && log[j].minLen >= 2
        invariant forall j :: 0 <= j < |log| ==> AllTried(costs, log[j], maxIters, maxZopfliLen, ringSize)
        decreases n - i
      {
        var matches := matchesAt(i);
        ghost var u;
        var skip;
        skip, u := UpdateNodes(i, matches, maxIters, maxZopfliLen, ringSize);
        UpdatedFits(u, maxIters, maxZopfliLen, ringSize);
        HistoryMore(log, u, matchesAt, maxIters, maxZopfliLen, ringSize);
        log := log + [u];
        if skip < LONG_COPY_QUICK_STEP {
          skip := 0;
        }
        if |matches| == 1 && matches[0].len > maxZopfliLen {
          skip := Max(matches[0].len, skip);
        }
        ghost var next := NextPos(u, maxZopfliLen);
        if skip > 1 {
          skip := skip - 1;
          while skip > 0
            invariant Valid() && done == i + 1 && i + 3 < n && i + skip == next - 1 && costs == After(log)
          {
            i := i + 1;
            if i + 3 >= n {
              break;
            }
            ghost var start := EvaluateNode(i);
            skip := skip - 1;
          }
        }
        i := i + 1;
      }
    }

    lemma NoHistory(matchesAt: nat -> seq<Match>, maxIters: nat, maxZopfliLen: nat, ringSize: nat)
      requires Shape() && ringSize > 0
      ensures History([], matchesAt, maxIters, maxZopfliLen, ringSize)
    {
    }

    lemma UpdatedFits(u: Update, maxIters: nat, maxZopfliLen: nat, ringSize: nat)
      requires Shape() && ringSize > 0 && Updated(u, maxIters, maxZopfliLen, ringSize)
      ensures u.pos <= n && u.minLen >= 2
    {
    }

    /** The last position a command has reached. */
    method LastReached() returns (index: nat)
      requires Valid()
      ensures index <= n && Reached(Hops(nodes[..]), index) && forall j :: index < j <= n ==> nodes[j].Unreached()
    {
      hide AllTrue, Frozen, Linked;
      index := n;
      while nodes[index].InsertLength() == 0 && nodes[index].length == 1
        invariant index <= n && forall j :: index < j <= n ==> nodes[j].Unreached()
        decreases index
      {
        assert nodes[index].Unreached() && index > 0;
        index := index - 1;
      }
    }

    /** Links one position to the next on the path. */
    method LinkBack(ghost h: seq<Hop>, ghost end: nat, index: nat, ghost k: nat) returns (previous: nat)
      requires nodes.Length > 0 && h == Hops(nodes[..]) && Linked(h) && Reached(h, end) && 0 < k < |Positions(h, end)|
      requires index == Positions(h, end)[k] && LinkedForward(nodes[..], Positions(h, end), k)
      modifies nodes
      ensures h == Hops(nodes[..]) && LinkedForward(nodes[..], Positions(h, end), k - 1)
      ensures previous == Positions(h, end)[k - 1]
    {
      hide Positions, LinkedForward;
      PositionsLinks(h, end, k);
      assert LinkedAt(h, index);
      var len := nodes[index].CommandLength();
      previous := index - len;
      ghost var ns := nodes[..];
      nodes[previous] := nodes[previous].(u := Next(len));
      assert nodes[..] == ns[previous := ns[previous].(u := Next(len))];
      LinkOne(ns, nodes[..], h, end, k - 1);
    }

    /** `ComputeShortestPathFromNodes`: from the last position reached back to 0, where it
        always arrives; the links on the way replace costs and shortcuts. */
    method ComputeShortestPath() returns (numCommands: nat, ghost end: nat)
      requires Valid()
      modifies nodes
      ensures Traced(st, nodes[..], end) && end <= n && Hops(nodes[..]) == old(Hops(nodes[..]))
      ensures numCommands == |Positions(Hops(nodes[..]), end)| - 1
    {
      hide AllTrue, Frozen, Positions, LinkedForward;
      ghost var h := Hops(nodes[..]);
      var index := LastReached();
      end := index;
      ghost var ps := Positions(h, end);
      ghost var k: nat := |ps| - 1;
      PositionsLinks(h, end, k);
      nodes[index] := nodes[index].(u := Next(END));
      assert Hops(nodes[..]) == h;
      LinkedLast(nodes[..], ps);
      numCommands := 0;
      while index != 0
        invariant k < |ps| && index == ps[k] && numCommands + k == |ps| - 1 && (index == 0 <==> k == 0)
        invariant Hops(nodes[..]) == h && LinkedForward(nodes[..], ps, k)
        decreases k
      {
        index := LinkBack(h, end, index, k);
        k := k - 1;
        PositionsLinks(h, end, k);
        numCommands := numCommands + 1;
      }
      forall j | end < j < |nodes[..]| ensures nodes[..][j].Unreached() {
        assert h[j] == Stub;
      }
    }
  }

  lemma LinkedLast(ns: seq<Node>, ps: seq<nat>)
    requires ps != [] && ps[|ps| - 1] < |ns| && ns[ps[|ps| - 1]].u == Next(END)
    ensures LinkedForward(ns, ps, |ps| - 1)
  {
  }

  /** Linking one position keeps the later links. */
  lemma LinkOne(ns: seq<Node>, ns': seq<Node>, h: seq<Hop>, end: nat, k: nat)
    requires Linked(h) && Reached(h, end) && k + 1 < |Positions(h, end)|
    requires LinkedForward(ns, Positions(h, end), k + 1)
    requires var p := Positions(h, end)[k];
      p < |ns| && Positions(h, end)[k + 1] > p && ns' == ns[p := ns[p].(u := Next(Positions(h, end)[k + 1] - p))]
    ensures LinkedForward(ns', Positions(h, end), k)
  {
    hide Positions;
    var ps := Positions(h, end);
    PositionsLinks(h, end, k);
    forall i | k <= i < |ps| ensures LinkedForwardAt(ns', ps, i) {
      if i > k {
        assert LinkedForwardAt(ns, ps, i);
        PositionsOrder(h, end, k, i);
      }
    }
  }

  lemma {:induction false} PositionsOrder(h: seq<Hop>, end: nat, k: nat, i: nat)
    requires Linked(h) && Reached(h, end) && k < i < |Positions(h, end)|
    ensures Positions(h, end)[k] < Positions(h, end)[i]
    decreases i
  {
    hide Positions;
    PositionsLinks(h, end, i);
    if k < i - 1 { PositionsOrder(h, end, k, i - 1); }
  }

  const LONG_COPY_QUICK_STEP := 16384

  /** The path to `end`, linked forward. */
  ghost predicate LinkedForward(ns: seq<Node>, ps: seq<nat>, from: nat) {
    forall k :: from <= k < |ps| ==> LinkedForwardAt(ns, ps, k)
  }

  ghost predicate LinkedForwardAt(ns: seq<Node>, ps: seq<nat>, k: nat)
    requires k < |ps|
  {
    ps[k] < |ns| && ns[ps[k]].u.Next? && ns[ps[k]].u.next == (if k + 1 < |ps| then ps[k + 1] - ps[k] else END)
  }

  /** The last position a command has reached, and everything the links are about. */
  ghost predicate Traced(st: Setting, ns: seq<Node>, end: nat) {
    && Linked(Hops(ns)) && AllTrue(st, Hops(ns)) && Reached(Hops(ns), end)
    && LinkedForward(ns, Positions(Hops(ns), end), 0)
    && forall j :: end < j < |ns| ==> ns[j].Unreached()
  }

  function LiteralTotal(es: seq<Emitted>): nat {
    if es == [] then 0 else LiteralTotal(es[..|es| - 1]) + es[|es| - 1].insert
  }

  lemma LiteralMore(es: seq<Emitted>, e: Emitted)
    ensures LiteralTotal(es + [e]) == LiteralTotal(es) + e.insert
  {
    assert (es + [e])[..|es|] == es;
  }

  /** One link of the path followed forward: the next position's command. */
  lemma LinkCommand(st: Setting, ns: seq<Node>, end: nat, k: nat, extra: nat)
    requires Traced(st, ns, end) && k + 1 < |Positions(Hops(ns), end)|
    ensures var h, p, q := Hops(ns), Positions(Hops(ns), end)[k], Positions(Hops(ns), end)[k + 1];
      && p < q < |ns| && ns[p].u == Next(q - p) && ns[q].u.Next? && q - p == ns[q].CommandLength()
      && (p == 0 <==> k == 0)
      && Reached(h, p) && Reached(h, q) && ns[q].CopyLength() <= q
      && CopyAt(st, h, q) == st.base + q - ns[q].CopyLength()
      && Commands(h, q, extra)
         == Commands(h, p, extra) + [Emitted(ns[q].InsertLength() + (if k == 0 then extra else 0),
                    ns[q].CopyLength(), ns[q].LengthCode(), ns[q].DistanceCode())]
      && PathCache(st, h, q) == NextCache(st.src, CopyAt(st, h, q), h[q].m, ns[q].DistanceCode(), PathCache(st, h, p))
      && h[q].m.distance == ns[q].distance
  {
    hide AllTrue, Positions;
    var h := Hops(ns);
    var ps := Positions(h, end);
    PositionsLinks(h, end, k);
    PositionsLinks(h, end, k + 1);
    PositionsLinks(h, end, 0);
    if k > 0 { PositionsOrder(h, end, 0, k); }
    assert LinkedForwardAt(ns, ps, k) && LinkedForwardAt(ns, ps, k + 1);
    assert LinkedAt(h, ps[k + 1]);
  }

  /** The path's end has no next link. */
  lemma LinkEnd(st: Setting, ns: seq<Node>, end: nat, k: nat)
    requires Traced(st, ns, end) && k < |Positions(Hops(ns), end)| && |ns| <= LENGTH_LIMIT
    ensures var p := Positions(Hops(ns), end)[k];
      p < |ns| && ns[p].u.Next? && (ns[p].u.next == END <==> k == |Positions(Hops(ns), end)| - 1)
  {
    hide AllTrue, Positions;
    var ps := Positions(Hops(ns), end);
    assert LinkedForwardAt(ns, ps, k);
    if k + 1 < |ps| {
      assert LinkedForwardAt(ns, ps, k + 1);
      PositionsOrder(Hops(ns), end, k, k + 1);
    }
  }

  /** What has been emitted when the links have been followed to the k-th position. */
  ghost predicate Following(st: Setting, ns: seq<Node>, end: nat, extra: nat, k: nat, pos: nat, commands: seq<Emitted>,
                            cache: Cache)
  {
    && Traced(st, ns, end) && k < |Positions(Hops(ns), end)| && pos == Positions(Hops(ns), end)[k] && pos < |ns|
    && Reached(Hops(ns), pos) && commands == Commands(Hops(ns), pos, extra) && cache == PathCache(st, Hops(ns), pos)
  }

  lemma FollowingNext(st: Setting, ns: seq<Node>, end: nat, extra: nat, k: nat, pos: nat, commands: seq<Emitted>,
                      cache: Cache, offset: nat)
    requires Following(st, ns, end, extra, k, pos, commands, cache) && |ns| <= LENGTH_LIMIT
    requires ns[pos].u == Next(offset) && offset != END
    ensures 0 < offset < |ns| - pos && ns[pos + offset].u.Next? && offset == ns[pos + offset].CommandLength()
    ensures var next := ns[pos + offset];
      var e := Emitted(next.InsertLength() + (if k == 0 then extra else 0), next.CopyLength(), next.LengthCode(),
                       next.DistanceCode());
      Following(st, ns, end, extra, k + 1, pos + offset, commands + [e],
                Followed(st, next, st.base + pos + next.InsertLength(), cache))
  {
    LinkEnd(st, ns, end, k);
    LinkCommand(st, ns, end, k, extra);
    hide Traced, Positions, Commands, PathCache, Linked;
    var q := Positions(Hops(ns), end)[k + 1];
    assert q == pos + offset;
  }

  /** The cache after a node's command. */
  function Followed(st: Setting, next: Node, at: nat, cache: Cache): Cache {
    if next.distance > DictionaryStart(st.src, at) || next.DistanceCode() == 0 then cache
    else [next.distance, cache[0], cache[1], cache[2]]
  }

  /** `BrotliZopfliCreateCommands`: the commands of the path, with the literals left from
      before in the first one and the literals after the path left over. */
  method CreateCommands(st: Setting, nodes: array<Node>, numBytes: nat, lastInsert: nat, ghost end: nat)
    returns (commands: seq<Emitted>, cache: Cache, lastInsert': nat, numLiterals: nat)
    requires nodes.Length == numBytes + 1 <= LENGTH_LIMIT && Traced(st, nodes[..], end)
    ensures Reached(Hops(nodes[..]), end) && end <= numBytes
    ensures commands == Commands(Hops(nodes[..]), end, lastInsert) && cache == PathCache(st, Hops(nodes[..]), end)
    ensures lastInsert' == numBytes - end + if commands == [] then lastInsert else 0
    ensures numLiterals == LiteralTotal(commands)
  {
    ghost var ns := nodes[..];
    FollowingStart(st, ns, end, lastInsert);
    commands, cache, lastInsert', numLiterals := [], st.cache, lastInsert, 0;
    assert LiteralTotal(commands) == 0;
    var pos: nat, i := 0, 0;
    hide Hops, Traced, Positions, Commands, PathCache, Linked, Following, Followed, LiteralTotal, Node.CopyLength;
    hide Node.InsertLength, Node.LengthCode, Node.DistanceCode;
    var offset := nodes[0].u.next;
    while offset != END
      invariant Following(st, ns, end, lastInsert, i, pos, commands, cache)
      invariant pos < |ns| && ns[pos].u == Next(offset)
      invariant |commands| == i && lastInsert' == (if i == 0 then lastInsert else 0)
      invariant numLiterals == LiteralTotal(commands)
      decreases |ns| - pos
    {
      var e;
      e, pos, offset, cache := FollowLink(st, nodes, end, lastInsert, i, pos, offset, commands, cache);
      if i == 0 {
        lastInsert' := 0;
      }
      LiteralMore(commands, e);
      commands := commands + [e];
      numLiterals := numLiterals + e.insert;
      i := i + 1;
    }
    FollowingEnd(st, ns, end, lastInsert, i, pos, commands, cache);
    lastInsert' := lastInsert' + (numBytes - pos);
  }

  /** One node's command, after `pending` literals, and the cache after it. */
  method Emit(st: Setting, next: Node, pos: nat, pending: nat, cache: Cache)
    returns (e: Emitted, pos': nat, cache': Cache)
    ensures e == Emitted(next.InsertLength() + pending, next.CopyLength(), next.LengthCode(), next.DistanceCode())
    ensures pos' == pos + next.CommandLength()
    ensures cache' == Followed(st, next, st.base + pos + next.InsertLength(), cache)
  {
    var copyLength, insertLength := next.CopyLength(), next.InsertLength();
    pos' := pos + insertLength;
    insertLength := insertLength + pending;
    e := Emitted(insertLength, copyLength, next.LengthCode(), next.DistanceCode());
    cache' := cache;
    var isDictionary := next.distance > DictionaryStart(st.src, st.base + pos');
    if !isDictionary && next.DistanceCode() > 0 {
      cache' := [next.distance, cache[0], cache[1], cache[2]];
    }
    pos' := pos' + copyLength;
  }

  /** Follows one link. */
  method FollowLink(st: Setting, nodes: array<Node>, ghost end: nat, lastInsert: nat, i: nat, pos: nat, offset: nat,
                    ghost commands: seq<Emitted>, cache: Cache)
    returns (e: Emitted, pos': nat, offset': nat, cache': Cache)
    requires Following(st, nodes[..], end, lastInsert, i, pos, commands, cache) && nodes.Length <= LENGTH_LIMIT
    requires pos < nodes.Length
    requires nodes[pos].u == Next(offset) && offset != END
    ensures Following(st, nodes[..], end, lastInsert, i + 1, pos', commands + [e], cache')
    ensures pos < pos' < nodes.Length && nodes[pos'].u == Next(offset')
  {
    FollowingNext(st, nodes[..], end, lastInsert, i, pos, commands, cache, offset);
    hide Following, Followed;
    var next := nodes[pos + offset];
    offset' := next.u.next;
    e, pos', cache' := Emit(st, next, pos, if i == 0 then lastInsert else 0, cache);
  }

  lemma FollowingEnd(st: Setting, ns: seq<Node>, end: nat, extra: nat, k: nat, pos: nat, commands: seq<Emitted>,
                     cache: Cache)
    requires Following(st, ns, end, extra, k, pos, commands, cache) && |ns| <= LENGTH_LIMIT && ns[pos].u == Next(END)
    ensures pos == end && end < |ns| && Reached(Hops(ns), end)
    ensures commands == Commands(Hops(ns), end, extra) && cache == PathCache(st, Hops(ns), end)
  {
    LinkEnd(st, ns, end, k);
  }

  lemma FollowingStart(st: Setting, ns: seq<Node>, end: nat, extra: nat)
    requires Traced(st, ns, end) && |ns| <= LENGTH_LIMIT
    ensures Following(st, ns, end, extra, 0, 0, [], st.cache) && ns[0].u.Next?
  {
    LinkEnd(st, ns, end, 0);
  }

  /** The matches reported for a position are true, and their coded lengths fit the node. */
  ghost predicate AllHonest(src: Source, at: nat, matches: seq<Match>) {
    forall j :: 0 <= j < |matches| ==>
      Truthful(src, at, matches[j]) && matches[j].lenCode <= matches[j].len + 9 < matches[j].lenCode + 128
  }

  lemma TruthfulCode(src: Source, at: nat, m: Match, c: Cache)
    requires Truthful(src, at, m)
    ensures m.distance > 0 && CodeFor(src, at, m, m.distance + NUM_SHORT_CODES - 1, c)
  {
  }

  lemma RepeatsTruthful(src: Source, at: nat, distance: nat, len: nat)
    requires 0 < distance <= DictionaryStart(src, at) && src.limit <= MAX_ALLOWED_DISTANCE
    requires at + len <= |src.stream| && Repeats(src.stream, at, distance, len)
    ensures len > 0 ==> Truthful(src, at, Match(len, len, distance))
  {
  }

  lemma StartsKept(st: Setting, ns: seq<Node>, done: nat, ns': seq<Node>, done': nat, view: seq<PosData>)
    requires Linked(Hops(ns)) && Linked(Hops(ns')) && QueueOk(st, ns, done, view)
    requires forall x :: StartOk(st, ns, done, x) ==> StartOk(st, ns', done', x)
    ensures QueueOk(st, ns', done', view)
  {
    hide StartOk, Linked;
  }

  lemma PushKept(st: Setting, ns: seq<Node>, done: nat, view: seq<PosData>, x: PosData)
    requires Linked(Hops(ns)) && QueueOk(st, ns, done, view) && StartOk(st, ns, done, x)
    requires Sorted(Insert(x, Room(view)))
    ensures QueueOk(st, ns, done, Insert(x, Room(view)))
  {
    hide StartOk, Insert, Linked;
    forall k | 0 <= k < |Insert(x, Room(view))| ensures StartOk(st, ns, done, Insert(x, Room(view))[k]) {
      InsertFrom(x, Room(view), k);
    }
  }

  /** A shortcut names a position whose command pushes its distance, or the start. */
  ghost predicate ShortcutOf(st: Setting, ns: seq<Node>, done: nat, p: nat) {
    NodesOk(st, ns, done) && p < done && Reached(Hops(ns), p) && (p > 0 ==> Pushes(st, Hops(ns), p))
  }

  lemma ShortcutHere(st: Setting, ns: seq<Node>, done: nat, pos: nat)
    requires NodesOk(st, ns, done) && pos < done && Reached(Hops(ns), pos)
    ensures ns[pos].u.Shortcut? && ShortcutOf(st, ns, done, ns[pos].u.shortcut)
    ensures Recent(st, Hops(ns), pos) == Recent(st, Hops(ns), ns[pos].u.shortcut)
  {
    hide Truthful, CodeFor, PathCache, AllTrue, Frozen;
    assert UnionAt(st, ns, done, pos);
    RecentShortcut(st, Hops(ns), pos);
  }

  /** The shortcut of the position where such a command starts is the next one. */
  lemma ShortcutNext(st: Setting, ns: seq<Node>, done: nat, p: nat)
    requires ShortcutOf(st, ns, done, p) && p > 0
    ensures var q := p - ns[p].CopyLength() - ns[p].InsertLength();
      && 0 <= q < p && ns[q].u.Shortcut? && ns[q].u.shortcut < p && ShortcutOf(st, ns, done, ns[q].u.shortcut)
      && Recent(st, Hops(ns), p) == [ns[p].distance] + Recent(st, Hops(ns), ns[q].u.shortcut)
  {
    hide Truthful, CodeFor, PathCache, AllTrue, Frozen;
    assert LinkedAt(Hops(ns), p);
    var q := p - ns[p].CopyLength() - ns[p].InsertLength();
    assert UnionAt(st, ns, done, q);
    ShortcutHere(st, ns, done, q);
  }

  lemma NoneRecent(st: Setting, h: seq<Hop>)
    requires Linked(h)
    ensures Recent(st, h, 0) == []
  {
  }

  lemma AppendOne(a: seq<int>, x: int, b: seq<int>)
    ensures a + ([x] + b) == a + [x] + b
  {
  }

  lemma FirstFour(recent: seq<int>, rest: seq<int>, cache: Cache)
    requires |recent| <= 4 && (|recent| < 4 ==> rest == [])
    ensures (recent + rest + cache)[..4] == recent + cache[..4 - |recent|]
  {
  }

  lemma FreshNodes(st: Setting, ns: seq<Node>)
    requires |ns| > 0 && ns[0] == Node(0, 0, 0, Cost(0.0))
    requires forall i :: 0 < i < |ns| ==> ns[i] == Node(1, 0, 0, Cost(INFINITY))
    ensures NodesOk(st, ns, 0)
  {
  }

  /** What the parser has recorded when it is done: the end of the path is the last position that
      any command recorded has reached, the path's commands cost what is recorded there, and nothing
      that was tried anywhere is cheaper than what is recorded where it ends. */
  ghost predicate Settled(parser: Parser, h: seq<Hop>, end: nat, costs: seq<real>, log: seq<Update>,
                           matchesAt: nat -> seq<Match>, maxIters: nat, maxZopfliLen: nat, ringSize: nat)
    requires parser.Shape() && ringSize > 0 && Linked(h) && Reached(h, end)
  {
    && end <= parser.n && |h| == |costs| == parser.n + 1
    && costs[end] == PathCost(parser.model, h, end) && (forall t :: end < t <= parser.n ==> costs[t] == INFINITY)
    && parser.History(log, matchesAt, maxIters, maxZopfliLen, ringSize) && costs == parser.After(log)
    && parser.Upto(log, maxZopfliLen) + 3 >= parser.n
    && forall i :: 0 <= i < |log| ==>
         log[i].pos <= parser.n && log[i].minLen >= 2
         && parser.AllTried(costs, log[i], maxIters, maxZopfliLen, ringSize)
  }

  /** What a command tried would cost bounds what is recorded where it ends; if that is finite, the
      path reaches as far, and if it ends there, the path costs no more. */
  ghost predicate Bounds(model: Model, h: seq<Hop>, end: nat, costs: seq<real>, t: nat, cost: real)
    requires Linked(h) && Reached(h, end)
  {
    && Within(costs, t, cost) && (cost < INFINITY ==> t <= end)
    && (t == end ==> PathCost(model, h, end) <= cost)
  }

  /** The costs at the end of the path and behind it. */
  ghost predicate Final(model: Model, h: seq<Hop>, end: nat, costs: seq<real>)
    requires Linked(h) && Reached(h, end)
  {
    && end < |h| == |costs| && costs[end] == PathCost(model, h, end)
    && forall t :: end < t < |costs| ==> costs[t] == INFINITY
  }

  lemma WithinBounds(model: Model, h: seq<Hop>, end: nat, costs: seq<real>, t: nat, cost: real)
    requires Linked(h) && Reached(h, end) && Final(model, h, end, costs) && Within(costs, t, cost)
    ensures Bounds(model, h, end, costs, t, cost)
  {
    hide PathCost, Linked;
  }

  /** The starts of an update, and what was tried from them. */
  lemma StartSettled(parser: Parser, h: seq<Hop>, end: nat, costs: seq<real>, log: seq<Update>,
                     matchesAt: nat -> seq<Match>, maxIters: nat, maxZopfliLen: nat, ringSize: nat, i: nat, k: nat)
    requires parser.Shape() && ringSize > 0 && Linked(h) && Reached(h, end)
    requires Settled(parser, h, end, costs, log, matchesAt, maxIters, maxZopfliLen, ringSize)
    requires i < |log| && k < Min(maxIters, |Kept(log[i].pushed)|)
    ensures Final(parser.model, h, end, costs)
    ensures var u, x := log[i], Kept(log[i].pushed)[k];
      && u.pos <= parser.n && u.minLen >= 2 && Priced(parser.model, u.before, x) && u.matches == matchesAt(u.pos)
      && parser.StartTried(costs, u.pos, Kept(u.pushed), u.matches, u.minLen, maxZopfliLen, ringSize, k)
  {
    hide PathCost, Linked, Kept, Parser.StartTried, Parser.LeastLength, Parser.Longest;
    var u := log[i];
    KeptFrom(u.pushed, k);
    assert parser.Updated(u, maxIters, maxZopfliLen, ringSize);
    var q :| 0 <= q < |u.pushed| && u.pushed[q] == Kept(u.pushed)[k];
  }

  /** A copy of any length that a last distance adds, from any start queued at an updated position. */
  lemma LastBounds(parser: Parser, h: seq<Hop>, end: nat, costs: seq<real>, u: Update, maxZopfliLen: nat, ringSize: nat,
                   k: nat, j: nat, l: nat)
    requires parser.Shape() && ringSize > 0 && Linked(h) && Reached(h, end) && Final(parser.model, h, end, costs)
    requires k < |Kept(u.pushed)| && j < NUM_SHORT_CODES && u.pos <= parser.n && u.minLen >= 2
    requires parser.StartTried(costs, u.pos, Kept(u.pushed), u.matches, u.minLen, maxZopfliLen, ringSize, k)
    requires var x := Kept(u.pushed)[k];
      && Priced(parser.model, u.before, x)
      && parser.Best(u.pos, x, u.minLen, ringSize, j) < l <= parser.Best(u.pos, x, u.minLen, ringSize, j + 1)
    ensures var x := Kept(u.pushed)[k];
      x.pos <= u.pos && Bounds(parser.model, h, end, costs, u.pos + l,
                               x.cost + CommandCost(parser.model, x.pos, u.pos - x.pos, Match(l, l, 1), j))
  {
    hide CommandCost, Kept, PathCost, Parser.Best, Parser.StartTried, Linked, Bounds, Within, Final;
    var x := Kept(u.pushed)[k];
    parser.LastWithin(costs, u.pos, Kept(u.pushed), u.matches, u.minLen, maxZopfliLen, ringSize, k, j, l);
    WithinBounds(parser.model, h, end, costs, u.pos + l,
                 x.cost + CommandCost(parser.model, x.pos, u.pos - x.pos, Match(l, l, 1), j));
  }

  /** Any length that a match adds, from the first two starts. */
  lemma MatchBounds(parser: Parser, h: seq<Hop>, end: nat, costs: seq<real>, u: Update, maxZopfliLen: nat,
                    ringSize: nat,
                    k: nat, j: nat, l: nat)
    requires parser.Shape() && ringSize > 0 && Linked(h) && Reached(h, end) && Final(parser.model, h, end, costs)
    requires k < |Kept(u.pushed)| && k < 2 && u.pos <= parser.n && u.minLen >= 2
    requires j < |u.matches| && u.matches[j].distance > 0
    requires parser.StartTried(costs, u.pos, Kept(u.pushed), u.matches, u.minLen, maxZopfliLen, ringSize, k)
    requires Priced(parser.model, u.before, Kept(u.pushed)[k])
    requires var first := parser.Start(u.pos, u.matches, u.minLen, maxZopfliLen, j);
      parser.FirstLength(u.pos, u.matches[j], first, maxZopfliLen) <= l <= u.matches[j].len
    ensures var x, m := Kept(u.pushed)[k], u.matches[j];
      x.pos <= u.pos && Bounds(parser.model, h, end, costs, u.pos + l,
                               x.cost + CommandCost(parser.model, x.pos, u.pos - x.pos, parser.Copied(u.pos, m, l),
                                                    m.distance + NUM_SHORT_CODES - 1))
  {
    hide CommandCost, Kept, PathCost, Parser.FirstLength, Parser.StartTried, Linked, Bounds, Within, Final;
    var x := Kept(u.pushed)[k];
    parser.MatchWithin(costs, u.pos, Kept(u.pushed), u.matches, u.minLen, maxZopfliLen, ringSize, k, j, l);
    WithinBounds(parser.model, h, end, costs, u.pos + l,
                 x.cost + CommandCost(parser.model, x.pos, u.pos - x.pos, parser.Copied(u.pos, u.matches[j], l),
                                      u.matches[j].distance + NUM_SHORT_CODES - 1));
  }

  lemma CostsEnd(model: Model, ns: seq<Node>, done: nat, costs: seq<real>, end: nat)
    requires Costed(model, ns, done, costs) && end < |ns| && Reached(Hops(ns), end)
    requires forall j :: end < j < |ns| ==> ns[j].Unreached()
    ensures costs[end] == PathCost(model, Hops(ns), end) && forall t :: end < t < |ns| ==> costs[t] == INFINITY
  {
    assert CostedAt(model, Hops(ns), costs, end);
    forall t | end < t < |ns| ensures costs[t] == INFINITY { assert CostedAt(model, Hops(ns), costs, t); }
  }

  /** The whole parser: whatever the costs are, its commands are as many as were counted, tile
      the input with the literals left over, and replay to exactly that input with equal
      caches; they are the commands of the cheapest path that was recorded. */
  method CreateZopfliBackwardReferences(st: Setting, numBytes: nat, offset: nat, lastInsert: nat, model: Model,
                                        matchesAt: nat -> seq<Match>, maxIters: nat, maxZopfliLen: nat, ringSize: nat)
    returns (commands: seq<Emitted>, cache: Cache, lastInsert': nat, numCommands: nat, numLiterals: nat,
             ghost parser: Parser, ghost h: seq<Hop>, ghost end: nat, ghost costs: seq<real>, ghost log: seq<Update>)
    requires st.base + numBytes == |st.src.stream| && offset <= st.base && lastInsert <= st.base
    requires numBytes + 1 < LENGTH_LIMIT
    requires ValidCache(st.cache) && model.Finite() && st.src.limit <= MAX_ALLOWED_DISTANCE && ringSize > 0
    requires forall i: nat :: i <= numBytes ==> AllHonest(st.src, st.base + i, matchesAt(i))
    ensures |commands| == numCommands && numLiterals == LiteralTotal(commands)
    ensures TotalLength(commands) + lastInsert' == lastInsert + numBytes
    ensures ReplaysTo(st.src, st.base - lastInsert, st.cache, commands, cache)
    ensures parser.Shape() && parser.st == st && parser.n == numBytes && parser.offset == offset
    ensures parser.model == model
    ensures Linked(h) && Reached(h, end) && commands == Commands(h, end, lastInsert)
    ensures Settled(parser, h, end, costs, log, matchesAt, maxIters, maxZopfliLen, ringSize)
  {
    var p := new Parser(st, numBytes, offset, model);
    parser := p;
    log := p.Iterate(matchesAt, maxIters, maxZopfliLen, ringSize);
    costs, h := p.costs, Hops(p.nodes[..]);
    ghost var ns, done := p.nodes[..], p.done;
    numCommands, end := p.ComputeShortestPath();
    commands, cache, lastInsert', numLiterals := CreateCommands(st, p.nodes, numBytes, lastInsert, end);
    PathReplays(st, h, end, lastInsert);
    CommandsCount(h, end, lastInsert);
    assert forall j :: end < j <= numBytes ==> h[j] == Stub;
    CostsEnd(model, ns, done, costs, end);
  }
}
