/** What the paths of the Zopfli parser cost: the cost recorded at a position is the sum of the
    costs of the commands on its path. */
module ZopfliCost {
  import opened Arith
  import opened Distances
  import opened EncoderReplay
  import opened ZopfliPath
  import opened ZopfliNodes
  import opened StartPosQueue

  /** Costs are values the parser compares; nothing is assumed of them but that literals have
      a finite cost. */
  datatype Model = Model(
    literals: nat -> real, insertExtra: nat -> real, copyExtra: nat -> real, distanceCost: nat -> real,
    distanceExtra: nat -> real, commandCost: (nat, nat, bool) -> real, implicit: (nat, nat, bool) -> bool,
    minCommand: real)
  {
    function Literals(from: nat, to: nat): real { literals(to) - literals(from) }

    ghost predicate Finite() {
      forall p: nat :: Literals(0, p) < INFINITY
    }
  }

  /** A command with its literals from `from` on. One of the last distances has no extra bits, and
      no cost at all if the command implies it; the coded length of a word is not its own. */
  function CommandCost(model: Model, from: nat, insert: nat, m: Match, code: nat): real {
    model.Literals(from, from + insert) + model.insertExtra(insert)
    + if code < NUM_SHORT_CODES then
        (if model.implicit(insert, m.len, code == 0) then 0.0 else model.distanceCost(code))
        + model.copyExtra(m.len) + model.commandCost(insert, m.len, code == 0)
      else
        model.distanceExtra(code) + model.distanceCost(code)
        + model.copyExtra(m.lenCode) + model.commandCost(insert, m.lenCode, false)
  }

  /** All commands of the path to `j`. */
  function PathCost(model: Model, h: seq<Hop>, j: nat): real
    requires Linked(h) && Reached(h, j)
  {
    if j == 0 then 0.0
    else PathCost(model, h, Start(h, j)) + CommandCost(model, Start(h, j), h[j].insert, h[j].m, h[j].code)
  }

  lemma {:induction false} CostFrame(model: Model, h: seq<Hop>, h': seq<Hop>, j: nat)
    requires Linked(h) && Linked(h') && Reached(h, j) && |h'| == |h| && forall i :: 0 < i <= j ==> h'[i] == h[i]
    ensures Reached(h', j) && PathCost(model, h', j) == PathCost(model, h, j)
  {
    if j > 0 { CostFrame(model, h, h', Start(h, j)); }
  }

  ghost predicate CostedAt(model: Model, h: seq<Hop>, costs: seq<real>, j: nat)
    requires Linked(h) && j < |h| == |costs|
  {
    costs[j] == if Reached(h, j) then PathCost(model, h, j) else INFINITY
  }

  /** The costs of all positions: evaluated ones keep theirs, the others have it in their node. */
  ghost predicate Costed(model: Model, ns: seq<Node>, done: nat, costs: seq<real>) {
    && Linked(Hops(ns)) && |costs| == |ns|
    && (forall j :: done <= j < |ns| ==> ns[j].u == Cost(costs[j]))
    && forall j :: 0 <= j < |ns| ==> CostedAt(model, Hops(ns), costs, j)
  }

  /** No cost has gone up. */
  ghost predicate Cheaper(a: seq<real>, b: seq<real>) {
    |a| == |b| && forall t :: 0 <= t < |a| ==> b[t] <= a[t]
  }

  /** A position is reached already, at no more than this cost. */
  ghost predicate Within(costs: seq<real>, t: nat, cost: real) {
    t < |costs| && costs[t] <= cost
  }

  /** Storing a command at a position that is not evaluated yet. */
  lemma CostUpdate(st: Setting, model: Model, ns: seq<Node>, done: nat, costs: seq<real>, t: nat, node: Node)
    requires NodesOk(st, ns, done) && Costed(model, ns, done, costs) && 0 < done <= t < |ns| && node.u.Cost?
    requires var hop := node.ToHop(); hop.Hop? && hop.m.len >= 2 && hop.insert + hop.m.len <= t
    requires var hop := node.ToHop(); var p := t - hop.insert - hop.m.len;
      && p < done && Reached(Hops(ns), p) && Linked(Hops(ns[t := node]))
      && node.u.cost == costs[p] + CommandCost(model, p, hop.insert, hop.m, hop.code)
    ensures Costed(model, ns[t := node], done, costs[t := node.u.cost])
  {
    hide CommandCost, Truthful, AllTrue;
    var h, h', hop := Hops(ns), Hops(ns[t := node]), node.ToHop();
    var costs' := costs[t := node.u.cost];
    assert h' == h[t := hop];
    forall j | 0 <= j < |ns| ensures CostedAt(model, h', costs', j) {
      assert CostedAt(model, h, costs, j);
      if j == t {
        var p := t - hop.insert - hop.m.len;
        CostFrame(model, h, h', p);
        assert CostedAt(model, h, costs, p) && Start(h', t) == p;
      } else if j > 0 && Reached(h, j) {
        assert FrozenAt(h, done, j);
        CostFrame(model, h, h', Start(h, j));
      }
    }
  }

  /** Evaluating a position keeps all costs. */
  lemma CostEvaluate(model: Model, ns: seq<Node>, done: nat, costs: seq<real>, u: Union)
    requires Costed(model, ns, done, costs) && done < |ns|
    requires Linked(Hops(ns[done := ns[done].(u := u)]))
    ensures Costed(model, ns[done := ns[done].(u := u)], done + 1, costs)
  {
    assert Hops(ns[done := ns[done].(u := u)]) == Hops(ns);
    forall j | 0 <= j < |ns| ensures CostedAt(model, Hops(ns), costs, j) {
    }
  }

  lemma FreshCosts(model: Model, ns: seq<Node>, costs: seq<real>)
    requires |ns| == |costs| > 0 && ns[0] == Node(0, 0, 0, Cost(0.0)) && costs[0] == 0.0
    requires forall i :: 0 < i < |ns| ==> ns[i] == Node(1, 0, 0, Cost(INFINITY)) && costs[i] == INFINITY
    ensures Costed(model, ns, 0, costs)
  {
  }

  /** A start carries its own cost, and what it saves over literals. */
  ghost predicate Priced(model: Model, costs: seq<real>, x: PosData) {
    x.pos < |costs| && x.cost == costs[x.pos] && x.costDiff == x.cost - model.Literals(0, x.pos)
  }

  ghost predicate AllPriced(model: Model, costs: seq<real>, xs: seq<PosData>) {
    forall k :: 0 <= k < |xs| ==> Priced(model, costs, xs[k])
  }

  /** The starts pushed so far: every evaluated position that is no dearer than literals, in order. */
  ghost predicate Pushed(model: Model, costs: seq<real>, done: nat, xs: seq<PosData>) {
    && AllPriced(model, costs, xs) && (forall k :: 0 <= k < |xs| ==> xs[k].pos < done)
    && (forall i, k :: 0 <= i < k < |xs| ==> xs[i].pos < xs[k].pos)
    && forall p :: 0 <= p < done && p < |costs| ==> PushedAt(model, costs, xs, p)
  }

  ghost predicate PushedAt(model: Model, costs: seq<real>, xs: seq<PosData>, p: nat)
    requires p < |costs|
  {
    costs[p] <= model.Literals(0, p) <==> exists k :: 0 <= k < |xs| && xs[k].pos == p
  }

  lemma PushedMore(model: Model, costs: seq<real>, done: nat, xs: seq<PosData>, x: PosData)
    requires Pushed(model, costs, done, xs) && x.pos == done < |costs| && Priced(model, costs, x) && x.costDiff <= 0.0
    ensures Pushed(model, costs, done + 1, xs + [x])
  {
    var ys := xs + [x];
    forall p | 0 <= p < done + 1 ensures PushedAt(model, costs, ys, p) {
      if p < done {
        assert PushedAt(model, costs, xs, p);
        if k :| 0 <= k < |xs| && xs[k].pos == p { assert ys[k].pos == p; }
      } else {
        assert ys[|xs|].pos == p;
      }
    }
  }

  lemma PushedSame(model: Model, costs: seq<real>, done: nat, xs: seq<PosData>)
    requires Pushed(model, costs, done, xs) && done < |costs| && costs[done] > model.Literals(0, done)
    ensures Pushed(model, costs, done + 1, xs)
  {
    forall p | 0 <= p < done + 1 ensures PushedAt(model, costs, xs, p) {
    }
  }

  /** Costs of positions not evaluated yet do not matter to the starts. */
  lemma PushedFrame(model: Model, costs: seq<real>, costs': seq<real>, done: nat, xs: seq<PosData>)
    requires Pushed(model, costs, done, xs) && |costs'| == |costs|
    requires forall p :: 0 <= p < done && p < |costs| ==> costs'[p] == costs[p]
    ensures Pushed(model, costs', done, xs)
  {
    forall p | 0 <= p < done && p < |costs| ensures PushedAt(model, costs', xs, p) {
      assert PushedAt(model, costs, xs, p);
    }
  }

  /** Before anything is recorded, only the start of the block is reached. */
  function Unreached(n: nat): (costs: seq<real>)
    ensures |costs| == n + 1
  {
    [0.0] + seq(n, _ => INFINITY)
  }

  lemma PushPriced(model: Model, costs: seq<real>, view: seq<PosData>, x: PosData)
    requires AllPriced(model, costs, view) && Priced(model, costs, x)
    ensures AllPriced(model, costs, Insert(x, Room(view)))
  {
    hide Priced, Insert;
    forall k | 0 <= k < |Insert(x, Room(view))| ensures Priced(model, costs, Insert(x, Room(view))[k]) {
      InsertFrom(x, Room(view), k);
    }
  }
}
