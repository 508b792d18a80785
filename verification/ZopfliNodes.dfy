/** The Zopfli parser's nodes: packed fields, and a union that is a cost until its position is
    evaluated, a shortcut afterwards, and a link once the path is traced back. */
module ZopfliNodes {
  import opened Arith
  import opened Distances
  import opened EncoderReplay
  import opened ZopfliPath
  import opened StartPosQueue

  const INFINITY := 170000000000000000000000000000000000000.0
  const LENGTH_LIMIT := 0x2000000
  const INSERT_LIMIT := 0x8000000
  const END := 0xFFFFFFFF

  datatype Union = Cost(cost: real) | Shortcut(shortcut: nat) | Next(next: nat)

  datatype Node = Node(length: nat, distance: nat, dcodeInsert: nat, u: Union) {
    function CopyLength(): nat { length % LENGTH_LIMIT }

    /** The coded length, from the modifier in the top bits. */
    function LengthCode(): nat {
      var modifier := length / LENGTH_LIMIT;
      if CopyLength() + 9 >= modifier then CopyLength() + 9 - modifier else 0
    }

    function InsertLength(): nat { dcodeInsert % INSERT_LIMIT }

    function DistanceCode(): nat {
      var short := dcodeInsert / INSERT_LIMIT;
      if short == 0 then distance + NUM_SHORT_CODES - 1 else short - 1
    }

    function CommandLength(): nat { CopyLength() + InsertLength() }

    /** The mark of a node no command has reached. */
    predicate Unreached() { InsertLength() == 0 && length == 1 }

    function ToHop(): Hop {
      if Unreached() then Stub else Hop(InsertLength(), Match(CopyLength(), LengthCode(), distance), DistanceCode())
    }
  }

  /** `UpdateZopfliNode`'s packing. */
  function Pack(insert: nat, m: Match, shortCode: nat, cost: real): Node
    requires m.lenCode <= m.len + 9
  {
    Node(m.len + (m.len + 9 - m.lenCode) * LENGTH_LIMIT, m.distance, insert + shortCode * INSERT_LIMIT, Cost(cost))
  }

  /** What fits the packed fields. */
  predicate Packable(insert: nat, m: Match, shortCode: nat) {
    && 2 <= m.len < LENGTH_LIMIT && m.lenCode <= m.len + 9 < m.lenCode + 128
    && insert < INSERT_LIMIT && shortCode <= NUM_SHORT_CODES
  }

  lemma PackRoundTrip(insert: nat, m: Match, shortCode: nat, cost: real)
    requires Packable(insert, m, shortCode)
    ensures var node := Pack(insert, m, shortCode, cost);
      && node.ToHop() == Hop(insert, m, if shortCode == 0 then m.distance + NUM_SHORT_CODES - 1 else shortCode - 1)
      && node.length < 0x1_0000_0000 && node.dcodeInsert < 0x1_0000_0000 && !node.Unreached()
  {
    var node := Pack(insert, m, shortCode, cost);
    DivModUnique(node.length, LENGTH_LIMIT, m.len + 9 - m.lenCode, m.len);
    DivModUnique(node.dcodeInsert, INSERT_LIMIT, shortCode, insert);
  }

  function Hops(ns: seq<Node>): (h: seq<Hop>)
    ensures |h| == |ns| && forall j :: 0 <= j < |ns| ==> h[j] == ns[j].ToHop()
  {
    seq(|ns|, j requires 0 <= j < |ns| => ns[j].ToHop())
  }

  /** The union of a node: shortcuts at evaluated positions, costs after them, below infinity
      exactly where a command has come. */
  ghost predicate UnionAt(st: Setting, ns: seq<Node>, done: nat, j: nat)
    requires Linked(Hops(ns)) && j < |ns|
  {
    && (ns[j].Unreached() ==> ns[j].distance == 0 && ns[j].dcodeInsert == 0)
    && if j < done then ns[j].u.Shortcut?
       && (Reached(Hops(ns), j) ==> ns[j].u.shortcut == ZopfliPath.Shortcut(st, Hops(ns), j))
    else ns[j].u.Cost? && ns[j].u.cost <= INFINITY && (ns[j].u.cost < INFINITY <==> !ns[j].Unreached())
  }

  /** The ZopfliNode array invariant, and that all recorded commands are true. */
  ghost predicate NodesOk(st: Setting, ns: seq<Node>, done: nat) {
    && Linked(Hops(ns)) && done <= |ns| && !ns[0].Unreached()
    && AllTrue(st, Hops(ns)) && Frozen(Hops(ns), done)
    && forall j :: 0 <= j < |ns| ==> UnionAt(st, ns, done, j)
  }

  /** A start position in the queue carries the cache of its path. */
  ghost predicate StartOk(st: Setting, ns: seq<Node>, done: nat, x: PosData)
    requires Linked(Hops(ns))
  {
    x.pos < done && Reached(Hops(ns), x.pos) && x.cache == PathCache(st, Hops(ns), x.pos)
  }

  ghost predicate QueueOk(st: Setting, ns: seq<Node>, done: nat, view: seq<PosData>)
    requires Linked(Hops(ns))
  {
    Sorted(view) && forall k :: 0 <= k < |view| ==> StartOk(st, ns, done, view[k])
  }

  /** Storing a command at a position that is not evaluated yet. */
  lemma NodeUpdate(st: Setting, ns: seq<Node>, done: nat, t: nat, node: Node)
    requires NodesOk(st, ns, done) && 0 < done <= t < |ns|
    requires node.ToHop().Hop? && node.u.Cost? && node.u.cost < INFINITY
    requires var hop := node.ToHop();
      hop.m.len >= 2 && hop.insert + hop.m.len <= t && t - hop.insert - hop.m.len < done
      && Reached(Hops(ns), t - hop.insert - hop.m.len)
    requires var hop := node.ToHop();
      Truthful(st.src, st.base + t - hop.m.len, hop.m)
      && CodeFor(st.src, st.base + t - hop.m.len, hop.m, hop.code,
                 PathCache(st, Hops(ns), t - hop.insert - hop.m.len))
    ensures NodesOk(st, ns[t := node], done)
    ensures forall x :: StartOk(st, ns, done, x) ==> StartOk(st, ns[t := node], done, x)
  {
    hide Truthful, CodeFor;
    var ns' := ns[t := node];
    assert Hops(ns') == Hops(ns)[t := node.ToHop()];
    HopUpdate(st, Hops(ns), t, node.ToHop(), done);
    forall j | 0 <= j < |ns'| ensures UnionAt(st, ns', done, j) {
      assert UnionAt(st, ns, done, j);
      if j < done && Reached(Hops(ns), j) { ShortcutFrame(st, Hops(ns), Hops(ns'), j); }
    }
    forall x | StartOk(st, ns, done, x) ensures StartOk(st, ns', done, x) {
      PathFrame(st, Hops(ns), Hops(ns'), x.pos, 0);
    }
  }

  /** Evaluating the next position turns its cost into a shortcut. */
  lemma NodeEvaluate(st: Setting, ns: seq<Node>, done: nat, shortcut: nat)
    requires NodesOk(st, ns, done) && done < |ns|
    requires Reached(Hops(ns), done) ==> shortcut == ZopfliPath.Shortcut(st, Hops(ns), done)
    ensures var ns' := ns[done := ns[done].(u := Shortcut(shortcut))];
      && Hops(ns') == Hops(ns) && NodesOk(st, ns', done + 1)
      && forall x :: StartOk(st, ns, done, x) ==> StartOk(st, ns', done + 1, x)
  {
    var ns', h, next := ns[done := ns[done].(u := Shortcut(shortcut))], Hops(ns), done + 1;
    assert Hops(ns') == h;
    forall j | 0 < j < |ns| ensures FrozenAt(h, next, j) {
      assert FrozenAt(h, done, j);
    }
    forall j | 0 <= j < |ns| ensures UnionAt(st, ns', next, j) {
      assert UnionAt(st, ns, done, j);
    }
  }
}
