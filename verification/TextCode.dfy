/** The code that a prefix code's text stands for. */
module TextCode {
  import opened Arith
  import opened PrefixCode
  import opened HuffmanTable
  import opened HuffmanSimple
  import opened CodeLengths
  import opened HuffmanReader

  /** A value put into a sorted sequence. */
  function Put(x: nat, v: seq<nat>): (r: seq<nat>)
    ensures multiset(r) == multiset(v) + multiset{x} && |r| == |v| + 1
  {
    if v == [] then [x]
    else if x <= v[0] then [x] + v
    else
      assert v == [v[0]] + v[1..];
      [v[0]] + Put(x, v[1..])
  }

  function Sorted(v: seq<nat>): (r: seq<nat>)
    ensures multiset(r) == multiset(v) && |r| == |v|
  {
    if v == [] then []
    else
      assert v == [v[0]] + v[1..];
      Put(v[0], Sorted(v[1..]))
  }

  lemma {:induction false} PutSorts(x: nat, v: seq<nat>)
    requires forall i, j :: 0 <= i < j < |v| ==> v[i] <= v[j]
    ensures forall i, j :: 0 <= i < j < |Put(x, v)| ==> Put(x, v)[i] <= Put(x, v)[j]
  {
    if v != [] && x > v[0] {
      PutSorts(x, v[1..]);
      var r := Put(x, v[1..]);
      forall j | 0 <= j < |r| ensures v[0] <= r[j] {
        assert r[j] in multiset(r);
      }
    }
  }

  lemma {:induction false} SortedSorts(v: seq<nat>)
    ensures SortedOf(Sorted(v), v)
  {
    if v != [] {
      SortedSorts(v[1..]);
      PutSorts(v[0], Sorted(v[1..]));
    }
  }

  predicate Ascending(v: seq<nat>) {
    forall i, j :: 0 <= i < j < |v| ==> v[i] <= v[j]
  }

  lemma FirstLeast(v: seq<nat>, x: nat)
    requires Ascending(v) && x in multiset(v)
    ensures v != [] && v[0] <= x
  {
    assert x in v;
  }

  lemma Rest(v: seq<nat>)
    requires Ascending(v) && v != []
    ensures Ascending(v[1..]) && multiset(v[1..]) == multiset(v) - multiset{v[0]}
  {
    assert v == [v[0]] + v[1..];
  }

  lemma SameFirst(a: seq<nat>, b: seq<nat>)
    requires multiset(a) == multiset(b) && Ascending(a) && Ascending(b) && a != [] && b != []
    ensures a[0] == b[0]
  {
    hide Ascending;
    assert a[0] in multiset(a) && b[0] in multiset(b);
    FirstLeast(a, b[0]);
    FirstLeast(b, a[0]);
  }

  /** There is one way to sort. */
  lemma {:induction false} SortedUnique(a: seq<nat>, b: seq<nat>)
    requires multiset(a) == multiset(b) && Ascending(a) && Ascending(b)
    ensures a == b
    decreases |a|
  {
    hide Ascending;
    assert |a| == |multiset(a)| == |b|;
    if a != [] {
      SameFirst(a, b);
      Rest(a);
      Rest(b);
      SortedUnique(a[1..], b[1..]);
    }
  }

  lemma SortsTo(a: seq<nat>, v: seq<nat>)
    requires SortedOf(a, v)
    ensures a == Sorted(v)
  {
    SortedSorts(v);
    SortedUnique(a, Sorted(v));
  }

  /** Sections 3.4 and 3.5 of RFC 7932. */
  ghost function CodeOf(text: Text): Code
    requires text.Valid()
  {
    match text
    case Simple(v, deep) =>
      if |v| == 1 then One(v[0])
      else if |v| == 2 then Many(Counted(2, 0, 0), Grouped(Sorted(v), [], []))
      else if |v| == 3 then Many(Counted(1, 2, 0), Grouped([v[0]], Sorted(v[1..]), []))
      else if !deep then Many(Counted(0, 4, 0), Grouped([], Sorted(v), []))
      else Many(Counted(1, 1, 2), Grouped([v[0]], [v[1]], Sorted(v[2..])))
    case Complex(lens) => Many(Histogram(lens), ByLength(lens))
  }

  /** It is the code of the table that is built. */
  lemma GivesCode(text: Text, code: Code)
    requires text.Valid() && Gives(text, code)
    ensures code == CodeOf(text)
  {
    hide SortedOf, Sorted, Counted, Grouped;
    if text.Simple? {
      var v := text.symbols;
      var w := v + Times(0, 4 - |v|);
      assert w[0] == v[0];
      if |v| == 2 {
        assert w[..2] == v;
        SortsTo(code.symbols[1], v);
      } else if |v| == 3 {
        assert w[1..3] == v[1..];
        SortsTo(code.symbols[2], v[1..]);
      } else if |v| == 4 {
        assert w == v && v[..4] == v && v[2..4] == v[2..];
        if text.deep { SortsTo(code.symbols[3], v[2..]); } else { SortsTo(code.symbols[2], v); }
      }
    }
  }

  lemma CodeOfValid(text: Text)
    requires text.Valid()
    ensures CodeOf(text).Valid()
  {
    hide Histogram, Positions;
    match text
    case Simple(v, deep) =>
      hide Sorted;
      if |v| == 2 {
        SimpleValid(2, 0, 0, Sorted(v), [], []);
      } else if |v| == 3 {
        SimpleValid(1, 2, 0, [v[0]], Sorted(v[1..]), []);
      } else if |v| == 4 && !deep {
        SimpleValid(0, 4, 0, [], Sorted(v), []);
      } else if |v| == 4 {
        SimpleValid(1, 1, 2, [v[0]], [v[1]], Sorted(v[2..]));
      }
    case Complex(lens) =>
      hide SpaceUsed;
      SpaceComplete(lens);
      forall len | 1 <= len <= MAX_LENGTH ensures |ByLength(lens)[len]| == Histogram(lens)[len] {
        CountsMatch(lens, len);
      }
  }

  lemma SpaceComplete(lens: seq<nat>)
    requires (forall i :: 0 <= i < |lens| ==> lens[i] <= MAX_LENGTH) && SpaceUsed(lens) == SPACE
    ensures Complete(Histogram(lens))
  {
  }

  lemma SimpleValid(one: nat, two: nat, three: nat, a: seq<nat>, b: seq<nat>, c: seq<nat>)
    requires 4 * one + 2 * two + three == 8 && |a| == one && |b| == two && |c| == three
    ensures Many(Counted(one, two, three), Grouped(a, b, c)).Valid()
  {
    hide EndCode;
    CountedComplete(one, two, three);
  }

  /** All its symbols are of the alphabet. */
  predicate Within(text: Text, limit: nat) {
    match text
    case Simple(v, _) => forall i :: 0 <= i < |v| ==> v[i] < limit
    case Complex(lens) => |lens| <= limit
  }

  lemma LookupBelow(text: Text, limit: nat, w: nat)
    requires text.Valid() && Within(text, limit)
    ensures CodeOf(text).Valid() && CodeOf(text).Lookup(w).0 < limit
  {
    hide Histogram, Positions, Sorted, SpaceUsed;
    CodeOfValid(text);
    var code := CodeOf(text);
    if code.Many? {
      var (len, k) := Owner(code.counts, w);
      match text {
        case Complex(lens) =>
          PositionsExact(lens, len);
          assert code.symbols[len] == Positions(lens, len);
          var x: nat := Positions(lens, len)[k];
          assert x in Positions(lens, len);
        case Simple(v, deep) =>
          SortedBelow(v, limit);
          SortedBelow(v[1..], limit);
          if |v| == 4 { SortedBelow(v[2..], limit); }
      }
    }
  }

  lemma SortedBelow(v: seq<nat>, limit: nat)
    requires forall i :: 0 <= i < |v| ==> v[i] < limit
    ensures forall i :: 0 <= i < |Sorted(v)| ==> Sorted(v)[i] < limit
  {
    forall i | 0 <= i < |Sorted(v)| ensures Sorted(v)[i] < limit {
      assert Sorted(v)[i] in multiset(v);
      assert Sorted(v)[i] in v;
    }
  }
}
