/** The bounded queue of start positions of the Zopfli parser: eight slots of a ring, kept in
    order of cost difference. */
module StartPosQueue {
  import opened Arith
  import opened Distances

  const SLOTS := 8

  datatype PosData = PosData(pos: nat, cache: Cache, costDiff: real, cost: real)

  predicate Sorted(s: seq<PosData>) {
    forall i, j :: 0 <= i < j < |s| ==> s[i].costDiff <= s[j].costDiff
  }

  /** Puts `x` before the first entry that is not smaller. */
  function Insert(x: PosData, s: seq<PosData>): (r: seq<PosData>)
    ensures |r| == |s| + 1
  {
    if s == [] || x.costDiff <= s[0].costDiff then [x] + s else [s[0]] + Insert(x, s[1..])
  }

  /** A queue without a bound. */
  function All(pushes: seq<PosData>): (r: seq<PosData>)
    ensures |r| == |pushes|
  {
    if pushes == [] then [] else Insert(pushes[|pushes| - 1], All(pushes[..|pushes| - 1]))
  }

  /** The queue's entries: a push drops the last of eight before it inserts. */
  function Kept(pushes: seq<PosData>): (r: seq<PosData>)
    ensures |r| == Min(|pushes|, SLOTS)
  {
    if pushes == [] then []
    else Insert(pushes[|pushes| - 1], Room(Kept(pushes[..|pushes| - 1])))
  }

  function Room(s: seq<PosData>): (r: seq<PosData>)
    ensures |r| == Min(|s|, SLOTS - 1)
  {
    s[..Min(|s|, SLOTS - 1)]
  }

  /** The queue holds what was pushed. */
  lemma {:induction false} KeptFrom(pushes: seq<PosData>, k: nat)
    requires k < |Kept(pushes)|
    ensures Kept(pushes)[k] in pushes
  {
    var n := |pushes| - 1;
    var before := Kept(pushes[..n]);
    InsertFrom(pushes[n], Room(before), k);
    if Kept(pushes)[k] != pushes[n] {
      var i :| 0 <= i < |Room(before)| && Room(before)[i] == Kept(pushes)[k];
      KeptFrom(pushes[..n], i);
    }
  }

  lemma {:induction false} InsertFrom(x: PosData, s: seq<PosData>, k: nat)
    requires k <= |s|
    ensures Insert(x, s)[k] == x || Insert(x, s)[k] in s
  {
    if s != [] && x.costDiff > s[0].costDiff && k > 0 {
      InsertFrom(x, s[1..], k - 1);
    }
  }

  lemma KeptMore(pushes: seq<PosData>, x: PosData)
    ensures Kept(pushes + [x]) == Insert(x, Room(Kept(pushes)))
  {
    assert (pushes + [x])[..|pushes|] == pushes;
  }

  lemma {:induction false} InsertAbove(x: PosData, s: seq<PosData>, low: real)
    requires low <= x.costDiff && forall i :: 0 <= i < |s| ==> low <= s[i].costDiff
    ensures forall i :: 0 <= i < |Insert(x, s)| ==> low <= Insert(x, s)[i].costDiff
  {
    if s != [] && x.costDiff > s[0].costDiff {
      InsertAbove(x, s[1..], low);
    }
  }

  lemma {:induction false} InsertSorted(x: PosData, s: seq<PosData>)
    requires Sorted(s)
    ensures Sorted(Insert(x, s))
  {
    if s != [] && x.costDiff > s[0].costDiff {
      InsertSorted(x, s[1..]);
      InsertAbove(x, s[1..], s[0].costDiff);
    }
  }

  lemma {:induction false} InsertKeeps(x: PosData, s: seq<PosData>)
    ensures multiset(Insert(x, s)) == multiset(s) + multiset{x}
  {
    if s != [] && x.costDiff > s[0].costDiff {
      InsertKeeps(x, s[1..]);
      assert s == [s[0]] + s[1..];
    }
  }

  /** The unbounded queue sorts what was pushed. */
  lemma {:induction false} AllSorts(pushes: seq<PosData>)
    ensures Sorted(All(pushes)) && multiset(All(pushes)) == multiset(pushes)
  {
    if pushes != [] {
      var n := |pushes| - 1;
      AllSorts(pushes[..n]);
      InsertSorted(pushes[n], All(pushes[..n]));
      InsertKeeps(pushes[n], All(pushes[..n]));
      assert pushes == pushes[..n] + [pushes[n]];
    }
  }

  lemma {:induction false} KeptSorted(pushes: seq<PosData>)
    ensures Sorted(Kept(pushes))
  {
    if pushes != [] {
      var n := |pushes| - 1;
      KeptSorted(pushes[..n]);
      InsertSorted(pushes[n], Room(Kept(pushes[..n])));
    }
  }

  /** The first entries after an insertion depend only on the first entries before it. */
  lemma {:induction false} InsertTake(x: PosData, s: seq<PosData>, n: nat)
    requires n <= |s|
    ensures Insert(x, s)[..n] == Insert(x, s[..n])[..n]
  {
    if n > 0 && x.costDiff > s[0].costDiff {
      assert s[..n][1..] == s[1..][..n - 1];
      InsertTake(x, s[1..], n - 1);
      assert Insert(x, s)[..n] == [s[0]] + Insert(x, s[1..])[..n - 1];
      assert Insert(x, s[..n])[..n] == [s[0]] + Insert(x, s[1..][..n - 1])[..n - 1];
    }
  }

  /** The first seven entries are the seven smallest of all that was ever pushed. */
  lemma {:induction false} SevenSmallest(pushes: seq<PosData>)
    ensures Room(Kept(pushes)) == Room(All(pushes))
  {
    if pushes != [] {
      var n := |pushes| - 1;
      var x := pushes[n];
      var kept, all := Kept(pushes[..n]), All(pushes[..n]);
      SevenSmallest(pushes[..n]);
      if n >= 7 {
        InsertTake(x, all, 7);
        assert all[..7] == Room(kept);
        assert Insert(x, all)[..7] == Insert(x, Room(kept))[..7];
      } else {
        assert Room(kept) == kept == all;
      }
    }
  }

  lemma {:induction false} InsertLast(x: PosData, s: seq<PosData>)
    requires Sorted(s) && s != []
    ensures Insert(x, s)[|s|].costDiff == if x.costDiff > s[|s| - 1].costDiff then x.costDiff else s[|s| - 1].costDiff
  {
    if x.costDiff > s[0].costDiff && |s| > 1 {
      InsertLast(x, s[1..]);
    }
  }

  lemma {:induction false} InsertAt(x: PosData, s: seq<PosData>, i: nat)
    requires Sorted(s) && 0 < i < |s|
    ensures Insert(x, s)[i].costDiff ==
      if x.costDiff <= s[i - 1].costDiff then s[i - 1].costDiff
      else if x.costDiff <= s[i].costDiff then x.costDiff else s[i].costDiff
  {
    if x.costDiff > s[0].costDiff && i > 1 {
      InsertAt(x, s[1..], i - 1);
    }
  }

  /** The eighth entry is the eighth smallest unless the newest push exceeds the eighth
      smallest of the earlier ones, which it has evicted. */
  lemma EighthSmallest(pushes: seq<PosData>, x: PosData)
    requires |pushes| >= 8
    ensures Kept(pushes + [x])[7].costDiff == All(pushes + [x])[7].costDiff <==> x.costDiff <= All(pushes)[7].costDiff
  {
    var all := All(pushes);
    assert (pushes + [x])[..|pushes|] == pushes;
    AllSorts(pushes);
    SevenSmallest(pushes);
    assert Room(Kept(pushes)) == all[..7];
    InsertLast(x, all[..7]);
    InsertAt(x, all, 7);
  }

  function Numbered(n: nat): (s: seq<PosData>)
    ensures |s| == n && forall i :: 0 <= i < n ==> s[i] == PosData(i, INITIAL, i as real, 0.0)
  {
    if n == 0 then [] else Numbered(n - 1) + [PosData(n - 1, INITIAL, (n - 1) as real, 0.0)]
  }

  /** Nine pushes in increasing order leave the ninth in the place of the eighth smallest. */
  lemma EighthLost()
    ensures Kept(Numbered(9))[7].costDiff != All(Numbered(9))[7].costDiff
  {
    NumberedAll(8);
    assert Numbered(9) == Numbered(8) + [PosData(8, INITIAL, 8.0, 0.0)];
    EighthSmallest(Numbered(8), PosData(8, INITIAL, 8.0, 0.0));
  }

  lemma {:induction false} NumberedAll(n: nat)
    ensures All(Numbered(n)) == Numbered(n)
  {
    if n > 0 {
      NumberedAll(n - 1);
      assert Numbered(n)[..n - 1] == Numbered(n - 1);
      InsertEnd(PosData(n - 1, INITIAL, (n - 1) as real, 0.0), Numbered(n - 1));
    }
  }

  lemma {:induction false} InsertEnd(x: PosData, s: seq<PosData>)
    requires forall i :: 0 <= i < |s| ==> s[i].costDiff < x.costDiff
    ensures Insert(x, s) == s + [x]
  {
    if s != [] {
      InsertEnd(x, s[1..]);
    }
  }

  /** The ring slot of entry `k` when `idx` entries have been pushed. */
  function Slot(k: nat, idx: nat): (i: nat)
    ensures i < SLOTS
  {
    (k - idx) % SLOTS
  }

  lemma SlotInjective(k: nat, j: nat, idx: nat)
    requires k < SLOTS && j < SLOTS && Slot(k, idx) == Slot(j, idx)
    ensures k == j
  {
  }

  lemma SlotStep(k: nat, idx: nat)
    ensures (Slot(0, idx) + k) % SLOTS == Slot(k, idx) && Slot(k + 1, idx + 1) == Slot(k, idx)
  {
  }

  lemma InsertNone(x: PosData)
    ensures Insert(x, []) == [x]
  {
  }

  lemma InsertSmall(s: seq<PosData>)
    requires s != [] && Sorted(s)
    ensures Insert(s[0], s[1..]) == s
  {
    assert s == [s[0]] + s[1..];
    if |s| > 1 { assert s[0].costDiff <= s[1].costDiff; }
  }

  lemma InsertLarge(x: PosData, s: seq<PosData>)
    requires s != [] && x.costDiff > s[0].costDiff
    ensures Insert(x, s) == [s[0]] + Insert(x, s[1..])
  {
  }

  lemma InsertFront(x: PosData, s: seq<PosData>)
    requires s != [] && x.costDiff <= s[0].costDiff
    ensures Insert(x, s) == [x] + s
  {
  }

  lemma Append(a: seq<PosData>, x: PosData, c: seq<PosData>)
    ensures a + ([x] + c) == (a + [x]) + c
  {
  }

  lemma SwapSlices(v: seq<PosData>, w: seq<PosData>, i: nat)
    requires 0 < i < |v| && w == v[i - 1 := v[i]][i := v[i - 1]]
    ensures w[i] == v[i - 1] && w[i + 1..] == v[i + 1..] && w[..i] == v[..i - 1] + [v[i]]
  {
  }

  /** One comparison of the bubble pass that swaps entries `i - 1` and `i`. */
  lemma BubbleSwap(v: seq<PosData>, w: seq<PosData>, i: nat)
    requires 0 < i < |v| && Sorted(v[i..]) && v[i - 1].costDiff > v[i].costDiff
    requires w == v[i - 1 := v[i]][i := v[i - 1]]
    ensures v[..i - 1] + Insert(v[i - 1], v[i..]) == w[..i] + Insert(w[i], w[i + 1..]) && Sorted(w[i + 1..])
  {
    SwapSlices(v, w, i);
    RestSorted(v, i);
    InsertLarge(v[i - 1], v[i..]);
    Append(v[..i - 1], v[i], Insert(v[i - 1], v[i + 1..]));
  }

  /** One that leaves them. */
  lemma BubbleKeep(v: seq<PosData>, i: nat)
    requires 0 < i < |v| && Sorted(v[i..]) && v[i - 1].costDiff <= v[i].costDiff
    ensures v[..i - 1] + Insert(v[i - 1], v[i..]) == v[..i] + Insert(v[i], v[i + 1..]) && Sorted(v[i + 1..])
  {
    RestSorted(v, i);
    InsertFront(v[i - 1], v[i..]);
    InsertSmall(v[i..]);
    Append(v[..i - 1], v[i - 1], v[i..]);
    assert v[..i] == v[..i - 1] + [v[i - 1]];
  }

  lemma RestSorted(v: seq<PosData>, i: nat)
    requires i < |v| && Sorted(v[i..])
    ensures Sorted(v[i + 1..]) && v[i..][0] == v[i] && v[i..][1..] == v[i + 1..]
  {
    var a, b := v[i..], v[i + 1..];
    assert a[1..] == b;
    assert forall k :: 0 <= k < |b| ==> b[k] == a[1..][k] == a[k + 1];
  }

  class Queue {
    const q: array<PosData>
    var idx: nat

    ghost predicate Valid()
      reads this
    {
      q.Length == SLOTS
    }

    function Size(): (n: nat)
      reads this
    {
      Min(idx, SLOTS)
    }

    /** `StartPosQueueAt`. */
    function At(k: nat): PosData
      requires q.Length == SLOTS
      reads this, q
    {
      q[Slot(k, idx)]
    }

    ghost function View(): (s: seq<PosData>)
      requires Valid()
      reads this, q
      ensures |s| == Size()
    {
      seq(Size(), k requires 0 <= k < Size() reads this, q requires Valid() => At(k))
    }

    constructor ()
      ensures Valid() && View() == [] && fresh(q)
    {
      q := new PosData[8](_ => PosData(0, INITIAL, 0.0, 0.0));
      idx := 0;
    }

    method Swap(k: nat)
      requires Valid() && k + 1 < Size()
      modifies q
      ensures View() == old(View())[k := old(View())[k + 1]][k + 1 := old(View())[k]]
    {
      var a, b := Slot(k, idx), Slot(k + 1, idx);
      q[a], q[b] := q[b], q[a];
      forall j | 0 <= j < Size() && j != k && j != k + 1 ensures At(j) == old(At(j)) {
        if Slot(j, idx) == a { SlotInjective(j, k, idx); }
        if Slot(j, idx) == b { SlotInjective(j, k + 1, idx); }
      }
    }

    /** The new entry overwrites the slot of the last of eight, or a free one. */
    method Place(x: PosData)
      requires Valid()
      modifies this, q
      ensures Valid() && idx == old(idx) + 1 && View() == [x] + Room(old(View()))
    {
      var offset := Slot(0, idx + 1);
      ghost var before := Room(View());
      idx := idx + 1;
      q[offset] := x;
      forall k | 0 < k < Size() ensures At(k) == before[k - 1] {
        SlotStep(k - 1, idx - 1);
        if Slot(k, idx) == offset { SlotInjective(k, 0, idx); }
      }
    }

    /** Compares entries `i - 1` and `i`, in slots `offset` and the next. */
    method Compare(i: nat, offset: nat)
      requires Valid() && 0 < i < Size() && offset == Slot(0, idx) + i - 1 && Sorted(View()[i..])
      modifies q
      ensures Sorted(View()[i + 1..])
      ensures View()[..i] + Insert(View()[i], View()[i + 1..])
        == old(View()[..i - 1] + Insert(View()[i - 1], View()[i..]))
    {
      hide Insert, Sorted, Slot;
      ghost var v := View();
      SlotStep(i - 1, idx);
      SlotStep(i, idx);
      if q[offset % SLOTS].costDiff > q[(offset + 1) % SLOTS].costDiff {
        Swap(i - 1);
        BubbleSwap(v, View(), i);
      } else {
        BubbleKeep(v, i);
      }
    }

    /** `StartPosQueuePush`: the new entry bubbles up to its place. */
    method Push(x: PosData)
      requires Valid() && Sorted(View())
      modifies this, q
      ensures Valid() && idx == old(idx) + 1
      ensures View() == Insert(x, Room(old(View()))) && Sorted(View())
    {
      hide Insert, Slot, At;
      ghost var rest := Room(View());
      Place(x);
      var offset := Slot(0, idx);
      var len := Size();
      assert View()[..0] == [] && View()[1..] == rest;
      for i := 1 to len
        invariant Valid() && idx == old(idx) + 1 && |View()| == len && offset == Slot(0, idx) + i - 1
        invariant Sorted(View()[i..]) && Insert(x, rest) == View()[..i - 1] + Insert(View()[i - 1], View()[i..])
      {
        Compare(i, offset);
        offset := offset + 1;
      }
      InsertNone(View()[len - 1]);
      assert View()[len..] == [] && View() == View()[..len - 1] + [View()[len - 1]];
      InsertSorted(x, rest);
    }
  }

  /** Pushing one after the other gives the entries kept. */
  method PushAll(pushes: seq<PosData>) returns (queue: Queue)
    ensures fresh(queue) && queue.Valid() && queue.View() == Kept(pushes)
  {
    queue := new Queue();
    for i := 0 to |pushes|
      invariant fresh(queue) && fresh(queue.q) && queue.Valid() && queue.View() == Kept(pushes[..i])
    {
      KeptSorted(pushes[..i]);
      assert pushes[..i + 1][..i] == pushes[..i];
      queue.Push(pushes[i]);
    }
    assert pushes[..|pushes|] == pushes;
  }
}
