/** Which keys are still found after resizing: a key is placed along one probe and looked up along
    another. */
module StrResize {
  import opened Arith
  import opened StrProbe
  import opened StrTable

  /** Keys with their hashes, each key once. */
  predicate Entries(es: seq<Slot>) {
    && (forall i :: 0 <= i < |es| ==> es[i].key.Str?)
    && (forall i, j :: 0 <= i < j < |es| ==> es[i].key != es[j].key)
  }

  /** The entry is in a slot that its lookup comes to. */
  ghost predicate KeyFound(t: seq<Slot>, e: Slot)
    requires |t| > 0
  {
    exists s: nat :: s < |t| && t[s] == e && Reached(t, e.hash, s)
  }

  /** The last entry is placed after all others. */
  lemma PlaceLast(es: seq<Slot>, k: nat) returns (s: nat)
    requires k <= 32 && 0 < |es| <= Pow2(k) && forall i :: 0 <= i < |es| ==> es[i].key != Null
    ensures var n := |es| - 1; var t := PlaceAll(es[..n], k);
      Place(t, es[n].hash, s) && PlaceAll(es, k) == t[s := es[n]]
  {
    var n := |es| - 1;
    var t := PlaceAll(es[..n], k);
    PlaceSome(t, k, es[n].hash);
    s :| Place(t, es[n].hash, s) && PlaceAll(es, k) == t[s := es[n]];
  }

  /** Every entry gets a slot, which resizing comes to past slots of earlier entries. */
  lemma {:induction false} PlacedAt(es: seq<Slot>, k: nat, i: nat) returns (s: nat)
    requires k <= 32 && |es| <= Pow2(k) && i < |es| && forall j :: 0 <= j < |es| ==> es[j].key != Null
    ensures var t := PlaceAll(es, k);
      && s < |t| && t[s] == es[i] && |Passes(true, es[i].hash, |t|, s)| <= i
      && forall b :: b in Passes(true, es[i].hash, |t|, s) ==> t[b].key != Null
    decreases |es|
  {
    hide Place, Filled, Passes, PlaceAll;
    var n := |es| - 1;
    var last := PlaceLast(es, k);
    PlaceIs(PlaceAll(es[..n], k), es[n].hash, last);
    if i == n {
      s := last;
      ReachedPasses(PlaceAll(es[..n], k), k, es[n].hash, s);
      FilledCovers(PlaceAll(es[..n], k), Passes(true, es[n].hash, Pow2(k), s));
    } else {
      s := PlacedAt(es[..n], k, i);
    }
  }

  /** The first empty slot on its probe is the slot of the last entry. */
  lemma PlaceNext(es: seq<Slot>, k: nat, s: nat)
    requires k <= 32 && 0 < |es| <= Pow2(k) && forall i :: 0 <= i < |es| ==> es[i].key != Null
    requires var n := |es| - 1; Place(PlaceAll(es[..n], k), es[n].hash, s)
    ensures var n := |es| - 1; PlaceAll(es, k) == PlaceAll(es[..n], k)[s := es[n]]
  {
    hide Place, PlaceAll;
    var last := PlaceLast(es, k);
    PlaceUnique(PlaceAll(es[..|es| - 1], k), es[|es| - 1].hash, last, s);
  }

  lemma PlaceNone(t: seq<Slot>, k: nat)
    requires k <= 32 && |t| == Pow2(k) && forall s :: 0 <= s < |t| ==> t[s] == Slot(Null, 0)
    ensures t == PlaceAll([], k)
  {
  }

  lemma PlaceIs(t: seq<Slot>, hash: nat, s: nat)
    requires |t| > 0 && Place(t, hash, s)
    ensures s < |t| && t[s].key == Null && WideReached(t, hash, s)
  {
  }

  /** Nothing else is in the table. */
  lemma {:induction false} PlacedOnly(es: seq<Slot>, k: nat, s: nat)
    requires k <= 32 && |es| <= Pow2(k) && s < Pow2(k) && forall j :: 0 <= j < |es| ==> es[j].key != Null
    ensures PlaceAll(es, k)[s] in es || PlaceAll(es, k)[s] == Slot(Null, 0)
    decreases |es|
  {
    hide Place, Filled;
    if es != [] {
      var n := |es| - 1;
      var last := PlaceLast(es, k);
      PlacedOnly(es[..n], k, s);
    }
  }

  /** A key is found as long as its two probes start alike. */
  lemma FoundIf(es: seq<Slot>, k: nat, i: nat, c: nat)
    requires k <= 32 && |es| <= Pow2(k) && |es| <= c + 1 && i < |es| && Entries(es) && SameStart(es[i].hash, k, c)
    ensures KeyFound(PlaceAll(es, k), es[i])
  {
    hide Passes, PlaceAll, Reached, WideReached;
    var s := PlacedAt(es, k, i);
    ReachedPasses(PlaceAll(es, k), k, es[i].hash, s);
  }

  /** However many other keys there are, up to `c`, and whatever their hashes are, a key of this
      hash is found after resizing to 2^k slots. */
  ghost predicate AlwaysFound(hash: nat, k: nat, c: nat)
    requires k <= 32 && c < Pow2(k)
  {
    forall es: seq<Slot>, i: nat :: |es| <= c + 1 && Entries(es) && i < |es| && es[i].hash == hash ==>
      KeyFound(PlaceAll(es, k), es[i])
  }

  function Name(j: nat): (s: string)
    ensures |s| == j
  {
    seq(j, _ => 'a')
  }

  /** Keys whose hashes are the slots `bs`. */
  function Blockers(bs: seq<nat>): (es: seq<Slot>)
    ensures |es| == |bs| && forall i :: 0 <= i < |bs| ==> es[i] == Slot(Str(Name(bs[i])), bs[i])
  {
    seq(|bs|, i requires 0 <= i < |bs| => Slot(Str(Name(bs[i])), bs[i]))
  }

  predicate Distinct(bs: seq<nat>) {
    forall i, j :: 0 <= i < j < |bs| ==> bs[i] != bs[j]
  }

  /** They fill exactly those slots. */
  lemma {:induction false} BlockersFill(bs: seq<nat>, k: nat)
    requires k <= 32 && |bs| <= Pow2(k) && Distinct(bs) && forall i :: 0 <= i < |bs| ==> bs[i] < Pow2(k)
    ensures forall s: nat :: s < Pow2(k) ==> (PlaceAll(Blockers(bs), k)[s].key != Null <==> s in bs)
    decreases |bs|
  {
    if bs != [] {
      var n := |bs| - 1;
      BlockersFill(bs[..n], k);
      assert Blockers(bs)[..n] == Blockers(bs[..n]);
      var last := PlaceLast(Blockers(bs), k);
      var t := PlaceAll(Blockers(bs[..n]), k);
      hide Place, PlaceAll, Blockers;
      assert bs[n] !in bs[..n];
      HomePlace(t, bs[n]);
      PlaceUnique(t, bs[n], last, bs[n]);
      assert bs == bs[..n] + [bs[n]];
    }
  }

  /** A hash that is an empty slot goes there. */
  lemma HomePlace(t: seq<Slot>, s: nat)
    requires s < |t| && t[s].key == Null
    ensures Place(t, s, s)
  {
    SmallRemainder(s, |t|);
    assert WideProbe(s, |t|, 0) == s;
    hide WideProbe;
    assert WideReachedBy(t, s, s, 0);
  }

  lemma {:induction false} Listed(p: set<nat>) returns (bs: seq<nat>)
    ensures |bs| == |p| && Distinct(bs) && forall b: nat :: b in p <==> b in bs
  {
    if p == {} {
      bs := [];
    } else {
      var b :| b in p;
      var rest := Listed(p - {b});
      bs := rest + [b];
    }
  }

  /** A key of this hash is found after every resizing if and only if the two probes start alike:
      up to the first `c` slots that resizing passes, lookup comes past no others. */
  lemma FoundExactly(hash: nat, k: nat, c: nat)
    requires k <= 32 && c < Pow2(k)
    ensures AlwaysFound(hash, k, c) <==> SameStart(hash, k, c)
  {
    hide Passes, PlaceAll;
    if SameStart(hash, k, c) {
      forall es: seq<Slot>, i: nat | |es| <= c + 1 && Entries(es) && i < |es| && es[i].hash == hash
        ensures KeyFound(PlaceAll(es, k), es[i])
      {
        FoundIf(es, k, i, c);
      }
    } else {
      var a: nat :| a < Pow2(k) && |Passes(true, hash, Pow2(k), a)| <= c
        && !(Passes(false, hash, Pow2(k), a) <= Passes(true, hash, Pow2(k), a));
      var es := SomeLost(hash, k, c, a);
    }
  }

  lemma SomeLost(hash: nat, k: nat, c: nat, a: nat) returns (es: seq<Slot>)
    requires k <= 32 && c < Pow2(k) && a < Pow2(k) && |Passes(true, hash, Pow2(k), a)| <= c
    requires !(Passes(false, hash, Pow2(k), a) <= Passes(true, hash, Pow2(k), a))
    ensures 0 < |es| <= c + 1 && Entries(es) && es[|es| - 1].hash == hash && !KeyFound(PlaceAll(es, k), es[|es| - 1])
  {
    hide Passes, PlaceAll, Entries, Blockers, KeyFound;
    var p := Passes(true, hash, Pow2(k), a);
    var b :| b in Passes(false, hash, Pow2(k), a) && b !in p;
    var bs := Listed(p);
    forall i | 0 <= i < |bs| ensures bs[i] < Pow2(k) { assert bs[i] in p; }
    es := KeyLost(hash, k, bs, a, b);
  }

  /** Keys on the slots that resizing passes, then the key itself: lookup stops before it. */
  lemma KeyLost(hash: nat, k: nat, bs: seq<nat>, a: nat, b: nat) returns (es: seq<Slot>)
    requires k <= 32 && a < Pow2(k) && |bs| < Pow2(k) && Distinct(bs)
    requires forall s: nat :: s in Passes(true, hash, Pow2(k), a) ==> s in bs
    requires a !in bs && b in Passes(false, hash, Pow2(k), a) && b !in bs
    requires forall i :: 0 <= i < |bs| ==> bs[i] < Pow2(k)
    ensures es == Blockers(bs) + [Slot(Str(Name(Pow2(k))), hash)] && Entries(es) && !KeyFound(PlaceAll(es, k), es[|bs|])
  {
    hide Passes, Place;
    var e := Slot(Str(Name(Pow2(k))), hash);
    es := Blockers(bs) + [e];
    assert es[..|bs|] == Blockers(bs);
    BlockersFill(bs, k);
    var t := PlaceAll(Blockers(bs), k);
    var s := PlaceLast(es, k);
    ReachedPasses(t, k, hash, a);
    assert Place(t, hash, a) by { PlaceHere(t, hash, a); }
    PlaceUnique(t, hash, s, a);
    var t' := t[a := e];
    hide PlaceAll, Blockers, Reached, WideReached;
    ReachedPasses(t', k, hash, a);
    PassesNot(hash, k, a, b);
    forall s: nat | s < |t'| && t'[s] == e ensures s == a {
      if s != a { PlacedOnly(Blockers(bs), k, s); }
    }
  }

  lemma PlaceHere(t: seq<Slot>, hash: nat, s: nat)
    requires s < |t| && t[s].key == Null && WideReached(t, hash, s)
    ensures Place(t, hash, s)
  {
  }

  lemma PassesNot(hash: nat, k: nat, a: nat, b: nat)
    requires b in Passes(false, hash, Pow2(k), a)
    ensures b != a && b < Pow2(k)
  {
  }

  /** Ten keys of a table that grows from 16 to 32 slots, by their hashes, and one whose hash has
      more than 32 bits. */
  const CROWD: seq<nat> := [0, 1, 6, 31, 28, 13, 2, 3, 4, 5]

  function Crowd(): seq<Slot> {
    Blockers(CROWD) + [Slot(Str(Name(32)), UINT32)]
  }

  /** Resizing puts it where its lookup does not find it. */
  lemma LostKey()
    ensures Pow2(5) == 32 && |Crowd()| == 11 && Entries(Crowd()) && !KeyFound(PlaceAll(Crowd(), 5), Crowd()[10])
  {
    Pow2Values();
    LostSteps();
    var n := FirstVisit(true, UINT32, 5, 15);
    assert n <= 7;
    hide PlaceAll, Blockers, Entries, KeyFound, Step;
    forall s: nat | s in Passes(true, UINT32, 32, 15) ensures s in CROWD {
      var m: nat :| m < n && Step(true, UINT32, 32, m) == s;
      assert m == 0 || m == 1 || m == 2 || m == 3 || m == 4 || m == 5 || m == 6;
    }
    assert BeforeBy(false, UINT32, 32, 11, 15, 7) by {
      forall m: nat | m <= 7 ensures Step(false, UINT32, 32, m) != 15 {
        assert m == 0 || m == 1 || m == 2 || m == 3 || m == 4 || m == 5 || m == 6 || m == 7;
      }
    }
    assert Before(false, UINT32, 32, 11, 15);
    var es := KeyLost(UINT32, 5, CROWD, 15, 11);
  }

  /** The first eight slots of the two probes. */
  lemma LostSteps()
    ensures Step(true, UINT32, 32, 0) == 0 && Step(true, UINT32, 32, 1) == 1 && Step(true, UINT32, 32, 2) == 6
    ensures Step(true, UINT32, 32, 3) == 31 && Step(true, UINT32, 32, 4) == 28 && Step(true, UINT32, 32, 5) == 13
    ensures Step(true, UINT32, 32, 6) == 2 && Step(true, UINT32, 32, 7) == 15
    ensures Step(false, UINT32, 32, 0) == 0 && Step(false, UINT32, 32, 1) == 1 && Step(false, UINT32, 32, 2) == 6
    ensures Step(false, UINT32, 32, 3) == 31 && Step(false, UINT32, 32, 4) == 28 && Step(false, UINT32, 32, 5) == 13
    ensures Step(false, UINT32, 32, 6) == 2 && Step(false, UINT32, 32, 7) == 11
  {
    WideSteps();
    NarrowSteps();
    hide WideWalkAt, WalkAt;
  }

  lemma WideSteps()
    ensures WideWalkAt(UINT32, 32, 0).i == 0 && WideWalkAt(UINT32, 32, 1).i == 1
    ensures WideWalkAt(UINT32, 32, 2).i == 134217734
    ensures WideWalkAt(UINT32, 32, 3).i == 675282975 && WideWalkAt(UINT32, 32, 4).i == 3376545948
    ensures WideWalkAt(UINT32, 32, 5).i == 3997831949 && WideWalkAt(UINT32, 32, 6).i == 2809290690
    ensures WideWalkAt(UINT32, 32, 7).i == 1161551567
  {
    var h := UINT32;
    assert WideWalkAt(h, 32, 1) == Walk(1, 134217728);
    assert WideWalkAt(h, 32, 2) == Walk(134217734, 4194304);
    assert WideWalkAt(h, 32, 3) == Walk(675282975, 131072);
    assert WideWalkAt(h, 32, 4) == Walk(3376545948, 4096);
    assert WideWalkAt(h, 32, 5) == Walk(3997831949, 128);
    assert WideWalkAt(h, 32, 6) == Walk(2809290690, 4);
  }

  lemma NarrowSteps()
    ensures WalkAt(UINT32, 32, 0).i == 0 && WalkAt(UINT32, 32, 1).i == 1 && WalkAt(UINT32, 32, 2).i == 6
    ensures WalkAt(UINT32, 32, 3).i == 31 && WalkAt(UINT32, 32, 4).i == 156 && WalkAt(UINT32, 32, 5).i == 781
    ensures WalkAt(UINT32, 32, 6).i == 3906 && WalkAt(UINT32, 32, 7).i == 19531
  {
    var h := UINT32;
    assert WalkAt(h, 32, 1) == Walk(1, 0);
    assert WalkAt(h, 32, 2) == Walk(6, 0);
    assert WalkAt(h, 32, 3) == Walk(31, 0);
    assert WalkAt(h, 32, 4) == Walk(156, 0);
    assert WalkAt(h, 32, 5) == Walk(781, 0);
    assert WalkAt(h, 32, 6) == Walk(3906, 0);
  }
}
