/** Tables of the string hash: what lookup answers in them, and what resizing makes of them. */
module StrTable {
  import opened Arith
  import opened StrProbe

  /** What a slot's key pointer points to. */
  datatype Ref = Null | Dummy | Str(s: string)

  datatype Slot = Slot(key: Ref, hash: nat)

  /** The probe of `hash` comes to slot `s` past slots that are not empty. */
  ghost predicate ReachedBy(t: seq<Slot>, hash: nat, s: nat, n: nat)
    requires |t| > 0
  {
    Probe(hash, |t|, n) == s && forall m :: 0 <= m < n ==> t[Probe(hash, |t|, m)].key != Null
  }

  ghost predicate Reached(t: seq<Slot>, hash: nat, s: nat)
    requires |t| > 0
  {
    exists n: nat :: ReachedBy(t, hash, s, n)
  }

  /** Every key has its hash beside it and is there once. */
  ghost predicate Tidy(t: seq<Slot>, hashOf: string -> nat) {
    && |t| > 0
    && (forall s :: 0 <= s < |t| && t[s].key.Str? ==> t[s].hash == hashOf(t[s].key.s))
    && (forall a, b :: 0 <= a < b < |t| && t[a].key.Str? ==> t[a].key != t[b].key)
  }

  /** Every key is where its probe finds it. */
  ghost predicate Findable(t: seq<Slot>)
    requires |t| > 0
  {
    forall s :: 0 <= s < |t| && t[s].key.Str? ==> Reached(t, t[s].hash, s)
  }

  /** The probe has passed `n + 1` slots that are neither empty nor hold the key. */
  ghost predicate Passed(t: seq<Slot>, hash: nat, key: string, n: nat)
    requires |t| > 0
  {
    forall m :: 0 <= m <= n ==> PassedAt(t, hash, key, m)
  }

  ghost predicate PassedAt(t: seq<Slot>, hash: nat, key: string, m: nat)
    requires |t| > 0
  {
    var x := t[Probe(hash, |t|, m)].key;
    x != Null && x != Str(key)
  }

  lemma PassedNot(t: seq<Slot>, hash: nat, key: string, n: nat, m: nat)
    requires |t| > 0 && Passed(t, hash, key, n) && m <= n
    ensures t[Probe(hash, |t|, m)].key != Str(key)
  {
    hide Probe;
    assert PassedAt(t, hash, key, m);
  }

  lemma ReachedBefore(t: seq<Slot>, hash: nat, s: nat, m: nat, n: nat)
    requires |t| > 0 && ReachedBy(t, hash, s, m) && t[Probe(hash, |t|, n)].key == Null
    ensures m <= n
  {
    hide Probe;
  }

  /** An empty slot after slots without the key: the key is not in the table. */
  lemma Absent(t: seq<Slot>, hashOf: string -> nat, key: string, n: nat)
    requires Tidy(t, hashOf) && Findable(t) && t[Probe(hashOf(key), |t|, n)].key == Null
    requires n > 0 ==> Passed(t, hashOf(key), key, n - 1)
    ensures !InTable(t, key)
  {
    hide Probe, Passed;
    var hash := hashOf(key);
    forall m | 0 <= m < n ensures t[Probe(hash, |t|, m)].key != Str(key) {
      PassedNot(t, hash, key, n - 1, m);
    }
    forall s | 0 <= s < |t| && t[s].key.Str? ensures t[s].key != Str(key) {
      if t[s].hash == hash {
        var m: nat :| ReachedBy(t, hash, s, m);
        ReachedBefore(t, hash, s, m, n);
      }
    }
  }

  /** A free slot the probe came past can take the key. */
  lemma FreeReached(t: seq<Slot>, hash: nat, key: string, n: nat, m: nat)
    requires |t| > 0 && m <= n && (n > 0 ==> Passed(t, hash, key, n - 1))
    ensures Reached(t, hash, Probe(hash, |t|, m))
  {
    hide Probe;
    forall l | 0 <= l < m ensures t[Probe(hash, |t|, l)].key != Null {
      assert PassedAt(t, hash, key, l);
    }
    assert ReachedBy(t, hash, Probe(hash, |t|, m), m);
  }

  /** Filling such a slot with the key keeps all keys where their probes find them. */
  lemma FillSound(t: seq<Slot>, hashOf: string -> nat, key: string, s: nat)
    requires Tidy(t, hashOf) && s < |t| && !t[s].key.Str? && Reached(t, hashOf(key), s)
    requires forall a :: 0 <= a < |t| ==> t[a].key != Str(key)
    ensures Tidy(t[s := Slot(Str(key), hashOf(key))], hashOf)
    ensures Findable(t) ==> Findable(t[s := Slot(Str(key), hashOf(key))])
  {
    hide Probe;
    var t' := t[s := Slot(Str(key), hashOf(key))];
    forall a | 0 <= a < |t'| && t'[a].key.Str? && Findable(t) ensures Reached(t', t'[a].hash, a) {
      var hash := t'[a].hash;
      assert Reached(t, hash, a);
      var n: nat :| ReachedBy(t, hash, a, n);
      assert ReachedBy(t', hash, a, n);
    }
  }

  /** The hash written into a slot that holds no key does not matter. */
  lemma StampSound(t: seq<Slot>, hashOf: string -> nat, s: nat, hash: nat)
    requires Tidy(t, hashOf) && s < |t| && !t[s].key.Str?
    ensures Tidy(t[s := Slot(t[s].key, hash)], hashOf) && (Findable(t) ==> Findable(t[s := Slot(t[s].key, hash)]))
    ensures forall h, a :: 0 <= a < |t| && Reached(t, h, a) ==> Reached(t[s := Slot(t[s].key, hash)], h, a)
  {
    hide Probe;
    var t' := t[s := Slot(t[s].key, hash)];
    forall h, a | 0 <= a < |t| && Reached(t, h, a) ensures Reached(t', h, a) {
      var n: nat :| ReachedBy(t, h, a, n);
      assert ReachedBy(t', h, a, n);
    }
  }

  /** What a lookup answers: the key's slot if it has one, and otherwise the first free slot its
      probe comes to, marked with its hash. */
  ghost predicate Answer(t: seq<Slot>, t': seq<Slot>, hashOf: string -> nat, key: string, s: nat) {
    && s < |t| && |t'| == |t| && Reached(t', hashOf(key), s)
    && (Findable(t) && InTable(t, key) ==> t'[s].key == Str(key))
    && (if t'[s].key == Str(key) then t' == t else !t'[s].key.Str? && t' == t[s := Slot(t[s].key, hashOf(key))])
    && (t'[s].key != Str(key) ==> FirstFree(t, hashOf(key), s))
  }

  /** The first `n` slots of the probe hold keys. */
  ghost predicate AllKeys(t: seq<Slot>, hash: nat, n: nat)
    requires |t| > 0
  {
    forall m :: 0 <= m < n ==> t[Probe(hash, |t|, m)].key.Str?
  }

  /** The first slot of the probe that holds no key. */
  ghost predicate FirstFree(t: seq<Slot>, hash: nat, s: nat) {
    s < |t| && !t[s].key.Str? && exists n: nat :: FreeAt(t, hash, s, n)
  }

  ghost predicate FreeAt(t: seq<Slot>, hash: nat, s: nat, n: nat)
    requires |t| > 0
  {
    s == Probe(hash, |t|, n) && AllKeys(t, hash, n)
  }

  lemma AnswerFound(t: seq<Slot>, hashOf: string -> nat, key: string, s: nat)
    requires s < |t| && t[s].key == Str(key) && Reached(t, hashOf(key), s)
    ensures Answer(t, t, hashOf, key, s)
  {
  }

  lemma AnswerFree(t: seq<Slot>, t': seq<Slot>, hashOf: string -> nat, key: string, s: nat)
    requires s < |t| && !t[s].key.Str? && t' == t[s := Slot(t[s].key, hashOf(key))] && Reached(t', hashOf(key), s)
    requires (Findable(t) ==> !InTable(t, key)) && FirstFree(t, hashOf(key), s)
    ensures Answer(t, t', hashOf, key, s)
  {
  }

  ghost predicate InTable(t: seq<Slot>, x: string) {
    exists a :: 0 <= a < |t| && t[a].key == Str(x)
  }

  /** The number of slots that are not empty. */
  function Filled(t: seq<Slot>): nat {
    if t == [] then 0 else Filled(t[..|t| - 1]) + if t[|t| - 1].key == Null then 0 else 1
  }

  lemma {:induction false} FilledSet(t: seq<Slot>, s: nat, x: Slot)
    requires s < |t|
    ensures Filled(t[s := x]) == Filled(t) + (if x.key == Null then 0 else 1) - if t[s].key == Null then 0 else 1
  {
    var n := |t| - 1;
    if s < n {
      assert t[s := x][..n] == t[..n][s := x];
      FilledSet(t[..n], s, x);
    } else {
      assert t[s := x][..n] == t[..n];
    }
  }

  /** A table that is not full has an empty slot. */
  lemma {:induction false} EmptySlot(t: seq<Slot>) returns (s: nat)
    requires Filled(t) < |t|
    ensures s < |t| && t[s].key == Null
  {
    var n := |t| - 1;
    if t[n].key == Null { s := n; } else { s := EmptySlot(t[..n]); }
  }

  /** The slots of a set are no more than the filled ones, if all of them are filled. */
  lemma {:induction false} FilledCovers(t: seq<Slot>, p: set<nat>)
    requires forall b :: b in p ==> b < |t| && t[b].key != Null
    ensures |p| <= Filled(t)
    decreases |t|
  {
    if t == [] {
      assert p == {};
    } else {
      var n := |t| - 1;
      FilledCovers(t[..n], p - {n});
      if n in p { assert |p| == |p - {n}| + 1; } else { assert p - {n} == p; }
    }
  }

  /** Coming to a slot means that all slots on the way are filled. */
  lemma ReachedPasses(t: seq<Slot>, k: nat, hash: nat, s: nat)
    requires k <= 32 && |t| == Pow2(k) && s < |t|
    ensures Reached(t, hash, s) <==> forall b :: b in Passes(false, hash, |t|, s) ==> t[b].key != Null
    ensures WideReached(t, hash, s) <==> forall b :: b in Passes(true, hash, |t|, s) ==> t[b].key != Null
  {
    StepsPass(t, k, hash, s, false);
    StepsPass(t, k, hash, s, true);
    hide Passes;
    assert (exists n: nat :: StepsBy(t, hash, s, n, false)) <==> Reached(t, hash, s) by { StepsReached(t, hash, s); }
    assert (exists n: nat :: StepsBy(t, hash, s, n, true)) <==> WideReached(t, hash, s) by { StepsReached(t, hash, s); }
  }

  ghost predicate StepsBy(t: seq<Slot>, hash: nat, s: nat, n: nat, wide: bool)
    requires |t| > 0
  {
    Step(wide, hash, |t|, n) == s && forall m :: 0 <= m < n ==> t[Step(wide, hash, |t|, m)].key != Null
  }

  lemma StepsReached(t: seq<Slot>, hash: nat, s: nat)
    requires |t| > 0
    ensures (exists n: nat :: StepsBy(t, hash, s, n, false)) <==> Reached(t, hash, s)
    ensures (exists n: nat :: StepsBy(t, hash, s, n, true)) <==> WideReached(t, hash, s)
  {
    hide Probe, WideProbe;
    forall n: nat ensures StepsBy(t, hash, s, n, false) <==> ReachedBy(t, hash, s, n) { StepsAre(t, hash, s, n); }
    forall n: nat ensures StepsBy(t, hash, s, n, true) <==> WideReachedBy(t, hash, s, n) { StepsAre(t, hash, s, n); }
  }

  lemma StepsAre(t: seq<Slot>, hash: nat, s: nat, n: nat)
    requires |t| > 0
    ensures StepsBy(t, hash, s, n, false) <==> ReachedBy(t, hash, s, n)
    ensures StepsBy(t, hash, s, n, true) <==> WideReachedBy(t, hash, s, n)
  {
    hide Probe, WideProbe;
    forall m: nat
      ensures Step(false, hash, |t|, m) == Probe(hash, |t|, m) && Step(true, hash, |t|, m) == WideProbe(hash, |t|, m)
    {
    }
  }

  lemma StepsPass(t: seq<Slot>, k: nat, hash: nat, s: nat, wide: bool)
    requires k <= 32 && |t| == Pow2(k) && s < |t|
    ensures (exists n: nat :: StepsBy(t, hash, s, n, wide))
      <==> forall b :: b in Passes(wide, hash, |t|, s) ==> t[b].key != Null
  {
    hide Step, Passes;
    var n := FirstVisit(wide, hash, k, s);
    if l: nat :| StepsBy(t, hash, s, l, wide) {
      forall b | b in Passes(wide, hash, |t|, s) ensures t[b].key != Null {
        var m: nat :| m < n && Step(wide, hash, |t|, m) == b;
        assert n <= l;
      }
    }
    if forall b :: b in Passes(wide, hash, |t|, s) ==> t[b].key != Null {
      assert StepsBy(t, hash, s, n, wide);
    }
  }

  /** The probe of resizing comes to slot `s` past slots that are not empty. */
  ghost predicate WideReachedBy(t: seq<Slot>, hash: nat, s: nat, n: nat)
    requires |t| > 0
  {
    WideProbe(hash, |t|, n) == s && forall m :: 0 <= m < n ==> t[WideProbe(hash, |t|, m)].key != Null
  }

  ghost predicate WideReached(t: seq<Slot>, hash: nat, s: nat)
    requires |t| > 0
  {
    exists n: nat :: WideReachedBy(t, hash, s, n)
  }

  /** The slot where resizing puts a hash: the first empty one on its probe. */
  ghost predicate Place(t: seq<Slot>, hash: nat, s: nat)
    requires |t| > 0
  {
    s < |t| && t[s].key == Null && WideReached(t, hash, s)
  }

  lemma PlaceUnique(t: seq<Slot>, hash: nat, a: nat, b: nat)
    requires |t| > 0 && Place(t, hash, a) && Place(t, hash, b)
    ensures a == b
  {
    hide WideProbe;
    var m: nat :| WideReachedBy(t, hash, a, m);
    var n: nat :| WideReachedBy(t, hash, b, n);
  }

  lemma PlaceExists(t: seq<Slot>, k: nat, hash: nat) returns (s: nat)
    requires k <= 32 && |t| == Pow2(k) && Filled(t) < |t|
    ensures Place(t, hash, s)
  {
    var empty := EmptySlot(t);
    var n := WideVisitsAll(hash, k, empty);
    s := PlaceBy(t, hash, n);
  }

  lemma {:induction false} PlaceBy(t: seq<Slot>, hash: nat, n: nat) returns (s: nat)
    requires |t| > 0 && t[WideProbe(hash, |t|, n)].key == Null
    ensures Place(t, hash, s)
  {
    hide WideProbe;
    if m: nat :| m < n && t[WideProbe(hash, |t|, m)].key == Null {
      s := PlaceBy(t, hash, m);
    } else {
      s := WideProbe(hash, |t|, n);
      assert WideReachedBy(t, hash, s, n);
    }
  }

  lemma PlaceSome(t: seq<Slot>, k: nat, hash: nat)
    requires k <= 32 && |t| == Pow2(k) && Filled(t) < |t|
    ensures exists s: nat :: Place(t, hash, s)
  {
    var s := PlaceExists(t, k, hash);
  }

  function Empty(k: nat): (t: seq<Slot>)
    ensures |t| == Pow2(k) && forall s :: 0 <= s < |t| ==> t[s] == Slot(Null, 0)
  {
    seq(Pow2(k), _ => Slot(Null, 0))
  }

  lemma {:induction false} NothingFilled(t: seq<Slot>)
    requires forall s :: 0 <= s < |t| ==> t[s].key == Null
    ensures Filled(t) == 0
  {
    if t != [] { NothingFilled(t[..|t| - 1]); }
  }

  /** The table of 2^k slots that resizing makes of the entries, placed one after the other. */
  ghost function PlaceAll(es: seq<Slot>, k: nat): (t: seq<Slot>)
    requires k <= 32 && |es| <= Pow2(k) && forall i :: 0 <= i < |es| ==> es[i].key != Null
    ensures |t| == Pow2(k) && Filled(t) == |es|
  {
    if es == [] then
      NothingFilled(Empty(k));
      Empty(k)
    else
      var n := |es| - 1;
      var t := PlaceAll(es[..n], k);
      PlaceSome(t, k, es[n].hash);
      var s: nat :| Place(t, es[n].hash, s);
      FilledSet(t, s, es[n]);
      t[s := es[n]]
  }

  /** The entries that hold keys, in the order of the table. */
  function Active(t: seq<Slot>): (es: seq<Slot>)
    ensures forall i :: 0 <= i < |es| ==> es[i].key.Str? && es[i] in t
  {
    if t == [] then [] else Active(t[..|t| - 1]) + if t[|t| - 1].key.Str? then [t[|t| - 1]] else []
  }

  lemma {:induction false} ActiveAll(t: seq<Slot>, s: nat)
    requires s < |t| && t[s].key.Str?
    ensures t[s] in Active(t)
  {
    var n := |t| - 1;
    if s < n {
      ActiveAll(t[..n], s);
      assert t[..n][s] == t[s];
    }
  }

  /** Keys that are in the table once are among the entries once. */
  lemma {:induction false} ActiveOnce(t: seq<Slot>, i: nat, j: nat)
    requires forall a, b :: 0 <= a < b < |t| && t[a].key.Str? ==> t[a].key != t[b].key
    requires i < j < |Active(t)|
    ensures Active(t)[i].key != Active(t)[j].key
  {
    var n := |t| - 1;
    if j < |Active(t[..n])| {
      ActiveOnce(t[..n], i, j);
    } else {
      assert Active(t)[i] in t[..n];
      var a :| 0 <= a < n && t[a] == Active(t)[i];
    }
  }

  /** Without deleted entries the filled slots are those that hold keys. */
  lemma {:induction false} ActiveFilled(t: seq<Slot>)
    ensures |Active(t)| <= Filled(t)
    ensures (forall s :: 0 <= s < |t| ==> t[s].key != Dummy) ==> |Active(t)| == Filled(t)
  {
    if t != [] { ActiveFilled(t[..|t| - 1]); }
  }

  lemma {:induction false} ActiveSet(t: seq<Slot>, s: nat, x: Slot)
    requires s < |t|
    ensures |Active(t[s := x])| == |Active(t)| + (if x.key.Str? then 1 else 0) - if t[s].key.Str? then 1 else 0
  {
    var n := |t| - 1;
    if s < n {
      assert t[s := x][..n] == t[..n][s := x];
      ActiveSet(t[..n], s, x);
    } else {
      assert t[s := x][..n] == t[..n];
    }
  }

  lemma ActiveNone()
    ensures Active([]) == []
  {
  }

  lemma ActiveNext(t: seq<Slot>, n: nat)
    requires n < |t|
    ensures Active(t[..n + 1]) == Active(t[..n]) + if t[n].key.Str? then [t[n]] else []
  {
    assert t[..n + 1][..n] == t[..n];
  }

  lemma {:induction false} ActiveLater(t: seq<Slot>, n: nat)
    requires n <= |t|
    ensures Active(t[..n]) <= Active(t)
    decreases |t| - n
  {
    if n < |t| {
      ActiveNext(t, n);
      ActiveLater(t, n + 1);
    } else {
      assert t[..n] == t;
    }
  }
}
