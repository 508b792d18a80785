/** The open-addressing string hash: a lookup that finds a key or the slot where it belongs, and
    tables that grow. */
module StrHash {
  import opened Arith
  import opened StrProbe
  import opened StrTable
  import opened StrResize

  const MIN_SIZE := 16
  const SLOW_DOWN := 50000
  const MAX_SIZE := 0x4000_0000

  class StringHash {
    const hashOf: string -> nat
    ghost var k: nat         // the size of the table as a power of two
    var table: array<Slot>
    var fill: nat            // slots that are not empty
    var size: nat            // slots that hold keys

    /** What a lookup needs. */
    ghost predicate Ready()
      reads this, table
    {
      k <= 32 && table.Length == Pow2(k) && Tidy(table[..], hashOf)
    }

    /** A table is never more than two thirds full, but for one slot. */
    ghost predicate Valid()
      reads this, table
    {
      && Ready() && 4 <= k && fill == Filled(table[..]) && size == |Active(table[..])|
      && 3 * fill <= 2 * (table.Length - 1) + 3
    }

    ghost predicate HasNull()
      reads this, table
    {
      exists s :: 0 <= s < table.Length && table[s].key == Null
    }

    constructor (hashOf: string -> nat)
      ensures Valid() && Findable(table[..]) && size == 0 && fresh(table) && this.hashOf == hashOf
      ensures forall x: string :: !Contains(x)
    {
      this.hashOf := hashOf;
      k, fill, size := 4, 0, 0;
      table := new Slot[MIN_SIZE](_ => Slot(Null, 0));
      new;
      Pow2Values();
      NothingFilled(table[..]);
      ActiveFilled(table[..]);
    }

    /** What a lookup has found out after `n` steps. */
    ghost predicate Walking(key: string, w: Walk, n: nat, freeSlot: int, m: nat)
      requires table.Length > 0
      reads this, table
    {
      && w == WalkAt(hashOf(key), table.Length, n) && Passed(table[..], hashOf(key), key, n)
      && -1 <= freeSlot < table.Length
      && (freeSlot >= 0 ==> m <= n && freeSlot == Probe(hashOf(key), table.Length, m) && table[freeSlot].key == Dummy)
      && AllKeys(table[..], hashOf(key), if freeSlot >= 0 then m else n + 1)
    }

    /** Marks a free slot with the hash and returns it. */
    method Claim(key: string, at: nat, ghost n: nat, ghost m: nat)
      requires Ready() && table[Probe(hashOf(key), table.Length, n)].key == Null
      requires (n > 0 ==> Passed(table[..], hashOf(key), key, n - 1))
      requires m <= n && at == Probe(hashOf(key), table.Length, m) && !table[at].key.Str?
      requires AllKeys(table[..], hashOf(key), m)
      modifies table
      ensures Ready() && Reached(table[..], hashOf(key), at)
      ensures Findable(old(table[..])) ==> !InTable(old(table[..]), key)
      ensures table[..] == old(table[..])[at := Slot(old(table[at]).key, hashOf(key))]
      ensures FirstFree(old(table[..]), hashOf(key), at)
    {
      hide Probe, Tidy, Findable, Reached, Passed, AllKeys;
      ghost var t := table[..];
      assert FreeAt(t, hashOf(key), at, m);
      if Findable(t) {
        Absent(t, hashOf, key, n);
      }
      FreeReached(t, hashOf(key), key, n, m);
      StampSound(t, hashOf, at, hashOf(key));
      table[at] := Slot(table[at].key, hashOf(key));
    }

    /** A slot on the probe holds the key, or is passed. */
    method Holds(key: string, at: nat, ghost n: nat) returns (found: bool)
      requires Ready() && at == Probe(hashOf(key), table.Length, n) && table[at].key != Null
      requires n > 0 ==> Passed(table[..], hashOf(key), key, n - 1)
      ensures found == (table[at].key == Str(key))
      ensures found ==> Reached(table[..], hashOf(key), at)
      ensures !found ==> Passed(table[..], hashOf(key), key, n)
    {
      hide Probe;
      found := table[at].key.Str? && table[at].hash == hashOf(key) && table[at].key.s == key;
      assert table[..][at] == table[at];
      FreeReached(table[..], hashOf(key), key, n, n);
      if !found {
        assert PassedAt(table[..], hashOf(key), key, n);
      }
    }

    /** One step of the probe: done, or on to the next. */
    method Advance(key: string, i0: nat, perturb0: nat, freeSlot0: int, ghost n: nat, ghost m0: nat)
      returns (done: bool, at: nat, i: nat, perturb: nat, freeSlot: int, ghost m: nat)
      requires Ready() && Walking(key, Walk(i0, perturb0), n, freeSlot0, m0)
      modifies table
      ensures Ready() && at < table.Length
      ensures if done then Answer(old(table[..]), table[..], hashOf, key, at)
        else table[..] == old(table[..]) && Walking(key, Walk(i, perturb), n + 1, freeSlot, m)
    {
      hide Probe, Tidy, Findable, Reached, Passed, Answer;
      i := (5 * i0 + perturb0 + 1) % UINT32;
      perturb := perturb0 / PERTURB_DIVISOR;
      at := i % table.Length;
      ProbeIs(hashOf(key), table.Length, n + 1);
      ghost var t := table[..];
      freeSlot, m, done := freeSlot0, m0, true;
      if table[at].key == Null {
        if freeSlot >= 0 {
          at := freeSlot;
        } else {
          m := n + 1;
        }
        Claim(key, at, n + 1, m);
        AnswerFree(t, table[..], hashOf, key, at);
      } else {
        done := Holds(key, at, n + 1);
        if done {
          AnswerFound(t, hashOf, key, at);
        } else if table[at].key == Dummy && freeSlot < 0 {
          freeSlot, m := at, n + 1;
        }
      }
    }

    /** `h_lookup_str`: the slot of the key or, marked with its hash, the free slot where it
        belongs. */
    method Lookup(key: string) returns (s: nat)
      requires Ready() && HasNull()
      modifies table
      ensures Ready() && s < table.Length && Answer(old(table[..]), table[..], hashOf, key, s)
    {
      hide Probe, Tidy, Findable, Reached, Passed, Answer, WalkAt;
      ghost var t := table[..];
      var hash, size := hashOf(key), table.Length;
      var i := hash % size;
      var freeSlot, at := -1, i;
      ProbeFirst(hash, size);
      if table[at].key == Null {
        Claim(key, at, 0, 0);
        AnswerFree(t, table[..], hashOf, key, at);
        return at;
      }
      if table[at].key == Dummy {
        freeSlot := at;
      }
      var done := Holds(key, at, 0);
      if done {
        AnswerFound(t, hashOf, key, at);
        return at;
      }
      s := Continue(key, i, freeSlot);
    }

    /** The probe's loop; it ends at an empty slot at the latest. */
    method Continue(key: string, i0: nat, freeSlot0: int) returns (s: nat)
      requires Ready() && HasNull() && Walking(key, Walk(i0, hashOf(key) % UINT32), 0, freeSlot0, 0)
      modifies table
      ensures Ready() && s < table.Length && Answer(old(table[..]), table[..], hashOf, key, s)
    {
      hide Probe, Tidy, Findable, Reached, Passed, Answer, WalkAt, Pow2;
      ghost var empty :| 0 <= empty < table.Length && table[empty].key == Null;
      ghost var bound := VisitsAll(hashOf(key), k, empty);
      var i: nat, perturb: nat, freeSlot, done := i0, hashOf(key) % UINT32, freeSlot0, false;
      ghost var n: nat, m: nat := 0, 0;
      s := 0;
      NotYet(key, n, bound, empty);
      while !done
        invariant Ready() && if done then s < table.Length && Answer(old(table[..]), table[..], hashOf, key, s)
          else table[..] == old(table[..]) && n < bound && Walking(key, Walk(i, perturb), n, freeSlot, m)
        decreases if done then 0 else 1, bound - n
      {
        ghost var m0 := m;
        done, s, i, perturb, freeSlot, m := Advance(key, i, perturb, freeSlot, n, m0);
        if !done {
          NotYet(key, n + 1, bound, empty);
          n := n + 1;
        }
      }
    }

    /** The loop of `frt_h_resize_lookup`: the first empty slot on the probe of resizing. */
    method ResizeLookup(hash: nat) returns (s: nat)
      requires k <= 32 && table.Length == Pow2(k) && Filled(table[..]) < table.Length
      ensures s < table.Length && Place(table[..], hash, s)
    {
      hide WideProbe, WideWalkAt, Pow2, Filled;
      ghost var place := PlaceExists(table[..], k, hash);
      ghost var bound: nat :| WideReachedBy(table[..], hash, place, bound);
      var i: nat, perturb: nat := hash % table.Length, hash;
      WideFirst(hash, table.Length);
      s := i % table.Length;
      ghost var n: nat := 0;
      while table[s].key != Null
        invariant n <= bound && Walk(i, perturb) == WideWalkAt(hash, table.Length, n)
        invariant s == WideProbe(hash, table.Length, n)
        invariant forall m :: 0 <= m < n ==> table[WideProbe(hash, table.Length, m)].key != Null
        decreases bound - n
      {
        assert table[..][WideProbe(hash, table.Length, bound)].key == Null;
        WideIs(hash, table.Length, n, i, perturb);
        i, perturb := (5 * i + perturb + 1) % UINT32, perturb / PERTURB_DIVISOR;
        s := i % table.Length;
        n := n + 1;
      }
      assert WideReachedBy(table[..], hash, s, n);
    }

    lemma WideFirst(hash: nat, size: nat)
      requires size > 0
      ensures WideWalkAt(hash, size, 0) == Walk(hash % size, hash) && WideProbe(hash, size, 0) == hash % size % size
    {
    }

    lemma WideIs(hash: nat, size: nat, n: nat, i: nat, perturb: nat)
      requires size > 0 && WideWalkAt(hash, size, n) == Walk(i, perturb)
      ensures var j: nat := (5 * i + perturb + 1) % UINT32;
        && WideWalkAt(hash, size, n + 1) == Walk(j, perturb / PERTURB_DIVISOR)
        && WideProbe(hash, size, n + 1) == j % size
    {
    }

    /** The smallest power of two from 16 on that is no smaller. */
    method NewSize(minNewSize: nat) returns (newSize: nat, ghost bits: nat)
      requires minNewSize <= MAX_SIZE
      ensures newSize == Pow2(bits) && 4 <= bits <= 31 && newSize >= Max(minNewSize, MIN_SIZE)
      ensures newSize > MIN_SIZE ==> newSize < 2 * minNewSize
    {
      Pow2Values();
      newSize, bits := MIN_SIZE, 4;
      while newSize < minNewSize
        invariant 4 <= bits <= 31 && newSize == Pow2(bits) >= MIN_SIZE
        invariant (newSize > MIN_SIZE ==> newSize < 2 * minNewSize)
        decreases minNewSize - newSize
      {
        Pow2Monotone(4, bits);
        Pow2Bits(bits);
        newSize, bits := 2 * newSize, bits + 1;
      }
    }

    /** `frt_h_resize`: every key placed anew, in the order of the old table. */
    method Resize(minNewSize: nat)
      requires Valid() && size < Max(minNewSize, MIN_SIZE) && minNewSize <= MAX_SIZE
      modifies this
      ensures fresh(table) && size == old(size) == fill && 4 <= k <= 31
      ensures table.Length == Pow2(k) >= Max(minNewSize, MIN_SIZE)
      ensures table[..] == PlaceAll(Active(old(table[..])), k)
      ensures table.Length > MIN_SIZE ==> table.Length < 2 * minNewSize
    {
      hide PlaceAll, Place, Filled, Active, Pow2, Tidy;
      var oldTable := table;
      ghost var t := table[..];
      ghost var es := Active(t);
      var newSize, bits := NewSize(minNewSize);
      table := new Slot[newSize](_ => Slot(Null, 0));
      k, fill := bits, size;
      PlaceNone(table[..], k);
      var numActive, he := size, 0;
      ghost var n: nat := 0;
      ActiveNone();
      while numActive > 0
        invariant fresh(table) && k == bits && table.Length == newSize && fill == size == old(size)
        invariant n + numActive == |es| < newSize && he <= oldTable.Length && t == oldTable[..]
        invariant Active(t[..he]) == es[..n] && table[..] == PlaceAll(es[..n], k)
        decreases oldTable.Length - he
      {
        assert t[..oldTable.Length] == t;
        ActiveNext(t, he);
        ActiveLater(t, he + 1);
        var e := oldTable[he];
        if e.key.Str? {
          assert es[..n + 1] == es[..n] + [e];
          assert Filled(table[..]) == n;
          var s := ResizeLookup(e.hash);
          PlaceNext(es[..n + 1], k, s);
          table[s] := e;
          numActive, n := numActive - 1, n + 1;
        }
        he := he + 1;
      }
      assert es[..n] == es;
    }

    /** A table that grows has room for twice its keys, four times up to some size, and no more than
        a power of two needs. */
    ghost predicate Grown(size: nat, length: nat) {
      var wanted := if size > 50000 then 4 * size else 2 * size;
      && length >= wanted && length >= 16 && (length > 16 ==> length < 2 * wanted)
    }

    /** `frt_h_set`: the key is in the table afterwards, and no other is lost from it. When the
        table grows, all keys are still found if their probes start alike, as they do for hashes
        of at most 32 bits. */
    method Set(key: string) returns (ghost grew: bool)
      requires Valid() && Findable(table[..]) && 4 * size <= MAX_SIZE
      modifies this, table
      ensures Valid() && (grew ==> fresh(table)) && (!grew ==> table == old(table))
      ensures forall x: string :: Contains(x) <==> x == key || old(Contains(x))
      ensures grew ==> 3 * old(fill) > 2 * (old(table.Length) - 1) && !old(Contains(key))
      ensures 3 * old(fill) > 2 * (old(table.Length) - 1) && !old(Contains(key)) && old(fill) == old(size) ==> grew
      ensures grew ==> Grown(old(size), table.Length)
      ensures !grew ==> Findable(table[..])
      ensures (forall x: string :: old(Contains(x)) ==> SameStart(hashOf(x), k, Max(old(size), 1) - 1)) ==>
        Findable(table[..])
      ensures (forall x: string :: hashOf(x) < UINT32) ==> Findable(table[..])
    {
      hide Tidy, Findable, Filled, Active, Reached, Pow2, PlaceAll, SameStart;
      ghost var t := table[..];
      HasEmpty();
      var s := Lookup(key);
      AnswerKeeps(t, table[..], hashOf, key, s);
      grew := false;
      if fill == size && !InTable(t, key) { NoDummies(t, table[..], hashOf, key, s); }
      if table[s].key == Null && fill * 3 > (table.Length - 1) * 2 {
        s := Grow(key);
        grew := true;
      }
      Store(key, s);
      forall x: string | hashOf(x) < UINT32 ensures SameStart(hashOf(x), k, Max(old(size), 1) - 1) {
        ShortStart(hashOf(x), k, Max(old(size), 1) - 1);
      }
    }

    /** The table is full enough to grow; then the key is looked up again. */
    method Grow(key: string) returns (s: nat)
      requires Valid() && Findable(table[..]) && !InTable(table[..], key) && 4 * size <= MAX_SIZE
      modifies this
      ensures Ready() && 4 <= k && fresh(table) && fill == Filled(table[..]) && size == old(size) == |Active(table[..])|
      ensures 3 * fill <= 2 * (table.Length - 1) && Grown(size, table.Length)
      ensures s < table.Length && table[s] == Slot(Null, hashOf(key)) && Reached(table[..], hashOf(key), s)
      ensures forall x: string :: InTable(table[..], x) <==> InTable(old(table[..]), x)
      ensures (forall x: string :: InTable(old(table[..]), x) ==> SameStart(hashOf(x), k, Max(old(size), 1) - 1)) ==>
        Findable(table[..])
    {
      hide Tidy, Findable, Filled, Active, Reached, Pow2, PlaceAll, SameStart, InTable, Answer;
      ghost var t := table[..];
      Resize(size * if size > SLOW_DOWN then 4 else 2);
      ghost var t2 := table[..];
      ResizedTable(t, t2, hashOf, k);
      LoadHalf(size, table.Length);
      ghost var empty := EmptySlot(t2);
      s := Lookup(key);
      AnswerKeeps(t2, table[..], hashOf, key, s);
    }

    /** Stores the key in the slot answered. */
    method Store(key: string, s: nat)
      requires Ready() && 4 <= k && fill == Filled(table[..]) && size == |Active(table[..])| && s < table.Length
      requires 3 * fill <= 2 * (table.Length - 1) + if table[s].key == Null then 0 else 3
      requires if table[s].key.Str? then table[s].key == Str(key)
        else Reached(table[..], hashOf(key), s) && !InTable(table[..], key)
      modifies this`fill, this`size, table
      ensures Valid() && forall x: string :: Contains(x) <==> x == key || InTable(old(table[..]), x)
      ensures Findable(old(table[..])) ==> Findable(table[..])
    {
      hide Tidy, Findable, Filled, Active, Reached, Pow2;
      ghost var t := table[..];
      if table[s].key == Null {
        fill, size := fill + 1, size + 1;
      } else if table[s].key == Dummy {
        size := size + 1;
      }
      if !table[s].key.Str? {
        FillSound(t, hashOf, key, s);
        FilledSet(t, s, Slot(Str(key), hashOf(key)));
        ActiveSet(t, s, Slot(Str(key), hashOf(key)));
        table[s] := Slot(Str(key), hashOf(key));
        assert table[..] == t[s := Slot(Str(key), hashOf(key))];
      }
      forall x: string
        ensures InTable(table[..], x) <==> x == key || InTable(t, x)
      {
        StoredKeys(t, table[..], key, s, x);
      }
    }

    lemma HasEmpty()
      requires Valid()
      ensures HasNull()
    {
      Pow2Values();
      Pow2Monotone(4, k);
      var s := EmptySlot(table[..]);
    }

    ghost predicate Contains(x: string)
      reads this, table
    {
      InTable(table[..], x)
    }

    lemma ProbeFirst(hash: nat, size: nat)
      requires size > 0
      ensures Probe(hash, size, 0) == hash % size && WalkAt(hash, size, 0) == Walk(hash % size, hash % UINT32)
    {
      RemainderTwice(hash, size);
    }

    lemma ProbeIs(hash: nat, size: nat, n: nat)
      requires size > 0
      ensures Probe(hash, size, n) == WalkAt(hash, size, n).i % size
    {
    }

    /** An empty slot ahead is not among those passed. */
    lemma NotYet(key: string, n: nat, bound: nat, empty: nat)
      requires table.Length > 0 && Passed(table[..], hashOf(key), key, n)
      requires empty == Probe(hashOf(key), table.Length, bound) && table[empty].key == Null
      ensures n < bound
    {
      hide Probe;
      assert !PassedAt(table[..], hashOf(key), key, bound);
    }
  }
  /** A lookup changes nothing that counts. */
  lemma AnswerKeeps(t: seq<Slot>, t': seq<Slot>, hashOf: string -> nat, key: string, s: nat)
    requires Tidy(t, hashOf) && Answer(t, t', hashOf, key, s)
    ensures s < |t'| == |t| && Reached(t', hashOf(key), s) && t'[s].key == t[s].key
    ensures Filled(t') == Filled(t) && |Active(t')| == |Active(t)|
    ensures (forall x: string :: InTable(t', x) <==> InTable(t, x)) && (Findable(t) ==> Findable(t'))
    ensures (t'[s].key == Str(key) && InTable(t, key))
      || (!t'[s].key.Str? && t'[s].hash == hashOf(key) && (Findable(t) ==> !InTable(t, key)))
  {
    hide Filled, Active, Reached;
    if t'[s].key != Str(key) {
      FilledSet(t, s, t'[s]);
      ActiveSet(t, s, t'[s]);
      StampSound(t, hashOf, s, hashOf(key));
    }
    hide Findable;
    forall x: string ensures InTable(t', x) <==> InTable(t, x) {
      if a :| 0 <= a < |t| && t[a].key == Str(x) { assert t'[a].key == Str(x); }
      if a :| 0 <= a < |t| && t'[a].key == Str(x) { assert t[a].key == Str(x); }
    }
  }

  lemma StoredKeys(t: seq<Slot>, t2: seq<Slot>, key: string, s: nat, x: string)
    requires s < |t| == |t2| && (t[s].key.Str? ==> t[s].key == Str(key))
    requires t2 == if t[s].key.Str? then t else t[s := Slot(Str(key), t2[s].hash)]
    ensures InTable(t2, x) <==> x == key || InTable(t, x)
  {
    if a :| 0 <= a < |t| && t[a].key == Str(x) { assert t2[a].key == Str(x); }
    if x == key { assert t2[s].key == Str(x); }
  }

  /** When all slots in use hold keys, a key that is in none of them gets an empty one. */
  lemma NoDummies(t: seq<Slot>, t2: seq<Slot>, hashOf: string -> nat, key: string, s: nat)
    requires Filled(t) == |Active(t)| && Answer(t, t2, hashOf, key, s) && !InTable(t, key)
    ensures t2[s].key == Null
  {
    hide Reached, Findable, Filled, Active;
    if t[s].key == Dummy { DummyMore(t, s); }
  }

  lemma {:induction false} DummyMore(t: seq<Slot>, s: nat)
    requires s < |t| && t[s].key == Dummy
    ensures Filled(t) > |Active(t)|
  {
    var n := |t| - 1;
    FilledActive(t[..n]);
    if s < n { DummyMore(t[..n], s); }
  }

  lemma {:induction false} FilledActive(t: seq<Slot>)
    ensures Filled(t) >= |Active(t)|
  {
    if t != [] { FilledActive(t[..|t| - 1]); }
  }

  lemma LoadHalf(size: nat, length: nat)
    requires length >= MIN_SIZE && length >= 2 * size
    ensures 3 * size <= 2 * (length - 1)
  {
  }

  /** What resizing makes of a table: the same keys, all of them found if their probes start alike. */
  lemma ResizedTable(t: seq<Slot>, t2: seq<Slot>, hashOf: string -> nat, k: nat)
    requires Tidy(t, hashOf) && 4 <= k <= 31 && |Active(t)| < Pow2(k) && t2 == PlaceAll(Active(t), k)
    ensures Tidy(t2, hashOf) && Filled(t2) == |Active(t2)| == |Active(t)|
    ensures forall s :: 0 <= s < |t2| ==> t2[s].key != Dummy
    ensures forall x: string :: InTable(t2, x) <==> InTable(t, x)
    ensures (forall x: string :: InTable(t, x) ==> SameStart(hashOf(x), k, Max(|Active(t)|, 1) - 1)) ==> Findable(t2)
  {
    hide PlaceAll, Active, Filled, Pow2, SameStart, Reached;
    var es := Active(t);
    EntriesActive(t, hashOf);
    forall s: nat | s < |t2| ensures t2[s] in es || t2[s] == Slot(Null, 0) { PlacedOnly(es, k, s); }
    ActiveFilled(t2);
    forall x: string ensures InTable(t2, x) <==> InTable(t, x) {
      if a: nat :| a < |t| && t[a].key == Str(x) {
        ActiveAll(t, a);
        var i: nat :| i < |es| && es[i] == t[a];
        var s := PlacedAt(es, k, i);
      }
    }
    OnceEach(es, t2, k);
    if forall x: string :: InTable(t, x) ==> SameStart(hashOf(x), k, Max(|es|, 1) - 1) {
      ResizedFindable(t, t2, hashOf, k);
    }
  }

  lemma ResizedFindable(t: seq<Slot>, t2: seq<Slot>, hashOf: string -> nat, k: nat)
    requires Tidy(t, hashOf) && k <= 31 && |Active(t)| < Pow2(k) && t2 == PlaceAll(Active(t), k)
    requires forall x: string :: InTable(t, x) ==> SameStart(hashOf(x), k, Max(|Active(t)|, 1) - 1)
    ensures Findable(t2)
  {
    hide PlaceAll, Active, Filled, Pow2, SameStart, Reached;
    var es := Active(t);
    EntriesActive(t, hashOf);
    forall s: nat | s < |t2| && t2[s].key.Str? ensures Reached(t2, t2[s].hash, s) {
      PlacedOnly(es, k, s);
      var i: nat :| i < |es| && es[i] == t2[s];
      assert es[i] in t;
      assert InTable(t, es[i].key.s);
      FoundIf(es, k, i, |es| - 1);
      var s' :| 0 <= s' < |t2| && t2[s'] == es[i] && Reached(t2, es[i].hash, s');
      OnceEach(es, t2, k);
    }
  }

  lemma EntriesActive(t: seq<Slot>, hashOf: string -> nat)
    requires Tidy(t, hashOf)
    ensures Entries(Active(t)) && forall i :: 0 <= i < |Active(t)| ==> Active(t)[i].hash == hashOf(Active(t)[i].key.s)
  {
    hide Active;
    forall i, j | 0 <= i < j < |Active(t)| ensures Active(t)[i].key != Active(t)[j].key { ActiveOnce(t, i, j); }
  }

  /** Different slots hold different keys. */
  lemma OnceEach(es: seq<Slot>, t2: seq<Slot>, k: nat)
    requires k <= 32 && |es| <= Pow2(k) && Entries(es) && t2 == PlaceAll(es, k)
    ensures forall a, b :: 0 <= a < b < |t2| && t2[a].key.Str? ==> t2[a].key != t2[b].key
    decreases |es|
  {
    hide Place, Filled;
    if es != [] {
      var n := |es| - 1;
      OnceEach(es[..n], PlaceAll(es[..n], k), k);
      var last := PlaceLast(es, k);
      forall s: nat | s < |t2| ensures PlaceAll(es[..n], k)[s].key != es[n].key { PlacedOnly(es[..n], k, s); }
    }
  }
}
