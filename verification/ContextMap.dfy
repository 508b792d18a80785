/** The lazily re-initialised inverse move-to-front transform of context maps (section 7.3 of
    RFC 7932). */
module ContextMap {
  import opened Arith

  const VALUES := 256

  /** Entry `k` moved to the front. */
  function Front(list: seq<nat>, k: nat): (r: seq<nat>)
    requires k < |list|
    ensures |r| == |list|
  {
    [list[k]] + list[..k] + list[k + 1..]
  }

  /** The values that indices name, each moved to the front once named. */
  function Inverse(list: seq<nat>, v: seq<nat>): (r: seq<nat>)
    requires forall i :: 0 <= i < |v| ==> v[i] < |list|
    ensures |r| == |v|
    decreases |v|
  {
    if v == [] then [] else [list[v[0]]] + Inverse(Front(list, v[0]), v[1..])
  }

  function IndexOf(list: seq<nat>, x: nat): (k: nat)
    requires x in list
    ensures k < |list| && list[k] == x && x !in list[..k]
  {
    if list[0] == x then 0 else
      assert list == [list[0]] + list[1..];
      var k := IndexOf(list[1..], x);
      assert list[..k + 1] == [list[0]] + list[1..][..k];
      k + 1
  }

  /** The forward transform of an encoder. */
  function Forward(list: seq<nat>, values: seq<nat>): (r: seq<nat>)
    requires forall x :: x in values ==> x in list
    ensures |r| == |values| && forall i :: 0 <= i < |r| ==> r[i] < |list|
    decreases |values|
  {
    if values == [] then []
    else
      var k := IndexOf(list, values[0]);
      FrontSame(list, k);
      [k] + Forward(Front(list, k), values[1..])
  }

  lemma FrontSame(list: seq<nat>, k: nat)
    requires k < |list|
    ensures multiset(Front(list, k)) == multiset(list)
    ensures forall x :: x in Front(list, k) <==> x in list
  {
    assert list == list[..k] + [list[k]] + list[k + 1..];
    assert forall x :: x in multiset(list) <==> x in list;
    assert forall x :: x in multiset(Front(list, k)) <==> x in Front(list, k);
  }

  /** Inverting the forward transform gives the values back. */
  lemma {:induction false} InverseForward(list: seq<nat>, values: seq<nat>)
    requires forall x :: x in values ==> x in list
    ensures Inverse(list, Forward(list, values)) == values
    decreases |values|
  {
    if values != [] {
      var k := IndexOf(list, values[0]);
      FrontSame(list, k);
      InverseForward(Front(list, k), values[1..]);
      assert Forward(list, values)[1..] == Forward(Front(list, k), values[1..]);
    }
  }

  /** On a list without duplicates, so does transforming what was inverted. */
  lemma {:induction false} ForwardInverse(list: seq<nat>, v: seq<nat>)
    requires (forall i :: 0 <= i < |v| ==> v[i] < |list|) && forall i, j :: 0 <= i < j < |list| ==> list[i] != list[j]
    ensures (forall x :: x in Inverse(list, v) ==> x in list) && Forward(list, Inverse(list, v)) == v
    decreases |v|
  {
    if v != [] {
      var next := Front(list, v[0]);
      FrontSame(list, v[0]);
      FrontDistinct(list, v[0]);
      ForwardInverse(next, v[1..]);
      var r := Inverse(list, v);
      assert r[1..] == Inverse(next, v[1..]);
      assert IndexOf(list, list[v[0]]) == v[0];
    }
  }

  lemma FrontDistinct(list: seq<nat>, k: nat)
    requires k < |list| && forall i, j :: 0 <= i < j < |list| ==> list[i] != list[j]
    ensures forall i, j :: 0 <= i < j < |list| ==> Front(list, k)[i] != Front(list, k)[j]
  {
  }

  /** Indices below `n` name values below `n`. */
  lemma {:induction false} InverseBounded(list: seq<nat>, v: seq<nat>, n: nat)
    requires n <= |list| && (forall j :: 0 <= j < n ==> list[j] < n) && forall i :: 0 <= i < |v| ==> v[i] < n
    ensures forall i :: 0 <= i < |v| ==> Inverse(list, v)[i] < n
    decreases |v|
  {
    if v != [] {
      InverseBounded(Front(list, v[0]), v[1..], n);
    }
  }

  function Identity(): (r: seq<nat>)
    ensures |r| == VALUES && forall j :: 0 <= j < VALUES ==> r[j] == j
  {
    seq(VALUES, j => j)
  }

  /** Bitwise or. */
  function Or(a: nat, b: nat): (r: nat)
    ensures r >= a && r >= b
    decreases a + b
  {
    if a == 0 && b == 0 then 0 else 2 * Or(a / 2, b / 2) + if a % 2 == 1 || b % 2 == 1 then 1 else 0
  }

  lemma {:induction false} OrBelow(a: nat, b: nat, n: nat)
    requires a < Pow2(n) && b < Pow2(n)
    ensures Or(a, b) < Pow2(n)
    decreases n
  {
    if n > 0 { OrBelow(a / 2, b / 2, n - 1); }
  }

  class MoveToFront {
    /** Entry `j` of the list is at `4 + j`; the byte before entry 0 is addressable. */
    const mtf: array<nat>
    var upperBound: nat

    /** Words beyond the remembered bound are as initialised. */
    ghost predicate Valid()
      reads this, mtf
    {
      mtf.Length == 4 + VALUES && upperBound < 64
      && forall p :: 8 + 4 * upperBound <= p < mtf.Length ==> mtf[p] == p - 4
    }

    constructor (storage: array<nat>)
      requires storage.Length == 4 + VALUES
      ensures Valid() && mtf == storage
    {
      mtf, upperBound := storage, 63;
    }

    ghost function List(): (r: seq<nat>)
      requires mtf.Length == 4 + VALUES
      reads mtf
      ensures |r| == VALUES
    {
      mtf[4..]
    }

    /** One four-byte store of consecutive values. */
    method StoreWord(i: nat, first: nat)
      requires mtf.Length == 4 + VALUES && i < 64
      modifies mtf
      ensures forall j :: 0 <= j < mtf.Length ==>
        mtf[j] == if 4 + 4 * i <= j < 8 + 4 * i then first + j - 4 - 4 * i else old(mtf[j])
    {
      mtf[4 + 4 * i], mtf[5 + 4 * i], mtf[6 + 4 * i], mtf[7 + 4 * i] := first, first + 1, first + 2, first + 3;
    }

    /** Re-initialises the words that could have been changed, and at least two. */
    method Reinitialize()
      requires Valid()
      modifies mtf
      ensures Valid() && List() == Identity()
    {
      StoreWord(0, 0);
      var pattern := 4;
      StoreWord(1, pattern);
      var i := 2;
      while i <= upperBound
        invariant 2 <= i <= 64 && pattern == 4 * (i - 1) && (i <= upperBound + 1 || i == 2)
        invariant forall p :: 4 <= p < 4 + 4 * i ==> mtf[p] == p - 4
        invariant forall p :: 8 + 4 * upperBound <= p < mtf.Length ==> mtf[p] == p - 4
      {
        pattern := pattern + 4;
        StoreWord(i, pattern);
        i := i + 1;
      }
    }

    /** Moves the entry at `index` to the front through the byte before the list. */
    method ToFront(index: nat)
      requires mtf.Length == 4 + VALUES && index < VALUES
      modifies mtf
      ensures List() == Front(old(List()), index)
      ensures forall p :: 4 + index < p < mtf.Length ==> mtf[p] == old(mtf[p])
    {
      mtf[3] := mtf[4 + index];
      var k: int := index - 1;
      mtf[4 + k + 1] := mtf[4 + k];
      while k >= 0
        invariant -1 <= k < index && mtf[3] == old(mtf[4 + index])
        invariant forall p :: 4 < p <= 4 + index && k + 5 <= p ==> mtf[p] == old(mtf[p - 1])
        invariant k == -1 ==> mtf[4] == old(mtf[4 + index])
        invariant forall p :: 4 <= p <= 4 + k || 4 + index < p < mtf.Length ==> mtf[p] == old(mtf[p])
      {
        k := k - 1;
        mtf[4 + k + 1] := mtf[4 + k];
      }
    }

    /** One index replaced by the value it names. */
    method TransformOne(v: array<nat>, i: nat)
      requires mtf.Length == 4 + VALUES && upperBound < 256 && v != mtf && i < v.Length && v[i] < VALUES
      requires forall p :: 4 + upperBound < p < mtf.Length ==> mtf[p] == p - 4
      modifies `upperBound, mtf, v
      ensures v[..] == old(v[..])[i := old(List())[old(v[i])]] && List() == Front(old(List()), old(v[i]))
      ensures upperBound < 256
      ensures forall p :: 4 + upperBound < p < mtf.Length ==> mtf[p] == p - 4
    {
      hide Or;
      var index := v[i];
      var value := mtf[4 + index];
      Pow2Values();
      OrBelow(upperBound, index, 8);
      upperBound := Or(upperBound, index);
      v[i] := value;
      ToFront(index);
    }

    /** `InverseMoveToFrontTransform`: the same as starting from a fresh list. */
    method InverseTransform(v: array<nat>)
      requires Valid() && v != mtf && forall i :: 0 <= i < v.Length ==> v[i] < VALUES
      modifies this, mtf, v
      ensures Valid() && v[..] == Inverse(Identity(), old(v[..]))
    {
      hide Inverse, Front, Identity;
      Reinitialize();
      upperBound := 0;
      ghost var before := v[..];
      assert before[0..] == before;
      for i := 0 to v.Length
        invariant mtf.Length == 4 + VALUES && upperBound < 256 && v[i..] == before[i..]
        invariant v[..i] + Inverse(List(), before[i..]) == Inverse(Identity(), before)
        invariant forall p :: 4 + upperBound < p < mtf.Length ==> mtf[p] == p - 4
      {
        assert v[i] == before[i..][0];
        InverseStep(List(), before, i);
        ghost var done, value := v[..i], List()[v[i]];
        TransformOne(v, i);
        assert v[..i + 1] == done + [value];
      }
      InverseNone(List());
      assert before[v.Length..] == [];
      upperBound := upperBound / 4;
      assert v[..v.Length] == v[..];
    }
  }

  lemma InverseStep(list: seq<nat>, v: seq<nat>, i: nat)
    requires i < |v| && forall k :: 0 <= k < |v| ==> v[k] < |list|
    ensures Inverse(list, v[i..]) == [list[v[i]]] + Inverse(Front(list, v[i]), v[i + 1..])
  {
    assert v[i..][1..] == v[i + 1..];
  }

  lemma InverseNone(list: seq<nat>)
    ensures Inverse(list, []) == []
  {
  }

  function Zeros(n: nat): (s: seq<nat>)
    ensures |s| == n && forall i :: 0 <= i < n ==> s[i] == 0
  {
    seq(n, _ => 0)
  }
}
