/** The perturbed probe of the string hash, whose tail i -> 5 * i + 1 has full period, so that it
    visits every slot; and the probe of resizing, which keeps more bits of the perturbation. */
module StrProbe {
  import opened Arith

  const UINT32 := 0x1_0000_0000
  const PERTURB_DIVISOR := 32

  /** `i -> 5 * i + 1`, without a bound. */
  function Iter(x: nat, n: nat): nat {
    if n == 0 then x else 5 * Iter(x, n - 1) + 1
  }

  lemma {:induction false} IterAdd(x: nat, a: nat, b: nat)
    ensures Iter(x, a + b) == Iter(Iter(x, a), b)
    decreases b
  {
    if b > 0 { IterAdd(x, a, b - 1); }
  }

  /** Multiplication under a name, so that its laws are applied by hand. */
  function Mul(a: int, b: int): int { a * b }

  lemma MulAdd(a: int, b: int, c: int)
    ensures Mul(a + b, c) == Mul(a, c) + Mul(b, c)
  {
  }

  lemma MulMul(a: int, b: int, c: int)
    ensures Mul(Mul(a, b), c) == Mul(a, Mul(b, c)) && Mul(a, b) == Mul(b, a)
  {
  }

  lemma MulFive(g: int, y: int)
    ensures Mul(5 * g + 1, y) == 5 * Mul(g, y) + y && Mul(0, y) == 0
  {
  }

  lemma MulTwice(g: int, y: int)
    ensures Mul(2 * g, y) == 2 * Mul(g, y) == Mul(g, 2 * y)
  {
  }

  lemma MulOdd(a: int, b: int)
    requires a % 2 == 1 && b % 2 == 1
    ensures Mul(a, b) % 2 == 1
  {
    hide Mul;
    var c := b / 2;
    assert b == 2 * c + 1;
    MulOne(a);
    MulMul(a, b, 1);
    MulAdd(2 * c, 1, a);
    MulTwice(c, a);
  }

  lemma MulOne(a: int)
    ensures Mul(1, a) == a == Mul(a, 1)
  {
  }

  /** Where the iteration from `x` is follows from where the one from 0 is. */
  lemma {:induction false} IterForm(x: nat, n: nat)
    ensures Iter(x, n) == x + Mul(Iter(0, n), 4 * x + 1)
  {
    hide Mul;
    if n == 0 {
      MulFive(0, 4 * x + 1);
    } else {
      IterForm(x, n - 1);
      MulFive(Iter(0, n - 1), 4 * x + 1);
    }
  }

  /** After 2^k steps from 0: an odd multiple of 2^k. */
  lemma {:induction false} IterPower(k: nat) returns (o: nat)
    ensures o % 2 == 1 && Iter(0, Pow2(k)) == Mul(Pow2(k), o)
  {
    if k == 0 {
      o := 1;
      assert Iter(0, 1) == 5 * Iter(0, 0) + 1;
    } else {
      var m := Pow2(k - 1);
      var p := IterPower(k - 1);
      var g := Iter(0, m);
      IterAdd(0, m, m);
      IterForm(g, m);
      o := Double(m, p, g);
    }
  }

  lemma Double(m: nat, p: nat, g: nat) returns (o: nat)
    requires g == Mul(m, p) && p % 2 == 1
    ensures o % 2 == 1 && g + Mul(g, 4 * g + 1) == Mul(2 * m, o)
  {
    MulOdd(p, 2 * g + 1);
    o := p * (2 * g + 1);
    var y := 2 * g + 1;
    assert o == Mul(p, y);
    hide Mul;
    MulMul(m, p, y);
    MulTwice(m, o);
    MulTwice(g, y);
    GoldenStep(g);
  }

  lemma GoldenStep(g: int)
    ensures g + Mul(g, 4 * g + 1) == Mul(g, 2 * (2 * g + 1))
  {
  }

  /** An odd multiple of m made even by another odd multiple. */
  lemma Combine(q0: int, m: int, o: int, y: int) returns (q: int)
    requires q0 % 2 == 1 && o % 2 == 1 && y % 2 == 1
    ensures Mul(q0, m) + Mul(Mul(m, o), y) == Mul(q, 2 * m)
  {
    hide Mul;
    MulOdd(o, y);
    var r := o * y;
    ProductIs(o, y);
    q := (q0 + r) / 2;
    MulMul(m, o, y);
    MulMul(m, r, 1);
    MulAdd(q0, r, m);
    MulTwice(q, m);
  }

  lemma ProductIs(a: int, b: int)
    ensures Mul(a, b) == a * b
  {
  }

  lemma PowerNext(k: nat)
    ensures Pow2(k) == if k == 0 then 1 else 2 * Pow2(k - 1)
  {
  }

  lemma IterNone(x: nat)
    ensures Iter(x, 0) == x
  {
  }

  /** Full period: modulo 2^k every number is reached within 2^k steps from anywhere. */
  lemma {:induction false} Reaches(k: nat, x: nat, t: int) returns (n: nat, q: int)
    ensures n < Pow2(k) && Iter(x, n) == t + Mul(q, Pow2(k))
  {
    PowerNext(k);
    hide Mul, Iter, Pow2;
    if k == 0 {
      n, q := 0, x - t;
      MulOne(q);
      IterNone(x);
    } else {
      var m := Pow2(k - 1);
      var n0, q0 := Reaches(k - 1, x, t);
      if q0 % 2 == 0 {
        n, q := n0, q0 / 2;
        MulTwice(q, m);
      } else {
        var o := IterPower(k - 1);
        IterAdd(x, n0, m);
        IterForm(Iter(x, n0), m);
        n := n0 + m;
        q := Combine(q0, m, o, 4 * Iter(x, n0) + 1);
      }
    }
  }

  datatype Walk = Walk(i: nat, perturb: nat)

  /** The probe's registers after `n` steps; `unsigned int` arithmetic wraps. */
  function WalkAt(hash: nat, size: nat, n: nat): (w: Walk)
    requires size > 0
    ensures w.i < UINT32 || (n == 0 && w.i < size)
  {
    if n == 0 then Walk(hash % size, hash % UINT32)
    else
      var w := WalkAt(hash, size, n - 1);
      Walk((5 * w.i + w.perturb + 1) % UINT32, w.perturb / PERTURB_DIVISOR)
  }

  /** The n-th slot of the probe. */
  function Probe(hash: nat, size: nat, n: nat): (s: nat)
    requires size > 0
    ensures s < size
  {
    WalkAt(hash, size, n).i % size
  }

  /** The perturbation is used up after seven steps. */
  lemma PerturbEnds(hash: nat, size: nat)
    requires size > 0
    ensures WalkAt(hash, size, 7).perturb == 0
  {
    assert WalkAt(hash, size, 1).perturb < 134217728;
    assert WalkAt(hash, size, 2).perturb < 4194304;
    assert WalkAt(hash, size, 3).perturb < 131072;
    assert WalkAt(hash, size, 4).perturb < 4096;
    assert WalkAt(hash, size, 5).perturb < 128;
    assert WalkAt(hash, size, 6).perturb < 4;
  }

  lemma WalkNext(hash: nat, size: nat, n: nat)
    requires size > 0
    ensures var w, v := WalkAt(hash, size, n), WalkAt(hash, size, n + 1);
      v.i == (5 * w.i + w.perturb + 1) % UINT32 && v.perturb == w.perturb / PERTURB_DIVISOR && v.i % UINT32 == v.i
  {
  }

  lemma IterNext(x: nat, n: nat)
    ensures Iter(x, n + 1) == 5 * Iter(x, n) + 1
  {
  }

  lemma {:induction false} WalkTail(hash: nat, size: nat, n: nat)
    requires size > 0
    ensures var w := WalkAt(hash, size, 7 + n);
      w.perturb == 0 && w.i == Iter(WalkAt(hash, size, 7).i, n) % UINT32
    decreases n
  {
    PerturbEnds(hash, size);
    hide WalkAt, Iter;
    if n == 0 {
      WalkNext(hash, size, 6);
      IterNone(WalkAt(hash, size, 7).i);
    } else {
      WalkTail(hash, size, n - 1);
      WalkNext(hash, size, 6 + n);
      IterNext(WalkAt(hash, size, 7).i, n - 1);
      ModStep(Iter(WalkAt(hash, size, 7).i, n - 1));
    }
  }

  lemma RemainderTwice(x: nat, m: nat)
    requires m > 0
    ensures (x % m) % m == x % m
  {
  }

  lemma ModStep(y: nat)
    ensures (5 * (y % UINT32) + 1) % UINT32 == (5 * y + 1) % UINT32
  {
    var q, r := y / UINT32, y % UINT32;
    var a := 5 * r + 1;
    assert 5 * y + 1 == (5 * q + a / UINT32) * UINT32 + a % UINT32;
    DivModUnique(5 * y + 1, UINT32, 5 * q + a / UINT32, a % UINT32);
  }

  lemma ModPower(y: nat, k: nat)
    requires k <= 32
    ensures (y % UINT32) % Pow2(k) == y % Pow2(k)
  {
    Power32();
    PowerSplit(k, 32 - k);
    ModModulo(y, Pow2(k), Pow2(32 - k));
  }

  /** Taking the remainder by a multiple first makes no difference. */
  lemma ModModulo(y: nat, m: nat, c: nat)
    requires m > 0 && c > 0
    ensures Mul(m, c) > 0 && (y % Mul(m, c)) % m == y % m
  {
    MulSign(c, m);
    var d := Mul(m, c);
    var q, r := y / d, y % d;
    assert y == Mul(q, d) + r;
    assert r == Mul(r / m, m) + r % m;
    assert Mul(Mul(q, c) + r / m, m) + r % m == y by {
      hide Mul;
      MulMul(q, c, m);
      MulMul(m, c, 1);
      MulAdd(Mul(q, c), r / m, m);
    }
    DivModUnique(y, m, Mul(q, c) + r / m, r % m);
  }

  lemma {:induction false} PowerSplit(a: nat, b: nat)
    ensures Pow2(a + b) == Mul(Pow2(a), Pow2(b))
    decreases a
  {
    if a > 0 {
      PowerSplit(a - 1, b);
      MulTwice(Pow2(a - 1), Pow2(b));
    }
  }

  lemma Power32()
    ensures Pow2(32) == UINT32
  {
    Pow2Values();
    PowerSplit(8, 8);
    PowerSplit(16, 16);
  }

  lemma Pow2Bits(n: nat)
    ensures Pow2(n) < 0x4000_0000 ==> n < 30
  {
    if n >= 30 {
      Pow2Values();
      PowerSplit(15, 15);
      Pow2Monotone(30, n);
    }
  }

  /** The probe visits every slot. */
  lemma VisitsAll(hash: nat, k: nat, slot: nat) returns (n: nat)
    requires k <= 32 && slot < Pow2(k)
    ensures Probe(hash, Pow2(k), n) == slot
  {
    var size := Pow2(k);
    var x := WalkAt(hash, size, 7).i;
    var q;
    n, q := Reaches(k, x, slot);
    WalkTail(hash, size, n);
    ModPower(Iter(x, n), k);
    DivModUnique(Iter(x, n), size, q, slot);
    n := 7 + n;
  }

  /** The registers of `frt_h_resize_lookup`, whose perturbation is not cut to 32 bits. */
  function WideWalkAt(hash: nat, size: nat, n: nat): (w: Walk)
    requires size > 0
    ensures w.i < UINT32 || (n == 0 && w.i < size)
  {
    if n == 0 then Walk(hash % size, hash)
    else
      var w := WideWalkAt(hash, size, n - 1);
      Walk((5 * w.i + w.perturb + 1) % UINT32, w.perturb / PERTURB_DIVISOR)
  }

  /** The n-th slot of the probe of resizing. */
  function WideProbe(hash: nat, size: nat, n: nat): (s: nat)
    requires size > 0
    ensures s < size
  {
    WideWalkAt(hash, size, n).i % size
  }

  /** The perturbation after `n` steps. */
  function Shifted(x: nat, n: nat): nat {
    if n == 0 then x else Shifted(x, n - 1) / PERTURB_DIVISOR
  }

  lemma {:induction false} ShiftedFirst(x: nat, n: nat)
    ensures Shifted(x, n + 1) == Shifted(x / PERTURB_DIVISOR, n)
  {
    if n > 0 { ShiftedFirst(x, n - 1); }
  }

  lemma {:induction false} PerturbIs(hash: nat, size: nat, n: nat)
    requires size > 0
    ensures WideWalkAt(hash, size, n).perturb == Shifted(hash, n)
    ensures WalkAt(hash, size, n).perturb == Shifted(hash % UINT32, n)
  {
    if n > 0 { PerturbIs(hash, size, n - 1); }
  }

  /** Some step has used all of a number up, and the one before it has not. */
  lemma {:induction false} ShiftedEnds(x: nat) returns (n: nat)
    requires x > 0
    ensures n > 0 && Shifted(x, n) == 0 && 0 < Shifted(x, n - 1) < PERTURB_DIVISOR
    decreases x
  {
    if x < PERTURB_DIVISOR {
      n := 1;
    } else {
      var m := ShiftedEnds(x / PERTURB_DIVISOR);
      ShiftedFirst(x, m);
      ShiftedFirst(x, m - 1);
      n := m + 1;
    }
  }

  lemma {:induction false} ShiftedNone(n: nat)
    ensures Shifted(0, n) == 0
  {
    if n > 0 { ShiftedNone(n - 1); }
  }

  lemma {:induction false} ShiftedOrder(x: nat, y: nat, n: nat)
    requires x <= y
    ensures Shifted(x, n) <= Shifted(y, n)
  {
    if n > 0 { ShiftedOrder(x, y, n - 1); }
  }

  lemma ModAdd(a: nat, b: nat, m: nat)
    requires m > 0
    ensures (Mul(a, m) + b) % m == b % m
  {
    MulSign(a, m);
    MulAdd(a, b / m, m);
    ProductIs(b / m, m);
    assert Mul(a + b / m, m) == (a + b / m) * m by { ProductIs(a + b / m, m); }
    DivModUnique(Mul(a, m) + b, m, a + b / m, b % m);
  }

  /** A step of a probe, modulo the size of the table. */
  lemma StepModulo(i: nat, p: nat, m: nat)
    requires m > 0
    ensures (5 * i + p + 1) % m == (5 * (i % m) + p % m + 1) % m
  {
    ProductIs(i / m, m);
    ProductIs(p / m, m);
    MulFive(i / m, m);
    var a, b := 5 * (i / m) + p / m, 5 * (i % m) + p % m + 1;
    assert Mul(a, m) == 5 * Mul(i / m, m) + Mul(p / m, m) by {
      ProductIs(a, m);
    }
    ModAdd(a, b, m);
  }

  /** From equal slots, the next ones are equal exactly when the perturbations are. */
  lemma StepAgrees(r: nat, x: nat, y: nat, m: nat)
    requires m > 0 && x < m && y < m
    ensures (5 * r + x + 1) % m == (5 * r + y + 1) % m <==> x == y
  {
    var a, b := 5 * r + x + 1, 5 * r + y + 1;
    if a % m == b % m && x != y {
      ProductIs(a / m, m);
      ProductIs(b / m, m);
      MulAdd(a / m, -(b / m), m);
      ProductIs(a / m - b / m, m);
      if a / m > b / m { MulSign(a / m - b / m - 1, m); } else { MulSign(b / m - a / m - 1, m); }
      assert false by { Multiple(a / m - b / m, m, a - b); }
    }
  }

  lemma Multiple(q: int, m: int, d: int)
    requires q * m == d && -m < d < m
    ensures d == 0
  {
  }

  /** The next slots of the two probes. */
  lemma ProbeSteps(hash: nat, k: nat, n: nat)
    requires k <= 32
    ensures var m := Pow2(k);
      && WideProbe(hash, m, n + 1) == (5 * WideProbe(hash, m, n) + Shifted(hash, n) % m + 1) % m
      && Probe(hash, m, n + 1) == (5 * Probe(hash, m, n) + Shifted(hash % UINT32, n) % m + 1) % m
  {
    var m := Pow2(k);
    PerturbIs(hash, m, n);
    var w, v := WideWalkAt(hash, m, n), WalkAt(hash, m, n);
    StepModulo(w.i, w.perturb, m);
    StepModulo(v.i, v.perturb, m);
    ModPower(5 * w.i + w.perturb + 1, k);
    ModPower(5 * v.i + v.perturb + 1, k);
  }

  /** The perturbations of step `n` agree as far as the table's size goes. */
  predicate StepSame(hash: nat, k: nat, n: nat) {
    Shifted(hash, n) % Pow2(k) == Shifted(hash % UINT32, n) % Pow2(k)
  }

  /** The two probes come to the same slot with step `n`. */
  predicate Together(hash: nat, k: nat, n: nat) {
    WideProbe(hash, Pow2(k), n) == Probe(hash, Pow2(k), n)
  }

  lemma TogetherNext(hash: nat, k: nat, n: nat)
    requires k <= 32 && Together(hash, k, n)
    ensures Together(hash, k, n + 1) <==> StepSame(hash, k, n)
  {
    hide WideProbe, Probe, Shifted, Pow2;
    ProbeSteps(hash, k, n);
    StepAgrees(Probe(hash, Pow2(k), n), Shifted(hash, n) % Pow2(k), Shifted(hash % UINT32, n) % Pow2(k), Pow2(k));
  }

  /** As long as the perturbations agree, the two probes go together. */
  lemma {:induction false} ProbesTogether(hash: nat, k: nat, n: nat)
    requires k <= 32 && forall m :: 0 <= m < n ==> StepSame(hash, k, m)
    ensures Together(hash, k, n)
  {
    hide StepSame;
    if n > 0 {
      ProbesTogether(hash, k, n - 1);
      TogetherNext(hash, k, n - 1);
    }
  }

  /** The probe of resizing is that of lookup if and only if no step's perturbation differs in
      the bits that count. */
  lemma ProbesAgree(hash: nat, k: nat)
    requires k <= 32
    ensures (forall n: nat :: Together(hash, k, n)) <==> forall n: nat :: StepSame(hash, k, n)
  {
    hide Together, StepSame;
    if forall n: nat :: Together(hash, k, n) {
      forall n: nat ensures StepSame(hash, k, n) {
        var next := n + 1;
        assert Together(hash, k, n) && Together(hash, k, next);
        TogetherNext(hash, k, n);
      }
    }
    if forall n: nat :: StepSame(hash, k, n) {
      forall n: nat ensures Together(hash, k, n) { ProbesTogether(hash, k, n); }
    }
  }

  /** For tables of 32 slots and more, that is so exactly for hashes of at most 32 bits. */
  lemma ProbesAgreeLarge(hash: nat, k: nat)
    requires 5 <= k <= 32
    ensures (forall n: nat :: Together(hash, k, n)) <==> hash < UINT32
  {
    ProbesAgree(hash, k);
    hide Together, Pow2, Shifted;
    if hash >= UINT32 {
      var n := LastDifference(hash);
      Pow2Values();
      Pow2Monotone(5, k);
      SmallRemainder(Shifted(hash, n), Pow2(k));
      SmallRemainder(Shifted(hash % UINT32, n), Pow2(k));
      assert !StepSame(hash, k, n);
    } else {
      assert hash % UINT32 == hash;
    }
  }

  lemma SmallRemainder(x: nat, m: nat)
    requires x < m
    ensures x % m == x
  {
  }

  /** A hash of more than 32 bits differs from its low 32 bits in some step's last five bits. */
  lemma LastDifference(hash: nat) returns (n: nat)
    requires hash >= UINT32
    ensures Shifted(hash, n) < PERTURB_DIVISOR && Shifted(hash % UINT32, n) < PERTURB_DIVISOR
    ensures Shifted(hash, n) != Shifted(hash % UINT32, n)
  {
    var m := ShiftedEnds(hash);
    ShiftedSix();
    ShiftedOrder(UINT32, hash, 6);
    ShiftedOrder(hash % UINT32, UINT32 - 1, 6);
    n := m - 1;
    if n >= 7 {
      ShiftedLater(hash % UINT32, 7, n);
    } else if n < 6 {
      ShiftedLater(hash, m, 6);
    }
  }

  lemma ShiftedNext(x: nat, n: nat)
    ensures Shifted(x, 0) == x && Shifted(x, n + 1) == Shifted(x, n) / PERTURB_DIVISOR
  {
  }

  lemma ShiftedSix()
    ensures Shifted(UINT32, 6) == 4 && Shifted(UINT32 - 1, 6) == 3
    ensures forall x: nat :: Shifted(x, 6) <= 3 ==> Shifted(x, 7) == 0
  {
    var x, y := UINT32, UINT32 - 1;
    ShiftedNext(x, 0);
    ShiftedNext(x, 1);
    ShiftedNext(x, 2);
    ShiftedNext(x, 3);
    ShiftedNext(x, 4);
    ShiftedNext(x, 5);
    ShiftedNext(y, 0);
    ShiftedNext(y, 1);
    ShiftedNext(y, 2);
    ShiftedNext(y, 3);
    ShiftedNext(y, 4);
    ShiftedNext(y, 5);
    forall x: nat | Shifted(x, 6) <= 3 ensures Shifted(x, 7) == 0 { ShiftedNext(x, 6); }
  }

  /** What is used up stays used up. */
  lemma {:induction false} ShiftedLater(x: nat, m: nat, n: nat)
    requires m <= n && Shifted(x, m) == 0
    ensures Shifted(x, n) == 0
    decreases n
  {
    if m < n { ShiftedLater(x, m, n - 1); }
  }

  lemma {:induction false} WideTail(hash: nat, size: nat, start: nat, n: nat)
    requires size > 0 && start > 0 && Shifted(hash, start) == 0
    ensures WideWalkAt(hash, size, start + n).i == Iter(WideWalkAt(hash, size, start).i, n) % UINT32
    decreases n
  {
    hide WideWalkAt, Iter;
    if n == 0 {
      WideNext(hash, size, start - 1);
      IterNone(WideWalkAt(hash, size, start).i);
    } else {
      WideTail(hash, size, start, n - 1);
      ShiftedLater(hash, start, start + n - 1);
      PerturbIs(hash, size, start + n - 1);
      WideNext(hash, size, start + n - 1);
      IterNext(WideWalkAt(hash, size, start).i, n - 1);
      ModStep(Iter(WideWalkAt(hash, size, start).i, n - 1));
    }
  }

  lemma WideNext(hash: nat, size: nat, n: nat)
    requires size > 0
    ensures var w, v := WideWalkAt(hash, size, n), WideWalkAt(hash, size, n + 1);
      v.i == (5 * w.i + w.perturb + 1) % UINT32 && v.i % UINT32 == v.i
  {
  }

  /** The probe of resizing visits every slot, too. */
  lemma WideVisitsAll(hash: nat, k: nat, slot: nat) returns (n: nat)
    requires k <= 32 && slot < Pow2(k)
    ensures WideProbe(hash, Pow2(k), n) == slot
  {
    var size, start := Pow2(k), 1;
    if hash > 0 {
      start := ShiftedEnds(hash);
    }
    var x := WideWalkAt(hash, size, start).i;
    var q;
    n, q := Reaches(k, x, slot);
    WideTail(hash, size, start, n);
    ModPower(Iter(x, n), k);
    DivModUnique(Iter(x, n), size, q, slot);
    n := start + n;
  }

  /** The n-th slot of either probe. */
  function Step(wide: bool, hash: nat, size: nat, n: nat): (s: nat)
    requires size > 0
    ensures s < size
  {
    if wide then WideProbe(hash, size, n) else Probe(hash, size, n)
  }

  /** The probe comes to `b` before it comes to `a`. */
  ghost predicate Before(wide: bool, hash: nat, size: nat, b: nat, a: nat)
    requires size > 0
  {
    exists n: nat :: BeforeBy(wide, hash, size, b, a, n)
  }

  ghost predicate BeforeBy(wide: bool, hash: nat, size: nat, b: nat, a: nat, n: nat)
    requires size > 0
  {
    Step(wide, hash, size, n) == b && forall m :: 0 <= m <= n ==> Step(wide, hash, size, m) != a
  }

  /** The slots a probe comes past on its way to `a`. */
  ghost function Passes(wide: bool, hash: nat, size: nat, a: nat): (p: set<nat>)
    requires size > 0
    ensures a !in p && forall b :: b in p ==> b < size
  {
    set b: nat | b < size && Before(wide, hash, size, b, a)
  }

  lemma {:induction false} FirstStep(wide: bool, hash: nat, size: nat, a: nat, n: nat) returns (m: nat)
    requires size > 0 && Step(wide, hash, size, n) == a
    ensures m <= n && Step(wide, hash, size, m) == a && forall l :: 0 <= l < m ==> Step(wide, hash, size, l) != a
  {
    hide Step;
    if l: nat :| l < n && Step(wide, hash, size, l) == a {
      m := FirstStep(wide, hash, size, a, l);
    } else {
      m := n;
    }
  }

  /** When a probe first comes to a slot, it has come past exactly the slots on its way. */
  lemma FirstVisit(wide: bool, hash: nat, k: nat, a: nat) returns (n: nat)
    requires k <= 32 && a < Pow2(k)
    ensures Step(wide, hash, Pow2(k), n) == a && forall m :: 0 <= m < n ==> Step(wide, hash, Pow2(k), m) != a
    ensures forall b: nat ::
      b in Passes(wide, hash, Pow2(k), a) <==> exists m: nat :: m < n && Step(wide, hash, Pow2(k), m) == b
  {
    var size := Pow2(k);
    if wide { n := WideVisitsAll(hash, k, a); } else { n := VisitsAll(hash, k, a); }
    n := FirstStep(wide, hash, size, a, n);
    hide Step;
    forall b: nat
      ensures b in Passes(wide, hash, size, a) <==> exists m: nat :: m < n && Step(wide, hash, size, m) == b
    {
      if m: nat :| m < n && Step(wide, hash, size, m) == b {
        assert BeforeBy(wide, hash, size, b, a, m);
      }
      if b in Passes(wide, hash, size, a) {
        var m: nat :| BeforeBy(wide, hash, size, b, a, m);
        assert m < n;
      }
    }
  }

  /** Up to the first `c` slots that resizing passes, lookup comes past no others. */
  ghost predicate SameStart(hash: nat, k: nat, c: nat) {
    forall a: nat :: a < Pow2(k) && |Passes(true, hash, Pow2(k), a)| <= c ==>
      Passes(false, hash, Pow2(k), a) <= Passes(true, hash, Pow2(k), a)
  }

  /** It is so when the two probes go together, as they do for hashes of at most 32 bits. */
  lemma TogetherStart(hash: nat, k: nat, c: nat)
    requires k <= 32 && forall n: nat :: Together(hash, k, n)
    ensures SameStart(hash, k, c)
  {
    hide WideProbe, Probe;
    forall n: nat ensures Step(true, hash, Pow2(k), n) == Step(false, hash, Pow2(k), n) {
      assert Together(hash, k, n);
    }
    hide Step;
    forall a: nat | a < Pow2(k) ensures Passes(false, hash, Pow2(k), a) <= Passes(true, hash, Pow2(k), a) {
      forall b | b in Passes(false, hash, Pow2(k), a) ensures b in Passes(true, hash, Pow2(k), a) {
        var n: nat :| BeforeBy(false, hash, Pow2(k), b, a, n);
        assert BeforeBy(true, hash, Pow2(k), b, a, n);
      }
    }
  }

  lemma {:induction false} ShortTogether(hash: nat, k: nat, n: nat)
    requires k <= 32 && hash < UINT32
    ensures Together(hash, k, n)
  {
    assert hash % UINT32 == hash;
    ProbesTogether(hash, k, n);
  }

  lemma ShortStart(hash: nat, k: nat, c: nat)
    requires k <= 32 && hash < UINT32
    ensures SameStart(hash, k, c)
  {
    forall n: nat ensures Together(hash, k, n) { ShortTogether(hash, k, n); }
    TogetherStart(hash, k, c);
  }
}
