/** Writing code lengths as tokens: runs are numbers written in base 4 or 8 with digits of their
    own (section 3.5 of RFC 7932). */
module RunCode {
  import opened Arith
  import opened PrefixCode
  import opened HuffmanTable
  import opened CodeLengths

  /** Tokens one after the other. */
  function Expand(x: Expansion, ts: seq<Token>): (y: Expansion)
    requires x.Valid() && ValidTokens(ts)
    ensures y.Valid() && x.lens <= y.lens && |y.lens| >= |x.lens| + |ts|
    decreases |ts|
  {
    if ts == [] then x else Extend(Expand(x, ts[..|ts| - 1]), ts[|ts| - 1])
  }

  predicate ValidTokens(ts: seq<Token>) {
    forall i :: 0 <= i < |ts| ==> ts[i].Valid()
  }

  lemma {:induction false} ExpandAppend(x: Expansion, a: seq<Token>, b: seq<Token>)
    requires x.Valid() && ValidTokens(a) && ValidTokens(b)
    ensures Expand(x, a + b) == Expand(Expand(x, a), b)
    decreases |b|
  {
    if b == [] {
      assert a + b == a;
    } else {
      var n := |b| - 1;
      assert (a + b)[..|a + b| - 1] == a + b[..n];
      ExpandAppend(x, a, b[..n]);
    }
  }

  /** The extra values of a run of `n`: what is left after the last digit, less 2, is the run
      before it. */
  function Digits(n: nat, base: nat): (es: seq<nat>)
    requires n >= 3 && base > 1
    ensures es != [] && forall i :: 0 <= i < |es| ==> es[i] < base
    decreases n
  {
    if n - 3 < base then [n - 3]
    else
      QuotientSmaller(n - 3, base);
      Digits((n - 3) / base + 2, base) + [(n - 3) % base]
  }

  lemma QuotientSmaller(m: nat, base: nat)
    requires m >= base > 1
    ensures 1 <= m / base && m / base + 2 < m + 3
  {
    var q := m / base;
    if q > m {
      MulSign(base - 1, q);
      assert false;
    }
  }

  function RunToken(previous: bool, e: nat): (t: Token)
    requires e < Base(previous)
    ensures t.Valid()
  {
    if previous then Prev(e) else Zeros(e)
  }

  /** The tokens of one kind with these extra values. */
  function Run(previous: bool, es: seq<nat>): (ts: seq<Token>)
    requires forall i :: 0 <= i < |es| ==> es[i] < Base(previous)
    ensures |ts| == |es| && ValidTokens(ts)
  {
    if es == [] then [] else Run(previous, es[..|es| - 1]) + [RunToken(previous, es[|es| - 1])]
  }

  lemma RunExpand(x: Expansion, previous: bool, es: seq<nat>, e: nat)
    requires x.Valid() && e < Base(previous) && forall i :: 0 <= i < |es| ==> es[i] < Base(previous)
    ensures Expand(x, Run(previous, es + [e])) == Extend(Expand(x, Run(previous, es)), RunToken(previous, e))
    ensures Expand(x, Run(previous, [])) == x
  {
    assert (es + [e])[..|es|] == es;
    var ts := Run(previous, es + [e]);
    assert ts[..|es|] == Run(previous, es);
  }

  function Base(previous: bool): nat { if previous then 4 else 8 }

  /** Not in the middle of a run of that kind. */
  predicate Fresh(x: Expansion, previous: bool) {
    if previous then !x.run.PrevRun? else !x.run.ZeroRun?
  }

  /** The state after a run of `n` lengths. */
  function After(x: Expansion, previous: bool, n: nat): Expansion {
    if previous then Expansion(x.lens + Times(x.prev, n), x.prev, PrevRun(n))
    else Expansion(x.lens + Times(0, n), x.prev, ZeroRun(n))
  }

  lemma {:induction false} TimesAdd(len: nat, m: nat, n: nat)
    ensures Times(len, m) + Times(len, n) == Times(len, m + n)
  {
    if n > 0 { TimesAdd(len, m, n - 1); }
  }

  /** One more token makes a run of `m` one of base * (m - 2) + 3 and its extra value. */
  lemma RunNext(x: Expansion, previous: bool, m: nat, e: nat)
    requires x.Valid() && m >= 3 && e < Base(previous)
    ensures var n := Base(previous) * (m - 2) + 3 + e;
      n >= m && After(x, previous, m).Valid()
      && Extend(After(x, previous, m), RunToken(previous, e)) == After(x, previous, n)
  {
    var n := Base(previous) * (m - 2) + 3 + e;
    var len := if previous then x.prev else 0;
    TimesAdd(len, m, n - m);
    assert x.lens + Times(len, m) + Times(len, n - m) == x.lens + (Times(len, m) + Times(len, n - m));
  }

  lemma RunFirst(x: Expansion, previous: bool, e: nat)
    requires x.Valid() && e < Base(previous) && Fresh(x, previous)
    ensures Extend(x, RunToken(previous, e)) == After(x, previous, 3 + e)
  {
  }

  /** The digits of a count write that count. */
  lemma {:induction false} DigitsRun(x: Expansion, previous: bool, n: nat)
    requires x.Valid() && Fresh(x, previous) && n >= 3
    ensures Expand(x, Run(previous, Digits(n, Base(previous)))) == After(x, previous, n)
    decreases n
  {
    hide Expand, Run, Extend, After;
    var base := Base(previous);
    if n - 3 < base {
      RunExpand(x, previous, [], n - 3);
      RunFirst(x, previous, n - 3);
      assert [] + [n - 3] == [n - 3];
    } else {
      var m := (n - 3) / base + 2;
      QuotientSmaller(n - 3, base);
      DigitsRun(x, previous, m);
      RunExpand(x, previous, Digits(m, base), (n - 3) % base);
      RunNext(x, previous, m, (n - 3) % base);
      assert base * ((n - 3) / base) + (n - 3) % base == n - 3;
    }
  }

  /** And nothing else does. */
  lemma {:induction false} RunDigits(x: Expansion, previous: bool, es: seq<nat>) returns (n: nat)
    requires x.Valid() && Fresh(x, previous) && es != [] && forall i :: 0 <= i < |es| ==> es[i] < Base(previous)
    ensures n >= 3 && es == Digits(n, Base(previous)) && Expand(x, Run(previous, es)) == After(x, previous, n)
    decreases |es|
  {
    hide Expand, Run, Extend, After;
    var base, last := Base(previous), |es| - 1;
    assert es == es[..last] + [es[last]];
    RunExpand(x, previous, es[..last], es[last]);
    if last == 0 {
      RunFirst(x, previous, es[0]);
      assert es[..last] == [];
      n := 3 + es[0];
    } else {
      var m := RunDigits(x, previous, es[..last]);
      RunNext(x, previous, m, es[last]);
      n := base * (m - 2) + 3 + es[last];
      QuotientIs(base, m - 2, es[last]);
    }
  }

  lemma QuotientIs(base: nat, q: nat, r: nat)
    requires r < base && q >= 1
    ensures (base * q + r) / base == q && (base * q + r) % base == r && base * q + r >= base
  {
    DivModUnique(base * q + r, base, q, r);
    MulSign(base, q - 1);
  }

  /** Runs are a numeration: every count from 3 on has exactly one nonempty sequence of tokens of
      a kind, and no sequence has any other count. */
  lemma RunsExact(x: Expansion, previous: bool, es: seq<nat>, n: nat)
    requires x.Valid() && Fresh(x, previous) && es != [] && forall i :: 0 <= i < |es| ==> es[i] < Base(previous)
    ensures var lens, len := Expand(x, Run(previous, es)).lens, if previous then x.prev else 0;
      && |lens| >= |x.lens| + 3 && lens == x.lens + Times(len, |lens| - |x.lens|)
      && (n >= 3 ==> (|lens| == |x.lens| + n <==> es == Digits(n, Base(previous))))
  {
    hide Expand, Run, Digits, Times;
    var m := RunDigits(x, previous, es);
    if n >= 3 { DigitsRun(x, previous, n); }
  }

  /** Lengths as an encoder sees them: single ones, runs of the last nonzero one, and zeros. */
  datatype Piece = Single(len: nat) | Again(n: nat) | Blank(n: nat) {
    predicate Valid() {
      match this
      case Single(len) => len <= MAX_LENGTH
      case Again(n) => n >= 3
      case Blank(n) => n >= 3
    }
  }

  /** Runs of a kind do not follow each other. */
  predicate ValidPieces(ps: seq<Piece>) {
    && (forall i :: 0 <= i < |ps| ==> ps[i].Valid())
    && (forall i :: 0 < i < |ps| ==> !(ps[i - 1].Again? && ps[i].Again?) && !(ps[i - 1].Blank? && ps[i].Blank?))
  }

  function LastUsed(ps: seq<Piece>): (l: nat) {
    if ps == [] then 8
    else if ps[|ps| - 1].Single? && ps[|ps| - 1].len > 0 then ps[|ps| - 1].len
    else LastUsed(ps[..|ps| - 1])
  }

  /** The lengths that the pieces stand for. */
  function Plain(ps: seq<Piece>): (lens: seq<nat>) {
    if ps == [] then []
    else
      var before := ps[..|ps| - 1];
      Plain(before) + match ps[|ps| - 1]
        case Single(len) => [len]
        case Again(n) => seq(n, _ => LastUsed(before))
        case Blank(n) => seq(n, _ => 0)
  }

  function PieceTokens(p: Piece): (ts: seq<Token>)
    requires p.Valid()
    ensures ValidTokens(ts)
  {
    match p
    case Single(len) => [Len(len)]
    case Again(n) => Run(true, Digits(n, 4))
    case Blank(n) => Run(false, Digits(n, 8))
  }

  function Tokens(ps: seq<Piece>): (ts: seq<Token>)
    requires ValidPieces(ps)
    ensures ValidTokens(ts)
    decreases |ps|
  {
    if ps == [] then [] else Tokens(ps[..|ps| - 1]) + PieceTokens(ps[|ps| - 1])
  }

  lemma {:induction false} TimesIs(len: nat, n: nat)
    ensures Times(len, n) == seq(n, _ => len)
  {
  }

  /** The run at the end of the pieces. */
  predicate EndsIn(run: CodeLengths.Run, ps: seq<Piece>) {
    if ps == [] then run == NoRun
    else
      match ps[|ps| - 1]
      case Single(_) => run == NoRun
      case Again(n) => run == PrevRun(n)
      case Blank(n) => run == ZeroRun(n)
  }

  /** What is written is read back: the tokens expand to the lengths. */
  lemma {:induction false} TokensPlain(ps: seq<Piece>)
    requires ValidPieces(ps)
    ensures var x := Expand(START, Tokens(ps)); x.lens == Plain(ps) && x.prev == LastUsed(ps) && EndsIn(x.run, ps)
    decreases |ps|
  {
    if ps != [] {
      var n := |ps| - 1;
      var before, p := ps[..n], ps[n];
      TokensPlain(before);
      var x := Expand(START, Tokens(before));
      ExpandAppend(START, Tokens(before), PieceTokens(p));
      if n > 0 { assert before[n - 1] == ps[n - 1]; }
      match p
      case Single(len) => assert Expand(x, []) == x && [Len(len)][..0] == [];
      case Again(k) =>
        DigitsRun(x, true, k);
        TimesIs(x.prev, k);
      case Blank(k) =>
        DigitsRun(x, false, k);
        TimesIs(0, k);
    }
  }
}
