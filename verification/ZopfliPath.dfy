/** Paths of commands as the Zopfli parser records them: each reached position holds the last
    command of the best path to it, which leads back to an earlier reached position. */
module ZopfliPath {
  import opened Arith
  import opened Distances
  import opened EncoderReplay

  /** The last command to reach a position: literals, then a copy with its distance code. */
  datatype Hop = Stub | Hop(insert: nat, m: Match, code: nat)

  /** The input, where the block starts in it, and the cache at that point. */
  datatype Setting = Setting(src: Source, base: nat, cache: Cache)

  predicate Reached(h: seq<Hop>, j: nat) {
    j < |h| && (j == 0 || h[j].Hop?)
  }

  /** A command copies at least two bytes and leads back to a reached position. */
  predicate LinkedAt(h: seq<Hop>, j: nat)
    requires j < |h|
  {
    h[j].Hop? ==> h[j].m.len >= 2 && h[j].insert + h[j].m.len <= j && Reached(h, j - h[j].insert - h[j].m.len)
  }

  predicate Linked(h: seq<Hop>) {
    |h| > 0 && forall j :: 0 < j < |h| ==> LinkedAt(h, j)
  }

  /** Where the last command of a path starts. */
  function Start(h: seq<Hop>, j: nat): (p: nat)
    requires Linked(h) && Reached(h, j) && j > 0
    ensures p < j && Reached(h, p)
  {
    assert LinkedAt(h, j);
    j - h[j].insert - h[j].m.len
  }

  /** Where its copy starts, in the whole stream. */
  function CopyAt(st: Setting, h: seq<Hop>, j: nat): nat
    requires Linked(h) && Reached(h, j) && j > 0
  {
    assert LinkedAt(h, j);
    st.base + j - h[j].m.len
  }

  /** The distance cache after replaying the path to `j` command by command. */
  function PathCache(st: Setting, h: seq<Hop>, j: nat): Cache
    requires Linked(h) && Reached(h, j)
  {
    if j == 0 then st.cache
    else NextCache(st.src, CopyAt(st, h, j), h[j].m, h[j].code, PathCache(st, h, Start(h, j)))
  }

  /** The commands of the path; the first one also takes `extra` literals from before. */
  function Commands(h: seq<Hop>, j: nat, extra: nat): seq<Emitted>
    requires Linked(h) && Reached(h, j)
  {
    if j == 0 then []
    else
      var p := Start(h, j);
      Commands(h, p, extra)
        + [Emitted(h[j].insert + if p == 0 then extra else 0, h[j].m.len, h[j].m.lenCode, h[j].code)]
  }

  /** The command is a true match, and its code names the distance given the path's cache. */
  ghost predicate TrueAt(st: Setting, h: seq<Hop>, j: nat)
    requires Linked(h) && j < |h|
  {
    j > 0 && h[j].Hop? ==>
      var p := CopyAt(st, h, j);
      Truthful(st.src, p, h[j].m) && CodeFor(st.src, p, h[j].m, h[j].code, PathCache(st, h, Start(h, j)))
  }

  ghost predicate AllTrue(st: Setting, h: seq<Hop>)
    requires Linked(h)
  {
    forall j :: 0 <= j < |h| ==> TrueAt(st, h, j)
  }

  /** One more command of a path. */
  lemma StepReplays(st: Setting, h: seq<Hop>, j: nat, extra: nat, es: seq<Emitted>, insert: nat)
    requires Linked(h) && 0 < j && Reached(h, j) && TrueAt(st, h, j) && extra <= st.base
    requires insert == h[j].insert + (if Start(h, j) == 0 then extra else 0)
    requires TotalLength(es) == (if Start(h, j) == 0 then 0 else Start(h, j) + extra)
    requires ReplaysTo(st.src, st.base - extra, st.cache, es, PathCache(st, h, Start(h, j)))
    ensures var e := Emitted(insert, h[j].m.len, h[j].m.lenCode, h[j].code);
      && TotalLength(es + [e]) == j + extra
      && ReplaysTo(st.src, st.base - extra, st.cache, es + [e],
                    NextCache(st.src, CopyAt(st, h, j), h[j].m, h[j].code, PathCache(st, h, Start(h, j))))
  {
    hide Truthful, CodeFor, NextCache, ReplaysTo, ValidCache, PathCache, Linked, TotalLength, DictionaryStart;
    assert LinkedAt(h, j) by { LinkedHere(h, j); }
    TotalMore(es, Emitted(insert, h[j].m.len, h[j].m.lenCode, h[j].code));
    TruthfulFits(st.src, CopyAt(st, h, j), h[j].m);
    ReplaysMore(st.src, st.base - extra, st.cache, es, PathCache(st, h, Start(h, j)), insert, h[j].m, h[j].code);
  }

  lemma LinkedHere(h: seq<Hop>, j: nat)
    requires Linked(h) && 0 < j < |h|
    ensures LinkedAt(h, j)
  {
  }

  lemma NoLength()
    ensures TotalLength([]) == 0
  {
  }

  lemma PathNext(st: Setting, h: seq<Hop>, j: nat, extra: nat)
    requires Linked(h) && Reached(h, j)
    ensures if j == 0 then Commands(h, j, extra) == [] && PathCache(st, h, j) == st.cache
      else var p := Start(h, j);
        var e := Emitted(h[j].insert + (if p == 0 then extra else 0), h[j].m.len, h[j].m.lenCode, h[j].code);
        && Commands(h, j, extra) == Commands(h, p, extra) + [e]
        && PathCache(st, h, j) == NextCache(st.src, CopyAt(st, h, j), h[j].m, h[j].code, PathCache(st, h, p))
  {
    hide NextCache, CopyAt;
  }

  /** The commands of a path tile its stretch of input and replay to it. */
  lemma {:induction false} PathReplays(st: Setting, h: seq<Hop>, j: nat, extra: nat)
    requires Linked(h) && AllTrue(st, h) && Reached(h, j) && ValidCache(st.cache)
    requires extra <= st.base && st.base + j <= |st.src.stream|
    ensures TotalLength(Commands(h, j, extra)) == if j == 0 then 0 else j + extra
    ensures ReplaysTo(st.src, st.base - extra, st.cache, Commands(h, j, extra), PathCache(st, h, j))
  {
    PathNext(st, h, j, extra);
    hide Truthful, CodeFor, NextCache, ReplaysTo, ValidCache, Linked, Commands, PathCache, TotalLength, DictionaryStart;
    hide CopyAt;
    if j == 0 {
      ReplaysNone(st.src, st.base - extra, st.cache);
      assert TotalLength([]) == 0 by { NoLength(); }
    } else {
      var p := Start(h, j);
      PathReplays(st, h, p, extra);
      assert TrueAt(st, h, j);
      StepReplays(st, h, j, extra, Commands(h, p, extra), h[j].insert + if p == 0 then extra else 0);
    }
  }

  /** The path to `j` does not depend on what comes after `j`. */
  lemma {:induction false} PathFrame(st: Setting, h: seq<Hop>, h': seq<Hop>, j: nat, extra: nat)
    requires Linked(h) && Linked(h') && Reached(h, j) && |h'| == |h| && forall i :: 0 < i <= j ==> h'[i] == h[i]
    ensures Reached(h', j) && PathCache(st, h', j) == PathCache(st, h, j)
    ensures Commands(h', j, extra) == Commands(h, j, extra)
  {
    if j > 0 { PathFrame(st, h, h', Start(h, j), extra); }
  }

  /** Whether the command enters its distance into the cache. */
  predicate Pushes(st: Setting, h: seq<Hop>, j: nat)
    requires Linked(h) && Reached(h, j) && j > 0
  {
    h[j].m.distance <= DictionaryStart(st.src, CopyAt(st, h, j)) && h[j].code > 0
  }

  /** The last position on the path to `j` whose command pushes; 0 if there is none. */
  function Shortcut(st: Setting, h: seq<Hop>, j: nat): (p: nat)
    requires Linked(h) && Reached(h, j)
    ensures p <= j && Reached(h, p) && (p > 0 ==> Pushes(st, h, p))
  {
    if j == 0 then 0 else if Pushes(st, h, j) then j else Shortcut(st, h, Start(h, j))
  }

  /** The distances pushed along the path to `j`, newest first. */
  function Recent(st: Setting, h: seq<Hop>, j: nat): seq<int>
    requires Linked(h) && Reached(h, j)
  {
    if j == 0 then []
    else if Pushes(st, h, j) then [h[j].m.distance] + Recent(st, h, Start(h, j))
    else Recent(st, h, Start(h, j))
  }

  /** The cache holds the newest distances pushed, before those it started with. */
  lemma {:induction false} RecentCache(st: Setting, h: seq<Hop>, j: nat)
    requires Linked(h) && Reached(h, j)
    ensures PathCache(st, h, j) == (Recent(st, h, j) + st.cache)[..4]
  {
    if j == 0 {
      assert [] + st.cache == st.cache;
    } else {
      RecentCache(st, h, Start(h, j));
      var r := Recent(st, h, Start(h, j));
      if Pushes(st, h, j) {
        assert [h[j].m.distance] + r + st.cache == [h[j].m.distance] + (r + st.cache);
      }
    }
  }

  /** Shortcuts skip exactly the commands that push nothing. */
  lemma {:induction false} RecentShortcut(st: Setting, h: seq<Hop>, j: nat)
    requires Linked(h) && Reached(h, j)
    ensures var p := Shortcut(st, h, j);
      Recent(st, h, j) == if p == 0 then [] else [h[p].m.distance] + Recent(st, h, Start(h, p))
  {
    if j > 0 && !Pushes(st, h, j) { RecentShortcut(st, h, Start(h, j)); }
  }

  lemma {:induction false} ShortcutFrame(st: Setting, h: seq<Hop>, h': seq<Hop>, j: nat)
    requires Linked(h) && Linked(h') && Reached(h, j) && |h'| == |h| && forall i :: 0 < i <= j ==> h'[i] == h[i]
    ensures Reached(h', j) && Shortcut(st, h', j) == Shortcut(st, h, j)
  {
    if j > 0 { ShortcutFrame(st, h, h', Start(h, j)); }
  }

  /** A new command to position `t`, from a position that comes before everything that is
      still changing, keeps all paths true. */
  lemma HopUpdate(st: Setting, h: seq<Hop>, t: nat, hop: Hop, done: nat)
    requires Linked(h) && AllTrue(st, h) && 0 < done <= t < |h| && Frozen(h, done)
    requires hop.Hop? && hop.m.len >= 2 && hop.insert + hop.m.len <= t
    requires t - hop.insert - hop.m.len < done && Reached(h, t - hop.insert - hop.m.len)
    requires Truthful(st.src, st.base + t - hop.m.len, hop.m)
    requires CodeFor(st.src, st.base + t - hop.m.len, hop.m, hop.code, PathCache(st, h, t - hop.insert - hop.m.len))
    ensures var h' := h[t := hop]; Linked(h') && AllTrue(st, h') && Frozen(h', done)
  {
    hide Truthful, CodeFor;
    var h' := h[t := hop];
    forall j | 0 < j < |h'| ensures LinkedAt(h', j) {
      assert LinkedAt(h, j);
    }
    forall j | 0 <= j < |h'| ensures TrueAt(st, h', j) {
      if j > 0 && h'[j].Hop? {
        assert TrueAt(st, h, j) && FrozenAt(h, done, j) && LinkedAt(h, j) && LinkedAt(h', j);
        PathFrame(st, h, h', Start(h', j), 0);
      }
    }
    forall j | 0 < j < |h'| ensures FrozenAt(h', done, j) {
      assert FrozenAt(h, done, j);
    }
  }

  /** Every command starts at one of the first `done` positions. */
  predicate Frozen(h: seq<Hop>, done: nat) {
    forall j :: 0 < j < |h| ==> FrozenAt(h, done, j)
  }

  predicate FrozenAt(h: seq<Hop>, done: nat, j: nat)
    requires j < |h|
  {
    h[j].Hop? ==> j < done + h[j].insert + h[j].m.len
  }

  /** The positions on the path to `j`. */
  function Positions(h: seq<Hop>, j: nat): (ps: seq<nat>)
    requires Linked(h) && Reached(h, j)
    ensures ps != [] && ps[0] == 0 && ps[|ps| - 1] == j
  {
    if j == 0 then [0] else Positions(h, Start(h, j)) + [j]
  }

  lemma {:induction false} PositionsLinks(h: seq<Hop>, j: nat, k: nat)
    requires Linked(h) && Reached(h, j) && k < |Positions(h, j)|
    ensures var p := Positions(h, j)[k];
      && p <= j && (p == j <==> k == |Positions(h, j)| - 1) && Reached(h, p)
      && Positions(h, p) == Positions(h, j)[..k + 1]
      && (k > 0 ==> p > 0 && Start(h, p) == Positions(h, j)[k - 1])
  {
    var ps := Positions(h, j);
    if k == |ps| - 1 {
      assert ps[..k + 1] == ps;
    } else {
      PositionsLinks(h, Start(h, j), k);
      assert ps[..k + 1] == Positions(h, Start(h, j))[..k + 1];
    }
  }

  lemma {:induction false} CommandsCount(h: seq<Hop>, j: nat, extra: nat)
    requires Linked(h) && Reached(h, j)
    ensures |Commands(h, j, extra)| == |Positions(h, j)| - 1
  {
    if j > 0 { CommandsCount(h, Start(h, j), extra); }
  }
}
