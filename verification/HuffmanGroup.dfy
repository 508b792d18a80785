/** The trees of a group, one after the other in one allocation, read in steps. */
module HuffmanGroup {
  import opened Arith
  import opened PrefixCode
  import opened HuffmanTable
  import opened HuffmanRoot
  import opened HuffmanSimple
  import opened BitReader
  import opened CodeLengthCode
  import opened HuffmanReader

  datatype GroupOutcome = AllGot(texts: seq<Text>, rest: seq<Bit01>)
    | GroupBad | GroupWaiting(texts: seq<Text>, phase: Phase, rest: seq<Bit01>)

  /** Code after code, until there are `n`. */
  ghost function ResumeGroup(texts: seq<Text>, p: Phase, b: seq<Bit01>, n: nat, max: nat, limit: nat): (r: GroupOutcome)
    requires p.Valid() && max > 0
    ensures r.GroupWaiting? ==> r.phase.Valid()
    decreases n - |texts|
  {
    if |texts| >= n then AllGot(texts, b)
    else
      match Resume(p, b, max, limit)
      case Got(text, rest) => ResumeGroup(texts + [text], Begin, rest, n, max, limit)
      case Malformed => GroupBad
      case Waiting(q, rest) => GroupWaiting(texts, q, rest)
  }

  /** However the input is cut, the codes read are the same. */
  lemma {:induction false} ResumeGroupMore(texts: seq<Text>, p: Phase, b: seq<Bit01>, more: seq<Bit01>, n: nat,
                                           max: nat, limit: nat)
    requires p.Valid() && max > 0
    ensures ResumeGroup(texts, p, b + more, n, max, limit) ==
      match ResumeGroup(texts, p, b, n, max, limit)
      case AllGot(ts, rest) => AllGot(ts, rest + more)
      case GroupBad => GroupBad
      case GroupWaiting(ts, q, rest) => ResumeGroup(ts, q, rest + more, n, max, limit)
    decreases n - |texts|
  {
    hide Resume;
    if |texts| < n {
      ResumeMore(p, b, more, max, limit);
      match Resume(p, b, max, limit) {
        case Got(text, rest) => ResumeGroupMore(texts + [text], Begin, rest, more, n, max, limit);
        case _ =>
      }
    }
  }

  /** A tree in its part of the allocation. */
  datatype Tree = Tree(text: Text, start: nat, size: nat, code: Code)

  ghost predicate TreeAt(codes: seq<HuffmanCode>, t: Tree) {
    t.start + t.size <= |codes| && Gives(t.text, t.code) && t.code.Valid()
    && Describes(codes[t.start..t.start + t.size], t.code)
  }

  lemma TreeKept(codes: seq<HuffmanCode>, codes': seq<HuffmanCode>, t: Tree)
    requires TreeAt(codes, t) && |codes'| == |codes|
    requires forall j :: 0 <= j < t.start + t.size ==> codes'[j] == codes[j]
    ensures TreeAt(codes', t)
  {
    hide Gives, Describes;
    assert codes'[t.start..t.start + t.size] == codes[t.start..t.start + t.size];
  }

  /** The trees so far are intact, in the first `next` entries and in order. */
  ghost predicate Trees(codes: seq<HuffmanCode>, trees: seq<Tree>, next: nat) {
    forall i :: 0 <= i < |trees| ==> TreeAt(codes, trees[i]) && trees[i].start + trees[i].size <= next
  }

  /** A further tree behind them leaves them as they are. */
  lemma TreesMore(codes: seq<HuffmanCode>, codes': seq<HuffmanCode>, trees: seq<Tree>, next: nat, t: Tree)
    requires Trees(codes, trees, next) && t.start == next && TreeAt(codes', t) && |codes'| == |codes|
    requires forall j :: 0 <= j < next ==> codes'[j] == codes[j]
    ensures Trees(codes', trees + [t], next + t.size)
  {
    hide TreeAt;
    forall i | 0 <= i < |trees| ensures TreeAt(codes', trees[i]) {
      TreeKept(codes, codes', trees[i]);
    }
  }

  ghost function Texts(trees: seq<Tree>): (ts: seq<Text>)
    ensures |ts| == |trees|
  {
    seq(|trees|, i requires 0 <= i < |trees| => trees[i].text)
  }

  lemma RoomForOne(i: nat, n: nat, per: nat)
    requires i < n
    ensures i * per + per == (i + 1) * per <= n * per
  {
    MulSign(n - i, per);
    assert n * per == i * per + (n - i) * per;
  }

  class GroupReader {
    const reader: CodeReader
    const codes: array<HuffmanCode>
    const htrees: array<nat>
    const max: nat
    const limit: nat
    var inLoop: bool
    var next: nat
    var index: nat
    ghost var trees: seq<Tree>

    /** The allocation of `BrotliDecoderHuffmanTreeGroupInit`, and the trees read so far. */
    ghost predicate Valid()
      reads this, codes, htrees, reader, reader.val, reader.small, reader.collector, reader.collector.lens
      reads reader.collector.count
      reads reader.lengths, reader.lengths.lists, reader.lengths.histo, reader.lengths.next
    {
      && 0 < max <= SPACE && codes != reader.small && reader.Valid(limit) && Separate()
      && codes.Length == htrees.Length * (limit + TREE_SLACK)
      && (inLoop ==> index == |trees| <= htrees.Length && next <= index * (limit + TREE_SLACK))
      && (inLoop ==> Trees(codes[..], trees, next))
      && (inLoop ==> forall i :: 0 <= i < index ==> htrees[i] == trees[i].start)
    }

    constructor (n: nat, alphabetMax: nat, alphabetLimit: nat)
      requires 0 < alphabetMax <= SPACE && alphabetLimit < NO_SYMBOL
      ensures Valid() && !inLoop && htrees.Length == n && max == alphabetMax && limit == alphabetLimit
      ensures reader.PhaseOf(limit) == Begin
    {
      max, limit := alphabetMax, alphabetLimit;
      reader := new CodeReader(alphabetLimit);
      MulSign(n, alphabetLimit + TREE_SLACK);
      codes := new HuffmanCode[n * (alphabetLimit + TREE_SLACK)](_ => HuffmanCode(0, 0));
      htrees := new nat[n](_ => 0);
      inLoop, next, index, trees := false, 0, 0, [];
    }

    ghost predicate Separate()
      reads reader
    {
      htrees !in {reader.val, reader.collector.lens, reader.collector.count,
                  reader.lengths.lists, reader.lengths.histo, reader.lengths.next}
    }

    ghost function TreesRead(): seq<Tree>
      reads this
    {
      if inLoop then trees else []
    }

    /** `HuffmanTreeGroupDecode`: each tree is behind the one before it, all fit the group's
        allocation, and each is intact at the end. */
    method Decode(br: Reader) returns (result: Progress)
      requires Valid() && br.Valid()
      modifies this, codes, htrees, reader, reader.val, reader.small, reader.collector, reader.collector.lens
      modifies reader.collector.count
      modifies reader.lengths, reader.lengths.lists, reader.lengths.histo, reader.lengths.next, br`val, br`bitPos
      modifies br`nextIn, br`availIn
      ensures br.Valid() && br.nextIn + br.availIn == old(br.nextIn + br.availIn) && (old(br.Backed()) ==> br.Backed())
      ensures match ResumeGroup(Texts(old(TreesRead())), old(reader.PhaseOf(limit)), old(br.Stream()),
                                htrees.Length, max, limit)
        case AllGot(texts, rest) =>
          && result == Success && Valid() && !inLoop && Texts(trees) == texts && br.Stream() == rest
          && |trees| == htrees.Length && next <= codes.Length && Trees(codes[..], trees, next)
          && forall i :: 0 <= i < htrees.Length ==> htrees[i] == trees[i].start
        case GroupBad => result == Failed
        case GroupWaiting(texts, p, rest) =>
          && result == NeedsInput && Valid() && inLoop && Texts(trees) == texts && reader.PhaseOf(limit) == p
          && br.Stream() == rest && br.availIn == 0
    {
      hide BitsOf, BytesBits, BackedBy, Resume, ResumeGroup, Gives, Describes, reader.Valid, reader.PhaseOf, Trees;
      ghost var outcome := ResumeGroup(Texts(TreesRead()), reader.PhaseOf(limit), br.Stream(), htrees.Length, max,
                                       limit);
      if !inLoop {
        next, index, inLoop, trees := 0, 0, true, [];
        NoTrees(codes[..]);
      }
      result := DecodeTrees(br, outcome);
      if result == Success {
        GroupDone(Texts(trees), reader.PhaseOf(limit), br.Stream(), htrees.Length, max, limit);
        inLoop := false;
      }
    }

    /** The loop over the trees. */
    method DecodeTrees(br: Reader, ghost outcome: GroupOutcome) returns (result: Progress)
      requires Valid() && inLoop && br.Valid()
      requires outcome == ResumeGroup(Texts(trees), reader.PhaseOf(limit), br.Stream(), htrees.Length, max, limit)
      modifies this, codes, htrees, reader, reader.val, reader.small, reader.collector, reader.collector.lens
      modifies reader.collector.count
      modifies reader.lengths, reader.lengths.lists, reader.lengths.histo, reader.lengths.next, br`val, br`bitPos
      modifies br`nextIn, br`availIn
      ensures br.Valid() && br.nextIn + br.availIn == old(br.nextIn + br.availIn) && (old(br.Backed()) ==> br.Backed())
      ensures result == Success ==> Valid() && inLoop && index == htrees.Length
      ensures result == Success ==>
        outcome == ResumeGroup(Texts(trees), reader.PhaseOf(limit), br.Stream(), htrees.Length, max, limit)
      ensures result == NeedsInput ==>
        && Valid() && inLoop && outcome == GroupWaiting(Texts(trees), reader.PhaseOf(limit), br.Stream())
        && br.availIn == 0
      ensures result == Failed ==> outcome == GroupBad
    {
      hide BitsOf, BytesBits, BackedBy, Resume, ResumeGroup, Gives, Describes, reader.Valid, reader.PhaseOf, Trees;
      hide Texts;
      while index < htrees.Length
        invariant br.Valid() && br.nextIn + br.availIn == old(br.nextIn + br.availIn)
        invariant (old(br.Backed()) ==> br.Backed())
        invariant Valid() && inLoop
        invariant outcome == ResumeGroup(Texts(trees), reader.PhaseOf(limit), br.Stream(), htrees.Length, max, limit)
        decreases htrees.Length - index
      {
        result := DecodeTree(br, outcome);
        if result != Success {
          return;
        }
      }
      result := Success;
    }

    /** The next tree. */
    method DecodeTree(br: Reader, ghost outcome: GroupOutcome) returns (result: Progress)
      requires Valid() && inLoop && index < htrees.Length && br.Valid()
      requires outcome == ResumeGroup(Texts(trees), reader.PhaseOf(limit), br.Stream(), htrees.Length, max, limit)
      modifies this, codes, htrees, reader, reader.val, reader.small, reader.collector, reader.collector.lens
      modifies reader.collector.count
      modifies reader.lengths, reader.lengths.lists, reader.lengths.histo, reader.lengths.next, br`val, br`bitPos
      modifies br`nextIn, br`availIn
      ensures br.Valid() && br.nextIn + br.availIn == old(br.nextIn + br.availIn) && (old(br.Backed()) ==> br.Backed())
      ensures result == Success ==> Valid() && inLoop && index == old(index) + 1
      ensures result == Success ==>
        outcome == ResumeGroup(Texts(trees), reader.PhaseOf(limit), br.Stream(), htrees.Length, max, limit)
      ensures result == NeedsInput ==>
        && Valid() && inLoop && outcome == GroupWaiting(Texts(trees), reader.PhaseOf(limit), br.Stream())
        && br.availIn == 0
      ensures result == Failed ==> outcome == GroupBad
    {
      hide BitsOf, BytesBits, BackedBy, Resume, Gives, Describes, reader.Valid, reader.PhaseOf, Trees;
      hide Room, Reader.Stream, Reader.AccBits, Reader.Backed, Phase.Valid, Text.Valid, Code.Valid;
      RoomForOne(index, htrees.Length, limit + TREE_SLACK);
      ghost var before, first := codes[..], next;
      var size: nat;
      ghost var code;
      result, size, code := reader.ReadHuffmanCode(br, max, limit, codes, next);
      if result == Success {
        ghost var text := Resume(old(reader.PhaseOf(limit)), old(br.Stream()), max, limit).text;
        assert forall j :: 0 <= j < next ==> codes[..][j] == before[j];
        Append(before, size, text, code);
      }
    }

    /** Notes where the tree is. */
    method Append(ghost before: seq<HuffmanCode>, size: nat, ghost text: Text, ghost code: Code)
      requires Separate() && inLoop && index == |trees| < htrees.Length && Trees(before, trees, next)
      requires TreeAt(codes[..], Tree(text, next, size, code))
      requires codes.Length == htrees.Length * (limit + TREE_SLACK) && next <= index * (limit + TREE_SLACK)
      requires size <= limit + TREE_SLACK
      requires |before| == codes.Length && (forall j :: 0 <= j < next ==> codes[..][j] == before[j])
      requires forall i :: 0 <= i < index ==> htrees[i] == trees[i].start
      modifies `next, `index, `trees, htrees
      ensures index == |trees| == old(index) + 1 && Texts(trees) == Texts(old(trees)) + [text]
      ensures next <= index * (limit + TREE_SLACK)
      ensures Trees(codes[..], trees, next) && forall i :: 0 <= i < index ==> htrees[i] == trees[i].start
    {
      hide TreeAt, Trees;
      RoomForOne(index, htrees.Length, limit + TREE_SLACK);
      ghost var t := Tree(text, next, size, code);
      TreesMore(before, codes[..], trees, next, t);
      htrees[index] := next;
      next := next + size;
      index := index + 1;
      trees := trees + [t];
    }
  }

  lemma GroupDone(texts: seq<Text>, p: Phase, b: seq<Bit01>, n: nat, max: nat, limit: nat)
    requires p.Valid() && max > 0 && |texts| >= n
    ensures ResumeGroup(texts, p, b, n, max, limit) == AllGot(texts, b)
  {
  }

  lemma NoTrees(codes: seq<HuffmanCode>)
    ensures Trees(codes, [], 0)
  {
  }
}
