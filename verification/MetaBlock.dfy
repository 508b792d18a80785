/** A meta-block from its bytes to its output: the commands read from input in any pieces are
    executed over the ring buffer, and the output is that of the reference run. */
module MetaBlock {
  import opened Arith
  import opened BitReader
  import opened Restart
  import opened Streaming
  import opened CommandReader
  import opened CommandWriter
  import Lz77
  import LzDecoder

  /** From `s` on, the commands that were executed meanwhile give the output of `t`. */
  ghost predicate Follows(h: Header, s: Live, t: Live) {
    && t.maxBackward == s.maxBackward && s.executed <= t.executed
    && t.out == Lz77.ExecuteAll(s.out, t.executed[|s.executed|..], s.maxBackward, h.words)
  }

  lemma FollowsSame(h: Header, s: Live, t: Live)
    requires t.maxBackward == s.maxBackward && t.executed == s.executed && t.out == s.out
    ensures Follows(h, s, t)
  {
    assert t.executed[|s.executed|..] == [];
  }

  lemma FollowsOne(h: Header, s: Live, c: Lz77.Command, t: Live)
    requires c.symbol.Valid() && s.out.status.Running?
    requires t.maxBackward == s.maxBackward && t.executed == s.executed + [c]
    requires t.out == Lz77.Execute(s.out, c, s.maxBackward, h.words)
    ensures Follows(h, s, t)
  {
    Lz77.ExecuteOne(s.out, c, s.maxBackward, h.words);
    assert t.executed[|s.executed|..] == [c];
  }

  lemma FollowsChain(h: Header, s: Live, t: Live, u: Live)
    requires Follows(h, s, t) && Follows(h, t, u)
    ensures Follows(h, s, u)
  {
    var a, b := t.executed[|s.executed|..], u.executed[|t.executed|..];
    assert u.executed[|s.executed|..] == a + b;
    Lz77.ExecuteAppend(s.out, a, b, s.maxBackward, h.words);
  }

  /** One transaction executes one command or none. */
  lemma ScriptFollows(h: Header, s: Live, vs: seq<nat>)
    requires Script(h, s, vs).Commit?
    ensures Follows(h, s, Script(h, s, vs).next)
  {
    hide Lz77.Execute, Follows, BeginScript, InnerScript, DistanceScript;
    match s.phase
    case Begin => BeginFollows(h, s, vs);
    case Inner => InnerFollows(h, s, vs);
    case PostDecode => DistanceFollows(h, s, vs);
    case Over => FollowsSame(h, s, s);
  }

  lemma BeginFollows(h: Header, s: Live, vs: seq<nat>)
    requires s.phase == Begin && BeginScript(h, s, vs).Commit?
    ensures Follows(h, s, BeginScript(h, s, vs).next)
  {
    hide Lz77.Execute, Follows;
    FollowsSame(h, s, BeginScript(h, s, vs).next);
  }

  lemma InnerFollows(h: Header, s: Live, vs: seq<nat>)
    requires s.phase == Inner && InnerScript(h, s, vs).Commit?
    ensures Follows(h, s, InnerScript(h, s, vs).next)
  {
    hide Lz77.Execute, Follows;
    var t := InnerScript(h, s, vs).next;
    if t.executed == s.executed {
      FollowsSame(h, s, t);
    } else {
      FollowsOne(h, s, Lz77.Command(s.literals + [vs[0] % 256], s.copy, Lz77.Last), t);
    }
  }

  lemma DistanceFollows(h: Header, s: Live, vs: seq<nat>)
    requires s.phase == PostDecode && DistanceScript(h, s, vs).Commit?
    ensures Follows(h, s, DistanceScript(h, s, vs).next)
  {
    hide Lz77.Execute, Follows;
    var t := DistanceScript(h, s, vs).next;
    if t.executed == s.executed {
      FollowsSame(h, s, t);
    } else {
      FollowsOne(h, s, t.executed[|s.executed|], t);
    }
  }

  lemma StepFollows(h: Header, s: Live, b: seq<Bit01>)
    requires Commands(h).Valid() && Commands(h).Parse(s, [], b).Some?
    ensures Follows(h, s, Commands(h).Parse(s, [], b).value.0)
  {
    var vs := Commands(h).ParseScript(s, [], b);
    ScriptFollows(h, s, vs);
  }

  /** Wherever a run stops, its output is that of the commands it has executed. */
  lemma {:induction false} RunFollows(h: Header, s: Live, b: seq<Bit01>)
    requires Commands(h).Valid() && Commands(h).Progress()
    ensures Follows(h, s, Commands(h).Run(s, b).0)
    decreases |b|, Commands(h).rank(s)
  {
    hide Follows, Script, Machine<Live>.Parse, Machine<Live>.Valid, Rank;
    var m := Commands(h);
    FollowsSame(h, s, s);
    if m.kind(s) == Reading && m.Parse(s, [], b).Some? {
      var (t, n) := m.Parse(s, [], b).value;
      StepFollows(h, s, b);
      RunFollows(h, t, b[n..]);
      FollowsChain(h, s, t, m.Run(t, b[n..]).0);
    }
  }

  class BlockDecoder {
    const h: Header
    const bits: StreamDecoder<Live>
    const lz: LzDecoder.Decoder
    var executed: nat
    var status: Lz77.Status

    /** The reader's buffer is not the decoder's. */
    ghost predicate Separate()
      reads this, bits, lz, lz.out, lz.dist
    {
      (bits.buffer as object) != (lz.out.ring as object?) && (bits.buffer as object) != (lz.dist.rb as object)
    }

    /** The ring buffer holds what the reference decoder has put out. */
    ghost predicate InStep(s: Live)
      reads this, lz, lz.out, lz.out.ring, lz.dist, lz.dist.rb
    {
      && lz.words == h.words && lz.out.window >= 1024 && s.maxBackward == Pow2(lz.out.windowBits) - 16
      && executed == |s.executed| && status == s.out.status
      && (status.Running? || status.Done? ==> lz.Valid() && lz.out.Fits(0) && lz.Abstract(status) == s.out)
    }

    ghost predicate Valid()
      reads this, bits, bits.br, bits.buffer, lz, lz.out, lz.out.ring, lz.dist, lz.dist.rb
    {
      && h.Valid() && Productive(h.words) && bits.m == Commands(h) && bits.Idle() && Separate()
      && InStep(bits.state)
    }

    /** The start of the commands of a meta-block whose ring is sized already. */
    constructor (h: Header, start: Live, lz: LzDecoder.Decoder)
      requires h.Valid() && Productive(h.words) && start.phase == Begin
      requires lz.Valid() && lz.out.Fits(0) && lz.words == h.words
      requires start.maxBackward == Pow2(lz.out.windowBits) - 16 && lz.Abstract(Lz77.Running) == start.out
      ensures Valid() && bits.state == start && bits.Pending() == [] && this.h == h && this.lz == lz
      ensures fresh(bits) && fresh(bits.br) && fresh(bits.buffer)
    {
      CommandsSound(h);
      this.h, this.lz := h, lz;
      executed, status := |start.executed|, start.out.status;
      bits := new StreamDecoder<Live>(Commands(h), start);
    }

    /** The commands read since, over the ring buffer. */
    method Execute(ghost s: Live, t: Live)
      requires InStep(s) && Follows(h, s, t)
      modifies `executed, `status, lz.out, lz.out.ring, lz.dist, lz.dist.rb
      ensures InStep(t) && lz.out.ring == old(lz.out.ring) && lz.dist.rb == old(lz.dist.rb)
    {
      hide Lz77.ExecuteAll;
      var commands := t.executed[executed..];
      executed := |t.executed|;
      if commands != [] && status.Running? {
        status := lz.ProcessCommands(commands);
      } else {
        ExecuteNothing(h, s, t);
      }
    }

    /** A piece of the input: everything is taken that the meta-block has, and the output is
        that of the reference run so far. */
    method Feed(chunk: seq<Byte>) returns (done: bool, rest: seq<Byte>)
      requires Valid()
      modifies this, bits`state, bits`bufferLength, bits.br, bits.buffer, lz.out, lz.out.ring, lz.dist, lz.dist.rb
      ensures Valid() && done == (bits.state.phase == Over) && lz.out.ring == old(lz.out.ring)
      ensures lz.dist.rb == old(lz.dist.rb)
      ensures Commands(h).Valid() && Commands(h).Progress()
      ensures Commands(h).Run(old(bits.state), old(bits.Pending()) + BytesBits(chunk))
         == (bits.state, bits.Pending() + BytesBits(rest))
      ensures !done ==> rest == [] && Stuck(Commands(h), bits.state, bits.Pending())
    {
      hide Machine<Live>.Run, Machine<Live>.Parse, Machine<Live>.SameFuture, Machine<Live>.Valid;
      hide Machine<Live>.Progress;
      hide InStep, Follows, Header.Valid, Productive, BytesBits, Script, Less, StreamDecoder<Live>.Pending;
      ghost var s, b := bits.state, bits.Pending() + BytesBits(chunk);
      var result, spare;
      result, rest, spare := bits.Decompress(chunk, 1);
      done := result == Outcome.Done;
      FutureStop(bits.m, s, b, bits.state, bits.Pending(), rest);
      RunFollows(h, s, b);
      Execute(s, bits.state);
    }

    /** All of the input, in any pieces, until the meta-block is over. */
    method FeedAll(chunks: seq<seq<Byte>>) returns (done: bool, unused: seq<Byte>)
      requires Valid() && chunks != []
      modifies this, bits`state, bits`bufferLength, bits.br, bits.buffer, lz.out, lz.out.ring, lz.dist, lz.dist.rb
      ensures Valid() && done == (bits.state.phase == Over) && lz.out.ring == old(lz.out.ring)
      ensures lz.dist.rb == old(lz.dist.rb)
      ensures Commands(h).Valid() && Commands(h).Progress()
      ensures Commands(h).Run(old(bits.state), old(bits.Pending()) + BytesBits(Concat(chunks)))
           == (bits.state, bits.Pending() + BytesBits(unused))
      ensures !done ==> unused == [] && Stuck(Commands(h), bits.state, bits.Pending())
    {
      hide Machine<Live>.Run, Machine<Live>.Parse, Machine<Live>.Valid, Machine<Live>.Progress, Concat, BytesBits;
      hide StreamDecoder<Live>.Pending, InStep, Follows, Header.Valid, Productive, Script, Stuck;
      ghost var m, s0, b0 := Commands(h), bits.state, bits.Pending() + BytesBits(Concat(chunks));
      ghost var s, b := s0, bits.Pending();
      CommandsSound(h);
      ConcatNext(chunks, 0);
      var rest;
      done, rest := Feed(chunks[0]);
      FeedFuture(m, s0, b0, s, b, chunks[0], Concat(chunks[1..]), bits.state, bits.Pending(), rest);
      var i := 1;
      while i < |chunks| && !done
        invariant Valid() && i <= |chunks| && done == (bits.state.phase == Over)
        invariant lz.out.ring == old(lz.out.ring) && lz.dist.rb == old(lz.dist.rb)
        invariant m.Run(s0, b0) == m.Run(bits.state, bits.Pending() + BytesBits(rest + Concat(chunks[i..])))
        invariant !done ==> rest == [] && Stuck(m, bits.state, bits.Pending())
      {
        ConcatNext(chunks, i);
        assert rest + Concat(chunks[i..]) == chunks[i] + Concat(chunks[i + 1..]);
        s, b := bits.state, bits.Pending();
        var chunk := chunks[i];
        done, rest := Feed(chunk);
        FeedFuture(m, s0, b0, s, b, chunk, Concat(chunks[i + 1..]), bits.state, bits.Pending(), rest);
        i := i + 1;
      }
      ConcatNext(chunks, |chunks|);
      unused := rest + Concat(chunks[i..]);
      RunStops(m, bits.state, bits.Pending(), unused);
    }
  }

  /** The run on a piece and on what follows it. */
  lemma FeedFuture(m: Machine<Live>, s0: Live, b0: seq<Bit01>, s: Live, b: seq<Bit01>, chunk: seq<Byte>,
                   more: seq<Byte>,
                   t: Live, c: seq<Bit01>, rest: seq<Byte>)
    requires m.Valid() && m.Progress() && m.Run(s0, b0) == m.Run(s, b + BytesBits(chunk + more))
    requires m.Run(s, b + BytesBits(chunk)) == (t, c + BytesBits(rest))
    ensures m.Run(s0, b0) == m.Run(t, c + BytesBits(rest + more))
  {
    hide Machine<Live>.Run, Machine<Live>.Valid, Machine<Live>.Progress, BytesBits;
    m.RunSplit(s, b + BytesBits(chunk), BytesBits(more));
    BitsAfter(b, chunk, more);
    BitsAfter(c, rest, more);
  }

  lemma RunStops(m: Machine<Live>, t: Live, c: seq<Bit01>, unused: seq<Byte>)
    requires m.Valid() && m.Progress() && (m.kind(t) == Finished || (unused == [] && Stuck(m, t, c)))
    ensures m.Run(t, c + BytesBits(unused)) == (t, c + BytesBits(unused))
    ensures m.kind(t) != Finished ==> unused == []
  {
    if unused == [] { assert c + BytesBits(unused) == c; }
  }

  /** The commands of a meta-block from input in pieces: where decoding stops, the output so
      far and the bits left over are those of the whole input at once. */
  method DecodeCommands(h: Header, start: Live, chunks: seq<seq<Byte>>)
    returns (end: Live, ended: bool, ghost rest: seq<Bit01>)
    requires h.Valid() && Productive(h.words) && chunks != []
    ensures Commands(h).Valid() && Commands(h).Progress()
    ensures (end, rest) == Commands(h).Run(start, BytesBits(Concat(chunks)))
    ensures ended == (end.phase == Over)
    ensures !ended ==> Stuck(Commands(h), end, rest) && |rest| < 64
    ensures forall w, ps, b :: Written(h, start, w, ps, BytesBits(Concat(chunks)), b) ==>
      ended && end.executed == start.executed + Listed(ps) && rest == b
  {
    CommandsSound(h);
    var d := new StreamDecoder<Live>(Commands(h), start);
    hide Machine<Live>.Run, Machine<Live>.Parse, Written;
    assert d.Pending() + BytesBits(Concat(chunks)) == BytesBits(Concat(chunks));
    var unused;
    ended, unused := d.DecompressAll(chunks, 1);
    end, rest := d.state, d.Pending() + BytesBits(unused);
    if !ended {
      StuckShort(d.m, end, d.Pending());
      assert rest == d.Pending();
    }
    AllWritten(h, start, BytesBits(Concat(chunks)));
  }

  /** The commands of a meta-block from their bytes to the output: in whatever pieces the
      input arrives, the ring buffer ends up with the output of the commands in it, as far as
      it goes, and the decoder is ready for the next meta-block when this one is complete. */
  method DecodeMetaBlock(h: Header, start: Live, lz: LzDecoder.Decoder, chunks: seq<seq<Byte>>)
    returns (status: Lz77.Status, ghost commands: seq<Lz77.Command>)
    requires h.Valid() && Productive(h.words) && start.phase == Begin && start.executed == [] && chunks != []
    requires lz.Valid() && lz.out.Fits(0) && lz.words == h.words
    requires start.maxBackward == Pow2(lz.out.windowBits) - 16 && lz.Abstract(Lz77.Running) == start.out
    modifies lz.out, lz.out.ring, lz.dist, lz.dist.rb
    ensures Commands(h).Valid() && Commands(h).Progress() && Lz77.ValidCommands(commands)
    ensures commands == Commands(h).Run(start, BytesBits(Concat(chunks))).0.executed
    ensures forall w, ps, b :: Written(h, start, w, ps, BytesBits(Concat(chunks)), b) ==> commands == Listed(ps)
    ensures var s := Lz77.ExecuteAll(old(lz.Abstract(Lz77.Running)), commands, Pow2(lz.out.windowBits) - 16, h.words);
      && status == s.status && (status.Running? || status.Done? ==> lz.Valid() && lz.Abstract(status) == s)
    ensures status.Done? ==> lz.BetweenBlocks()
  {
    hide Machine<Live>.Run, Machine<Live>.Parse, Machine<Live>.Valid, Machine<Live>.Progress, Concat, BytesBits, Script;
    hide Header.Valid, Productive, StreamDecoder<Live>.Idle, Stuck, Written;
    var d := new BlockDecoder(h, start, lz);
    assert [] + BytesBits(Concat(chunks)) == BytesBits(Concat(chunks));
    var done, unused := d.FeedAll(chunks);
    RunFollows(h, start, BytesBits(Concat(chunks)));
    status, commands := d.status, d.bits.state.executed;
    AllWritten(h, start, BytesBits(Concat(chunks)));
    assert commands[0..] == commands;
  }

  lemma ExecuteNothing(h: Header, s: Live, t: Live)
    requires Follows(h, s, t) && (t.executed == s.executed || !s.out.status.Running?)
    ensures t.out == s.out
  {
  }
}
