/** The decoder's command loop over the ring buffer, which agrees with the reference
    decoder of `Lz77` command by command and emits what that decoder produces. */
module LzDecoder {
  import opened Arith
  import opened Wrappers
  import opened Distances
  import opened Lz77
  import opened RingBuffer

  class Decoder {
    const out: OutputRing
    const dist: DistanceRing
    const words: Dictionary

    ghost predicate Separate()
      reads this, out, dist
    {
      (out.ring as object?) != (dist.rb as object?)
    }

    constructor (windowBits: nat, canny: bool, words: Dictionary)
      requires 10 <= windowBits && Bounded(words)
      ensures fresh(out) && fresh(dist) && fresh(dist.rb)
      ensures BetweenBlocks() && out.windowBits == windowBits && this.words == words
      ensures Abstract(Done) == State([], INITIAL, 0, Done)
    {
      out := new OutputRing(windowBits, canny);
      dist := new DistanceRing();
      this.words := words;
    }

    /** Between commands. */
    ghost predicate Valid()
      reads this, out, out.ring, dist, dist.rb
    {
      && out.Ready() && out.size == out.newSize && Separate()
      && dist.Valid() && dist.context == 0 && Positive(dist.View())
      && Bounded(words)
    }

    /** The state of the reference decoder this decoder is in. */
    ghost function Abstract(status: Status): State
      requires dist.Valid()
      reads this, out, dist, dist.rb
    {
      State(out.History, dist.View(), out.remaining, status)
    }

    /** The literals of a command, which are charged to the meta-block before they are put. */
    method DecodeLiterals(literals: seq<Byte>) returns (ok: bool)
      requires Valid() && out.remaining > 0 && out.Fits(0)
      modifies out, out.ring
      ensures out.ring == old(out.ring) && out.remaining == old(out.remaining) - |literals|
      ensures ok ==> Valid() && out.History == old(out.History) + literals && out.Fits(0)
      ensures !ok ==> out.remaining < 0
    {
      hide RingHolds, Turns;
      out.remaining := out.remaining - |literals|;
      ok := PutLiterals(literals);
    }

    /** Literal after literal; the ring is flushed whenever it fills up. */
    method PutLiterals(literals: seq<Byte>) returns (ok: bool)
      requires Valid() && out.Fits(|literals|) && out.pos < out.size
      modifies out, out.ring
      ensures out.ring == old(out.ring) && out.remaining == old(out.remaining)
      ensures ok ==> Valid() && out.History == old(out.History) + literals && out.Fits(0)
      ensures !ok ==> out.remaining < 0
    {
      hide RingHolds, Turns, out.Valid;
      ghost var h := out.History;
      var i := 0;
      while i < |literals|
        invariant 0 <= i <= |literals|
        invariant Valid() && out.ring == old(out.ring) && out.Fits(|literals| - i)
        invariant out.History == h + literals[..i]
        invariant out.remaining == old(out.remaining)
        invariant i < |literals| ==> out.pos < out.size
      {
        out.PutLiteral(literals[i]);
        i := i + 1;
        if out.pos == out.size {
          var flushed := out.Flush(|literals| - i);
          if !flushed {
            return false;
          }
        }
      }
      ok := true;
    }

    /** Resolves the distance of a command; the ring of distances is left rolled. */
    method DecodeDistance(symbol: DistanceSymbol) returns (distance: nat)
      requires Valid() && symbol.Valid()
      modifies dist
      ensures dist.Valid() && dist.rb == old(dist.rb) && dist.View() == old(dist.View())
      ensures distance == Resolve(symbol, dist.View()) == dist.code
      ensures dist.context == if RepeatsLast(symbol) then 1 else 0
      ensures dist.context == 1 ==> distance == dist.View()[0]
    {
      match symbol {
        case Last => dist.TakeLast();
        case Short(code) =>
          dist.code := code;
          dist.TakeDistance();
        case Direct(d) => dist.code := d;
      }
      distance := dist.code;
    }

    /** A backward copy, which is charged to the meta-block before it is made. */
    method Copy(distance: nat, length: nat) returns (ok: bool)
      requires out.Ready() && out.pos < out.size && out.Fits(0)
      requires 0 < distance <= |out.History| && distance <= out.MaxBackward()
      modifies out, out.ring
      ensures out.ring == old(out.ring) && out.remaining == old(out.remaining) - length
      ensures out.size == old(out.size) && out.newSize == old(out.newSize)
      ensures ok ==> out.Ready() && out.Fits(0)
      ensures ok ==> out.History == CopyFrom(old(out.History), distance, length)
      ensures !ok ==> out.remaining < 0
    {
      hide RingHolds, Turns, CopyFrom;
      out.remaining := out.remaining - length;
      ok := CopyBytes(distance, length);
    }

    /** The fast path if it applies, otherwise byte by byte, with a flush whenever the
        ring fills up. */
    method CopyBytes(distance: nat, length: nat) returns (ok: bool)
      requires out.Ready() && out.pos < out.size && out.Fits(length)
      requires 0 < distance <= |out.History| && distance <= out.MaxBackward()
      modifies out, out.ring
      ensures out.ring == old(out.ring) && out.remaining == old(out.remaining)
      ensures out.size == old(out.size) && out.newSize == old(out.newSize)
      ensures ok ==> out.Ready() && out.Fits(0)
      ensures ok ==> out.History == CopyFrom(old(out.History), distance, length)
      ensures !ok ==> out.remaining < 0
    {
      hide RingHolds, Turns, CopyFrom, out.Valid;
      ghost var h := out.History;
      var finished := out.BlockCopy(distance, length);
      if finished {
        return true;
      }
      CopyFromZero(h, distance);
      var left: nat := length;
      var full := true;
      while full
        invariant out.ring == old(out.ring) && out.remaining == old(out.remaining)
        invariant out.size == old(out.size) && out.newSize == old(out.newSize)
        invariant out.Ready() && out.Fits(left) && left <= length && |h| <= |out.History|
        invariant out.History == CopyFrom(h, distance, length - left)
        invariant out.pos == out.size ==> left == 0
        invariant !full ==> left == 0
        decreases left, full
      {
        ghost var before := left;
        left := out.WrapCopy(distance, left);
        CopyFromSplit(h, distance, length - before, before - left);
        full := out.pos == out.size;
        if full {
          var flushed := out.Flush(left);
          if !flushed {
            return false;
          }
          full := left > 0;
        }
      }
      ok := true;
    }

    /** A dictionary word, flushed at once if it fills or overruns the ring. */
    method Word(word: seq<Byte>) returns (ok: bool)
      requires out.Ready() && out.pos < out.size && |word| <= 37 && out.Fits(0)
      modifies out, out.ring
      ensures out.ring == old(out.ring) && out.remaining == old(out.remaining) - |word|
      ensures out.size == old(out.size) && out.newSize == old(out.newSize)
      ensures ok ==> out.Ready() && out.Fits(0) && out.History == old(out.History) + word
      ensures !ok ==> out.remaining < 0
    {
      hide RingHolds, Turns;
      out.PutWord(word);
      out.remaining := out.remaining - |word|;
      if out.pos >= out.size {
        ok := out.Flush(0);
      } else {
        ok := true;
      }
    }

    /** The copy or dictionary part of a command. */
    method CopyOrWord(length: nat, symbol: DistanceSymbol) returns (status: Status)
      requires Valid() && out.remaining > 0 && out.Fits(0) && symbol.Valid()
      modifies out, out.ring, dist, dist.rb
      ensures out.ring == old(out.ring) && dist.rb == old(dist.rb)
      ensures var s := ExecuteCopy(old(Abstract(Running)), length, symbol, Pow2(out.windowBits) - 16, words);
        && status == s.status
        && (status.Running? || status.Done? ==> Valid() && out.Fits(0) && Abstract(status) == s)
    {
      hide RingHolds, Turns, CopyFrom, RingView, ShortDistance, Resolve, Push, out.Valid, DistanceRing.Valid;
      out.WindowIs();
      var distance := DecodeDistance(symbol);
      out.UpdateMaxDistance();
      if distance > out.maxDistance {
        if distance > MAX_ALLOWED_DISTANCE {
          return BadDistance;
        }
        var address := distance - out.maxDistance - 1;
        dist.UndoRoll();
        var word := words(length, address);
        if word == None {
          return BadDictionary;
        }
        var ok := Word(word.value);
        if !ok {
          return BadLength;
        }
      } else {
        dist.Record();
        var ok := Copy(distance, length);
        if !ok {
          return BadLength;
        }
      }
      status := if out.remaining < 0 then BadLength else if out.remaining == 0 then Done else Running;
    }

    /** One command, exactly as the reference decoder executes it. */
    method ExecuteCommand(c: Command) returns (status: Status)
      requires Valid() && out.remaining > 0 && out.Fits(0) && c.symbol.Valid()
      modifies out, out.ring, dist, dist.rb
      ensures out.ring == old(out.ring) && dist.rb == old(dist.rb)
      ensures var s := Execute(old(Abstract(Running)), c, Pow2(out.windowBits) - 16, words);
        && status == s.status
        && (status.Running? || status.Done? ==> Valid() && out.Fits(0) && Abstract(status) == s)
    {
      hide RingHolds, Turns, CopyFrom, RingView, ShortDistance, ExecuteCopy;
      out.WindowIs();
      if |c.literals| > 0 {
        var ok := DecodeLiterals(c.literals);
        if !ok {
          return BadLength;
        }
        if out.remaining <= 0 {
          return if out.remaining < 0 then BadLength else Done;
        }
      }
      assert Abstract(Running).history == old(Abstract(Running)).history + c.literals;
      status := CopyOrWord(c.copyLength, c.symbol);
    }

    /** The commands of a meta-block, until it ends, fails or the commands run out. */
    method ProcessCommands(cs: seq<Command>) returns (status: Status)
      requires Valid() && out.remaining > 0 && out.Fits(0) && ValidCommands(cs)
      modifies out, out.ring, dist, dist.rb
      ensures out.ring == old(out.ring) && dist.rb == old(dist.rb)
      ensures var s := ExecuteAll(old(Abstract(Running)), cs, Pow2(out.windowBits) - 16, words);
        && status == s.status
        && (status.Running? || status.Done? ==> Valid() && out.Fits(0) && Abstract(status) == s)
    {
      hide RingHolds, Turns, CopyFrom, RingView, Execute;
      out.WindowIs();
      ghost var s0 := Abstract(Running);
      status := Running;
      var i := 0;
      assert cs[0..] == cs;
      while i < |cs| && status.Running?
        invariant 0 <= i <= |cs| && out.ring == old(out.ring) && dist.rb == old(dist.rb)
        invariant status.Running? || status.Done? ==> Valid() && out.Fits(0)
        invariant status.Running? ==> out.remaining > 0
        invariant status.Running? || status.Done? ==>
          ExecuteAll(Abstract(status), cs[i..], Pow2(out.windowBits) - 16, words)
            == ExecuteAll(s0, cs, Pow2(out.windowBits) - 16, words)
        invariant !status.Running? ==> status == ExecuteAll(s0, cs, Pow2(out.windowBits) - 16, words).status
      {
        status := ExecuteCommand(cs[i]);
        assert cs[i..][1..] == cs[i + 1..];
        i := i + 1;
      }
    }

    /** A piece of an uncompressed meta-block that fits below the ring's end. */
    method PutPiece(piece: seq<Byte>)
      requires Valid() && out.Fits(0) && |piece| <= out.remaining && out.pos + |piece| <= out.size
      modifies out, out.ring
      ensures out.ring == old(out.ring) && Valid() && out.Fits(0) && out.remaining == old(out.remaining) - |piece|
      ensures out.History == old(out.History) + piece
    {
      hide RingHolds, Turns;
      out.PutWord(piece);
      out.remaining := out.remaining - |piece|;
      if out.pos >= out.window {
        var ok := out.Flush(0);
      }
    }

    /** An uncompressed meta-block, in pieces as the input arrives and the ring fills up. */
    method CopyUncompressed(bytes: seq<Byte>)
      requires Valid() && out.remaining == |bytes| && out.Fits(0)
      modifies out, out.ring
      ensures out.ring == old(out.ring) && Valid() && out.Fits(0) && out.remaining == 0
      ensures out.History == old(out.History) + bytes
    {
      hide RingHolds, Turns, out.Valid;
      ghost var h := out.History;
      var i := 0;
      while i < |bytes|
        invariant 0 <= i <= |bytes| && out.ring == old(out.ring) && Valid() && out.Fits(0)
        invariant out.remaining == |bytes| - i && out.History == h + bytes[..i]
      {
        var available: nat :| 0 < available <= |bytes| - i;
        var n := available;
        if out.pos + n > out.size {
          n := out.size - out.pos;
        }
        assert n > 0;
        PutPiece(bytes[i..i + n]);
        assert bytes[..i] + bytes[i..i + n] == bytes[..i + n];
        i := i + n;
      }
      assert bytes[..i] == bytes;
    }

    /** Before a meta-block: the ring may still have to be allocated or enlarged. */
    ghost predicate BetweenBlocks()
      reads this, out, out.ring, dist, dist.rb
    {
      && out.Valid() && !out.shouldWrap && out.pos <= out.size && out.newSize == out.size && out.remaining == 0
      && (out.ring != null ==> out.Ready()) && Separate()
      && dist.Valid() && dist.context == 0 && Positive(dist.View())
      && Bounded(words)
    }

    /** Sizes the ring for a meta-block of `length` bytes. */
    method BeginBlock(length: nat)
      requires BetweenBlocks()
      modifies out
      ensures Valid() && out.Fits(0) && out.remaining == length
      ensures out.ring == old(out.ring) || fresh(out.ring)
      ensures out.History == old(out.History) && out.Emitted == old(out.Emitted)
    {
      hide RingHolds, Turns;
      out.remaining := length;
      out.CalculateRingBufferSize(false);
      out.EnsureRingBuffer();
    }

    method DecodeBlock(b: Block) returns (status: Status)
      requires BetweenBlocks() && b.Valid()
      modifies out, out.ring, dist, dist.rb
      ensures (out.ring == old(out.ring) || fresh(out.ring)) && dist.rb == old(dist.rb)
      ensures var s := ExecuteBlock(old(Abstract(Done)), b, Pow2(out.windowBits) - 16, words);
        && status == s.status
        && (status.Done? ==> BetweenBlocks() && Abstract(Done) == s)
    {
      hide RingHolds, Turns, RingView, ExecuteAll;
      out.WindowIs();
      match b
      case Metadata =>
        status := Done;
      case Uncompressed(bytes) =>
        BeginBlock(|bytes|);
        CopyUncompressed(bytes);
        status := Done;
      case Compressed(n, cs) =>
        BeginBlock(n);
        ghost var s := Abstract(Running);
        status := ProcessCommands(cs);
        ExecuteAllConserves(s, cs, Pow2(out.windowBits) - 16, words);
    }

    /** A whole stream from a fresh decoder: it succeeds exactly when the reference decoder
        does, and then has handed out exactly what that decoder produces. */
    method DecodeStream(bs: seq<Block>) returns (status: Status)
      requires BetweenBlocks() && ValidBlocks(bs) && out.History == []
      modifies out, out.ring, dist, dist.rb
      ensures var s := Decode(old(Abstract(Done)), bs, Pow2(out.windowBits) - 16, words);
        && status == s.status
        && (status.Done? ==> out.Emitted == s.history && |out.Emitted| == TotalLength(bs))
    {
      hide RingHolds, Turns, RingView, ExecuteBlock;
      out.WindowIs();
      ghost var s0 := Abstract(Done);
      status := Done;
      var i := 0;
      assert bs[0..] == bs;
      while i < |bs| && status.Done?
        invariant 0 <= i <= |bs| && (out.ring == old(out.ring) || fresh(out.ring)) && dist.rb == old(dist.rb)
        invariant status.Done? ==> BetweenBlocks()
        invariant status.Done? ==>
          Decode(Abstract(Done), bs[i..], Pow2(out.windowBits) - 16, words)
            == Decode(s0, bs, Pow2(out.windowBits) - 16, words)
        invariant !status.Done? ==> status == Decode(s0, bs, Pow2(out.windowBits) - 16, words).status
      {
        status := DecodeBlock(bs[i]);
        assert bs[i..][1..] == bs[i + 1..];
        i := i + 1;
      }
      DecodeConserves(s0, bs, Pow2(out.windowBits) - 16, words);
      if status.Done? && out.ring != null {
        out.FlushAll();
      }
    }
  }
}
