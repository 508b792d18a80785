/** Decoding a stream that arrives in pieces: an eight-byte buffer carries the bytes of an
    unfinished transaction from one call to the next. */
module Streaming {
  import opened Arith
  import opened Wrappers
  import opened PrefixCode
  import opened BitReader
  import opened Restart

  datatype Outcome = Success | NeedsInput | NeedsOutput | Done

  /** The bits of three pieces of a byte sequence, cut at `j - k` and `j`. */
  lemma BytesThree(input: seq<Byte>, j: nat, k: nat) returns (a: seq<Bit01>, b: seq<Bit01>, c: seq<Bit01>)
    requires k <= j <= |input|
    ensures BytesBits(input) == a + b + c && |b| == 8 * k
    ensures b == BytesBits(input[j - k..j]) && c == BytesBits(input[j..])
  {
    hide BytesBits;
    var i := j - k;
    assert input == input[..i] + input[i..j] + input[j..];
    BytesBitsAppend(input[..i] + input[i..j], input[j..]);
    BytesBitsAppend(input[..i], input[i..j]);
    a, b, c := BytesBits(input[..i]), BytesBits(input[i..j]), BytesBits(input[j..]);
  }

  /** When less than a byte remains of what the accumulator carried over, its whole bytes are
      the last ones taken from the input. */
  lemma CarryBytes(acc: seq<Bit01>, carry: seq<Bit01>, input: seq<Byte>, nextIn: nat, k: nat) returns (b: seq<Bit01>)
    requires k <= nextIn <= |input| && 8 * k <= |acc|
    requires Dropped(acc + BytesBits(input[nextIn..]), carry + BytesBits(input))
    ensures b == BytesBits(input[nextIn - k..nextIn]) && EndsWith(acc, b)
  {
    hide BytesBits, Dropped, EndsWith;
    var a, c;
    a, b, c := BytesThree(input, nextIn, k);
    CarryTail(acc, carry, BytesBits(input), a, b, c);
  }

  lemma EndsBacked(acc: seq<Bit01>, input: seq<Byte>, nextIn: nat, k: nat, tail: seq<Bit01>)
    requires k <= nextIn <= |input| && 8 * k <= |acc| < 8 * k + 8
    requires tail == BytesBits(input[nextIn - k..nextIn]) && EndsWith(acc, tail)
    ensures BackedBy(acc, input, nextIn)
  {
    hide BytesBits;
  }

  ghost predicate EndsWith(b: seq<Bit01>, tail: seq<Bit01>) {
    |tail| <= |b| && b[|b| - |tail|..] == tail
  }

  lemma CarryTail(acc: seq<Bit01>, carry: seq<Bit01>, bits: seq<Bit01>, h: seq<Bit01>, tail: seq<Bit01>,
                  rest: seq<Bit01>)
    requires |tail| <= |acc| && bits == h + tail + rest && Dropped(acc + rest, carry + bits)
    ensures EndsWith(acc, tail)
  {
    var all := carry + h + tail;
    assert carry + (h + tail + rest) == all + rest;
    DroppedFront(acc, all, rest);
    DroppedTail(acc, all, |tail|);
  }

  lemma DroppedFront(acc: seq<Bit01>, all: seq<Bit01>, rest: seq<Bit01>)
    requires Dropped(acc + rest, all + rest)
    ensures Dropped(acc, all)
  {
    assert acc == (acc + rest)[..|acc|] == all[|all| - |acc|..];
  }

  lemma DroppedTail(acc: seq<Bit01>, all: seq<Bit01>, n: nat)
    requires Dropped(acc, all) && n <= |acc|
    ensures acc[|acc| - n..] == all[|all| - n..]
  {
  }

  /** `state` waits for more input than `b`. */
  ghost predicate Stuck<S(!new)>(m: Machine<S>, state: S, b: seq<Bit01>)
    requires m.Valid()
  {
    m.kind(state) == Reading && m.Parse(state, [], b) == None
  }

  /** A transaction that fails has less than 64 bits. */
  lemma StuckShort<S(!new)>(m: Machine<S>, state: S, b: seq<Bit01>)
    requires m.Valid() && m.Parse(state, [], b) == None
    ensures |b| < REGISTER_BITS
  {
  }

  /** A step with input: progress on the stream or in rank, with the same future. */
  ghost predicate Advances<S(!new)>(m: Machine<S>, s: S, b: seq<Bit01>, t: S, c: seq<Bit01>)
    requires m.Sound()
  {
    && Dropped(c, b) && m.SameFuture(s, b, t, c)
    && (|c| < |b| || m.rank(t) < m.rank(s))
    && (m.kind(s) == Reading ==> var r := m.Parse(s, [], b); r.Some? && |c| <= |b| - r.value.1)
  }

  lemma TransactionAdvances<S(!new)>(m: Machine<S>, s: S, b: seq<Bit01>)
    requires m.Sound() && m.kind(s) == Reading && m.Parse(s, [], b).Some?
    ensures var (t, n) := m.Parse(s, [], b).value; Advances(m, s, b, t, b[n..])
  {
    m.StepFuture(s, b);
  }

  lemma WriteAdvances<S(!new)>(m: Machine<S>, s: S, b: seq<Bit01>)
    requires m.Sound() && m.kind(s) == Writing
    ensures Advances(m, s, b, m.wrote(s), b)
  {
    assert b == b[0..];
  }

  lemma AdvancesChain<S(!new)>(m: Machine<S>, s: S, b: seq<Bit01>, t: S, c: seq<Bit01>, u: S, d: seq<Bit01>)
    requires m.Sound() && Advances(m, s, b, t, c) && Advances(m, t, c, u, d)
    ensures Advances(m, s, b, u, d)
  {
    m.FutureChain(s, b, t, c, u, d);
  }

  /** The transaction that did not fit into `short` takes all of it. */
  lemma StuckThen<S(!new)>(m: Machine<S>, s: S, short: seq<Bit01>, more: seq<Bit01>, t: S, c: seq<Bit01>)
    requires m.Sound() && Stuck(m, s, short) && Advances(m, s, short + more, t, c)
    ensures |c| < |more|
  {
    hide Machine<S>.Parse;
    var n := m.Parse(s, [], short + more).value.1;
    if n <= |short| {
      m.ParseLess(s, [], short, more);
    }
  }

  /** Fewer bits left, or as many and a lower rank. */
  ghost predicate Less(n: nat, r: nat, n0: nat, r0: nat) {
    n < n0 || (n == n0 && r < r0)
  }

  lemma AdvancesLess<S(!new)>(m: Machine<S>, s: S, b: seq<Bit01>, t: S, c: seq<Bit01>)
    requires m.Sound() && Advances(m, s, b, t, c)
    ensures |c| < |b| || (c == b && m.rank(t) < m.rank(s))
  {
  }

  lemma AdvancesFuture<S(!new)>(m: Machine<S>, s0: S, b0: seq<Bit01>, s: S, b: seq<Bit01>, t: S, c: seq<Bit01>,
                                more: seq<Bit01>)
    requires m.Sound() && m.SameFuture(s0, b0, s, b + more) && Advances(m, s, b, t, c)
    ensures m.SameFuture(s0, b0, t, c + more)
  {
    hide Machine<S>.Run, Machine<S>.SameFuture, Machine<S>.Valid, Machine<S>.Progress, Machine<S>.Checked;
    hide Machine<S>.Parse;
    m.FutureMore(s, b, t, c, more);
    m.FutureChain(s0, b0, s, b + more, t, c + more);
  }

  class StreamDecoder<S(!new)> {
    const m: Machine<S>
    const br: Reader
    const buffer: array<Byte>
    var state: S
    var bufferLength: nat

    ghost predicate Shape()
      reads this, br
    {
      m.Sound() && br.Valid() && buffer.Length == 8 && bufferLength <= 8
    }

    constructor (machine: Machine<S>, start: S)
      requires machine.Sound()
      ensures Idle() && m == machine && state == start && Pending() == [] && fresh(br) && fresh(buffer)
    {
      m, state, bufferLength := machine, start, 0;
      br := new Reader();
      buffer := new Byte[8](_ => 0);
    }

    /** The bits taken from the caller that no transaction has used yet. */
    ghost function Pending(): (b: seq<Bit01>)
      requires Shape() && (bufferLength > 0 ==> br.availIn <= bufferLength)
      reads this, br, buffer
    {
      br.AccBits() + if bufferLength > 0 then BytesBits(buffer[bufferLength - br.availIn..bufferLength]) else []
    }

    /** Between calls: less than a byte is held, or an unfinished transaction of less than 64
        bits. */
    ghost predicate Idle()
      reads this, br, buffer
    {
      && Shape()
      && (bufferLength > 0 ==> br.availIn == 0 || br.availIn == bufferLength)
      && (|Pending()| < 8 || Stuck(m, state, Pending()))
      && (bufferLength > 0 && br.availIn > 0 ==> Stuck(m, state, Pending()))
    }

    /** `ProcessCommands`: fast transactions as long as the checked amount of input lasts. */
    method ProcessFast()
      requires Shape() && m.quick(state) && br.availIn >= FAST_BYTES && 0 < br.Available()
      modifies `state, br`val, br`bitPos, br`nextIn, br`availIn
      ensures Shape() && br.nextIn + br.availIn == old(br.nextIn + br.availIn)
      ensures Advances(m, old(state), old(br.Stream()), state, br.Stream())
    {
      hide BitsOf, BytesBits, Advances, Machine<S>.Parse, Machine<S>.Valid, Machine<S>.Progress;
      ghost var start, all := state, br.Stream();
      FastStep();
      while m.quick(state) && !(m.checks(state) && br.availIn < FAST_BYTES)
        invariant Shape() && br.nextIn + br.availIn == old(br.nextIn + br.availIn)
        invariant 0 < br.Available() && Advances(m, start, all, state, br.Stream())
        invariant m.quick(state) && !m.checks(state) ==> |br.Stream()| >= m.credit(state) + FAST_MARGIN
        decreases |br.Stream()|, m.rank(state)
      {
        ghost var s, b := state, br.Stream();
        FastStep();
        AdvancesChain(m, start, all, s, b, state, br.Stream());
        AdvancesLess(m, s, b, state, br.Stream());
      }
    }

    /** One fast transaction, with credit left for the next unless that one checks. */
    method FastStep()
      requires Shape() && m.quick(state) && 0 < br.Available() && |br.Stream()| >= m.credit(state) + FAST_MARGIN
      modifies `state, br`val, br`bitPos, br`nextIn, br`availIn
      ensures Shape() && br.nextIn + br.availIn == old(br.nextIn + br.availIn) && 0 < br.Available()
      ensures Advances(m, old(state), old(br.Stream()), state, br.Stream())
      ensures m.quick(state) && !m.checks(state) ==> |br.Stream()| >= m.credit(state) + FAST_MARGIN
    {
      hide BitsOf, BytesBits, Advances, Machine<S>.Progress;
      TransactionAdvances(m, state, br.Stream());
      state := FastTransaction(m, state, br);
    }

    /** One step of the state machine. */
    method Step(room: nat) returns (result: Outcome, room': nat)
      requires Shape()
      modifies `state, br`val, br`bitPos, br`nextIn, br`availIn
      ensures Shape() && br.nextIn + br.availIn == old(br.nextIn + br.availIn)
      ensures result == Success ==> Advances(m, old(state), old(br.Stream()), state, br.Stream())
      ensures result != Success ==> state == old(state) && br.Stream() == old(br.Stream()) && room' == room
      ensures result == NeedsInput ==> Stuck(m, state, br.Stream()) && (br.availIn == 0 || br.Save() == old(br.Save()))
      ensures result == NeedsOutput ==> m.kind(state) == Writing && room' == 0
      ensures result == Done ==> m.kind(state) == Finished
      ensures result == NeedsOutput || result == Done ==> br.Save() == old(br.Save())
      ensures result != Success ==> room' == room
    {
      hide BitsOf, BytesBits, Advances, Machine<S>.Parse, Machine<S>.Valid, Machine<S>.Progress, Machine<S>.Checked;
      result, room' := Success, room;
      match m.kind(state) {
        case Finished => result := Done;
        case Writing =>
          if room == 0 {
            result := NeedsOutput;
          } else {
            WriteAdvances(m, state, br.Stream());
            state, room' := m.wrote(state), room - 1;
          }
        case Reading => result := ReadStep();
      }
    }

    /** Fast while there is plenty of input, one safe transaction otherwise. */
    method ReadStep() returns (result: Outcome)
      requires Shape() && m.kind(state) == Reading
      modifies `state, br`val, br`bitPos, br`nextIn, br`availIn
      ensures Shape() && br.nextIn + br.availIn == old(br.nextIn + br.availIn)
      ensures (result == Success || result == NeedsInput)
      ensures result == Success ==> Advances(m, old(state), old(br.Stream()), state, br.Stream())
      ensures result == NeedsInput ==> state == old(state) && br.Stream() == old(br.Stream())
      ensures result == NeedsInput ==> Stuck(m, state, br.Stream()) && (br.availIn == 0 || br.Save() == old(br.Save()))
    {
      hide BitsOf, BytesBits, Advances, Machine<S>.Parse, Machine<S>.Valid, Machine<S>.Progress, Machine<S>.Checked;
      if m.quick(state) && br.availIn >= FAST_BYTES {
        var _ := br.Warmup();
        if br.availIn >= FAST_BYTES {
          ProcessFast();
          return Success;
        }
      }
      ghost var b := br.Stream();
      var ok, t := SafeTransaction(m, state, br);
      if ok {
        TransactionAdvances(m, state, b);
        state := t;
        result := Success;
      } else {
        StuckShort(m, state, b);
        result := NeedsInput;
      }
    }

    /** Inside a call, reading from the internal buffer; `retry` when a byte was just added
        to an unfinished transaction. */
    ghost predicate OnBuffer(result: Outcome, retry: bool)
      reads this, br, buffer
    {
      && Shape() && bufferLength > 0 && br.input == buffer[..bufferLength] && br.nextIn + br.availIn <= bufferLength
      && match result
         case Success =>
           if retry then br.nextIn == 0 && br.availIn == bufferLength
             && Stuck(m, state, br.AccBits() + BytesBits(buffer[..bufferLength - 1]))
           else br.availIn == 0 && br.Available() < 8
         case NeedsInput =>
           || (br.availIn == 0 && (br.Available() < 8 || Stuck(m, state, br.Stream())))
           || (br.nextIn == 0 && br.availIn == bufferLength && Stuck(m, state, br.Stream()))
         case _ => br.availIn == 0 && br.Available() < 8
    }

    /** Inside a call, reading the caller's input after the `carry` bits of earlier input:
        less than a byte of them is left, or no transaction fits into them. */
    ghost predicate OnInput(result: Outcome, carry: seq<Bit01>)
      reads this, br
    {
      && Shape() && bufferLength == 0 && br.nextIn + br.availIn == |br.input|
      && Dropped(br.Stream(), carry + BytesBits(br.input))
      && (|br.Stream()| < 8 * |br.input| + 8 || (Stuck(m, state, carry) && br.Stream() == carry + BytesBits(br.input)))
      && (result == NeedsInput ==> Stuck(m, state, br.Stream()))
      && (result == NeedsOutput || result == Done ==> m.kind(state) != Reading)
    }

    /** A step on the buffer. */
    method StepOnBuffer(room: nat, ghost retry: bool) returns (result: Outcome, room': nat)
      requires OnBuffer(Success, retry)
      modifies `state, br`val, br`bitPos, br`nextIn, br`availIn
      ensures OnBuffer(result, false)
      ensures result == Success ==> Advances(m, old(state), old(br.Stream()), state, br.Stream())
      ensures result != Success ==> state == old(state) && br.Stream() == old(br.Stream()) && room' == room
      ensures result == NeedsOutput ==> m.kind(state) == Writing && room' == 0
      ensures result == Done ==> m.kind(state) == Finished
    {
      hide BitsOf, BytesBits, Machine<S>.Parse, Machine<S>.Valid, Machine<S>.Progress, Machine<S>.Checked;
      ghost var s, b, acc := state, br.Stream(), br.AccBits();
      result, room' := Step(room);
      if result == Success {
        AdvancesLess(m, s, b, state, br.Stream());
        if retry {
          ghost var last := buffer[bufferLength - 1..bufferLength];
          BytesBitsAppend(buffer[..bufferLength - 1], last);
          assert br.input[0..bufferLength] == buffer[..bufferLength - 1] + last;
          assert b == acc + BytesBits(buffer[..bufferLength - 1]) + BytesBits(last);
          StuckThen(m, s, acc + BytesBits(buffer[..bufferLength - 1]), BytesBits(last), state, br.Stream());
        }
      }
    }

    /** A step on the caller's input. */
    method StepOnInput(room: nat, ghost carry: seq<Bit01>) returns (result: Outcome, room': nat)
      requires OnInput(Success, carry)
      modifies `state, br`val, br`bitPos, br`nextIn, br`availIn
      ensures OnInput(result, carry)
      ensures result == Success ==> Advances(m, old(state), old(br.Stream()), state, br.Stream())
      ensures result != Success ==> state == old(state) && br.Stream() == old(br.Stream()) && room' == room
      ensures result == NeedsOutput ==> m.kind(state) == Writing && room' == 0
      ensures result == Done ==> m.kind(state) == Finished
    {
      hide BitsOf, BytesBits, Machine<S>.Parse, Machine<S>.Valid, Machine<S>.Progress, Machine<S>.Checked;
      ghost var s, b := state, br.Stream();
      result, room' := Step(room);
      if result == Success {
        AdvancesLess(m, s, b, state, br.Stream());
        if Stuck(m, s, carry) && b == carry + BytesBits(br.input) {
          StuckThen(m, s, carry, BytesBits(br.input), state, br.Stream());
        }
      }
    }

    /** Leaves the buffer, all of it taken, for the caller's input. */
    method SwitchToInput(rest: seq<Byte>)
      requires Shape() && (br.Available() < 8 || Stuck(m, state, br.AccBits()))
      modifies `bufferLength, br`input, br`nextIn, br`availIn
      ensures Shape() && OnInput(Success, br.AccBits()) && br.input == rest && br.AccBits() == old(br.AccBits())
      ensures br.Stream() == br.AccBits() + BytesBits(rest)
    {
      hide BitsOf, BytesBits, Stuck, Machine<S>.Valid, Machine<S>.Progress, Machine<S>.Checked;
      bufferLength := 0;
      br.Connect(rest, |rest|);
      assert rest[..|rest|] == rest;
    }

    /** One more byte for an unfinished transaction; it fits. */
    method TakeByte(b: Byte)
      requires OnBuffer(NeedsInput, false) && br.availIn > 0
      modifies `bufferLength, br`input, br`availIn, buffer
      ensures OnBuffer(Success, true) && br.Stream() == old(br.Stream()) + BytesBits([b])
    {
      hide BitsOf, BytesBits, Machine<S>.Parse, Machine<S>.Valid, Machine<S>.Progress, Machine<S>.Checked;
      StuckShort(m, state, br.Stream());
      ghost var before := buffer[..bufferLength];
      assert br.input[0..bufferLength] == before;
      buffer[bufferLength] := b;
      bufferLength := bufferLength + 1;
      assert buffer[..bufferLength] == before + [b];
      BytesBitsAppend(before, [b]);
      br.input, br.availIn := buffer[..bufferLength], bufferLength;
      assert br.input[0..bufferLength] == before + [b];
      assert buffer[..bufferLength - 1] == before;
    }

    /** The bytes of the unfinished transaction go into the buffer. */
    method CopyTail()
      requires exists carry :: OnInput(NeedsInput, carry)
      modifies `bufferLength, buffer
      ensures Shape() && Idle() && Stuck(m, state, Pending()) && Pending() == br.Stream()
    {
      hide BitsOf, BytesBits, Machine<S>.Parse, Machine<S>.Valid, Machine<S>.Progress, Machine<S>.Checked;
      StuckShort(m, state, br.Stream());
      var tail := br.input[br.nextIn..br.nextIn + br.availIn];
      while bufferLength < |tail|
        invariant Shape() && bufferLength <= |tail| < 8 && buffer[..bufferLength] == tail[..bufferLength]
      {
        buffer[bufferLength] := tail[bufferLength];
        bufferLength := bufferLength + 1;
      }
      assert buffer[0..bufferLength] == tail;
      assert br.AccBits() + [] == br.AccBits();
    }

    /** Whole unread bytes go back to the caller. */
    method GiveBack(ghost carry: seq<Bit01>) returns (rest: seq<Byte>)
      requires OnInput(NeedsOutput, carry)
      modifies br`val, br`bitPos, br`nextIn, br`availIn
      ensures Idle() && bufferLength == 0 && |Pending()| < 8 && Pending() + BytesBits(rest) == old(br.Stream())
      ensures |rest| <= |br.input| && rest == br.input[|br.input| - |rest|..]
    {
      hide BitsOf, BytesBits, Machine<S>.Parse, Machine<S>.Valid, Machine<S>.Progress, Machine<S>.Checked, BackedBy;
      hide Dropped, EndsWith;
      assert br.input[br.nextIn..br.nextIn + br.availIn] == br.input[br.nextIn..];
      ghost var tail := CarryBytes(br.AccBits(), carry, br.input, br.nextIn, br.Available() / 8);
      EndsBacked(br.AccBits(), br.input, br.nextIn, br.Available() / 8, tail);
      br.Unload();
      rest := br.input[br.nextIn..br.nextIn + br.availIn];
      assert br.AccBits() + [] == br.AccBits();
    }

    /** Inside a call: what has not been used by a transaction yet. */
    ghost function Unread(rest: seq<Byte>): seq<Bit01>
      requires Shape()
      reads this, br
    {
      if bufferLength > 0 then br.Stream() + BytesBits(rest) else br.Stream()
    }

    ghost predicate Working(result: Outcome, retry: bool, carry: seq<Bit01>, rest: seq<Byte>)
      reads this, br, buffer
    {
      && (if bufferLength > 0 then OnBuffer(result, retry) else OnInput(result, carry) && br.input == rest)
      && (result == NeedsOutput ==> m.kind(state) == Writing)
      && (result == Done ==> m.kind(state) == Finished)
    }

    /** Connects the reader to the buffer, when it holds bytes, or to the input. */
    method Enter(chunk: seq<Byte>) returns (result: Outcome, ghost carry: seq<Bit01>)
      requires Idle()
      modifies `bufferLength, br`input, br`nextIn, br`availIn
      ensures Shape() && Working(result, false, carry, chunk) && Unread(chunk) == old(Pending()) + BytesBits(chunk)
      ensures result == Success || result == NeedsInput
    {
      hide BitsOf, BytesBits, Stuck, Machine<S>.Parse, Machine<S>.Valid, Machine<S>.Progress, Machine<S>.Checked;
      assert br.AccBits() + [] == br.AccBits();
      carry := br.AccBits();
      if bufferLength == 0 {
        SwitchToInput(chunk);
        result := Success;
      } else {
        ghost var tail := buffer[bufferLength - br.availIn..bufferLength];
        br.Connect(buffer[..bufferLength], br.availIn);
        assert br.input[..br.availIn] == tail;
        result := NeedsInput;
      }
    }

    /** One step, on whichever input is connected. */
    method StepOn(room: nat, ghost retry: bool, ghost carry: seq<Bit01>, ghost rest: seq<Byte>)
      returns (result: Outcome, room': nat)
      requires Working(Success, retry, carry, rest)
      modifies `state, br`val, br`bitPos, br`nextIn, br`availIn
      ensures Shape() && Working(result, false, carry, rest)
      ensures result == Success ==> Advances(m, old(state), old(br.Stream()), state, br.Stream())
      ensures result != Success ==> state == old(state) && br.Stream() == old(br.Stream()) && room' == room
      ensures result == NeedsOutput ==> room' == 0
    {
      if bufferLength > 0 {
        result, room' := StepOnBuffer(room, retry);
      } else {
        result, room' := StepOnInput(room, carry);
      }
    }

    /** One more byte from the input, if there is one. */
    method RefillByte(rest: seq<Byte>) returns (stop: bool, rest': seq<Byte>)
      requires OnBuffer(NeedsInput, false) && br.availIn > 0
      modifies `bufferLength, br`input, br`availIn, buffer
      ensures Shape() && bufferLength > 0 && stop == (rest == []) && rest' == if stop then [] else rest[1..]
      ensures if stop then Idle() && Stuck(m, state, Pending()) && Pending() == old(Unread(rest))
        else OnBuffer(Success, true) && Unread(rest') == old(Unread(rest))
    {
      hide BitsOf, BytesBits, Machine<S>.Parse, Machine<S>.Valid, Machine<S>.Progress, Machine<S>.Checked;
      stop, rest' := rest == [], [];
      if stop {
        assert br.Stream() + [] == br.Stream() && br.input[0..bufferLength] == buffer[0..bufferLength];
      } else {
        TakeByte(rest[0]);
        BytesBitsAppend([rest[0]], rest[1..]);
        assert [rest[0]] + rest[1..] == rest;
        rest' := rest[1..];
      }
    }

    /** After a failed transaction: all input is copied to the buffer (`stop`), or the buffer
        has been taken and the input is next, or the buffer gets one more byte. */
    method Refill(rest: seq<Byte>, ghost carry: seq<Bit01>)
      returns (stop: bool, rest': seq<Byte>, ghost retry: bool, ghost carry': seq<Bit01>)
      requires Working(NeedsInput, false, carry, rest)
      modifies `bufferLength, br`input, br`nextIn, br`availIn, buffer
      ensures Shape() && |rest'| <= |rest| && rest' == rest[|rest| - |rest'|..]
      ensures if stop then Idle() && Stuck(m, state, Pending()) && rest' == [] && Pending() == old(Unread(rest))
        else Working(Success, retry, carry', rest') && Unread(rest') == old(Unread(rest))
      ensures !stop ==> (if bufferLength > 0 then |rest'| + 1 else 0) < old(if bufferLength > 0 then |rest| + 1 else 0)
    {
      hide BitsOf, BytesBits, Idle, Stuck, Machine<S>.Parse, Machine<S>.Valid, Machine<S>.Progress, Machine<S>.Checked;
      rest', carry', retry, stop := rest, carry, false, false;
      if bufferLength == 0 {
        CopyTail();
        rest', stop := [], true;
      } else if br.availIn == 0 {
        assert br.Stream() == br.AccBits();
        SwitchToInput(rest);
        carry' := br.AccBits();
      } else {
        hide OnBuffer;
        stop, rest' := RefillByte(rest);
        retry := !stop;
      }
    }

    /** Ends a call that has no room for output, or is done. */
    method Leave(result: Outcome, rest: seq<Byte>, ghost carry: seq<Bit01>) returns (rest': seq<Byte>)
      requires Working(result, false, carry, rest) && (result == NeedsOutput || result == Done)
      modifies `bufferLength, br`val, br`bitPos, br`nextIn, br`availIn
      ensures Idle() && |Pending()| < 8 && Pending() + BytesBits(rest') == old(Unread(rest))
      ensures |rest'| <= |rest| && rest' == rest[|rest| - |rest'|..]
      ensures result == NeedsOutput ==> bufferLength == 0 && m.kind(state) == Writing
      ensures result == Done ==> m.kind(state) == Finished
    {
      hide BitsOf, BytesBits, Machine<S>.Parse, Machine<S>.Valid, Machine<S>.Progress, Machine<S>.Checked;
      assert br.AccBits() + [] == br.AccBits();
      if bufferLength == 0 {
        rest' := GiveBack(carry);
      } else {
        assert br.Stream() == br.AccBits();
        rest' := rest;
        if result == NeedsOutput {
          bufferLength := 0;
        }
      }
    }

    /** One step, keeping the future of the call's start. */
    method StepForward(room: nat, ghost retry: bool, ghost carry: seq<Bit01>, ghost rest: seq<Byte>, ghost s0: S,
                       ghost b0: seq<Bit01>) returns (result: Outcome, room': nat)
      requires Shape() && Working(Success, retry, carry, rest) && m.SameFuture(s0, b0, state, Unread(rest))
      modifies `state, br`val, br`bitPos, br`nextIn, br`availIn
      ensures Shape() && Working(result, false, carry, rest) && m.SameFuture(s0, b0, state, Unread(rest))
      ensures result == Success ==> Less(|Unread(rest)|, m.rank(state), |old(Unread(rest))|, m.rank(old(state)))
      ensures result != Success ==> room' == room
      ensures result != Success ==> state == old(state) && Unread(rest) == old(Unread(rest))
      ensures result == NeedsOutput ==> room' == 0
    {
      hide BitsOf, BytesBits, Advances, Working, Machine<S>.SameFuture, Machine<S>.Valid, Machine<S>.Progress;
      hide Machine<S>.Checked;
      ghost var s, b := state, br.Stream();
      result, room' := StepOn(room, retry, carry, rest);
      if result == Success {
        AdvancesLess(m, s, b, state, br.Stream());
        ghost var more := if bufferLength > 0 then BytesBits(rest) else [];
        assert Unread(rest) == br.Stream() + more && b + [] == b;
        AdvancesFuture(m, s0, b0, s, b, state, br.Stream(), more);
      }
    }

    /** The loop of a call, up to its end or to what `Leave` has to tidy up. */
    method Work(start: Outcome, chunk: seq<Byte>, room: nat, ghost carry0: seq<Bit01>, ghost s0: S,
                ghost b0: seq<Bit01>)
      returns (result: Outcome, rest: seq<Byte>, room': nat, ghost carry: seq<Bit01>)
      requires Shape() && Working(start, false, carry0, chunk) && m.SameFuture(s0, b0, state, Unread(chunk))
      requires start == Success || start == NeedsInput
      modifies `state, `bufferLength, br, buffer
      ensures Shape() && result != Success && |rest| <= |chunk| && rest == chunk[|chunk| - |rest|..]
      ensures if result == NeedsInput
        then Idle() && Stuck(m, state, Pending()) && rest == []
          && m.SameFuture(s0, b0, state, Pending() + BytesBits(rest))
        else Working(result, false, carry, rest) && m.SameFuture(s0, b0, state, Unread(rest))
      ensures result == NeedsOutput ==> room' == 0
      ensures result == NeedsOutput && room > 0 ==>
        Less(|Unread(rest)|, m.rank(state), |old(Unread(chunk))|, m.rank(old(state)))
    {
      hide BitsOf, BytesBits, Stuck, Pending, Unread, Working, Reader.Stream, Reader.AccBits, Machine<S>.SameFuture;
      hide Machine<S>.Valid, Machine<S>.Progress, Machine<S>.Checked;
      result, rest, room', carry := start, chunk, room, carry0;
      ghost var retry := false;
      ghost var n0, r0 := |Unread(chunk)|, m.rank(state);
      while result == Success || result == NeedsInput
        invariant Shape() && Working(result, retry, carry, rest)
        invariant |rest| <= |chunk| && rest == chunk[|chunk| - |rest|..]
        invariant m.SameFuture(s0, b0, state, Unread(rest))
        invariant result != Success ==> !retry
        invariant result == NeedsOutput ==> room' == 0
        invariant Less(|Unread(rest)|, m.rank(state), n0, r0)
          || (room' == room && |Unread(rest)| == n0 && m.rank(state) == r0)
        decreases |Unread(rest)|, m.rank(state), if bufferLength > 0 then |rest| + 1 else 0,
          if result == Success then 1 else 0
      {
        if result == Success {
          result, room' := StepForward(room', retry, carry, rest, s0, b0);
          retry := false;
        } else {
          var stop;
          stop, rest, retry, carry := Refill(rest, carry);
          if stop {
            assert Pending() + BytesBits(rest) == Pending();
            return;
          }
          result := Success;
        }
      }
    }

    /** The end of a call. */
    method Finish(result: Outcome, rest: seq<Byte>, ghost carry: seq<Bit01>) returns (rest': seq<Byte>)
      requires Shape() && result != Success
      requires if result == NeedsInput then Idle() && Stuck(m, state, Pending()) && rest == []
        else Working(result, false, carry, rest)
      modifies `bufferLength, br`val, br`bitPos, br`nextIn, br`availIn
      ensures Idle()
      ensures Pending() + BytesBits(rest') ==
        old(if result == NeedsInput then Pending() + BytesBits(rest) else Unread(rest))
      ensures |rest'| <= |rest| && rest' == rest[|rest| - |rest'|..]
      ensures result == NeedsInput ==> Stuck(m, state, Pending())
      ensures result == NeedsOutput ==> m.kind(state) == Writing && bufferLength == 0 && |Pending()| < 8
      ensures result == Done ==> m.kind(state) == Finished && |Pending()| < 8
    {
      hide BitsOf, BytesBits, Stuck, Working, Pending, Unread, Reader.Backed, Reader.Stream, Reader.AccBits;
      hide Machine<S>.SameFuture, Machine<S>.Run, Machine<S>.Parse, Machine<S>.Valid, Machine<S>.Progress;
      hide Machine<S>.Checked;
      rest' := rest;
      if result != NeedsInput {
        rest' := Leave(result, rest, carry);
      }
    }

    /** `BrotliDecoderDecompressStream`: works on a piece of the input until it needs more,
        has no room for output, or is done. What it leaves, with what it holds, has the same
        future as before the call; it asks for more only when everything is taken and no
        transaction fits. */
    method Decompress(chunk: seq<Byte>, room: nat) returns (result: Outcome, rest: seq<Byte>, room': nat)
      requires Idle()
      modifies `state, `bufferLength, br, buffer
      ensures Idle() && result != Success
      ensures |rest| <= |chunk| && rest == chunk[|chunk| - |rest|..]
      ensures m.SameFuture(old(state), old(Pending()) + BytesBits(chunk), state, Pending() + BytesBits(rest))
      ensures result == NeedsInput ==> rest == [] && Stuck(m, state, Pending())
      ensures result == NeedsOutput ==> m.kind(state) == Writing && room' == 0 && bufferLength == 0 && |Pending()| < 8
      ensures result == Done ==> m.kind(state) == Finished && |Pending()| < 8
      ensures result == NeedsOutput && room > 0 ==>
        Less(|Pending() + BytesBits(rest)|, m.rank(state), |old(Pending()) + BytesBits(chunk)|, m.rank(old(state)))
    {
      ghost var s0, b0 := state, Pending() + BytesBits(chunk);
      FutureSelf(m, s0, b0);
      hide BitsOf, BytesBits, Stuck, Working, Pending, Unread, Less, Reader.Backed, Reader.Stream, Reader.AccBits;
      hide Machine<S>.SameFuture, Machine<S>.Run, Machine<S>.Parse, Machine<S>.Valid, Machine<S>.Progress;
      hide Machine<S>.Checked;
      ghost var carry;
      var left;
      result, carry := Enter(chunk);
      result, left, room', carry := Work(result, chunk, room, carry, s0, b0);
      rest := Finish(result, left, carry);
      SuffixOf(rest, left, chunk);
    }

    /** One of several calls. */
    method Call(chunk: seq<Byte>, room: nat, ghost s0: S, ghost b0: seq<Bit01>)
      returns (result: Outcome, rest: seq<Byte>)
      requires Idle() && room > 0 && m.SameFuture(s0, b0, state, Pending() + BytesBits(chunk))
      modifies `state, `bufferLength, br, buffer
      ensures Idle() && m.SameFuture(s0, b0, state, Pending() + BytesBits(rest))
      ensures match result
        case NeedsInput => rest == [] && Stuck(m, state, Pending())
        case Done => m.kind(state) == Finished
        case _ =>
          Less(|Pending() + BytesBits(rest)|, m.rank(state), |old(Pending()) + BytesBits(chunk)|, m.rank(old(state)))
    {
      hide BitsOf, BytesBits, Stuck, Pending, Less, Reader.Backed, Reader.Stream, Reader.AccBits, Machine<S>.SameFuture;
      hide Machine<S>.Run, Machine<S>.Parse, Machine<S>.Valid, Machine<S>.Progress, Machine<S>.Checked;
      ghost var s, b := state, Pending() + BytesBits(chunk);
      var spare;
      result, rest, spare := Decompress(chunk, room);
      m.FutureChain(s0, b0, s, b, state, Pending() + BytesBits(rest));
    }

    /** Calls on one piece of input until it is used up, `room` writes at a time. */
    method Drain(chunk: seq<Byte>, room: nat, ghost s0: S, ghost b0: seq<Bit01>) returns (done: bool, rest: seq<Byte>)
      requires Idle() && room > 0 && m.SameFuture(s0, b0, state, Pending() + BytesBits(chunk))
      modifies `state, `bufferLength, br, buffer
      ensures Idle() && m.SameFuture(s0, b0, state, Pending() + BytesBits(rest))
      ensures if done then m.kind(state) == Finished else rest == [] && Stuck(m, state, Pending())
    {
      hide BitsOf, BytesBits, Stuck, Pending, Reader.Backed, Reader.Stream, Reader.AccBits, Machine<S>.SameFuture;
      hide Machine<S>.Run, Machine<S>.Parse, Machine<S>.Valid, Machine<S>.Progress, Machine<S>.Checked;
      var result;
      result, rest := Call(chunk, room, s0, b0);
      while result != NeedsInput && result != Done
        invariant Idle() && m.SameFuture(s0, b0, state, Pending() + BytesBits(rest))
        invariant result == NeedsInput ==> rest == [] && Stuck(m, state, Pending())
        invariant result == Done ==> m.kind(state) == Finished
        decreases if result == NeedsInput || result == Done then 0 else 1, |Pending() + BytesBits(rest)|, m.rank(state)
      {
        result, rest := Call(rest, room, s0, b0);
      }
      done := result == Done;
    }

    /** The next piece of a longer input. */
    method DrainPart(chunk: seq<Byte>, room: nat, ghost more: seq<Byte>, ghost s0: S, ghost b0: seq<Bit01>)
      returns (done: bool, rest: seq<Byte>)
      requires Idle() && room > 0 && m.SameFuture(s0, b0, state, Pending() + BytesBits(chunk + more))
      modifies `state, `bufferLength, br, buffer
      ensures Idle() && m.SameFuture(s0, b0, state, Pending() + BytesBits(rest + more))
      ensures if done then m.kind(state) == Finished else rest == [] && Stuck(m, state, Pending())
    {
      hide BitsOf, BytesBits, Stuck, Pending, Less, Reader.Backed, Reader.Stream, Reader.AccBits, Machine<S>.SameFuture;
      hide Machine<S>.Run, Machine<S>.Parse, Machine<S>.Valid, Machine<S>.Progress, Machine<S>.Checked;
      ghost var s, b := state, Pending();
      FutureSelf(m, s, b + BytesBits(chunk));
      done, rest := Drain(chunk, room, s, b + BytesBits(chunk));
      DrainFuture(m, s0, b0, s, b, chunk, state, Pending(), rest, more);
    }

    /** Pieces of input one after the other. The outcome does not depend on how the input was
        cut: it is the reference run on all of it. */
    method DecompressAll(chunks: seq<seq<Byte>>, room: nat) returns (done: bool, unused: seq<Byte>)
      requires Idle() && room > 0 && chunks != []
      modifies `state, `bufferLength, br, buffer
      ensures Idle() && done == (m.kind(state) == Finished)
      ensures m.Run(old(state), old(Pending()) + BytesBits(Concat(chunks))) == (state, Pending() + BytesBits(unused))
      ensures !done ==> unused == [] && Stuck(m, state, Pending())
    {
      ghost var s0, b0 := state, Pending() + BytesBits(Concat(chunks));
      FutureSelf(m, s0, b0);
      hide BitsOf, BytesBits, Stuck, Pending, Concat, Reader.Backed, Reader.Stream, Reader.AccBits;
      hide Machine<S>.SameFuture, Machine<S>.Run, Machine<S>.Parse, Machine<S>.Valid, Machine<S>.Progress;
      hide Machine<S>.Checked;
      var i, rest := 1, [];
      ConcatNext(chunks, 0);
      done, rest := DrainPart(chunks[0], room, Concat(chunks[1..]), s0, b0);
      while i < |chunks| && !done
        invariant Idle() && i <= |chunks|
        invariant m.SameFuture(s0, b0, state, Pending() + BytesBits(rest + Concat(chunks[i..])))
        invariant if done then m.kind(state) == Finished else rest == [] && Stuck(m, state, Pending())
      {
        ConcatNext(chunks, i);
        assert rest + Concat(chunks[i..]) == chunks[i] + Concat(chunks[i + 1..]);
        done, rest := DrainPart(chunks[i], room, Concat(chunks[i + 1..]), s0, b0);
        i := i + 1;
      }
      ConcatNext(chunks, |chunks|);
      unused := rest + Concat(chunks[i..]);
      FutureStop(m, s0, b0, state, Pending(), unused);
    }
  }

  lemma ConcatNext(chunks: seq<seq<Byte>>, i: nat)
    requires i <= |chunks|
    ensures Concat(chunks[i..]) == if i < |chunks| then chunks[i] + Concat(chunks[i + 1..]) else []
    ensures chunks[0..] == chunks
  {
  }

  lemma FutureStop<S(!new)>(m: Machine<S>, s: S, b: seq<Bit01>, t: S, c: seq<Bit01>, unused: seq<Byte>)
    requires m.Sound() && m.SameFuture(s, b, t, c + BytesBits(unused))
    requires m.kind(t) == Finished || (unused == [] && Stuck(m, t, c))
    ensures m.Run(s, b) == (t, c + BytesBits(unused))
    ensures m.kind(t) != Finished ==> unused == []
  {
    if unused == [] {
      assert c + BytesBits(unused) == c;
    }
    m.FutureEnd(s, b, t, c + BytesBits(unused));
  }

  lemma BitsAfter(b: seq<Bit01>, x: seq<Byte>, y: seq<Byte>)
    ensures b + BytesBits(x) + BytesBits(y) == b + BytesBits(x + y)
  {
    BytesBitsAppend(x, y);
  }

  /** One piece is used up before the rest of the input. */
  lemma DrainFuture<S(!new)>(m: Machine<S>, s0: S, b0: seq<Bit01>, s: S, b: seq<Bit01>, chunk: seq<Byte>, t: S,
                             c: seq<Bit01>, rest: seq<Byte>, more: seq<Byte>)
    requires m.Sound() && m.SameFuture(s0, b0, s, b + BytesBits(chunk + more))
    requires m.SameFuture(s, b + BytesBits(chunk), t, c + BytesBits(rest))
    ensures m.SameFuture(s0, b0, t, c + BytesBits(rest + more))
  {
    hide BytesBits, Machine<S>.Run, Machine<S>.SameFuture, Machine<S>.Valid, Machine<S>.Progress, Machine<S>.Checked;
    BitsAfter(b, chunk, more);
    BitsAfter(c, rest, more);
    m.FutureMore(s, b + BytesBits(chunk), t, c + BytesBits(rest), BytesBits(more));
    m.FutureChain(s0, b0, s, b + BytesBits(chunk + more), t, c + BytesBits(rest + more));
  }

  function Concat(chunks: seq<seq<Byte>>): seq<Byte> {
    if chunks == [] then [] else chunks[0] + Concat(chunks[1..])
  }

  lemma SuffixOf(a: seq<Byte>, b: seq<Byte>, c: seq<Byte>)
    requires |a| <= |b| <= |c| && a == b[|b| - |a|..] && b == c[|c| - |b|..]
    ensures a == c[|c| - |a|..]
  {
  }

  lemma FutureSelf<S(!new)>(m: Machine<S>, s: S, b: seq<Bit01>)
    requires m.Sound()
    ensures m.SameFuture(s, b, s, b)
  {
  }
}
