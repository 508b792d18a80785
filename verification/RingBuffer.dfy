/** The decoder's output ring buffer: literals, speculative block copies, wrapping,
    growth and partial output, all related to an unbounded history of output bytes. */
module RingBuffer {
  import opened Arith
  import opened Lz77

  const WRITE_AHEAD_SLACK := 42
  const WINDOW_GAP := 16

  datatype WriteResult = Written | NeedsMoreOutput | LengthError

  /** What the ring's bytes mean. Below `pos` lie the newest bytes of the history. From
      `pos + 16` up lie the bytes of the previous turn, or the two zeros that stand for
      the bytes before the first one. The 16 bytes at `pos` may hold anything: they are
      where speculative copies spill, and no allowed distance reaches them. */
  ghost predicate RingHolds(rb: seq<Byte>, size: nat, h: seq<Byte>, pos: nat) {
    && 1024 <= size && |rb| == size + WRITE_AHEAD_SLACK
    && pos <= |rb| && (|h| == pos || |h| >= pos + size)
    && (forall j :: 0 <= j < pos ==> rb[j] == h[|h| - pos + j])
    && (|h| > pos ==> forall j :: pos + 16 <= j < size ==> rb[j] == h[|h| - pos - size + j])
    && (|h| == pos ==> forall j :: pos + 16 <= j < size && size - 2 <= j ==> rb[j] == 0)
  }

  /** Where a byte `distance` back is found. */
  lemma RingRead(rb: seq<Byte>, size: nat, h: seq<Byte>, pos: nat, distance: nat)
    requires RingHolds(rb, size, h, pos) && pos < size
    requires 0 < distance <= |h| && (distance <= pos || distance <= size - WINDOW_GAP)
    ensures var j := (pos - distance) % size;
      && j == (if distance <= pos then pos - distance else pos - distance + size)
      && j < size && rb[j] == h[|h| - distance]
      && (j < pos || pos + 16 <= j)
  {
    WrapIndex(pos - distance, size);
  }

  lemma WrapIndex(i: int, size: nat)
    requires size > 0 && 0 <= i + size && i < size
    ensures i % size == if i >= 0 then i else i + size
  {
  }

  /** Scribbling over the 16 bytes at `pos` changes nothing that is meant. */
  lemma RingClobber(rb: seq<Byte>, rb': seq<Byte>, size: nat, h: seq<Byte>, pos: nat)
    requires RingHolds(rb, size, h, pos) && |rb'| == |rb|
    requires forall j :: 0 <= j < |rb| && !(pos <= j < pos + 16) ==> rb'[j] == rb[j]
    ensures RingHolds(rb', size, h, pos)
  {
  }

  /** Writing `w` at `pos`, and anything in the 16 bytes after it, appends `w`. */
  lemma RingAppend(rb: seq<Byte>, rb': seq<Byte>, size: nat, h: seq<Byte>, pos: nat, w: seq<Byte>)
    requires RingHolds(rb, size, h, pos) && |rb'| == |rb| && pos + |w| <= |rb|
    requires forall j :: 0 <= j < |rb| && !(pos <= j < pos + |w| + 16) ==> rb'[j] == rb[j]
    requires forall k :: 0 <= k < |w| ==> rb'[pos + k] == w[k]
    ensures RingHolds(rb', size, h + w, pos + |w|)
  {
    var g := h + w;
    var p := pos + |w|;
    assert |g| - p == |h| - pos;
    forall j | 0 <= j < p ensures rb'[j] == g[|g| - p + j] {
      if j >= pos {
        assert rb'[pos + (j - pos)] == w[j - pos];
      }
    }
  }

  lemma RingAppendSlice(rb: seq<Byte>, rb': seq<Byte>, size: nat, h: seq<Byte>, pos: nat, w: seq<Byte>)
    requires RingHolds(rb, size, h, pos) && |rb'| == |rb| && pos + |w| <= |rb|
    requires forall j :: 0 <= j < |rb| && !(pos <= j < pos + |w| + 16) ==> rb'[j] == rb[j]
    requires rb'[pos..pos + |w|] == w
    ensures RingHolds(rb', size, h + w, pos + |w|)
  {
    forall k | 0 <= k < |w| ensures rb'[pos + k] == w[k] {
      assert rb'[pos + k] == rb'[pos..pos + |w|][k];
    }
    RingAppend(rb, rb', size, h, pos, w);
  }

  /** The bytes a non-overlapping copy reads, read before anything was written. */
  lemma RingBlock(rb: seq<Byte>, size: nat, h: seq<Byte>, pos: nat, distance: nat, n: nat)
    requires RingHolds(rb, size, h, pos) && pos < size
    requires 0 < distance <= |h| && (distance <= pos || distance <= size - WINDOW_GAP)
    requires var src := (pos - distance) % size;
      && src + n < size && (src + n <= pos || pos + n <= src)
    ensures n <= distance
    ensures var src := (pos - distance) % size;
      rb[src..src + n] == h[|h| - distance..|h| - distance + n]
  {
    RingRead(rb, size, h, pos, distance);
  }

  /** `roundtrips * size`, the number of bytes of all completed turns. */
  function Turns(roundtrips: nat, size: nat): nat {
    if roundtrips == 0 then 0 else Turns(roundtrips - 1, size) + size
  }

  /** `rb` after `n` bytes at `src` are moved to `dst`. */
  ghost function Moved(rb: seq<Byte>, dst: nat, src: nat, n: nat): (r: seq<Byte>)
    requires dst + n <= |rb| && src + n <= |rb|
    ensures |r| == |rb|
  {
    seq(|rb|, j requires 0 <= j < |rb| => if dst <= j < dst + n then rb[src + j - dst] else rb[j])
  }

  /** `memmove16`: sixteen bytes are read before any is written. */
  method Memmove16(rb: array<Byte>, dst: nat, src: nat)
    requires dst + 16 <= rb.Length && src + 16 <= rb.Length
    modifies rb
    ensures rb[..] == Moved(old(rb[..]), dst, src, 16)
  {
    forall k | 0 <= k < 16 {
      rb[dst + k] := rb[src + k];
    }
  }

  /** `memcpy`, whose two regions must be disjoint. */
  method Memcpy(rb: array<Byte>, dst: nat, src: nat, n: nat)
    requires dst + n <= rb.Length && src + n <= rb.Length
    requires src + n <= dst || dst + n <= src
    modifies rb
    ensures rb[..] == Moved(old(rb[..]), dst, src, n)
  {
    forall k | 0 <= k < n {
      rb[dst + k] := rb[src + k];
    }
  }

  /** A block of `n` bytes copied in two moves, the first of 16 bytes, the second of what is
      left rounded up to 16 or exactly: the bytes that arrive and the bytes that stay. */
  lemma TwoMoves(rb: seq<Byte>, dst: nat, src: nat, n: nat, m: nat)
    requires m == if n <= 16 then 0 else if n <= 32 then 16 else n - 16
    requires src + n <= dst || (dst + n <= src && dst + 16 <= src)
    requires dst + 16 + m <= |rb| && src + 16 + m <= |rb|
    ensures var r := Moved(Moved(rb, dst, src, 16), dst + 16, src + 16, m);
      && r[dst..dst + n] == rb[src..src + n]
      && forall j :: 0 <= j < |rb| && !(dst <= j < dst + n + 16) ==> r[j] == rb[j]
  {
    var r1 := Moved(rb, dst, src, 16);
    var r := Moved(r1, dst + 16, src + 16, m);
    forall j | dst <= j < dst + n ensures r[j] == rb[src + (j - dst)] {
      if j < dst + 16 {
        assert r[j] == r1[j];
      } else {
        assert r[j] == r1[src + 16 + j - (dst + 16)];
      }
    }
  }

  lemma RingTwoMoves(rb: seq<Byte>, size: nat, h: seq<Byte>, pos: nat, distance: nat, n: nat, src: nat, m: nat)
    requires RingHolds(rb, size, h, pos) && pos < size
    requires 0 < distance <= |h| && (distance <= pos || distance <= size - WINDOW_GAP)
    requires src == (pos - distance) % size
    requires |rb| == size + WRITE_AHEAD_SLACK
    requires src + n < size && pos + n < size && (src + n <= pos || pos + n <= src)
    requires m == if n <= 16 then 0 else if n <= 32 then 16 else n - 16
    ensures pos + 16 + m <= |rb| && src + 16 + m <= |rb|
    ensures RingHolds(Moved(Moved(rb, pos, src, 16), pos + 16, src + 16, m), size, CopyFrom(h, distance, n), pos + n)
  {
    hide RingHolds, Moved, CopyFrom;
    var w := rb[src..src + n];
    assert w == h[|h| - distance..|h| - distance + n] && n <= distance by {
      RingBlock(rb, size, h, pos, distance, n);
    }
    assert src + n <= pos || pos + 16 <= src by {
      RingRead(rb, size, h, pos, distance);
    }
    CopyFromBlock(h, distance, n);
    TwoMoves(rb, pos, src, n, m);
    var r := Moved(Moved(rb, pos, src, 16), pos + 16, src + 16, m);
    RingAppendSlice(rb, r, size, h, pos, w);
  }

  /** Puts `word` at `pos`. */
  method StoreWord(rb: array<Byte>, size: nat, ghost h: seq<Byte>, pos: nat, word: seq<Byte>)
    requires RingHolds(rb[..], size, h, pos) && pos + |word| <= rb.Length
    modifies rb
    ensures RingHolds(rb[..], size, h + word, pos + |word|)
  {
    ghost var rb0 := rb[..];
    forall k | 0 <= k < |word| {
      rb[pos + k] := word[k];
    }
    RingAppend(rb0, rb[..], size, h, pos, word);
  }

  /** Copies one byte from `distance` back. */
  method StoreCopy(rb: array<Byte>, size: nat, ghost h: seq<Byte>, pos: nat, distance: nat)
    requires RingHolds(rb[..], size, h, pos) && pos < size && rb.Length == size + WRITE_AHEAD_SLACK
    requires 0 < distance <= |h| && (distance <= pos || distance <= size - WINDOW_GAP)
    modifies rb
    ensures RingHolds(rb[..], size, CopyFrom(h, distance, 1), pos + 1)
  {
    ghost var rb0 := rb[..];
    RingRead(rb0, size, h, pos, distance);
    CopyFromBlock(h, distance, 1);
    hide RingHolds, CopyFrom;
    rb[pos] := rb[(pos - distance) % size];
    assert rb[..] == rb0[pos := h[|h| - distance]];
    RingAppendSlice(rb0, rb[..], size, h, pos, h[|h| - distance..|h| - distance + 1]);
  }

  /** The fast path of a backward copy. A first guess of 16 bytes is always written;
      the rest follows only when neither region wraps and they do not meet. Otherwise
      the history is unchanged and the byte-by-byte copy has to do the work. */
  method StoreBlock(rb: array<Byte>, size: nat, ghost h: seq<Byte>, pos: nat, distance: nat, length: nat)
    returns (finished: bool)
    requires RingHolds(rb[..], size, h, pos) && pos < size && rb.Length == size + WRITE_AHEAD_SLACK
    requires 0 < distance <= |h| && (distance <= pos || distance <= size - WINDOW_GAP)
    modifies rb
    ensures finished ==> pos + length < size && RingHolds(rb[..], size, CopyFrom(h, distance, length), pos + length)
    ensures !finished ==> RingHolds(rb[..], size, h, pos)
  {
    ghost var rb0 := rb[..];
    RingRead(rb0, size, h, pos, distance);
    hide RingHolds, CopyFrom;
    var srcStart := (pos - distance) % size;
    var dstEnd := pos + length;
    var srcEnd := srcStart + length;
    Memmove16(rb, pos, srcStart);
    RingClobber(rb0, rb[..], size, h, pos);
    if srcEnd > pos && dstEnd > srcStart {
      return false;
    }
    if dstEnd >= size || srcEnd >= size {
      return false;
    }
    RingTwoMoves(rb0, size, h, pos, distance, length, srcStart,
                 if length <= 16 then 0 else if length <= 32 then 16 else length - 16);
    if length > 16 {
      if length > 32 {
        Memcpy(rb, pos + 16, srcStart + 16, length - 16);
      } else {
        Memmove16(rb, pos + 16, srcStart + 16);
      }
    }
    assert length <= 16 ==> Moved(rb[..], pos + 16, srcStart + 16, 0) == rb[..];
    finished := true;
  }

  lemma {:induction false} TurnsProduct(roundtrips: nat, size: nat)
    ensures Turns(roundtrips, size) == roundtrips * size
  {
    if roundtrips > 0 {
      TurnsProduct(roundtrips - 1, size);
      assert roundtrips * size == (roundtrips - 1) * size + size;
    }
  }

  lemma TurnsStep(roundtrips: nat, size: nat)
    ensures Turns(roundtrips + 1, size) == Turns(roundtrips, size) + size
  {
  }

  lemma TurnsModulo(roundtrips: nat, size: nat, k: nat)
    requires size > 0 && k <= size
    ensures (Turns(roundtrips, size) + k) % size == if k < size then k else 0
  {
    TurnsProduct(roundtrips, size);
    if k < size {
      DivModUnique(roundtrips * size + k, size, roundtrips, k);
    } else {
      assert roundtrips * size + size == (roundtrips + 1) * size;
      DivModUnique(roundtrips * size + k, size, roundtrips + 1, 0);
    }
  }

  /** The ring's bytes from `start` are the history's. */
  lemma RingSlice(rb: seq<Byte>, size: nat, h: seq<Byte>, pos: nat, start: nat, n: nat)
    requires RingHolds(rb, size, h, pos) && start + n <= pos
    ensures rb[start..start + n] == h[|h| - pos + start..|h| - pos + start + n]
  {
  }

  /** A larger ring holding the output so far and two zeros at its end. */
  lemma RingGrow(rb: seq<Byte>, size: nat, r: seq<Byte>, newSize: nat, h: seq<Byte>, pos: nat)
    requires if pos == 0 then h == [] else RingHolds(rb, size, h, pos) && |h| == pos <= size
    requires 1024 <= newSize && |r| == newSize + WRITE_AHEAD_SLACK && pos <= |rb| && pos < newSize
    requires pos < newSize - 2 ==> r[newSize - 2] == 0
    requires pos < newSize - 1 ==> r[newSize - 1] == 0
    requires forall j :: 0 <= j < pos ==> r[j] == rb[j]
    ensures RingHolds(r, newSize, h, pos)
  {
  }

  /** A ring filled exactly to its end is at the start of the next turn. */
  lemma RingTurn(rb: seq<Byte>, size: nat, h: seq<Byte>)
    requires RingHolds(rb, size, h, size)
    ensures RingHolds(rb, size, h, 0)
  {
  }

  /** After the bytes beyond the end are moved to the start, a new turn has begun. */
  lemma RingWrap(rb: seq<Byte>, size: nat, h: seq<Byte>, pos: nat)
    requires RingHolds(rb, size, h, pos + size) && 0 < pos <= WRITE_AHEAD_SLACK
    ensures RingHolds(Moved(rb, 0, size, pos), size, h, pos)
  {
  }

  /** A larger ring with the output so far, and two zeros at its end. */
  method Enlarged(ring: array?<Byte>, size: nat, ghost h: seq<Byte>, pos: nat, newSize: nat) returns (r: array<Byte>)
    requires if ring == null then pos == 0 && h == [] else RingHolds(ring[..], size, h, pos) && |h| == pos <= size
    requires 1024 <= newSize && pos < newSize
    ensures fresh(r) && r.Length == newSize + WRITE_AHEAD_SLACK && RingHolds(r[..], newSize, h, pos)
  {
    r := new Byte[newSize + WRITE_AHEAD_SLACK];
    r[newSize - 2] := 0;
    r[newSize - 1] := 0;
    if ring != null {
      forall k | 0 <= k < pos {
        r[k] := ring[k];
      }
    }
    RingGrow(if ring == null then [] else ring[..], size, r[..], newSize, h, pos);
  }

  class OutputRing {
    const windowBits: nat
    const window: nat        // 1 << window_bits
    const canny: bool        // canny_ringbuffer_allocation
    var ring: array?<Byte>
    var size: nat            // ringbuffer_size
    var newSize: nat         // new_ringbuffer_size
    var pos: nat
    var roundtrips: nat      // rb_roundtrips
    var partialPosOut: nat
    var shouldWrap: bool
    var maxDistance: nat
    var remaining: int       // meta_block_remaining_len
    ghost var History: seq<Byte>
    ghost var Emitted: seq<Byte>
    ghost var sizeBits: nat

    function MaxBackward(): nat
      requires window >= WINDOW_GAP
    {
      window - WINDOW_GAP
    }

    /** The largest distance of section 9.1 of RFC 7932. */
    lemma WindowIs()
      requires Valid()
      ensures MaxBackward() == Pow2(windowBits) - 16 >= 1008
    {
    }

    /** `pos` before the bytes beyond the ring's end are moved to its start. */
    ghost function RingPos(): nat
      reads this
    {
      if shouldWrap then pos + size else pos
    }

    ghost predicate Valid()
      reads this, ring
    {
      && window == Pow2(windowBits) && window >= 1024
      && (ring == null <==> size == 0)
      && (size > 0 ==> size == Pow2(sizeBits))
      && (ring == null ==> pos == 0 && !shouldWrap && History == [] && roundtrips == 0)
      && (ring != null ==> ring.Length == size + WRITE_AHEAD_SLACK >= pos)
      && (ring != null ==> RingHolds(ring[..], size, History, RingPos()))
      && (size == 0 || size == window || 2 * size <= window)
      && (size < window ==> roundtrips == 0 && !shouldWrap)
      && |History| == Turns(roundtrips, size) + pos
      && Turns(roundtrips, size) <= partialPosOut <= |History|
      && Emitted == History[..partialPosOut]
      && partialPosOut <= Turns(roundtrips, size) + size
      && maxDistance <= MaxBackward() && maxDistance <= |History|
      && (shouldWrap ==> partialPosOut == Turns(roundtrips, size) && 0 < pos <= WRITE_AHEAD_SLACK)
      && (newSize == 0 || size <= newSize)
    }

    /** At rest: nothing is waiting to be wrapped, and a full ring is not at its end. */
    ghost predicate Ready()
      reads this, ring
    {
      && Valid() && ring != null && !shouldWrap && pos <= size
      && (size == window ==> pos < size && (roundtrips > 0 ==> maxDistance == MaxBackward()))
    }

    /** A ring smaller than the window was sized for the whole meta-block, of which
        `pending` bytes are claimed but not yet written. */
    ghost predicate Fits(pending: int)
      reads this
    {
      size == window || pos + pending + remaining <= size
    }

    /** The largest distance a copy may use now: all of the history up to the window. */
    method UpdateMaxDistance()
      requires Ready()
      modifies this`maxDistance
      ensures Ready() && maxDistance == Min(|History|, Pow2(windowBits) - 16)
    {
      if maxDistance != MaxBackward() {
        maxDistance := if pos < MaxBackward() then pos else MaxBackward();
      }
    }

    /** The two bytes before the next one, zero before the start of the stream: the
        literal context. */
    method ContextBytes() returns (p1: Byte, p2: Byte)
      requires Ready()
      ensures p1 == if |History| >= 1 then History[|History| - 1] else 0
      ensures p2 == if |History| >= 2 then History[|History| - 2] else 0
    {
      WrapIndex(pos - 1, size);
      WrapIndex(pos - 2, size);
      p1 := ring[(pos - 1) % size];
      p2 := ring[(pos - 2) % size];
    }

    method PutLiteral(b: Byte)
      requires Ready() && pos < size
      modifies this`pos, this`History, ring
      ensures Valid() && ring == old(ring) && pos == old(pos) + 1
      ensures History == old(History) + [b]
    {
      StoreWord(ring, size, History, pos, [b]);
      pos := pos + 1;
      History := History + [b];
    }

    /** The fast path of a backward copy. A first guess of 16 bytes is always written;
        the rest follows only when neither region wraps and they do not meet. Otherwise
        nothing is appended and `WrapCopy` has to do the work. */
    method BlockCopy(distance: nat, length: nat) returns (finished: bool)
      requires Ready() && pos < size && 0 < distance <= |History| && distance <= MaxBackward()
      modifies this`pos, this`History, ring
      ensures Valid() && ring == old(ring)
      ensures finished ==> History == CopyFrom(old(History), distance, length) && pos == old(pos) + length < size
      ensures !finished ==> History == old(History) && pos == old(pos)
    {
      hide RingHolds, CopyFrom;
      finished := StoreBlock(ring, size, History, pos, distance, length);
      if finished {
        pos := pos + length;
        History := CopyFrom(History, distance, length);
      }
    }

    /** One step of the byte-by-byte copy. */
    method PutCopy(distance: nat)
      requires Ready() && pos < size && 0 < distance <= |History| && distance <= MaxBackward()
      modifies this`pos, this`History, ring
      ensures Valid() && ring == old(ring) && pos == old(pos) + 1
      ensures |old(History)| >= distance && History == CopyFrom(old(History), distance, 1)
    {
      StoreCopy(ring, size, History, pos, distance);
      History := CopyFrom(History, distance, 1);
      pos := pos + 1;
    }

    /** The byte-by-byte copy, which stops when the ring's end is reached. */
    method WrapCopy(distance: nat, length: nat) returns (left: nat)
      requires Ready() && 0 < distance <= |History| && distance <= MaxBackward()
      requires pos == size ==> length == 0
      modifies this`pos, this`History, ring
      ensures Valid() && ring == old(ring) && left <= length
      ensures History == CopyFrom(old(History), distance, length - left)
      ensures pos == old(pos) + (length - left) <= size && (pos < size ==> left == 0)
    {
      hide RingHolds, CopyFrom, Turns;
      left := length;
      ghost var h := History;
      CopyFromZero(h, distance);
      var wrapGuard := size - pos;
      while left > 0
        invariant Valid() && ring == old(ring) && 0 < distance <= |h| <= |History|
        invariant left <= length && History == CopyFrom(h, distance, length - left)
        invariant pos == old(pos) + (length - left) <= size && wrapGuard == size - pos
        invariant left > 0 ==> wrapGuard > 0
      {
        left := left - 1;
        CopyFromSplit(h, distance, length - left - 1, 1);
        PutCopy(distance);
        wrapGuard := wrapGuard - 1;
        if wrapGuard == 0 {
          return;
        }
      }
    }

    /** Several bytes at once; a dictionary word may run past the ring's end into the slack. */
    method PutWord(word: seq<Byte>)
      requires Ready() && pos + |word| <= size + WRITE_AHEAD_SLACK
      modifies this`pos, this`History, ring
      ensures Valid() && ring == old(ring) && pos == old(pos) + |word|
      ensures History == old(History) + word
    {
      StoreWord(ring, size, History, pos, word);
      pos := pos + |word|;
      History := History + word;
    }

    /** How many bytes may be handed out now; bytes beyond the ring's end have to wait. */
    ghost function Unwritten(): nat
      requires Valid()
      reads this, ring
    {
      Turns(roundtrips, size) + Min(pos, size) - partialPosOut
    }

    /** Where the bytes to hand out start and how many they are. */
    method UnwrittenBytes() returns (start: nat, toWrite: nat)
      requires Valid() && ring != null
      ensures toWrite == Unwritten() && start + toWrite <= Min(pos, size)
      ensures toWrite > 0 ==> start == partialPosOut - Turns(roundtrips, size)
    {
      hide RingHolds;
      TurnsProduct(roundtrips, size);
      start := partialPosOut % size;
      toWrite := roundtrips * size + (if pos > size then size else pos) - partialPosOut;
      TurnsModulo(roundtrips, size, partialPosOut - Turns(roundtrips, size));
    }

    /** Hands out `n` bytes from `start`. */
    method HandOut(start: nat, n: nat) returns (out: seq<Byte>)
      requires Valid() && ring != null && !shouldWrap && n <= Unwritten()
      requires n > 0 ==> start == partialPosOut - Turns(roundtrips, size)
      requires start + n <= Min(pos, size)
      modifies this`partialPosOut, this`Emitted
      ensures Valid() && |out| == n && Emitted == old(Emitted) + out
      ensures Unwritten() == old(Unwritten()) - n
    {
      hide RingHolds, Turns;
      RingSlice(ring[..], size, History, pos, start, n);
      out := ring[start..start + n];
      assert out == ring[..][start..start + n];
      assert out == History[partialPosOut..partialPosOut + n];
      partialPosOut := partialPosOut + n;
      Emitted := Emitted + out;
    }

    /** Starts the next turn of a ring of full size that has been handed out. */
    method StartTurn()
      requires Valid() && ring != null && !shouldWrap && size == window <= pos && Unwritten() == 0
      modifies this`pos, this`roundtrips, this`shouldWrap
      ensures Valid() && pos == old(pos) - size && roundtrips == old(roundtrips) + 1 && shouldWrap == (pos > 0)
    {
      hide RingHolds, Turns;
      if pos == size {
        RingTurn(ring[..], size, History);
      }
      TurnsStep(roundtrips, size);
      pos := pos - size;
      roundtrips := roundtrips + 1;
      shouldWrap := pos != 0;
    }

    /** Hands out up to `available` bytes. Only a ring of full size wraps, and only once
        everything in it has been handed out. */
    method WriteRingBuffer(available: nat, force: bool) returns (result: WriteResult, out: seq<Byte>)
      requires Valid() && ring != null && !shouldWrap
      modifies this`partialPosOut, this`Emitted, this`pos, this`roundtrips, this`shouldWrap
      ensures Valid()
      ensures Emitted == old(Emitted) + out && |out| == Min(available, if remaining < 0 then 0 else old(Unwritten()))
      ensures result == LengthError <==> remaining < 0
      ensures result == NeedsMoreOutput ==> Unwritten() > 0 && (size == window || force)
      ensures result == Written ==> |out| == old(Unwritten()) || (size < window && !force)
      ensures result == Written && size == window && old(pos) >= size ==>
        pos == old(pos) - size && roundtrips == old(roundtrips) + 1 && shouldWrap == (pos > 0)
      ensures !(result == Written && size == window && old(pos) >= size) ==>
        pos == old(pos) && roundtrips == old(roundtrips) && !shouldWrap && Unwritten() == old(Unwritten()) - |out|
    {
      hide RingHolds, Turns;
      var start, toWrite := UnwrittenBytes();
      var numWritten := if available > toWrite then toWrite else available;
      if remaining < 0 {
        return LengthError, [];
      }
      out := HandOut(start, numWritten);
      if numWritten < toWrite {
        return if size == window || force then NeedsMoreOutput else Written, out;
      }
      if size == window && pos >= size {
        StartTurn();
      }
      result := Written;
    }

    /** Moves the bytes beyond the ring's end to its start. */
    method WrapRingBuffer()
      requires Valid() && ring != null
      modifies this`shouldWrap, ring
      ensures Valid() && ring == old(ring) && !shouldWrap
    {
      if shouldWrap {
        ghost var rb := ring[..];
        Memcpy(ring, 0, size, pos);
        RingWrap(rb, size, History, pos);
        shouldWrap := false;
      }
    }

    /** The three "write" states: hands out the full ring, whatever room the client offers
        each time, then wraps it. It fails exactly when the meta-block is overfull. */
    method Flush(ghost pending: nat) returns (ok: bool)
      requires Valid() && ring != null && !shouldWrap && pos >= size && Fits(pending)
      modifies this`partialPosOut, this`Emitted, this`pos, this`roundtrips, this`shouldWrap, this`maxDistance, ring
      ensures ok == (remaining >= 0) && Valid() && ring == old(ring)
      ensures ok ==> Ready() && Fits(pending) && (size == window ==> pos == old(pos) - size)
      ensures ok && size < window ==> pos == size && pending == 0 && remaining == 0
    {
      hide RingHolds, Turns;
      var result := NeedsMoreOutput;
      while result == NeedsMoreOutput
        invariant Valid()
        invariant result == LengthError ==> remaining < 0
        invariant result == NeedsMoreOutput ==> pos == old(pos) && !shouldWrap && roundtrips == old(roundtrips)
        invariant result == Written ==> remaining >= 0 && pos == if size == window then old(pos) - size else old(pos)
        decreases if result == NeedsMoreOutput then Unwritten() + 1 else 0
      {
        var available: nat :| available > 0;
        var out;
        result, out := WriteRingBuffer(available, false);
      }
      if result == LengthError {
        return false;
      }
      WrapRingBuffer();
      if size == window {
        maxDistance := MaxBackward();
      }
      ok := true;
    }

    /** The end of the stream: everything is handed out. */
    method FlushAll()
      requires Ready() && remaining == 0
      modifies this`partialPosOut, this`Emitted, this`pos, this`roundtrips, this`shouldWrap
      ensures Ready() && Emitted == History
    {
      hide RingHolds, Turns;
      var result := NeedsMoreOutput;
      while result == NeedsMoreOutput
        invariant Ready() && pos == old(pos) && roundtrips == old(roundtrips)
        invariant result != LengthError && (result == Written ==> Unwritten() == 0)
        decreases if result == NeedsMoreOutput then Unwritten() + 1 else 0
      {
        var available: nat :| available > 0;
        var out;
        result, out := WriteRingBuffer(available, true);
      }
    }

    constructor (windowBits: nat, canny: bool)
      requires 10 <= windowBits
      ensures Valid() && ring == null && this.windowBits == windowBits
      ensures History == [] && Emitted == [] && remaining == 0 && newSize == 0
    {
      this.windowBits := windowBits;
      window := Pow2(windowBits);
      this.canny := canny;
      ring, size, newSize, pos, roundtrips, partialPosOut := null, 0, 0, 0, 0, 0;
      shouldWrap, maxDistance, remaining := false, 0, 0;
      History, Emitted, sizeBits := [], [], 0;
      new;
      Pow2Monotone(10, windowBits);
    }

    /** Chooses the smallest ring that holds everything up to the end of the meta-block,
        unless the window is smaller. */
    method CalculateRingBufferSize(isMetadata: bool)
      requires Valid() && !shouldWrap && remaining >= 0 && pos <= size && newSize == size
      modifies this`newSize
      ensures isMetadata ==> newSize == size
      ensures !isMetadata ==> Valid() && IsRingSize(newSize)
      ensures !isMetadata ==> newSize == window || pos + remaining <= newSize
      ensures !isMetadata && size < window && !canny ==> newSize == window
      ensures !isMetadata && size < window && canny ==>
        newSize / 2 < size || newSize / 2 < 1024 || newSize / 2 < pos + remaining
    {
      var minSize := if size != 0 then size else 1024;
      if size == window {
        return;
      }
      if isMetadata {
        return;
      }
      var outputSize := if ring == null then 0 else pos;
      outputSize := outputSize + remaining;
      minSize := if minSize < outputSize then outputSize else minSize;
      var n := window;
      ghost var bits := windowBits;
      if canny {
        while n / 2 >= minSize
          invariant n == Pow2(bits) && (n == window || (n >= minSize && 2 * n <= window))
        {
          bits := bits - 1;
          n := n / 2;
        }
      }
      newSize := n;
    }

    /** A power of two between 1024 and the window. */
    ghost predicate IsRingSize(n: nat) {
      1024 <= n && (n == window || 2 * n <= window) && exists b :: n == Pow2(b)
    }

    /** Moves the output to a larger ring; a ring that has wrapped is never moved. */
    method EnsureRingBuffer()
      requires Valid() && !shouldWrap && pos <= size <= newSize && IsRingSize(newSize)
      requires size == window ==> Ready()
      modifies this`ring, this`size, this`sizeBits
      ensures Ready() && size == newSize
      ensures ring == old(ring) || fresh(ring)
    {
      if size == newSize {
        return;
      }
      var r := Enlarged(ring, size, History, pos, newSize);
      hide RingHolds;
      ring := r;
      ghost var bits :| newSize == Pow2(bits);
      sizeBits := bits;
      size := newSize;
    }
  }
}
