/** The last-four-distances cache shared by the encoder and the decoder
    (section 4 of RFC 7932): its abstract value, the encoder's choice of a short
    code and the decoder's ring buffer with its "double roll". */
module Distances {

  /** The last four distances, most recent first. */
  type Cache = c: seq<int> | |c| == 4 witness [4, 11, 15, 16]

  const INITIAL: Cache := [4, 11, 15, 16]
  const NUM_SHORT_CODES := 16
  const MAX_ALLOWED_DISTANCE := 0x7FFFFFFC
  const SIZE_T_MODULUS := 0x1_0000_0000_0000_0000

  function Push(c: Cache, distance: int): Cache {
    [distance, c[0], c[1], c[2]]
  }

  /** The distance a short code stands for, by the table of section 4 of RFC 7932. */
  function ShortDistance(code: nat, c: Cache): int
    requires code < NUM_SHORT_CODES
  {
    if code < 4 then c[code]
    else
      var step := if code < 10 then (code - 4) / 2 + 1 else (code - 10) / 2 + 1;
      var base := if code < 10 then c[0] else c[1];
      if code % 2 == 0 then base - step else base + step
  }

  /** The k-th hexadecimal digit of a packed constant: `(packed >> (4 * k)) & 0xF`. */
  function Nibble(packed: nat, k: nat): (d: nat)
    ensures d < 16
  {
    if k == 0 then packed % 16 else Nibble(packed / 16, k - 1)
  }

  /** The encoder's code for `distance`; any value of 16 or more is the distance plus 15. */
  function ComputeDistanceCode(distance: nat, maxDistance: nat, c: Cache): nat {
    var offset0 := (distance + 3 - c[0]) % SIZE_T_MODULUS;
    var offset1 := (distance + 3 - c[1]) % SIZE_T_MODULUS;
    if distance > maxDistance then distance + NUM_SHORT_CODES - 1
    else if distance == c[0] then 0
    else if distance == c[1] then 1
    else if offset0 < 7 then Nibble(0x9750468, offset0)
    else if offset1 < 7 then Nibble(0xFDB1ACE, offset1)
    else if distance == c[2] then 2
    else if distance == c[3] then 3
    else distance + NUM_SHORT_CODES - 1
  }

  /** The digits of the two encoder constants undo the decoder's table. */
  lemma PackedCodes(k: nat, c: Cache)
    requires k < 7
    ensures k != 3 ==> 4 <= Nibble(0x9750468, k) < 10 && ShortDistance(Nibble(0x9750468, k), c) == c[0] + k - 3
    ensures k != 3 ==> 10 <= Nibble(0xFDB1ACE, k) < 16 && ShortDistance(Nibble(0xFDB1ACE, k), c) == c[1] + k - 3
  {
    assert Nibble(0x9750468, 0) == 8 && Nibble(0x9750468, 1) == 6 && Nibble(0x9750468, 2) == 4;
    assert Nibble(0x9750468, 4) == 5 && Nibble(0x9750468, 5) == 7 && Nibble(0x9750468, 6) == 9;
    assert Nibble(0xFDB1ACE, 0) == 14 && Nibble(0xFDB1ACE, 1) == 12 && Nibble(0xFDB1ACE, 2) == 10;
    assert Nibble(0xFDB1ACE, 4) == 11 && Nibble(0xFDB1ACE, 5) == 13 && Nibble(0xFDB1ACE, 6) == 15;
  }

  /** Cache entries and distances that fit the C types the source stores them in. */
  predicate Int32Cache(c: Cache) {
    forall i :: 0 <= i < 4 ==> -0x8000_0000 <= c[i] < 0x8000_0000
  }

  lemma ShortDistanceFirst(c: Cache)
    ensures forall k :: 0 <= k < 4 ==> ShortDistance(k, c) == c[k]
  {
  }

  /** Decoding undoes encoding: a short code names exactly this distance, and a distance
      beyond `maxDistance` (a dictionary reference) never gets one. */
  lemma DistanceCodeRoundTrip(distance: nat, maxDistance: nat, c: Cache)
    requires 0 < distance <= MAX_ALLOWED_DISTANCE && Int32Cache(c)
    ensures var code := ComputeDistanceCode(distance, maxDistance, c);
      && (code < NUM_SHORT_CODES ==> ShortDistance(code, c) == distance && distance <= maxDistance)
      && (code >= NUM_SHORT_CODES ==> code - (NUM_SHORT_CODES - 1) == distance)
      && (code == 0 <==> distance <= maxDistance && distance == c[0])
  {
    hide Nibble, ShortDistance;
    ShortDistanceFirst(c);
    var offset0 := (distance + 3 - c[0]) % SIZE_T_MODULUS;
    var offset1 := (distance + 3 - c[1]) % SIZE_T_MODULUS;
    if offset0 < 7 { PackedCodes(offset0, c); }
    if offset1 < 7 { PackedCodes(offset1, c); }
  }

  /** A cache update as both sides make it: nothing for the last distance again (code 0)
      and nothing for a dictionary reference. */
  function Update(c: Cache, code: nat, distance: int, isDictionary: bool): Cache {
    if isDictionary || code == 0 then c else Push(c, distance)
  }

  /** The cache held in four slots whose newest entry is just before `i`. */
  ghost function RingView(rb: seq<int>, i: int): (c: Cache)
    requires |rb| == 4
  {
    [rb[(i - 1) % 4], rb[(i - 2) % 4], rb[(i - 3) % 4], rb[(i - 4) % 4]]
  }

  /** The decoder looks entries up counting forward from `i`. */
  lemma RingLookup(rb: seq<int>, i: int, code: nat)
    requires |rb| == 4 && code < 4
    ensures rb[(i + 3 - code) % 4] == RingView(rb, i)[code]
  {
    assert (i + 3) % 4 == (i - 1) % 4 && (i + 2) % 4 == (i - 2) % 4
      && (i + 1) % 4 == (i - 3) % 4 && i % 4 == (i - 4) % 4;
  }

  /** Writing the slot at `i` and advancing pushes onto the cache. */
  lemma RingPush(rb: seq<int>, i: int, d: int)
    requires |rb| == 4
    ensures RingView(rb[i % 4 := d], i + 1) == Push(RingView(rb, i), d)
  {
  }

  /** Rewriting the newest entry with itself changes nothing. */
  lemma RingRewrite(rb: seq<int>, i: int)
    requires |rb| == 4
    ensures RingView(rb[(i - 1) % 4 := RingView(rb, i)[0]], i) == RingView(rb, i)
  {
  }

  /** The decoder's four-slot ring of distances. `idx` runs freely and is used modulo 4;
      `context` is the roll that a copy must not and a dictionary reference must undo. */
  class DistanceRing {
    var rb: array<int>
    var idx: int
    var context: int
    var code: int

    ghost predicate Valid()
      reads this, rb
    {
      rb.Length == 4 && 0 <= context <= 1
    }

    /** The cache this ring stands for once the pending roll is undone. */
    ghost function View(): Cache
      requires Valid()
      reads this, rb
    {
      RingView(rb[..], idx + context)
    }

    constructor ()
      ensures Valid() && fresh(rb) && View() == INITIAL && context == 0
    {
      rb := new int[4][16, 15, 11, 4];
      idx, context, code := 0, 0, 0;
      new;
    }

    /** The implicit "last distance" of a command without a distance code. */
    method TakeLast()
      requires Valid() && context == 0
      modifies this
      ensures Valid() && rb == old(rb) && rb[..] == old(rb[..])
      ensures View() == old(View())
      ensures code == old(View())[0] && context == 1
    {
      RingLookup(rb[..], idx, 0);
      context := 1;
      idx := idx - 1;
      code := rb[idx % 4];
    }

    /** Resolves the short code held in `code`; a non-positive distance becomes 0x7FFFFFFF. */
    method TakeDistance()
      requires Valid() && context == 0 && 0 <= code < 16
      modifies this
      ensures Valid() && rb == old(rb) && rb[..] == old(rb[..])
      ensures View() == old(View())
      ensures context == if old(code) == 0 then 1 else 0
      ensures var d := ShortDistance(old(code), old(View()));
        code == if old(code) >= 4 && d <= 0 then 0x7FFFFFFF else d
    {
      var offset := code - 3;
      hide RingView;
      if code <= 3 {
        RingLookup(rb[..], idx, code);
        context := if code == 0 then 1 else 0;
        code := rb[(idx - offset) % 4];
        idx := idx - context;
      } else {
        var indexDelta := 3;
        var base := code - 10;
        if code < 10 {
          base := code - 4;
        } else {
          indexDelta := 2;
        }
        PackedDeltas(base);
        RingLookup(rb[..], idx, 3 - indexDelta);
        var delta := Nibble(0x605142, base) - 3;
        code := rb[(idx + indexDelta) % 4] + delta;
        if code <= 0 {
          code := 0x7FFFFFFF;
        }
      }
    }

    /** A copy was made at distance `code`: store it and advance. */
    method Record()
      requires Valid()
      requires context == 1 ==> code == View()[0]
      modifies this, rb
      ensures Valid() && rb == old(rb) && context == 0 && code == old(code)
      ensures View() == if old(context) == 1 then old(View()) else Push(old(View()), code)
    {
      RingPush(rb[..], idx, code);
      RingRewrite(rb[..], idx + 1);
      rb[idx % 4] := code;
      idx := idx + 1;
      context := 0;
    }

    /** A dictionary word was used: undo the roll. */
    method UndoRoll()
      requires Valid()
      modifies this
      ensures Valid() && rb == old(rb) && context == 0 && code == old(code)
      ensures View() == old(View())
    {
      idx := idx + context;
      context := 0;
    }
  }

  /** The digits of the decoder constant are the six offsets -1, 1, -2, 2, -3, 3. */
  lemma PackedDeltas(base: nat)
    requires base < 6
    ensures Nibble(0x605142, base) - 3 == if base % 2 == 0 then -(base / 2 + 1) else base / 2 + 1
  {
    assert Nibble(0x605142, 0) == 2 && Nibble(0x605142, 1) == 4 && Nibble(0x605142, 2) == 1;
    assert Nibble(0x605142, 3) == 5 && Nibble(0x605142, 4) == 0 && Nibble(0x605142, 5) == 6;
  }
}
