/**
 * The UUID version 7 generator: the module constants and
 * `UUIDv7Generator.__call__` with its four `prev_*` fields.
 *
 * The layout of a version 7 UUID, most significant bit first:
 *   48 bits unix_ts_ms | 4 bits version 0b0111 | 12 bits rand_a |
 *    2 bits variant 0b10 | 62 bits rand_b
 * rand_a holds the sub-millisecond part of the clock ("Method 3" of
 * draft-ietf-uuidrev-rfc4122bis-05, section 6.2) and rand_b is a
 * "Monotonic Random" counter ("Method 2" of the same section).
 *
 * The time source and the randomness source are replaced by the sequences of
 * values they will return, so every run is deterministic.
 */
module Uuid7 {
  import opened Bits

  const NS_IN_MS: nat := 1_000_000

  const V7_VER: nat := 0x7
  const V7_VAR: nat := 0x2

  const V7_RAND_A_NUM_BITS: nat := 12

  const V7_RAND_B_NUM_BITS: nat := 62
  const V7_RAND_B_RND_BITS: nat := 62
  const V7_RAND_B_INC_BITS: nat := 31

  /** `(1 << (V7_RAND_B_NUM_BITS + 1)) - 1`: an incremented rand_b at or above this overflows. */
  const RAND_B_LIMIT: nat := TWO_63 - 1

  /**
   * The field widths give the powers of two the layout is written with:
   * rand_a spans 2^12 values, rand_b 2^62, and the overflow limit is
   * `(1 << (V7_RAND_B_NUM_BITS + 1)) - 1`.
   */
  lemma LayoutWidths()
    ensures Pow2(V7_RAND_A_NUM_BITS) == TWO_12 && Pow2(V7_RAND_B_NUM_BITS) == TWO_62
    ensures RAND_B_LIMIT == Pow2(V7_RAND_B_NUM_BITS + 1) - 1
  {
    Pow2Literals();
  }

  // ---------------------------------------------------------------------------
  // Pure pieces of one call: splitting the clock, scaling rand_a, packing.

  /** `divmod(unix_time_ns, NS_IN_MS)`: whole milliseconds and the nanoseconds left over. */
  function SplitNs(ns: nat): (r: (nat, nat))
    ensures r.1 < NS_IN_MS
    ensures r.0 * NS_IN_MS + r.1 == ns
  {
    (ns / NS_IN_MS, ns % NS_IN_MS)
  }

  /**
   * `int((remainder_ns / NS_IN_MS) * 2**12)`: the fraction of the current
   * millisecond that has elapsed, in units of 1/4096 ms, rounded down.
   * The source computes it in floating point; it equals this integer
   * quotient for every remainder below one millisecond.
   */
  function ScaleRandA(remainderNs: nat): (a: nat)
    requires remainderNs < NS_IN_MS
    ensures a < TWO_12
    ensures a * NS_IN_MS <= remainderNs * TWO_12 < (a + 1) * NS_IN_MS
  {
    remainderNs * TWO_12 / NS_IN_MS
  }

  /** The time fields a clock sample yields: `divmod` and the rand_a scaling. */
  function TimeFields(ns: nat): (nat, nat)
  {
    var (unixTimeMs, remainderNs) := SplitNs(ns);
    (unixTimeMs, ScaleRandA(remainderNs))
  }

  /**
   * Python's tuple comparison `(ms, a) > (prevMs, prevA)`.  While rand_a
   * stays within its 12 bits (or is the sentinel -1 on the stored side), it
   * orders the pairs as the numbers `ms * 2^12 + a` that make up the top of
   * the UUID.
   */
  function LexGreater(ms: int, a: int, prevMs: int, prevA: int): (r: bool)
    ensures 0 <= a < TWO_12 && -1 <= prevA < TWO_12 ==> (r <==> ms * TWO_12 + a > prevMs * TWO_12 + prevA)
  {
    ms > prevMs || (ms == prevMs && a > prevA)
  }

  /**
   * The packing expression of `__call__`, or-ing the shifted fields in the
   * order the source writes them.  Nothing masks the fields, so the value
   * is at least the shifted timestamp and at least rand_b, however wide
   * either is.
   */
  function Pack(unixTimeMs: nat, randA: nat, randB: nat): (r: nat)
    ensures unixTimeMs * TWO_80 <= r && randB <= r
  {
    var t, v, a, w := unixTimeMs * TWO_80, V7_VER * TWO_76, randA * TWO_64, V7_VAR * TWO_62;
    BitOrBounds(t, v);
    BitOrBounds(BitOr(t, v), a);
    BitOrBounds(BitOr(BitOr(t, v), a), w);
    BitOrBounds(BitOr(BitOr(BitOr(t, v), a), w), randB);
    BitOr(BitOr(BitOr(BitOr(t, v), a), w), randB)
  }

  /** The upper 64 bits of a packed value: timestamp, version and rand_a. */
  function HighWord(unixTimeMs: nat, randA: nat): nat
  {
    unixTimeMs * 0x1_0000 + V7_VER * TWO_12 + randA
  }

  // The fields of a 128-bit value, read back at the positions of the layout.
  function UnixTsMsField(u: nat): nat { u / TWO_80 }
  function VersionField(u: nat): nat { (u / TWO_76) % 0x10 }
  function RandAField(u: nat): nat { (u / TWO_64) % TWO_12 }
  function VariantField(u: nat): nat { (u / TWO_62) % 4 }
  function RandBField(u: nat): nat { u % TWO_62 }

  /** Bit 63 of the low word, the top bit of the variant. */
  function Bit63(u: nat): nat { (u / TWO_63) % 2 }

  /** The low word `(V7_VAR << 62) | rand_b`: bit 63 is set whatever rand_b is. */
  lemma LowWord(randB: nat)
    requires randB < TWO_64
    ensures BitOr(V7_VAR * TWO_62, randB) == if randB < TWO_63 then TWO_63 + randB else randB
  {
    Pow2Literals();
    if randB < TWO_63 {
      OrDisjoint(1, randB, 63);
    } else {
      OrSplit(1, 0, 1, randB - TWO_63, 63);
      assert BitOr(1, 1) == 1;
    }
  }

  /** The first four or-ed terms of the packing: timestamp, version, rand_a and the variant as a sum. */
  lemma HighBits(unixTimeMs: nat, randA: nat)
    requires randA < TWO_12
    ensures BitOr(BitOr(BitOr(unixTimeMs * TWO_80, V7_VER * TWO_76), randA * TWO_64), V7_VAR * TWO_62)
         == (HighWord(unixTimeMs, randA) * 2 + 1) * TWO_63
  {
    var t := unixTimeMs * 0x10 + V7_VER;
    OrVersion(unixTimeMs);
    OrRandA(t, randA);
    assert t * TWO_12 + randA == HighWord(unixTimeMs, randA);
    OrVariant(HighWord(unixTimeMs, randA));
  }

  /** Timestamp and version: `(ms << 80) | (V7_VER << 76)`. */
  lemma OrVersion(unixTimeMs: nat)
    ensures BitOr(unixTimeMs * TWO_80, V7_VER * TWO_76) == (unixTimeMs * 0x10 + V7_VER) * TWO_76
  {
    Pow2Literals();
    OrDisjoint(unixTimeMs, V7_VER * TWO_76, 80);
  }

  /** Then rand_a: `... | (rand_a << 64)`. */
  lemma OrRandA(t: nat, randA: nat)
    requires randA < TWO_12
    ensures BitOr(t * TWO_76, randA * TWO_64) == (t * TWO_12 + randA) * TWO_64
  {
    Pow2Literals();
    MulMono(randA, TWO_12 - 1, TWO_64);
    OrDisjoint(t, randA * TWO_64, 76);
  }

  /** Then the variant: `... | (V7_VAR << 62)`. */
  lemma OrVariant(h: nat)
    ensures BitOr(h * TWO_64, V7_VAR * TWO_62) == (h * 2 + 1) * TWO_63
  {
    Pow2Literals();
    OrDisjoint(h, V7_VAR * TWO_62, 64);
  }

  /**
   * The packing is the sum of the shifted fields plus the low word, as long as
   * rand_a fits in its 12 bits and rand_b in 64 bits.
   */
  lemma {:induction false} PackLayout(unixTimeMs: nat, randA: nat, randB: nat)
    requires randA < TWO_12 && randB < TWO_64
    ensures Pack(unixTimeMs, randA, randB)
         == HighWord(unixTimeMs, randA) * TWO_64 + (if randB < TWO_63 then TWO_63 + randB else randB)
  {
    HighBits(unixTimeMs, randA);
    LowOr(HighWord(unixTimeMs, randA), randB);
  }

  /** Or-ing rand_b into the high word with the variant's bit 63 set. */
  lemma LowOr(h: nat, randB: nat)
    requires randB < TWO_64
    ensures BitOr((h * 2 + 1) * TWO_63, randB) == h * TWO_64 + (if randB < TWO_63 then TWO_63 + randB else randB)
  {
    Pow2Literals();
    var high: nat := (h * 2 + 1) * TWO_63;
    HighShift(h);
    if randB < TWO_63 {
      OrDisjoint(h * 2 + 1, randB, 63);
      assert BitOr(high, randB) == high + randB;
    } else {
      HighSetBit(h, randB);
      assert BitOr(high, randB) == h * TWO_64 + randB;
    }
  }

  lemma HighShift(h: nat)
    ensures (h * 2 + 1) * TWO_63 == h * TWO_64 + TWO_63
  {
  }

  /** A rand_b that already has bit 63 set absorbs the variant's bit 63. */
  lemma HighSetBit(h: nat, randB: nat)
    requires TWO_63 <= randB < TWO_64
    ensures BitOr(h * TWO_64 + TWO_63, randB) == h * TWO_64 + randB
  {
    Pow2Literals();
    OrSplit(h, TWO_63, 0, randB, 64);
    assert 0 * TWO_64 + randB == randB;
    assert BitOr(h, 0) == h;
    LowWord(randB);
    assert BitOr(TWO_63, randB) == randB;
  }

  /**
   * Round trip: when the timestamp fits in 48 bits and rand_b in 62 bits, the
   * packed value fits in 128 bits and every field reads back exactly, with the
   * version 0b0111 and the variant 0b10.
   */
  lemma PackDecode(unixTimeMs: nat, randA: nat, randB: nat)
    requires unixTimeMs < 0x1_0000_0000_0000 && randA < TWO_12 && randB < TWO_62
    ensures var u := Pack(unixTimeMs, randA, randB);
      && u < TWO_128
      && UnixTsMsField(u) == unixTimeMs
      && VersionField(u) == V7_VER
      && RandAField(u) == randA
      && VariantField(u) == V7_VAR
      && RandBField(u) == randB
  {
    var u := Pack(unixTimeMs, randA, randB);
    assert u == HighWord(unixTimeMs, randA) * TWO_64 + (TWO_63 + randB) by {
      PackLayout(unixTimeMs, randA, randB);
    }
    DecodeHigh(unixTimeMs, randA, TWO_63 + randB);
    DecodeLow(unixTimeMs, randA, randB);
  }

  /** The timestamp, version and rand_a of the sum that PackLayout turns the packing into. */
  lemma DecodeHigh(unixTimeMs: nat, randA: nat, low: nat)
    requires randA < TWO_12 && low < TWO_64
    ensures var u := HighWord(unixTimeMs, randA) * TWO_64 + low;
      && UnixTsMsField(u) == unixTimeMs
      && VersionField(u) == V7_VER
      && RandAField(u) == randA
  {
    DecodeTime(unixTimeMs, randA, low);
    DecodeVersion(unixTimeMs, randA, low);
    DecodeRandA(unixTimeMs, randA, low);
  }

  lemma DecodeTime(unixTimeMs: nat, randA: nat, low: nat)
    requires randA < TWO_12 && low < TWO_64
    ensures UnixTsMsField(HighWord(unixTimeMs, randA) * TWO_64 + low) == unixTimeMs
  {
    var u := HighWord(unixTimeMs, randA) * TWO_64 + low;
    assert u == unixTimeMs * TWO_80 + (V7_VER * TWO_76 + randA * TWO_64 + low);
    DivModUnique(u, unixTimeMs, TWO_80);
  }

  lemma DecodeVersion(unixTimeMs: nat, randA: nat, low: nat)
    requires randA < TWO_12 && low < TWO_64
    ensures VersionField(HighWord(unixTimeMs, randA) * TWO_64 + low) == V7_VER
  {
    var u := HighWord(unixTimeMs, randA) * TWO_64 + low;
    var q := unixTimeMs * 0x10 + V7_VER;
    assert u == q * TWO_76 + (randA * TWO_64 + low);
    DivModUnique(u, q, TWO_76);
    DivModUnique(q, unixTimeMs, 0x10);
  }

  lemma DecodeRandA(unixTimeMs: nat, randA: nat, low: nat)
    requires randA < TWO_12 && low < TWO_64
    ensures RandAField(HighWord(unixTimeMs, randA) * TWO_64 + low) == randA
  {
    var u := HighWord(unixTimeMs, randA) * TWO_64 + low;
    DivModUnique(u, HighWord(unixTimeMs, randA), TWO_64);
  }

  /**
   * The packed value fits in 128 bits exactly when the timestamp fits in its
   * 48 bits; from 2^48 ms on, `uuid.UUID(int=...)` refuses it.
   */
  lemma PackFits(unixTimeMs: nat, randA: nat, randB: nat)
    requires randA < TWO_12 && randB < TWO_64
    ensures Pack(unixTimeMs, randA, randB) < TWO_128 <==> unixTimeMs < TWO_48
  {
    if unixTimeMs < TWO_48 {
      PackLayout(unixTimeMs, randA, randB);
      var h := HighWord(unixTimeMs, randA);
      assert h < TWO_64;
      MulMono(h, TWO_64 - 1, TWO_64);
    } else {
      MulMono(TWO_48, unixTimeMs, TWO_80);
    }
  }

  /** The size, variant and rand_b of the sum that PackLayout turns the packing into. */
  lemma DecodeLow(unixTimeMs: nat, randA: nat, randB: nat)
    requires unixTimeMs < 0x1_0000_0000_0000 && randA < TWO_12 && randB < TWO_62
    ensures var u := HighWord(unixTimeMs, randA) * TWO_64 + (TWO_63 + randB);
      && u < TWO_128
      && VariantField(u) == V7_VAR
      && RandBField(u) == randB
  {
    var h := HighWord(unixTimeMs, randA);
    var u := h * TWO_64 + (TWO_63 + randB);
    assert h < 0x1_0000_0000_0000_0000;
    assert u == (h * 4 + V7_VAR) * TWO_62 + randB;
    DivModUnique(u, h * 4 + V7_VAR, TWO_62);
  }

  /**
   * Whatever the counter, the timestamp, the version 0b0111 and rand_a read
   * back.  The variant bits come out as 0b10 exactly when rand_b stays below 2^62;
   * a rand_b in [2^62, 2^63) sets bit 62 and reads back as variant 0b11 with
   * 2^62 taken off rand_b.  Bit 63 is set in every case.
   */
  lemma VariantBits(unixTimeMs: nat, randA: nat, randB: nat)
    requires randA < TWO_12 && randB < TWO_64
    ensures var u := Pack(unixTimeMs, randA, randB);
      UnixTsMsField(u) == unixTimeMs && VersionField(u) == V7_VER && RandAField(u) == randA
    ensures Bit63(Pack(unixTimeMs, randA, randB)) == 1
    ensures randB < TWO_63 ==> (VariantField(Pack(unixTimeMs, randA, randB)) == V7_VAR <==> randB < TWO_62)
    ensures TWO_62 <= randB < TWO_63 ==>
      VariantField(Pack(unixTimeMs, randA, randB)) == 3 && RandBField(Pack(unixTimeMs, randA, randB)) == randB - TWO_62
  {
    PackLayout(unixTimeMs, randA, randB);
    DecodeHigh(unixTimeMs, randA, if randB < TWO_63 then TWO_63 + randB else randB);
    VariantSum(HighWord(unixTimeMs, randA), randB);
  }

  /** VariantBits on the sum that PackLayout turns the packing into. */
  lemma VariantSum(h: nat, randB: nat)
    requires randB < TWO_64
    ensures var u := h * TWO_64 + (if randB < TWO_63 then TWO_63 + randB else randB);
      && Bit63(u) == 1
      && (randB < TWO_63 ==> (VariantField(u) == V7_VAR <==> randB < TWO_62))
      && (TWO_62 <= randB < TWO_63 ==> VariantField(u) == 3 && RandBField(u) == randB - TWO_62)
  {
    var u := h * TWO_64 + (if randB < TWO_63 then TWO_63 + randB else randB);
    if randB < TWO_62 {
      assert u == (h * 4 + 2) * TWO_62 + randB;
      DivModUnique(u, h * 4 + 2, TWO_62);
      DivModUnique(h * 4 + 2, h, 4);
      DivModUnique(u, h * 2 + 1, TWO_63);
      DivModUnique(h * 2 + 1, h, 2);
    } else if randB < TWO_63 {
      assert u == (h * 4 + 3) * TWO_62 + (randB - TWO_62);
      DivModUnique(u, h * 4 + 3, TWO_62);
      DivModUnique(h * 4 + 3, h, 4);
      DivModUnique(u, h * 2 + 1, TWO_63);
      DivModUnique(h * 2 + 1, h, 2);
    } else {
      assert u == (h * 2 + 1) * TWO_63 + (randB - TWO_63);
      DivModUnique(u, h * 2 + 1, TWO_63);
      DivModUnique(h * 2 + 1, h, 2);
    }
  }

  /** Quotient and remainder are the unique pair that recomposes x. */
  lemma DivModUnique(x: nat, q: nat, d: nat)
    requires d > 0 && q * d <= x < q * d + d
    ensures x / d == q && x % d == x - q * d
  {
    var q', r' := x / d, x % d;
    assert x == q' * d + r';
    if q' > q {
      MulMono(q + 1, q', d);
      assert false;
    } else if q' < q {
      MulMono(q' + 1, q, d);
      assert false;
    }
  }

  lemma MulMono(a: nat, b: nat, d: nat)
    requires a <= b
    ensures a * d <= b * d
  {
  }

  /**
   * Packed values are ordered by their (timestamp, rand_a) pair first: a
   * lexicographically greater pair gives a greater value whatever the two
   * rand_b below 2^64 are.
   */
  lemma PackOrderByTime(ms1: nat, a1: nat, b1: nat, ms2: nat, a2: nat, b2: nat)
    requires a1 < TWO_12 && a2 < TWO_12 && b1 < TWO_64 && b2 < TWO_64
    requires LexGreater(ms2, a2, ms1, a1)
    ensures Pack(ms1, a1, b1) < Pack(ms2, a2, b2)
  {
    PackLayout(ms1, a1, b1);
    PackLayout(ms2, a2, b2);
    assert HighWord(ms1, a1) + 1 <= HighWord(ms2, a2);
  }

  /** With the same time fields, a larger rand_b below 2^63 gives a value larger by exactly the difference. */
  lemma PackCounterStep(ms: nat, a: nat, b1: nat, b2: nat)
    requires a < TWO_12 && b1 <= b2 < TWO_63
    ensures Pack(ms, a, b2) == Pack(ms, a, b1) + (b2 - b1)
  {
    PackLayout(ms, a, b1);
    PackLayout(ms, a, b2);
  }

  // ---------------------------------------------------------------------------
  // The generator's state and one call of `__call__` as a function.

  /** The four `prev_*` fields of a generator. */
  datatype State = State(prevUnixTimeMs: int, prevRandA: int, prevRandB: int, prevUuidInt: int)

  /** The class-level defaults: every field -1, "nothing emitted yet". */
  const INITIAL: State := State(-1, -1, -1, -1)

  /**
   * The states a generator can be in: the sentinels, or the fields of the last
   * emitted UUID together with its packed value.
   */
  predicate WellFormed(st: State)
  {
    || st == INITIAL
    || (&& st.prevUnixTimeMs >= 0
        && 0 <= st.prevRandA < TWO_12
        && st.prevRandB >= 0
        && st.prevUuidInt == Pack(st.prevUnixTimeMs, st.prevRandA, st.prevRandB))
  }

  /**
   * What a call ends with: a UUID; a packed value too wide for a UUID, which
   * `uuid.UUID(int=...)` rejects with ValueError after the fields are stored;
   * the `assert` failing (AssertionError); or one of the two sources having
   * no value left to give.
   */
  datatype Outcome = Emitted(uuid: nat) | OutOfRange(uuid: nat) | AssertionFailed | SourcesExhausted

  /** The call got past its `assert` and stored the fields of `uuid`. */
  predicate Stored(o: Outcome)
  {
    o.Emitted? || o.OutOfRange?
  }

  /** `uuid.UUID(int=u)`: a UUID for a value below 2^128, ValueError otherwise. */
  function ToUuid(u: nat): (o: Outcome)
    ensures Stored(o) && o.uuid == u
    ensures o.Emitted? <==> u < TWO_128
  {
    if u < TWO_128 then Emitted(u) else OutOfRange(u)
  }

  /**
   * The end of a call: its outcome, the generator's new state, what is left of
   * the two sources, and how many overflow warnings (each followed by a sleep
   * of SLEEP_TIME) the call issued.
   */
  datatype Run = Run(outcome: Outcome, state: State, clock: seq<nat>, draws: seq<nat>, warnings: nat)

  /**
   * The last steps of a call: pack, check the `assert`, store the fields, and
   * make the UUID of the packed value.  A call that gets past the `assert`
   * leaves a consistent state holding a value above the previous one; one
   * that does not changes nothing.
   */
  function Emit(st: State, unixTimeMs: nat, randA: nat, randB: nat, clock: seq<nat>, draws: seq<nat>): (r: Run)
    requires randA < TWO_12
    ensures r.clock == clock && r.draws == draws && r.warnings == 0
    ensures Stored(r.outcome) ==>
      && WellFormed(r.state) && r.state != INITIAL
      && st.prevUuidInt < r.state.prevUuidInt == r.outcome.uuid
      && (r.outcome.Emitted? <==> r.outcome.uuid < TWO_128)
    ensures Stored(r.outcome) <==> st.prevUuidInt < Pack(unixTimeMs, randA, randB)
    ensures Stored(r.outcome) ==>
      && r.state == State(unixTimeMs, randA, randB, r.outcome.uuid)
      && r.outcome == ToUuid(Pack(unixTimeMs, randA, randB))
    ensures !Stored(r.outcome) ==> r.state == st && r.outcome == AssertionFailed
  {
    var uuidInt := Pack(unixTimeMs, randA, randB);
    if st.prevUuidInt < uuidInt then
      Run(ToUuid(uuidInt), State(unixTimeMs, randA, randB, uuidInt), clock, draws, 0)
    else
      Run(AssertionFailed, st, clock, draws, 0)
  }

  /**
   * One call of the generator from state `st`, where `clock` lists what the
   * time source returns next and `draws` what the randomness source returns
   * next.  A counter overflow consumes a clock sample and a draw, counts one
   * warning and starts over, as the source's recursive `self()` does.
   */
  function Generate(st: State, clock: seq<nat>, draws: seq<nat>): (r: Run)
    requires WellFormed(st)
    ensures WellFormed(r.state)
    ensures Stored(r.outcome) ==> r.state.prevUuidInt == r.outcome.uuid && st.prevUuidInt < r.outcome.uuid
    ensures Stored(r.outcome) ==> (r.outcome.Emitted? <==> r.outcome.uuid < TWO_128)
    ensures !Stored(r.outcome) ==> r.state == st
    ensures |r.clock| < |clock| || clock == r.clock == []
    decreases |clock|
  {
    if |clock| == 0 then Run(SourcesExhausted, st, clock, draws, 0)
    else
      var (unixTimeMs, randA) := TimeFields(clock[0]);
      if |draws| == 0 then Run(SourcesExhausted, st, clock[1..], draws, 0)
      else if LexGreater(unixTimeMs, randA, st.prevUnixTimeMs, st.prevRandA) then
        Emit(st, unixTimeMs, randA, draws[0], clock[1..], draws[1..])
      else
        var randB := st.prevRandB + (draws[0] + 1);
        if randB >= RAND_B_LIMIT then
          var retry := Generate(st, clock[1..], draws[1..]);
          retry.(warnings := retry.warnings + 1)
        else
          Emit(st, st.prevUnixTimeMs, st.prevRandA, randB, clock[1..], draws[1..])
  }

  // ---------------------------------------------------------------------------
  // The generator object.

  /**
   * `UUIDv7Generator`: the four `prev_*` fields, the two sources as the values
   * they will return, and a count of the overflow warnings issued so far.
   */
  class Generator {
    var prevRandA: int
    var prevRandB: int
    var prevUuidInt: int
    var prevUnixTimeMs: int

    /** What `unix_time_ns_func` returns on its next calls. */
    var timeSamples: seq<nat>
    /** What `randbits_func` returns on its next calls. */
    var randomDraws: seq<nat>
    /** How many times `warnings.warn` (and then `time.sleep`) ran. */
    var overflowWarnings: nat

    function Snapshot(): State
      reads this
    {
      State(prevUnixTimeMs, prevRandA, prevRandB, prevUuidInt)
    }

    ghost predicate Valid()
      reads this
    {
      WellFormed(Snapshot())
    }

    constructor (timeSamples: seq<nat>, randomDraws: seq<nat>)
      ensures Valid() && Snapshot() == INITIAL
      ensures this.timeSamples == timeSamples && this.randomDraws == randomDraws && overflowWarnings == 0
    {
      prevRandA, prevRandB, prevUuidInt, prevUnixTimeMs := -1, -1, -1, -1;
      this.timeSamples := timeSamples;
      this.randomDraws := randomDraws;
      overflowWarnings := 0;
    }

    /**
     * `__call__`, with the recursive retry turned into a loop that takes the
     * next clock sample.  The outcome, the new fields and what is left of the
     * sources are those of Generate.
     */
    method Call() returns (outcome: Outcome)
      requires Valid()
      modifies this
      ensures Valid()
      ensures var r := Generate(old(Snapshot()), old(timeSamples), old(randomDraws));
        && outcome == r.outcome
        && Snapshot() == r.state
        && timeSamples == r.clock
        && randomDraws == r.draws
        && overflowWarnings == old(overflowWarnings) + r.warnings
    {
      ghost var target := Generate(Snapshot(), timeSamples, randomDraws);
      while |timeSamples| > 0
        invariant Valid() && Snapshot() == old(Snapshot())
        invariant overflowWarnings >= old(overflowWarnings)
        invariant var r := Generate(Snapshot(), timeSamples, randomDraws);
          target == r.(warnings := r.warnings + (overflowWarnings - old(overflowWarnings)))
        decreases |timeSamples|
      {
        ghost var step := Generate(Snapshot(), timeSamples, randomDraws);
        var unixTimeNs := timeSamples[0];
        timeSamples := timeSamples[1..];
        var split := SplitNs(unixTimeNs);
        var unixTimeMs: nat, remainderNs := split.0, split.1;
        var randA: nat := ScaleRandA(remainderNs);
        assert TimeFields(unixTimeNs) == (unixTimeMs, randA);
        if |randomDraws| == 0 {
          return SourcesExhausted;
        }
        var randB: nat;
        if LexGreater(unixTimeMs, randA, prevUnixTimeMs, prevRandA) {
          randB := randomDraws[0];
          randomDraws := randomDraws[1..];
        } else {
          unixTimeMs := prevUnixTimeMs;
          randA := prevRandA;
          var increment := randomDraws[0] + 1;
          randomDraws := randomDraws[1..];
          randB := prevRandB + increment;
          if randB >= RAND_B_LIMIT {
            assert step == Generate(Snapshot(), timeSamples, randomDraws).(warnings := step.warnings);
            overflowWarnings := overflowWarnings + 1;
            continue;
          }
        }
        assert step == Emit(Snapshot(), unixTimeMs, randA, randB, timeSamples, randomDraws);
        var uuidInt := Pack(unixTimeMs, randA, randB);
        if !(prevUuidInt < uuidInt) {
          return AssertionFailed;
        }
        prevUuidInt := uuidInt;
        prevUnixTimeMs := unixTimeMs;
        prevRandA := randA;
        prevRandB := randB;
        assert Snapshot() == step.state && step.outcome == ToUuid(uuidInt);
        if uuidInt >= TWO_128 {
          return OutOfRange(uuidInt);
        }
        return Emitted(uuidInt);
      }
      return SourcesExhausted;
    }
  }
}
