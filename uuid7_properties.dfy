/**
 * What the UUIDv7 generator promises, proved about Generate: the `assert`
 * in `__call__` never fires while the randomness source stays within 64
 * bits, successive UUIDs strictly increase, each branch of a call does what
 * its comment in the source says, and the fixed-input scenarios of the
 * repository's tests come out as written there.
 */
module Uuid7Properties {
  import opened Bits
  import opened Uuid7

  /** Every value the randomness source will return fits in 64 bits. */
  predicate DrawsFit(draws: seq<nat>)
  {
    forall i :: 0 <= i < |draws| ==> draws[i] < TWO_64
  }

  /** The stored counter fits in 64 bits (the sentinel -1 does). */
  predicate CounterFits(st: State)
  {
    st.prevRandB < TWO_64
  }

  /**
   * Fresh branch: a sample whose (ms, rand_a) pair is lexicographically
   * greater than the stored one is emitted with its own time fields and the
   * next draw as rand_b, and the `assert` passes.
   */
  lemma FreshBranch(st: State, clock: seq<nat>, draws: seq<nat>)
    requires WellFormed(st) && CounterFits(st)
    requires |clock| > 0 && |draws| > 0 && draws[0] < TWO_64
    requires LexGreater(TimeFields(clock[0]).0, TimeFields(clock[0]).1, st.prevUnixTimeMs, st.prevRandA)
    ensures var (ms, a) := TimeFields(clock[0]);
      var r := Generate(st, clock, draws);
      && r.outcome == ToUuid(Pack(ms, a, draws[0]))
      && r.state == State(ms, a, draws[0], Pack(ms, a, draws[0]))
      && r.clock == clock[1..] && r.draws == draws[1..] && r.warnings == 0
  {
    var (ms, a) := TimeFields(clock[0]);
    if st != INITIAL {
      PackOrderByTime(st.prevUnixTimeMs, st.prevRandA, st.prevRandB, ms, a, draws[0]);
    }
  }

  /**
   * Collision branch: a sample that is not newer than the stored pair reuses
   * the stored time fields and adds `draw + 1` to rand_b; when that does not
   * overflow, the packed value is exactly `draw + 1` greater than the
   * previous one.
   */
  lemma CollisionBranch(st: State, clock: seq<nat>, draws: seq<nat>)
    requires WellFormed(st)
    requires |clock| > 0 && |draws| > 0
    requires !LexGreater(TimeFields(clock[0]).0, TimeFields(clock[0]).1, st.prevUnixTimeMs, st.prevRandA)
    requires st.prevRandB + draws[0] + 1 < RAND_B_LIMIT
    ensures var r := Generate(st, clock, draws);
      && r.outcome == ToUuid(st.prevUuidInt + draws[0] + 1)
      && r.state == State(st.prevUnixTimeMs, st.prevRandA, st.prevRandB + draws[0] + 1, st.prevUuidInt + draws[0] + 1)
      && r.clock == clock[1..] && r.draws == draws[1..] && r.warnings == 0
  {
    assert st != INITIAL;
    var randB := st.prevRandB + draws[0] + 1;
    var e := Emit(st, st.prevUnixTimeMs, st.prevRandA, randB, clock[1..], draws[1..]);
    assert e.outcome == ToUuid(st.prevUuidInt + draws[0] + 1) by {
      PackCounterStep(st.prevUnixTimeMs, st.prevRandA, st.prevRandB, randB);
    }
    assert Generate(st, clock, draws) == e;
  }

  /**
   * Overflow: when the incremented counter reaches `2^63 - 1`, no field
   * changes, one warning is issued, and the call goes on as a new call on
   * the next clock sample and the next draw.
   */
  lemma OverflowRetries(st: State, clock: seq<nat>, draws: seq<nat>)
    requires WellFormed(st)
    requires |clock| > 0 && |draws| > 0
    requires !LexGreater(TimeFields(clock[0]).0, TimeFields(clock[0]).1, st.prevUnixTimeMs, st.prevRandA)
    requires st.prevRandB + draws[0] + 1 >= RAND_B_LIMIT
    ensures var r := Generate(st, clock, draws);
      var retry := Generate(st, clock[1..], draws[1..]);
      && r.outcome == retry.outcome && r.state == retry.state
      && r.clock == retry.clock && r.draws == retry.draws
      && r.warnings == retry.warnings + 1
  {
  }

  /** The first call on a new generator always takes the fresh branch. */
  lemma FirstCallFresh(clock: seq<nat>, draws: seq<nat>)
    requires |clock| > 0 && |draws| > 0
    ensures var (ms, a) := TimeFields(clock[0]);
      var r := Generate(INITIAL, clock, draws);
      && r.outcome == ToUuid(Pack(ms, a, draws[0]))
      && r.state == State(ms, a, draws[0], Pack(ms, a, draws[0]))
  {
    var (ms, a) := TimeFields(clock[0]);
    assert LexGreater(ms, a, INITIAL.prevUnixTimeMs, INITIAL.prevRandA);
  }

  /**
   * The `assert prev_uuid_int < uuid_int` never fails: from a state whose
   * counter fits in 64 bits, with a randomness source whose values fit in 64
   * bits, a call gets past the `assert` or runs out of source values, and it
   * leaves a state and a source with the same properties behind.
   */
  lemma {:induction false} AssertionNeverFires(st: State, clock: seq<nat>, draws: seq<nat>)
    requires WellFormed(st) && CounterFits(st) && DrawsFit(draws)
    ensures var r := Generate(st, clock, draws);
      r.outcome != AssertionFailed && CounterFits(r.state) && DrawsFit(r.draws)
    decreases |clock|
  {
    if |clock| > 0 && |draws| > 0 {
      var (ms, a) := TimeFields(clock[0]);
      assert DrawsFit(draws[1..]) by {
        forall i | 0 <= i < |draws[1..]| ensures draws[1..][i] < TWO_64 {
          assert draws[1..][i] == draws[i + 1];
        }
      }
      if LexGreater(ms, a, st.prevUnixTimeMs, st.prevRandA) {
        FreshBranch(st, clock, draws);
      } else if st.prevRandB + draws[0] + 1 >= RAND_B_LIMIT {
        AssertionNeverFires(st, clock[1..], draws[1..]);
      } else {
        CollisionBranch(st, clock, draws);
      }
    }
  }

  /**
   * A value is refused as too wide only when the timestamp it stores has
   * reached 2^48 ms; below that every call that gets past the `assert`
   * returns a UUID.
   */
  lemma OutOfRangeOnlyPast48Bits(st: State, clock: seq<nat>, draws: seq<nat>)
    requires WellFormed(st) && CounterFits(st) && DrawsFit(draws)
    ensures var r := Generate(st, clock, draws);
      Stored(r.outcome) ==> (r.outcome.OutOfRange? <==> r.state.prevUnixTimeMs >= TWO_48)
  {
    AssertionNeverFires(st, clock, draws);
    var r := Generate(st, clock, draws);
    if Stored(r.outcome) {
      assert CounterFits(r.state) && WellFormed(r.state) && r.state != INITIAL;
      PackFits(r.state.prevUnixTimeMs, r.state.prevRandA, r.state.prevRandB);
    }
  }

  /**
   * The outcomes of `n` successive calls on one generator, each starting from
   * the state and the sources the previous call left.
   */
  function Calls(st: State, clock: seq<nat>, draws: seq<nat>, n: nat): (outs: seq<Outcome>)
    requires WellFormed(st)
    ensures |outs| == n
    decreases n
  {
    if n == 0 then []
    else
      var r := Generate(st, clock, draws);
      [r.outcome] + Calls(r.state, r.clock, r.draws, n - 1)
  }

  /** No outcome is a failed `assert`. */
  predicate NoAssertionFailure(outs: seq<Outcome>)
  {
    forall i :: 0 <= i < |outs| ==> outs[i] != AssertionFailed
  }

  /**
   * Every value that got past the `assert` (emitted, or stored and then
   * refused as too wide) is greater than `bound`.
   */
  predicate StoredAbove(outs: seq<Outcome>, bound: int)
  {
    forall i :: 0 <= i < |outs| && Stored(outs[i]) ==> bound < outs[i].uuid
  }

  /** The values that got past the `assert`, in the order of the calls, strictly increase. */
  predicate StoredIncreasing(outs: seq<Outcome>)
  {
    forall i, j :: 0 <= i < j < |outs| && Stored(outs[i]) && Stored(outs[j]) ==> outs[i].uuid < outs[j].uuid
  }

  /**
   * Monotonicity over any number of calls: no call fails its `assert`, and
   * every emitted UUID is greater than the one stored before the calls and
   * than every UUID emitted by an earlier call.  The same holds of the values
   * refused as too wide, since their fields are stored too.
   */
  lemma {:induction false} CallsIncrease(st: State, clock: seq<nat>, draws: seq<nat>, n: nat)
    requires WellFormed(st) && CounterFits(st) && DrawsFit(draws)
    ensures NoAssertionFailure(Calls(st, clock, draws, n))
    ensures StoredAbove(Calls(st, clock, draws, n), st.prevUuidInt)
    ensures StoredIncreasing(Calls(st, clock, draws, n))
    decreases n
  {
    if n > 0 {
      var r := Generate(st, clock, draws);
      AssertionNeverFires(st, clock, draws);
      CallsIncrease(r.state, r.clock, r.draws, n - 1);
      var outs := Calls(st, clock, draws, n);
      var rest := Calls(r.state, r.clock, r.draws, n - 1);
      assert outs == [r.outcome] + rest;
      assert st.prevUuidInt <= r.state.prevUuidInt;
      forall i | 0 < i < n
        ensures outs[i] == rest[i - 1]
      {
      }
    }
  }

  /**
   * The counter can pass bit 62: after a fresh draw of `2^62 - 1`, the
   * largest a 62-bit draw can be, a colliding call with an increment draw of
   * 0 packs a value whose variant bits read 0b11 instead of 0b10, and emits
   * it as a UUID whenever the timestamp fits in its 48 bits.
   */
  lemma CounterReachesVariantBit(st: State, clock: seq<nat>, draws: seq<nat>)
    requires WellFormed(st) && st != INITIAL && st.prevRandB == TWO_62 - 1
    requires |clock| > 0 && |draws| > 0 && draws[0] == 0
    requires !LexGreater(TimeFields(clock[0]).0, TimeFields(clock[0]).1, st.prevUnixTimeMs, st.prevRandA)
    ensures var r := Generate(st, clock, draws);
      && Stored(r.outcome) && VariantField(r.outcome.uuid) == 3
      && (st.prevUnixTimeMs < TWO_48 ==> r.outcome.Emitted?)
  {
    CollisionBranch(st, clock, draws);
    PackCounterStep(st.prevUnixTimeMs, st.prevRandA, st.prevRandB, TWO_62);
    VariantBits(st.prevUnixTimeMs, st.prevRandA, TWO_62);
    PackFits(st.prevUnixTimeMs, st.prevRandA, TWO_62);
  }
}
