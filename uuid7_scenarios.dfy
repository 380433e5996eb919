/**
 * The three fixed-input scenarios of uuid7/test_uuid7.py, with the time and
 * randomness sources replaced by the values the test's stand-ins return and
 * the expected UUIDs written as 128-bit integers, and one call whose
 * timestamp no longer fits in 48 bits.
 */
module Uuid7Scenarios {
  import opened Bits
  import opened Uuid7
  import opened Uuid7Properties

  const FIXED_NS: nat := 1685940240093527761
  const FIXED_DRAW: nat := 258941218144316131

  /** 018889de-7edd-7871-8397-f1aa7d32eae3 */
  const FIXED_UUID: nat := 0x0188_89de_7edd_7871_8397_f1aa_7d32_eae3

  /**
   * A fixed clock and a fixed draw on a new generator give the UUID of the
   * test, after splitting the sample into 1685940240093 ms and rand_a 0x871.
   */
  lemma FixedInputScenario()
    ensures TimeFields(FIXED_NS) == (1685940240093, 0x871)
    ensures Generate(INITIAL, [FIXED_NS], [FIXED_DRAW]).outcome == Emitted(FIXED_UUID)
  {
    FirstCallFresh([FIXED_NS], [FIXED_DRAW]);
    PackLayout(1685940240093, 0x871, FIXED_DRAW);
  }

  /**
   * The same clock value twice, with draws 258941218144316131 and then 2:
   * the second UUID, 018889de-7edd-7871-8397-f1aa7d32eae6, is 3 more than
   * the first.
   */
  lemma IncrementScenario()
    ensures Calls(INITIAL, [FIXED_NS, FIXED_NS], [FIXED_DRAW, 2], 2)
         == [Emitted(FIXED_UUID), Emitted(0x0188_89de_7edd_7871_8397_f1aa_7d32_eae6)]
  {
    FirstCallFresh([FIXED_NS, FIXED_NS], [FIXED_DRAW, 2]);
    PackLayout(1685940240093, 0x871, FIXED_DRAW);
    var first := Generate(INITIAL, [FIXED_NS, FIXED_NS], [FIXED_DRAW, 2]);
    assert first.state == State(1685940240093, 0x871, FIXED_DRAW, FIXED_UUID);
    assert first.clock == [FIXED_NS] && first.draws == [2];
    CollisionBranch(first.state, [FIXED_NS], [2]);
    var second := Generate(first.state, [FIXED_NS], [2]);
    assert second.outcome == Emitted(FIXED_UUID + 3);
    assert Calls(first.state, [FIXED_NS], [2], 1) == [second.outcome] + Calls(second.state, second.clock, second.draws, 0);
  }

  /**
   * Clock samples 0, 0 and 1_000_000 with draws 2^63 - 1, 1 and 15: the
   * first UUID is 00000000-0000-7000-ffff-ffffffffffff; the second call
   * overflows the counter, warns once, retries on the next sample and
   * returns 00000000-0001-7000-8000-00000000000f.
   */
  lemma OverflowScenario()
    ensures Calls(INITIAL, [0, 0, 1_000_000], [TWO_63 - 1, 1, 15], 2)
         == [Emitted(0x7000_ffff_ffff_ffff_ffff), Emitted(0x1_7000_8000_0000_0000_000f)]
    ensures var first := Generate(INITIAL, [0, 0, 1_000_000], [TWO_63 - 1, 1, 15]);
      Generate(first.state, first.clock, first.draws).warnings == 1
  {
    FirstCallFresh([0, 0, 1_000_000], [TWO_63 - 1, 1, 15]);
    PackLayout(0, 0, TWO_63 - 1);
    var first := Generate(INITIAL, [0, 0, 1_000_000], [TWO_63 - 1, 1, 15]);
    var st := State(0, 0, TWO_63 - 1, 0x7000_ffff_ffff_ffff_ffff);
    assert first.state == st;
    assert first.clock == [0, 1_000_000] && first.draws == [1, 15];
    OverflowRetries(st, [0, 1_000_000], [1, 15]);
    assert [0, 1_000_000][1..] == [1_000_000] && [1, 15][1..] == [15];
    FreshBranch(st, [1_000_000], [15]);
    PackLayout(1, 0, 15);
    var second := Generate(st, [0, 1_000_000], [1, 15]);
    assert second.outcome == Emitted(0x1_7000_8000_0000_0000_000f);
    assert Calls(st, [0, 1_000_000], [1, 15], 1) == [second.outcome] + Calls(second.state, second.clock, second.draws, 0);
  }

  /**
   * A first call at 2^48 ms, one millisecond past the 48-bit timestamp,
   * with draw 0: the fields are stored, and `uuid.UUID` refuses the packed
   * value 2^128 + 0x7000_8000_0000_0000_0000 with ValueError.
   */
  lemma TimestampPast48Bits()
    ensures var r := Generate(INITIAL, [TWO_48 * NS_IN_MS], [0]);
      && r.outcome == OutOfRange(TWO_128 + 0x7000_8000_0000_0000_0000)
      && r.state == State(TWO_48, 0, 0, TWO_128 + 0x7000_8000_0000_0000_0000)
  {
    assert TimeFields(TWO_48 * NS_IN_MS) == (TWO_48, 0);
    FirstCallFresh([TWO_48 * NS_IN_MS], [0]);
    PackLayout(TWO_48, 0, 0);
  }
}
