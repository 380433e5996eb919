# UUIDv7 generator and sliding-tile puzzle rules, in Dafny

This project models two pieces of a small collection of Python scripts and
proves properties of them.

**The UUID version 7 generator** (`uuid7/uuid7.py`) follows
draft-ietf-uuidrev-rfc4122bis-05, later published as RFC 9562. Each call
does the following:

- It reads a nanosecond clock and splits it into milliseconds and a
  remainder.
- It scales the remainder to a 12-bit `rand_a`. This is "Method 3" of
  section 6.2 of the draft: extra clock precision.
- It compares `(ms, rand_a)` with the pair stored by the previous call.
  - If the new pair is greater, it draws a fresh 62-bit `rand_b`.
  - Otherwise it reuses the stored pair and adds `randbits(31) + 1` to the
    stored `rand_b`. This is "Method 2", the monotonic random counter.
- When that counter reaches `2^63 - 1`, it warns, sleeps and starts over.
- It packs the fields with shifts and ors.
- It asserts that the new value is above the previous one, and stores the
  four `prev_*` fields.
- It returns `uuid.UUID(int=...)` of the value. That raises `ValueError`
  for a value of 2^128 or more, after the fields are already stored.

The model has these parts:

- `Bits` gives Python's `<<` and `|` on non-negative integers an arithmetic
  meaning. `x << k` is `x * 2^k`. `BitOr` is the bitwise union, with lemmas
  that say when it is plain addition.
- `Uuid7` holds the following:
  - the constants;
  - the pure steps: `SplitNs`, `ScaleRandA`, the tuple comparison
    `LexGreater`, `Pack` and `ToUuid`;
  - field readers that decode a 128-bit value;
  - the four-field `State`;
  - one call as the function `Generate`, which is recursive like the
    source's `return self()`;
  - the `Generator` class. Its `Call` method updates the fields in place and
    turns the retry into a loop. `Call` is proved to do exactly what
    `Generate` says.
- The clock and the random source are plain attributes that the repository's
  tests replace with fixed values. In the model they are the sequences of
  values they will return next. A call that finds one of them empty ends
  with `SourcesExhausted`.
- The `assert` is the outcome `AssertionFailed`. It is proved never to
  happen while every draw fits in 64 bits.
- A value too wide for `uuid.UUID` is the outcome `OutOfRange`. Its fields
  are stored, as in the source. It happens exactly when the timestamp has
  reached 2^48 ms (`PackFits`, `OutOfRangeOnlyPast48Bits`).
- `Uuid7Properties` proves the following about `Generate`:
  - each branch of a call does what it should;
  - the assertion never fires;
  - the values of any number of successive calls strictly increase.
- `Uuid7Scenarios` works through the three fixed-input cases of
  `uuid7/test_uuid7.py`. Each expected UUID is written as a 128-bit integer.
  It adds one call past the 48-bit timestamp, which ends in `ValueError`.

The variant bits are not always `0b10`. `rand_b` is or-ed into the value
without a mask, and a counter may legally climb to `2^63 - 2`. Bit 63 is
always set. Bit 62 is set as soon as `rand_b` reaches `2^62`, and then the
variant reads `0b11` (`VariantBits`, `CounterReachesVariantBit`). The
repository's overflow test, `test_overflow_rand_b`
(`uuid7/test_uuid7.py:38-45`), expects such a value for its first UUID
(`...-ffff-ffffffffffff`). So the model keeps this behaviour as written.

The timestamp is not masked to 48 bits either. When the timestamp fits in
48 bits and `rand_b` in 62 bits, the value fits in 128 bits and decodes
field by field (`PackDecode`). With `rand_b` below 2^64, the value fits in
128 bits exactly when the timestamp fits in 48 bits (`PackFits`).

**The tile-move rules of the "Horrified" mummy puzzle**
(`horrified-mummy-puzzle/horrified-mummy-puzzle.py`) are modelled in module
`MummyPuzzle`.

- The board has seven positions: a hub 0 joined to every position of a ring
  1..6. Seven tiles 0..6 sit on it, and tile 0 is the blank.
- `Mod6` and `Connections` give the wheel.
- `ValidMoves` gives the tiles next to the blank.
- `Move` swaps the blank with a tile.
- `AllMoves` is the loop that fills the move dictionary, modelled as a
  method with a loop invariant.
- `StartingPositions` gives the product of the permutations of 4,5,6 and
  1,2,3 behind a leading blank. `Permutations` enumerates in the order
  `itertools.permutations` uses; `PermutationsOfThree` spells that order
  out for three elements.

## Model

| member | source | states |
|---|---|---|
| `Bits.BitOrBounds` | uuid7/uuid7.py:122-128 | the bitwise or of x and y is at least x, at least y, and at most x + y |
| `Bits.OrDisjoint` | uuid7/uuid7.py:122-128 | or-ing a value shifted left by k with a value below 2^k is their sum, so the fields of the packing never overlap |
| `Uuid7.LayoutWidths` | uuid7/uuid7.py:105 | the overflow bound `(1 << (V7_RAND_B_NUM_BITS + 1)) - 1` is 2^63 - 1, and the widths 12 and 62 give the 2^12 and 2^62 of the layout |
| `Uuid7.SplitNs` | uuid7/uuid7.py:77 | `divmod` by 10^6: the remainder is below 10^6 and ms * 10^6 + remainder recomposes the sample |
| `Uuid7.ScaleRandA` | uuid7/uuid7.py:79-83 | rand_a fits in 12 bits and is the floor of remainder * 4096 / 10^6 (bracketed between a and a + 1 units) |
| `Uuid7.LexGreater` | uuid7/uuid7.py:85 | the tuple comparison orders (ms, rand_a) pairs as the numbers ms * 2^12 + rand_a, while both rand_a fit in 12 bits (the stored one may be the sentinel -1) |
| `Uuid7.Pack` | uuid7/uuid7.py:122-128 | nothing masks the fields: the packed value is at least ms * 2^80 and at least rand_b, however wide they are |
| `Uuid7.LowWord` | uuid7/uuid7.py:126-127 | the low word `V7_VAR << 62` or-ed with rand_b equals 2^63 + rand_b below 2^63 and rand_b itself from 2^63 to 2^64: bit 63 is always set |
| `Uuid7.PackLayout` | uuid7/uuid7.py:122-128 | the packed integer is (ms, version 7, rand_a) as the high 64 bits plus the low word above, for rand_a < 2^12 and rand_b < 2^64 |
| `Uuid7.PackDecode` | uuid7/uuid7.py:122-128 | round trip: for ms < 2^48, rand_a < 2^12 and rand_b < 2^62 the value is below 2^128 and decodes to the same ms, version 0b0111, rand_a, variant 0b10 and rand_b |
| `Uuid7.PackFits` | uuid7/uuid7.py:122-139 | for rand_a < 2^12 and rand_b < 2^64, the value is below 2^128, the bound `uuid.UUID(int=...)` accepts, exactly when ms < 2^48 |
| `Uuid7.VariantBits` | uuid7/uuid7.py:122-128 | for every rand_b below 2^64 the timestamp, version 0b0111 and rand_a read back and bit 63 is 1; for rand_b < 2^63 the variant is 0b10 exactly when rand_b < 2^62; in [2^62, 2^63) it is 0b11 and rand_b reads back less 2^62 |
| `Uuid7.PackOrderByTime` | uuid7/uuid7.py:85-88 | a lexicographically greater (ms, rand_a) pair packs to a greater integer whatever the two rand_b below 2^64 |
| `Uuid7.PackCounterStep` | uuid7/uuid7.py:101-103 | with the same time fields, raising rand_b (below 2^63) raises the packed integer by exactly the same amount |
| `Uuid7.Emit` | uuid7/uuid7.py:122-139 | a call that gets past the assertion (exactly those whose packed value is above the stored one) leaves a well-formed state whose integer is the value it returns, above the previous one, and returns it as a UUID exactly when it is below 2^128; a call that fails the assertion changes nothing; no source value is consumed |
| `Uuid7.Generate` | uuid7/uuid7.py:74-139 | a call keeps the state well formed; one that gets past the assertion stores a value above the stored one and returns it as a UUID exactly when it is below 2^128 (ValueError otherwise); any other call leaves the state unchanged; every call on a non-empty clock consumes at least one sample |
| `Uuid7.Generator.constructor` | uuid7/uuid7.py:65-72 | a new generator has all four `prev_*` fields at -1 and the given sources |
| `Uuid7.Generator.Call` | uuid7/uuid7.py:74-139 | `__call__` with the retry as a loop: outcome (UUID, ValueError, assertion failure or exhausted source), new fields, remaining sources and warnings issued are those of `Generate` from the old fields |
| `Uuid7Properties.FirstCallFresh` | uuid7/uuid7.py:66-69 | the -1 sentinels make the first call take the fresh branch, store its own fields and return ToUuid(Pack(ms, rand_a, first draw)) |
| `Uuid7Properties.FreshBranch` | uuid7/uuid7.py:85-88 | while the stored counter and the draw fit in 64 bits, a newer (ms, rand_a) pair returns ToUuid(Pack(ms, rand_a, draw)), stores exactly those fields and consumes one sample and one draw |
| `Uuid7Properties.CollisionBranch` | uuid7/uuid7.py:97-103 | a pair that is not newer reuses the stored time fields; without overflow the packed value is the previous one plus draw + 1, returned through ToUuid, and rand_b grows by draw + 1 |
| `Uuid7Properties.OverflowRetries` | uuid7/uuid7.py:105-120 | on overflow nothing is stored, one warning is issued and the call is a fresh call on the next sample and draw |
| `Uuid7Properties.AssertionNeverFires` | uuid7/uuid7.py:130-133 | while every draw and the stored counter fit in 64 bits, a call never fails its assertion and leaves a counter and sources that still fit |
| `Uuid7Properties.OutOfRangeOnlyPast48Bits` | uuid7/uuid7.py:134-139 | while every draw and the stored counter fit in 64 bits, a call that gets past the assertion ends in ValueError exactly when the timestamp it stored is 2^48 ms or more |
| `Uuid7Properties.CallsIncrease` | uuid7/uuid7.py:130-137 | over any number of successive calls no assertion fails, and every value that gets past the assertion (returned, or refused as too wide) is above the previously stored one and above every earlier such value |
| `Uuid7Properties.CounterReachesVariantBit` | uuid7/uuid7.py:101-127 | from a stored rand_b of 2^62 - 1, a collision with increment draw 0 stores a value whose variant reads 0b11, returned as a UUID whenever the timestamp is below 2^48 ms |
| `Uuid7Scenarios.FixedInputScenario` | uuid7/test_uuid7.py:17-23 | clock 1685940240093527761 splits to ms 1685940240093 and rand_a 0x871, and with draw 258941218144316131 gives 018889de-7edd-7871-8397-f1aa7d32eae3 |
| `Uuid7Scenarios.IncrementScenario` | uuid7/test_uuid7.py:26-35 | two calls on the same clock with draws 258941218144316131 and 2 give ...eae3 and ...eae6 |
| `Uuid7Scenarios.OverflowScenario` | uuid7/test_uuid7.py:38-52 | clocks 0, 0, 10^6 and draws 2^63-1, 1, 15 give 00000000-0000-7000-ffff-ffffffffffff, then one warning and 00000000-0001-7000-8000-00000000000f |
| `Uuid7Scenarios.TimestampPast48Bits` | uuid7/uuid7.py:134-139 | a first call at 2^48 ms with draw 0 stores its fields and ends in ValueError on the value 2^128 + 0x7000_8000_0000_0000_0000 |
| `MummyPuzzle.Mod6` | horrified-mummy-puzzle/horrified-mummy-puzzle.py:11-12 | `i % 6 or 6` lies in 1..6 and is congruent to i modulo 6 |
| `MummyPuzzle.Connections` | horrified-mummy-puzzle/horrified-mummy-puzzle.py:15-19 | every neighbour is a position 0..6 and every ring position touches the hub |
| `MummyPuzzle.ConnectionsShape` | horrified-mummy-puzzle/horrified-mummy-puzzle.py:15-19 | the hub touches all of 1..6, a ring position touches exactly three positions, and no position touches itself |
| `MummyPuzzle.ConnectionsSymmetric` | horrified-mummy-puzzle/horrified-mummy-puzzle.py:15-19 | q is next to p exactly when p is next to q, for all positions 0..6 |
| `MummyPuzzle.GoalCounts` | horrified-mummy-puzzle/horrified-mummy-puzzle.py:25 | the goal holds each tile 0..6 exactly once and nothing else |
| `MummyPuzzle.BoardTiles` | horrified-mummy-puzzle/horrified-mummy-puzzle.py:25 | an arrangement of the goal's tiles has seven positions and holds each tile 0..6 exactly once |
| `MummyPuzzle.IndexOf` | horrified-mummy-puzzle/horrified-mummy-puzzle.py:29 | `tuple.index`: the position returned holds x and no earlier position does |
| `MummyPuzzle.IndexOfDistinct` | horrified-mummy-puzzle/horrified-mummy-puzzle.py:34-35 | on a board without repeated tiles, `index` finds the position a tile was read from |
| `MummyPuzzle.ValidMoves` | horrified-mummy-puzzle/horrified-mummy-puzzle.py:28-30 | every valid move is a tile of the board |
| `MummyPuzzle.ValidMovesSpec` | horrified-mummy-puzzle/horrified-mummy-puzzle.py:28-30 | on a board, a tile is a valid move exactly when its position is next to the blank's; the blank never is; there are 6 moves with the blank on the hub and 3 otherwise |
| `MummyPuzzle.Move` | horrified-mummy-puzzle/horrified-mummy-puzzle.py:33-38 | the result is as long as the board and still holds the blank and the tile |
| `MummyPuzzle.MoveSwaps` | horrified-mummy-puzzle/horrified-mummy-puzzle.py:33-38 | a move puts the tile where the blank was and the blank where the tile was, and leaves every other position alone |
| `MummyPuzzle.MoveKeepsBoard` | horrified-mummy-puzzle/horrified-mummy-puzzle.py:33-38 | a move of an arrangement of the goal's tiles yields an arrangement of them again |
| `MummyPuzzle.MoveTwice` | horrified-mummy-puzzle/horrified-mummy-puzzle.py:33-38 | moving the same tile twice gives back the board |
| `MummyPuzzle.MoveUndone` | horrified-mummy-puzzle/horrified-mummy-puzzle.py:33-38 | after a valid move the same tile is a valid move of the new board and undoes it, so the move graph's edges are undirected |
| `MummyPuzzle.AllMoves` | horrified-mummy-puzzle/horrified-mummy-puzzle.py:41-45 | the keys are exactly the valid moves and each value is the board that moving the key leads to |
| `MummyPuzzle.Permutations` | horrified-mummy-puzzle/horrified-mummy-puzzle.py:22-24 | every entry of `permutations(s)` is as long as s |
| `MummyPuzzle.PermutationsFrom` | horrified-mummy-puzzle/horrified-mummy-puzzle.py:22-24 | the entries of `permutations(s)` that start with the i-th element or a later one are each as long as s |
| `MummyPuzzle.PermutationsCount` | horrified-mummy-puzzle/horrified-mummy-puzzle.py:22-24 | `permutations(s)` has n! entries for an s of n elements (itertools permutes positions, so repeated elements still count separately) |
| `MummyPuzzle.PermutationsAreOrderings` | horrified-mummy-puzzle/horrified-mummy-puzzle.py:22-24 | every entry of `permutations(s)` has the elements of s with the same counts |
| `MummyPuzzle.PermutationsOfThree` | horrified-mummy-puzzle/horrified-mummy-puzzle.py:22-24 | `permutations([x, y, z])` lists the six orderings in itertools order: those starting with x, then y, then z, each pair in the order of the remaining elements |
| `MummyPuzzle.Product` | horrified-mummy-puzzle/horrified-mummy-puzzle.py:22-24 | every board built as `(0,) + i + j` starts with the blank |
| `MummyPuzzle.ProductCount` | horrified-mummy-puzzle/horrified-mummy-puzzle.py:22-24 | `product(ps, qs)` has as many boards as ps has entries times qs has entries |
| `MummyPuzzle.ProductShape` | horrified-mummy-puzzle/horrified-mummy-puzzle.py:22-24 | each board of the product is the blank, then an entry of ps, then an entry of qs, with the lengths and elements those entries have |
| `MummyPuzzle.StartingPositions` | horrified-mummy-puzzle/horrified-mummy-puzzle.py:22-24 | there are 36 starting positions |
| `MummyPuzzle.ThreeByThree` | horrified-mummy-puzzle/horrified-mummy-puzzle.py:22-24 | the product of the permutations of two three-element groups has 3! * 3! = 36 boards |
| `MummyPuzzle.StartBoard` | horrified-mummy-puzzle/horrified-mummy-puzzle.py:22-25 | the blank followed by 4, 5, 6 and 1, 2, 3, each group in any order, is an arrangement of the goal |
| `MummyPuzzle.StartingPositionsShape` | horrified-mummy-puzzle/horrified-mummy-puzzle.py:22-24 | each starting position has the blank at 0, an ordering of 4, 5, 6 at 1..3 and an ordering of 1, 2, 3 at 4..6, and is an arrangement of the goal |

## Left out

- `time.sleep(SLEEP_TIME)` and `warnings.warn` on overflow are not performed. Each overflow is counted in `warnings` of a `Run` and in `Generator.overflowWarnings`. The float value of `SLEEP_TIME` is not modelled.
- Clock samples are non-negative (`seq<nat>`), as an unsigned time source gives. On a new generator the source would fail on a negative sample: `divmod` floors it, the packed integer comes out negative, the assertion fails, and its message's `uuid.UUID(int=...)` raises `ValueError`.
- The real `time.time_ns` and `secrets.randbits` defaults are input sequences instead. The bit width passed to `randbits` is not modelled: a draw is whatever the sequence holds, as with the test's stand-ins. The constants `V7_RAND_B_RND_BITS` and `V7_RAND_B_INC_BITS` are declared but have no effect on the model.
- When a source runs out, the model ends the call with `SourcesExhausted`. The test stand-ins would raise `IndexError` there.
- `Uuid7.ScaleRandA`: the source computes rand_a in floating point. The model uses the exact integer floor. The two agree for every remainder below 10^6, because the quotient is either an exact multiple of 1/4096 ms, which a double represents, or at least 1/15625 away from an integer.
- `Uuid7.ToUuid` only stands in for the range check of `uuid.UUID(int=...)`: a value below 2^128 is `Emitted`, any other is `OutOfRange`. `uuid.UUID` objects and their hyphenated text form are left out. A call that succeeds returns the 128-bit integer as `Emitted`, and expected UUIDs are written as integers.
- When the assertion fails, the source builds its message with `uuid.UUID(int=...)` of both values, which would raise `ValueError` instead if either is 2^128 or more. The model reports `AssertionFailed` in every such case.
- The module-level singleton `uuid7 = UUIDv7Generator()` and concurrent callers are left out. The generator has no locking, and the model assumes one caller at a time.
- The command line of `uuid7/uuid7.py` is left out: `_benchmark`, `_profile` and `_main` do timing, profiling and argparse printing.
- Of the puzzle script, only the move rules are modelled. These parts are left out:
  - the networkx graph over all permutations of the goal;
  - `solve` with `shortest_path`;
  - the `input()` parsing and the printing.
  
  They are a foreign library and I/O.
- `bsky-half-life-unblocker/bsky-half-life-unblocker.py`, `twitter-api-v2/sync-httpx-auth.py` and `twitter-api-v2/print-requests.py` are not part of this model. They are network, OAuth and HTTP-server code.
