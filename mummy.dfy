/**
 * The tile-move rules of the sliding-tile puzzle: seven positions, a hub 0
 * joined to every position of a ring 1..6, and seven tiles 0..6 where tile 0
 * is the blank.  A board lists the tile at each position; a move slides a
 * tile next to the blank into the blank's place.
 */
module MummyPuzzle {

  /** `i % 6 or 6`: the position 1..6 on the ring that `i` names modulo 6. */
  function Mod6(i: int): (r: int)
    ensures 1 <= r <= 6
    ensures (r - i) % 6 == 0
  {
    if i % 6 == 0 then 6 else i % 6
  }

  /** The positions next to `position`: every ring position for the hub, else the hub and the two ring neighbours. */
  function Connections(position: int): (r: set<int>)
    ensures forall q :: q in r ==> 0 <= q <= 6
    ensures position != 0 ==> 0 in r
  {
    if position == 0 then {1, 2, 3, 4, 5, 6}
    else {0, Mod6(position - 1), Mod6(position + 1)}
  }

  /**
   * The hub touches the six ring positions; a ring position touches three
   * positions (the hub and its two ring neighbours); no position touches
   * itself.
   */
  lemma ConnectionsShape(p: int)
    requires 0 <= p <= 6
    ensures p !in Connections(p)
    ensures |Connections(p)| == if p == 0 then 6 else 3
    ensures p == 0 ==> forall q :: 1 <= q <= 6 ==> q in Connections(p)
  {
    if p == 1 { assert Connections(p) == {0, 6, 2}; }
    else if p == 2 { assert Connections(p) == {0, 1, 3}; }
    else if p == 3 { assert Connections(p) == {0, 2, 4}; }
    else if p == 4 { assert Connections(p) == {0, 3, 5}; }
    else if p == 5 { assert Connections(p) == {0, 4, 6}; }
    else if p == 6 { assert Connections(p) == {0, 5, 1}; }
  }

  /** Adjacency is symmetric on the seven positions, so the move graph is undirected. */
  lemma ConnectionsSymmetric(p: int, q: int)
    requires 0 <= p <= 6 && 0 <= q <= 6
    ensures q in Connections(p) <==> p in Connections(q)
  {
    if p == 1 { assert Connections(p) == {0, 6, 2}; }
    else if p == 2 { assert Connections(p) == {0, 1, 3}; }
    else if p == 3 { assert Connections(p) == {0, 2, 4}; }
    else if p == 4 { assert Connections(p) == {0, 3, 5}; }
    else if p == 5 { assert Connections(p) == {0, 4, 6}; }
    else if p == 6 { assert Connections(p) == {0, 5, 1}; }
    if q == 1 { assert Connections(q) == {0, 6, 2}; }
    else if q == 2 { assert Connections(q) == {0, 1, 3}; }
    else if q == 3 { assert Connections(q) == {0, 2, 4}; }
    else if q == 4 { assert Connections(q) == {0, 3, 5}; }
    else if q == 5 { assert Connections(q) == {0, 4, 6}; }
    else if q == 6 { assert Connections(q) == {0, 5, 1}; }
  }

  /** The solved board: tile i at position i. */
  const GOAL: seq<int> := [0, 1, 2, 3, 4, 5, 6]

  /** A board is some arrangement of the goal's seven tiles. */
  predicate IsBoard(board: seq<int>)
  {
    multiset(board) == multiset(GOAL)
  }

  /** No tile occurs twice. */
  predicate Distinct(board: seq<int>)
  {
    forall i, j :: 0 <= i < j < |board| ==> board[i] != board[j]
  }

  lemma GoalCounts(x: int)
    ensures multiset(GOAL)[x] == if 0 <= x <= 6 then 1 else 0
  {
    GoalMultiset();
  }

  lemma GoalMultiset()
    ensures multiset(GOAL) == multiset{0, 1, 2, 3, 4, 5, 6}
  {
  }

  /** A board has seven positions holding each tile 0..6 exactly once. */
  lemma BoardTiles(board: seq<int>)
    requires IsBoard(board)
    ensures |board| == 7 && Distinct(board)
    ensures forall i :: 0 <= i < 7 ==> 0 <= board[i] <= 6
    ensures forall t :: 0 <= t <= 6 ==> t in board
  {
    assert |board| == |multiset(board)| == |multiset(GOAL)| == 7;
    BoardRange(board);
    BoardHasEveryTile(board);
    BoardDistinct(board);
  }

  lemma BoardRange(board: seq<int>)
    requires IsBoard(board) && |board| == 7
    ensures forall i :: 0 <= i < 7 ==> 0 <= board[i] <= 6
  {
    forall i | 0 <= i < 7
      ensures 0 <= board[i] <= 6
    {
      assert board[i] in multiset(board);
      GoalCounts(board[i]);
    }
  }

  lemma BoardHasEveryTile(board: seq<int>)
    requires IsBoard(board)
    ensures forall t :: 0 <= t <= 6 ==> t in board
  {
    forall t | 0 <= t <= 6
      ensures t in board
    {
      GoalCounts(t);
      assert t in multiset(board);
    }
  }

  lemma BoardDistinct(board: seq<int>)
    requires IsBoard(board) && |board| == 7
    ensures Distinct(board)
  {
    forall i, j | 0 <= i < j < 7
      ensures board[i] != board[j]
    {
      if board[i] == board[j] {
        TwiceCounted(board, i, j);
        GoalCounts(board[i]);
        assert false;
      }
    }
  }

  /** A value found at two positions counts at least twice. */
  lemma TwiceCounted(s: seq<int>, i: nat, j: nat)
    requires i < j < |s| && s[i] == s[j]
    ensures multiset(s)[s[i]] >= 2
  {
    assert s == s[..j] + s[j..];
    assert s[..j][i] == s[i] && s[j..][0] == s[j];
    assert multiset(s) == multiset(s[..j]) + multiset(s[j..]);
  }

  /** `tuple.index(x)`: the first position holding x. */
  function IndexOf(board: seq<int>, x: int): (i: nat)
    requires x in board
    ensures i < |board| && board[i] == x
    ensures forall k :: 0 <= k < i ==> board[k] != x
  {
    if board[0] == x then 0 else 1 + IndexOf(board[1..], x)
  }

  /** On a board of distinct tiles the position of a tile is unique. */
  lemma IndexOfDistinct(board: seq<int>, k: nat)
    requires Distinct(board) && k < |board|
    ensures IndexOf(board, board[k]) == k
  {
  }

  /** `valid_moves`: the tiles at the positions next to the blank. */
  function ValidMoves(board: seq<int>): (r: set<int>)
    requires |board| == 7 && 0 in board
    ensures forall t :: t in r ==> t in board
  {
    set q | q in Connections(IndexOf(board, 0)) :: board[q]
  }

  lemma NonEmptyHasElement(s: set<int>)
    requires s != {}
    ensures exists x :: x in s
  {
    if forall x :: x !in s {
      assert false;
    }
  }

  /** The image of a set of positions under a board without repeated tiles has as many tiles as positions. */
  lemma {:induction false} ImageSize(board: seq<int>, positions: set<int>)
    requires Distinct(board)
    requires forall q :: q in positions ==> 0 <= q < |board|
    ensures |set q | q in positions :: board[q]| == |positions|
    decreases |positions|
  {
    if positions != {} {
      NonEmptyHasElement(positions);
      var p :| p in positions;
      var rest := positions - {p};
      ImageSize(board, rest);
      var image := set q | q in positions :: board[q];
      var restImage := set q | q in rest :: board[q];
      assert image == restImage + {board[p]};
      assert board[p] !in restImage;
    }
  }

  /**
   * On a board, the valid moves are exactly the tiles whose position is
   * next to the blank's; the blank is never one of them; there are six when
   * the blank is on the hub and three otherwise.
   */
  lemma ValidMovesSpec(board: seq<int>)
    requires IsBoard(board)
    ensures 0 in board && |board| == 7
    ensures forall t :: t in ValidMoves(board) <==> t in board && IndexOf(board, t) in Connections(IndexOf(board, 0))
    ensures 0 !in ValidMoves(board)
    ensures |ValidMoves(board)| == if board[0] == 0 then 6 else 3
  {
    BoardTiles(board);
    var blank := IndexOf(board, 0);
    forall t | t in board
      ensures t in ValidMoves(board) <==> IndexOf(board, t) in Connections(blank)
    {
      var k := IndexOf(board, t);
      if t in ValidMoves(board) {
        var q :| q in Connections(blank) && board[q] == t;
        IndexOfDistinct(board, q);
      }
    }
    ConnectionsShape(blank);
    forall q | q in Connections(blank)
      ensures board[q] != 0
    {
      assert q != blank;
    }
    ImageSize(board, Connections(blank));
    if board[0] == 0 {
      IndexOfDistinct(board, 0);
    } else {
      assert blank != 0;
    }
  }

  /** `move`: the board with the blank and `tile` swapped. */
  function Move(board: seq<int>, tile: int): (r: seq<int>)
    requires 0 in board && tile in board
    ensures |r| == |board| && 0 in r && tile in r
  {
    var i := IndexOf(board, 0);
    var j := IndexOf(board, tile);
    var r := board[i := board[j]][j := board[i]];
    assert r[j] == 0 && r[i] == tile;
    r
  }

  /**
   * A move puts the tile where the blank was and the blank where the tile
   * was, and changes no other position.
   */
  lemma MoveSwaps(board: seq<int>, tile: int)
    requires 0 in board && tile in board
    ensures var r := Move(board, tile);
      && r[IndexOf(board, 0)] == tile
      && r[IndexOf(board, tile)] == 0
      && forall k :: 0 <= k < |board| && k != IndexOf(board, 0) && k != IndexOf(board, tile) ==> r[k] == board[k]
  {
    var i, j := IndexOf(board, 0), IndexOf(board, tile);
    assert Move(board, tile) == board[i := board[j]][j := board[i]];
  }

  /** A move of an arrangement of the goal's tiles yields an arrangement of them again. */
  lemma MoveKeepsBoard(board: seq<int>, tile: int)
    requires IsBoard(board) && tile in board
    ensures IsBoard(Move(board, tile))
  {
    var i, j := IndexOf(board, 0), IndexOf(board, tile);
    var r := Move(board, tile);
    assert r == board[i := board[j]][j := board[i]];
    SwapMultiset(board, i, j);
  }

  lemma SwapMultiset(s: seq<int>, i: nat, j: nat)
    requires i < |s| && j < |s|
    ensures multiset(s[i := s[j]][j := s[i]]) == multiset(s)
  {
    if i != j {
      var once := s[i := s[j]];
      assert multiset(once) == multiset(s) - multiset{s[i]} + multiset{s[j]};
      assert multiset(once[j := s[i]]) == multiset(once) - multiset{s[j]} + multiset{s[i]};
    }
  }

  /** Moving the same tile twice gives back the board. */
  lemma MoveTwice(board: seq<int>, tile: int)
    requires IsBoard(board) && tile in board
    ensures Move(Move(board, tile), tile) == board
  {
    var i, j := IndexOf(board, 0), IndexOf(board, tile);
    MoveSwaps(board, tile);
    MoveKeepsBoard(board, tile);
    var once := Move(board, tile);
    BoardTiles(once);
    IndexOfDistinct(once, j);
    IndexOfDistinct(once, i);
    SwapBack(board, i, j);
  }

  /** Swapping the same two positions twice restores the sequence. */
  lemma SwapBack(s: seq<int>, i: nat, j: nat)
    requires i < |s| && j < |s|
    ensures var t := s[i := s[j]][j := s[i]];
      t[j := t[i]][i := t[j]] == s
  {
  }

  /**
   * Every move can be taken back by a move: after sliding a valid tile, the
   * same tile is a valid move of the new board and sliding it restores the
   * board (the edges of the move graph are undirected).
   */
  lemma MoveUndone(board: seq<int>, tile: int)
    requires IsBoard(board) && tile in ValidMoves(board)
    ensures IsBoard(Move(board, tile))
    ensures tile in ValidMoves(Move(board, tile))
    ensures Move(Move(board, tile), tile) == board
  {
    ValidMovesSpec(board);
    BoardTiles(board);
    var i, j := IndexOf(board, 0), IndexOf(board, tile);
    MoveSwaps(board, tile);
    MoveKeepsBoard(board, tile);
    MoveTwice(board, tile);
    var once := Move(board, tile);
    BoardTiles(once);
    ValidMovesSpec(once);
    IndexOfDistinct(once, j);
    IndexOfDistinct(once, i);
    ConnectionsSymmetric(i, j);
  }

  /** `all_moves`: each valid tile mapped to the board its move leads to, filled one tile at a time. */
  method AllMoves(board: seq<int>) returns (result: map<int, seq<int>>)
    requires |board| == 7 && 0 in board
    ensures result.Keys == ValidMoves(board)
    ensures forall t :: t in result ==> result[t] == Move(board, t)
  {
    result := map[];
    var pending := ValidMoves(board);
    while pending != {}
      invariant pending <= ValidMoves(board)
      invariant result.Keys == ValidMoves(board) - pending
      invariant forall t :: t in result ==> result[t] == Move(board, t)
      decreases pending
    {
      NonEmptyHasElement(pending);
      var validMove :| validMove in pending;
      result := result[validMove := Move(board, validMove)];
      pending := pending - {validMove};
    }
  }

  // ---------------------------------------------------------------------------
  // Starting positions.

  /** `itertools.permutations(s)`: every ordering of s, in the order of the positions picked first. */
  function Permutations(s: seq<int>): (r: seq<seq<int>>)
    ensures forall k :: 0 <= k < |r| ==> |r[k]| == |s|
    decreases |s|, 1
  {
    if |s| == 0 then [[]] else PermutationsFrom(s, 0)
  }

  /** The orderings of s whose first element is s[i], s[i + 1], ... */
  function PermutationsFrom(s: seq<int>, i: nat): (r: seq<seq<int>>)
    requires i <= |s|
    ensures forall k :: 0 <= k < |r| ==> |r[k]| == |s|
    decreases |s|, 0, |s| - i
  {
    if i == |s| then []
    else Prepend(s[i], Permutations(s[..i] + s[i + 1..])) + PermutationsFrom(s, i + 1)
  }

  function Prepend(x: int, ps: seq<seq<int>>): seq<seq<int>>
  {
    seq(|ps|, k requires 0 <= k < |ps| => [x] + ps[k])
  }

  function Factorial(n: nat): nat
  {
    if n == 0 then 1 else n * Factorial(n - 1)
  }

  /** Every element of ps is an ordering of the multiset m, of length n. */
  predicate Orderings(ps: seq<seq<int>>, n: nat, m: multiset<int>)
  {
    forall p :: p in ps ==> |p| == n && multiset(p) == m
  }

  /** There are |s|! permutations of s. */
  lemma {:induction false} PermutationsCount(s: seq<int>)
    ensures |Permutations(s)| == Factorial(|s|)
    decreases |s|, 1
  {
    if |s| > 0 {
      PermutationsFromCount(s, 0);
    }
  }

  lemma {:induction false} PermutationsFromCount(s: seq<int>, i: nat)
    requires 0 < |s| && i <= |s|
    ensures |PermutationsFrom(s, i)| == (|s| - i) * Factorial(|s| - 1)
    decreases |s|, 0, |s| - i
  {
    if i < |s| {
      var rest := s[..i] + s[i + 1..];
      var f := Factorial(|s| - 1);
      var k: nat := |s| - (i + 1);
      assert |PermutationsFrom(s, i)| == f + k * f by {
        assert |rest| == |s| - 1;
        PermutationsCount(rest);
        PermutationsFromCount(s, i + 1);
        assert PermutationsFrom(s, i) == Prepend(s[i], Permutations(rest)) + PermutationsFrom(s, i + 1);
      }
      MulSucc(k, f);
    }
  }

  /**
   * The order of `itertools.permutations` on three elements: the orderings
   * that start with the first element come first, and within them the same
   * rule applies to the rest.
   */
  lemma PermutationsOfThree(x: int, y: int, z: int)
    ensures Permutations([x, y, z]) == [[x, y, z], [x, z, y], [y, x, z], [y, z, x], [z, x, y], [z, y, x]]
  {
    var s := [x, y, z];
    var from2 := [[z, x, y], [z, y, x]];
    var from1 := [[y, x, z], [y, z, x]] + from2;
    assert PermutationsFrom(s, 2) == from2 by {
      FromStep(s, 2);
      assert s[..2] + s[3..] == [x, y];
      PermutationsOfTwo(x, y);
      PrependPair(z, [x, y], [y, x]);
      assert [z] + [x, y] == [z, x, y] && [z] + [y, x] == [z, y, x];
    }
    assert PermutationsFrom(s, 1) == from1 by {
      FromStep(s, 1);
      assert s[..1] + s[2..] == [x, z];
      PermutationsOfTwo(x, z);
      PrependPair(y, [x, z], [z, x]);
      assert [y] + [x, z] == [y, x, z] && [y] + [z, x] == [y, z, x];
    }
    assert PermutationsFrom(s, 0) == [[x, y, z], [x, z, y]] + from1 by {
      FromStep(s, 0);
      assert s[..0] + s[1..] == [y, z];
      PermutationsOfTwo(y, z);
      PrependPair(x, [y, z], [z, y]);
      assert [x] + [y, z] == [x, y, z] && [x] + [z, y] == [x, z, y];
    }
  }

  lemma PermutationsOfTwo(x: int, y: int)
    ensures Permutations([x, y]) == [[x, y], [y, x]]
  {
    var s := [x, y];
    assert PermutationsFrom(s, 1) == [[y, x]] by {
      FromStep(s, 1);
      assert s[..1] + s[2..] == [x];
      PermutationsOfOne(x);
      PrependPair(y, [x], []);
      assert [y] + [x] == [y, x];
    }
    assert PermutationsFrom(s, 0) == [[x, y]] + [[y, x]] by {
      FromStep(s, 0);
      assert s[..0] + s[1..] == [y];
      PermutationsOfOne(y);
      PrependPair(x, [y], []);
      assert [x] + [y] == [x, y];
    }
  }

  lemma PermutationsOfOne(x: int)
    ensures Permutations([x]) == [[x]]
  {
    FromStep([x], 0);
    assert [x][..0] + [x][1..] == [];
    assert Prepend(x, [[]])[0] == [x];
  }

  /** One step of PermutationsFrom: the orderings that start with s[i], then the rest. */
  lemma FromStep(s: seq<int>, i: nat)
    requires i < |s|
    ensures PermutationsFrom(s, i) == Prepend(s[i], Permutations(s[..i] + s[i + 1..])) + PermutationsFrom(s, i + 1)
    ensures i + 1 == |s| ==> PermutationsFrom(s, i + 1) == []
  {
  }

  /** Prepending to a one- or two-element list of orderings. */
  lemma PrependPair(x: int, p: seq<int>, q: seq<int>)
    ensures Prepend(x, [p]) == [[x] + p]
    ensures Prepend(x, [p, q]) == [[x] + p, [x] + q]
  {
    assert Prepend(x, [p])[0] == [x] + p;
    assert Prepend(x, [p, q])[0] == [x] + p && Prepend(x, [p, q])[1] == [x] + q;
  }

  /** Every permutation of s is an ordering of s: same length, same elements with the same counts. */
  lemma {:induction false} PermutationsAreOrderings(s: seq<int>)
    ensures Orderings(Permutations(s), |s|, multiset(s))
    decreases |s|, 1
  {
    if |s| > 0 {
      PermutationsFromAreOrderings(s, 0);
    }
  }

  lemma {:induction false} PermutationsFromAreOrderings(s: seq<int>, i: nat)
    requires 0 < |s| && i <= |s|
    ensures Orderings(PermutationsFrom(s, i), |s|, multiset(s))
    decreases |s|, 0, |s| - i
  {
    if i < |s| {
      var rest := s[..i] + s[i + 1..];
      RemoveAt(s, i);
      PermutationsAreOrderings(rest);
      PermutationsFromAreOrderings(s, i + 1);
      PrependSpec(s[i], Permutations(rest), |rest|, multiset(rest));
      var head := Prepend(s[i], Permutations(rest));
      var tail := PermutationsFrom(s, i + 1);
      assert PermutationsFrom(s, i) == head + tail;
      OrderingsConcat(head, tail, |s|, multiset(s));
    }
  }

  lemma MulSucc(k: nat, f: nat)
    ensures (k + 1) * f == f + k * f
  {
  }

  /** Taking out the element at i leaves one element fewer and the rest of the multiset. */
  lemma RemoveAt(s: seq<int>, i: nat)
    requires i < |s|
    ensures |s[..i] + s[i + 1..]| == |s| - 1
    ensures multiset(s) == multiset{s[i]} + multiset(s[..i] + s[i + 1..])
  {
    assert s == s[..i] + [s[i]] + s[i + 1..];
  }

  lemma OrderingsConcat(a: seq<seq<int>>, b: seq<seq<int>>, n: nat, m: multiset<int>)
    requires Orderings(a, n, m) && Orderings(b, n, m)
    ensures Orderings(a + b, n, m)
  {
  }

  /** Putting x in front of orderings of m of length n gives orderings of m + {x} of length n + 1. */
  lemma PrependSpec(x: int, ps: seq<seq<int>>, n: nat, m: multiset<int>)
    requires Orderings(ps, n, m)
    ensures |Prepend(x, ps)| == |ps|
    ensures Orderings(Prepend(x, ps), n + 1, multiset{x} + m)
  {
    var head := Prepend(x, ps);
    forall p | p in head
      ensures |p| == n + 1 && multiset(p) == multiset{x} + m
    {
      var k :| 0 <= k < |head| && head[k] == p;
      assert ps[k] in ps;
      assert p == [x] + ps[k];
    }
  }

  /** `(0,) + i + j for i, j in product(ps, qs)`: the outer loop over ps, the inner over qs. */
  function Product(ps: seq<seq<int>>, qs: seq<seq<int>>): (r: seq<seq<int>>)
    ensures forall k :: 0 <= k < |r| ==> |r[k]| >= 1 && r[k][0] == 0
  {
    if |ps| == 0 then []
    else seq(|qs|, k requires 0 <= k < |qs| => [0] + ps[0] + qs[k]) + Product(ps[1..], qs)
  }

  /** Product pairs every p with every q. */
  lemma {:induction false} ProductCount(ps: seq<seq<int>>, qs: seq<seq<int>>)
    ensures |Product(ps, qs)| == |ps| * |qs|
  {
    if |ps| > 0 {
      ProductCount(ps[1..], qs);
      assert |Product(ps, qs)| == |qs| + |Product(ps[1..], qs)|;
      MulSucc(|ps| - 1, |qs|);
    }
  }

  /** Every board in bs has the blank first, an ordering of mp (length lp) next, then an ordering of mq (length lq). */
  predicate StartShape(bs: seq<seq<int>>, lp: nat, mp: multiset<int>, lq: nat, mq: multiset<int>)
  {
    forall b :: b in bs ==>
      && |b| == 1 + lp + lq && b[0] == 0
      && multiset(b[1..1 + lp]) == mp && multiset(b[1 + lp..]) == mq
  }

  /**
   * When every p is an ordering of mp with lp elements and every q one of mq
   * with lq elements, every board of Product has 0 first, then an ordering
   * of mp, then an ordering of mq.
   */
  lemma {:induction false} ProductShape(ps: seq<seq<int>>, qs: seq<seq<int>>, lp: nat, mp: multiset<int>, lq: nat, mq: multiset<int>)
    requires Orderings(ps, lp, mp) && Orderings(qs, lq, mq)
    ensures StartShape(Product(ps, qs), lp, mp, lq, mq)
  {
    if |ps| > 0 {
      assert Orderings(ps[1..], lp, mp) by {
        forall p | p in ps[1..] ensures p in ps {}
      }
      ProductShape(ps[1..], qs, lp, mp, lq, mq);
      var row := seq(|qs|, k requires 0 <= k < |qs| => [0] + ps[0] + qs[k]);
      assert ps[0] in ps;
      forall b | b in row
        ensures |b| == 1 + lp + lq && b[0] == 0 && multiset(b[1..1 + lp]) == mp && multiset(b[1 + lp..]) == mq
      {
        var k :| 0 <= k < |row| && row[k] == b;
        assert qs[k] in qs;
        assert b[1..1 + lp] == ps[0] && b[1 + lp..] == qs[k];
      }
      assert Product(ps, qs) == row + Product(ps[1..], qs);
    }
  }

  /** `starting_positions`: 3! orderings of the upper tiles times 3! of the lower ones. */
  function StartingPositions(): (r: seq<seq<int>>)
    ensures |r| == 36
  {
    ThreeByThree([4, 5, 6], [1, 2, 3]);
    Product(Permutations([4, 5, 6]), Permutations([1, 2, 3]))
  }

  /** Two groups of three tiles give 3! * 3! = 36 boards. */
  lemma ThreeByThree(upper: seq<int>, lower: seq<int>)
    requires |upper| == 3 && |lower| == 3
    ensures |Product(Permutations(upper), Permutations(lower))| == 36
  {
    PermutationsCount(upper);
    PermutationsCount(lower);
    assert Factorial(3) == 6;
    ProductCount(Permutations(upper), Permutations(lower));
  }

  /** Blank first, then 4, 5, 6 in some order, then 1, 2, 3 in some order: a board. */
  lemma StartBoard(b: seq<int>)
    requires |b| == 7 && b[0] == 0
    requires multiset(b[1..4]) == multiset{4, 5, 6} && multiset(b[4..]) == multiset{1, 2, 3}
    ensures IsBoard(b)
  {
    assert b == [b[0]] + b[1..4] + b[4..];
    assert multiset(b) == multiset{0} + multiset(b[1..4]) + multiset(b[4..]);
    assert multiset(GOAL) == multiset{0, 1, 2, 3, 4, 5, 6};
  }

  /**
   * Each of the starting positions is a board with the blank on the hub, an
   * ordering of 4, 5, 6 on positions 1..3 and an ordering of 1, 2, 3 on
   * positions 4..6.
   */
  lemma StartingPositionsShape()
    ensures StartShape(StartingPositions(), 3, multiset{4, 5, 6}, 3, multiset{1, 2, 3})
    ensures forall b :: b in StartingPositions() ==> IsBoard(b)
  {
    var upper, lower := [4, 5, 6], [1, 2, 3];
    var ps, qs := Permutations(upper), Permutations(lower);
    PermutationsAreOrderings(upper);
    PermutationsAreOrderings(lower);
    assert multiset(upper) == multiset{4, 5, 6} && multiset(lower) == multiset{1, 2, 3};
    ProductShape(ps, qs, 3, multiset{4, 5, 6}, 3, multiset{1, 2, 3});
    forall b | b in StartingPositions()
      ensures IsBoard(b)
    {
      StartBoard(b);
    }
  }
}
