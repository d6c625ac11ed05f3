/**
 * The game-tree search of the automatic player, as functions on board
 * values: the static evaluation, the alpha-beta search exactly as the
 * player's loop runs it (first best child kept, cut test after every
 * improvement), and plain minimax as an independent reference.  The main
 * result is that with beta at +infinity the search never cuts and returns
 * the minimax value together with the first move that attains it.
 */
module GameSearch {
  import opened Geometry
  import opened Reachability
  import opened MoveRules

  /** A position magnitude indicating a win: positive for white, negative for black (2^31 - 2). */
  const WinningValue: int := 0x7FFF_FFFE
  /** A magnitude greater than any position value (2^31 - 1). */
  const Infty: int := 0x7FFF_FFFF

  /** The side a search node moves for: white at a maximizing node (sense 1), black at any other. */
  function SideOf(sense: int): Piece {
    if sense == 1 then White else Black
  }

  /** The sense of the children of a node: a maximizing node has minimizing children and vice versa. */
  function ChildSense(sense: int): int {
    if sense == 1 then -1 else 1
  }

  /** `score` improves on `bestval` at a node of this sense: strictly larger when maximizing, strictly smaller otherwise. */
  predicate Better(sense: int, score: int, bestval: int) {
    if sense == 1 then score > bestval else score < bestval
  }

  /** The value of a node whose side has no move: a loss for that side. */
  function NoMoveValue(sense: int): int {
    if sense == 1 then -WinningValue else WinningValue
  }

  /** The starting best value of a node: one no score can fail to improve on. */
  function WorstValue(sense: int): int {
    if sense == 1 then -Infty else Infty
  }

  // ---------------------------------------------------------------------------
  // Static evaluation
  // ---------------------------------------------------------------------------

  /**
   * Mobility of `side` over the squares below n: for each square holding
   * `side`, the number of squares reachable from it, the square itself
   * treated as empty.
   */
  function MobilityUpTo(cells: Grid, side: Piece, n: int): int
    requires 0 <= n <= 100
  {
    if n == 0 then 0
    else
      MobilityUpTo(cells, side, n - 1) +
      (if cells[n - 1] == side then |Reachable(cells, n - 1, Some(n - 1))| else 0)
  }

  function Mobility(cells: Grid, side: Piece): int {
    MobilityUpTo(cells, side, 100)
  }

  lemma {:induction false} MobilityUpToRange(cells: Grid, side: Piece, n: int)
    requires 0 <= n <= 100
    ensures 0 <= MobilityUpTo(cells, side, n) <= 72 * n
  {
    if n > 0 {
      MobilityUpToRange(cells, side, n - 1);
      ReachableLength(cells, n - 1, Some(n - 1));
    }
  }

  /**
   * staticScore: a decided position scores -WinningValue or +WinningValue
   * for a black or white win; any other position scores white's mobility
   * minus black's.
   */
  function StaticValue(cells: Grid, turn: Piece): int
    requires IsSide(turn)
  {
    var w := WinnerOf(cells, turn);
    if w == Some(Black) then -WinningValue
    else if w == Some(White) then WinningValue
    else Mobility(cells, White) - Mobility(cells, Black)
  }

  /**
   * A decided position scores as a loss for the side to move; an undecided
   * one scores well inside the winning magnitude, so only decided positions
   * reach it; every score lies in [-WinningValue, WinningValue].
   */
  lemma StaticValueRange(cells: Grid, turn: Piece)
    requires IsSide(turn)
    ensures WinnerOf(cells, turn).Some? ==>
      StaticValue(cells, turn) == (if turn == White then -WinningValue else WinningValue)
    ensures WinnerOf(cells, turn).None? ==> -7200 <= StaticValue(cells, turn) <= 7200
    ensures -WinningValue <= StaticValue(cells, turn) <= WinningValue
  {
    MobilityUpToRange(cells, White, 100);
    MobilityUpToRange(cells, Black, 100);
  }

  // ---------------------------------------------------------------------------
  // Alpha-beta search as the player runs it
  // ---------------------------------------------------------------------------

  /** What a search call produces: its value, and the move it would record (none at a leaf or with no move). */
  datatype Outcome = Outcome(value: int, best: Option<Move>)

  /** A leaf of the search: depth exhausted or the game decided. */
  predicate Leaf(cells: Grid, turn: Piece, depth: nat)
    requires IsSide(turn)
  {
    depth == 0 || WinnerOf(cells, turn).Some?
  }

  /**
   * findMove(board, depth, _, sense, alpha, beta): a leaf scores statically;
   * otherwise the moves of SideOf(sense) are tried in enumeration order.
   */
  function Search(cells: Grid, turn: Piece, depth: nat, sense: int, alpha: int, beta: int): Outcome
    requires IsSide(turn)
    decreases depth, 1
  {
    if Leaf(cells, turn, depth) then Outcome(StaticValue(cells, turn), None)
    else SearchLoop(cells, turn, depth, sense, YieldedMoves(cells, SideOf(sense)), alpha, beta, None, WorstValue(sense))
  }

  /**
   * The loop of findMove over the moves still to try: each is scored by a
   * search of the position after it, one level shallower and of the other
   * sense; a strictly better score becomes the best, alpha moves to it
   * (the larger of the two at a maximizing node, the smaller at a
   * minimizing one) and the loop stops once beta <= alpha.
   */
  function SearchLoop(cells: Grid, turn: Piece, depth: nat, sense: int, moves: seq<Move>,
                      alpha: int, beta: int, best: Option<Move>, bestval: int): Outcome
    requires IsSide(turn) && depth >= 1
    decreases depth, 0, |moves|
  {
    if moves == [] then Finish(sense, best, bestval)
    else
      var m := moves[0];
      var score := ChildValue(cells, turn, depth, sense, m, alpha, beta);
      if Better(sense, score, bestval) then
        var alpha' := if sense == 1 then Max(alpha, score) else Min(alpha, score);
        if beta <= alpha' then Finish(sense, Some(m), score)
        else SearchLoop(cells, turn, depth, sense, moves[1..], alpha', beta, Some(m), score)
      else SearchLoop(cells, turn, depth, sense, moves[1..], alpha, beta, best, bestval)
  }

  /** The value of the position after m, searched one level shallower by the other side's sense. */
  function ChildValue(cells: Grid, turn: Piece, depth: nat, sense: int, m: Move, alpha: int, beta: int): int
    requires IsSide(turn) && depth >= 1
    decreases depth, 0, 0
  {
    Search(AfterMove(cells, m), Opponent(turn), depth - 1, ChildSense(sense), alpha, beta).value
  }

  /** One turn of the loop on a move m followed by `rest`. */
  lemma SearchLoopCons(cells: Grid, turn: Piece, depth: nat, sense: int, m: Move, rest: seq<Move>,
                       alpha: int, beta: int, best: Option<Move>, bestval: int)
    requires IsSide(turn) && depth >= 1
    ensures
      var score := ChildValue(cells, turn, depth, sense, m, alpha, beta);
      var alpha' := if sense == 1 then Max(alpha, score) else Min(alpha, score);
      SearchLoop(cells, turn, depth, sense, [m] + rest, alpha, beta, best, bestval) ==
        if !Better(sense, score, bestval) then SearchLoop(cells, turn, depth, sense, rest, alpha, beta, best, bestval)
        else if beta <= alpha' then Finish(sense, Some(m), score)
        else SearchLoop(cells, turn, depth, sense, rest, alpha', beta, Some(m), score)
  {
    ConsParts(m, rest);
  }

  /** After the loop: no move found means a loss for the side of the node; else the best value and move. */
  function Finish(sense: int, best: Option<Move>, bestval: int): Outcome {
    if best.None? then Outcome(NoMoveValue(sense), None) else Outcome(bestval, best)
  }

  // ---------------------------------------------------------------------------
  // Minimax, the reference definition
  // ---------------------------------------------------------------------------

  /**
   * The extreme of a non-empty list of values: the largest at a
   * maximizing node, the smallest at a minimizing one.
   */
  function Extreme(sense: int, vs: seq<int>): (e: int)
    requires vs != []
    ensures e in vs
    ensures forall v :: v in vs ==> !Better(sense, v, e)
  {
    if |vs| == 1 then vs[0]
    else
      var rest := Extreme(sense, vs[1..]);
      assert forall v :: v in vs ==> v == vs[0] || v in vs[1..];
      if Better(sense, vs[0], rest) then vs[0] else rest
  }

  /** The first position at which v occurs in vs. */
  function FirstIndex(vs: seq<int>, v: int): (i: nat)
    requires v in vs
    ensures i < |vs| && vs[i] == v
    ensures forall j :: 0 <= j < i ==> vs[j] != v
  {
    if vs[0] == v then 0 else 1 + FirstIndex(vs[1..], v)
  }

  /** The minimax value of a position, the same leaves and the same move order as the search. */
  function Minimax(cells: Grid, turn: Piece, depth: nat, sense: int): int
    requires IsSide(turn)
    decreases depth, 1
  {
    if Leaf(cells, turn, depth) then StaticValue(cells, turn)
    else
      var moves := YieldedMoves(cells, SideOf(sense));
      if moves == [] then NoMoveValue(sense)
      else Extreme(sense, Values(cells, turn, depth, sense, moves))
  }

  /** The minimax values of the positions after each of `moves`. */
  function Values(cells: Grid, turn: Piece, depth: nat, sense: int, moves: seq<Move>): (vs: seq<int>)
    requires IsSide(turn) && depth >= 1
    ensures |vs| == |moves|
    decreases depth, 0, |moves|
  {
    if moves == [] then []
    else
      [Minimax(AfterMove(cells, moves[0]), Opponent(turn), depth - 1, ChildSense(sense))] +
      Values(cells, turn, depth, sense, moves[1..])
  }

  /** The move minimax picks: the first one whose value is the node's value; none at a leaf or with no move. */
  function BestMove(cells: Grid, turn: Piece, depth: nat, sense: int): Option<Move>
    requires IsSide(turn)
  {
    var moves := YieldedMoves(cells, SideOf(sense));
    if Leaf(cells, turn, depth) || moves == [] then None
    else
      var vs := Values(cells, turn, depth, sense, moves);
      Some(moves[FirstIndex(vs, Extreme(sense, vs))])
  }

  lemma {:induction false} ValuesAt(cells: Grid, turn: Piece, depth: nat, sense: int, moves: seq<Move>, i: int)
    requires IsSide(turn) && depth >= 1 && 0 <= i < |moves|
    ensures Values(cells, turn, depth, sense, moves)[i] ==
      Minimax(AfterMove(cells, moves[i]), Opponent(turn), depth - 1, ChildSense(sense))
    decreases i
  {
    if i > 0 {
      ValuesAt(cells, turn, depth, sense, moves[1..], i - 1);
    }
  }

  /** Every minimax value lies in [-WinningValue, WinningValue]. */
  lemma {:induction false} MinimaxRange(cells: Grid, turn: Piece, depth: nat, sense: int)
    requires IsSide(turn)
    ensures -WinningValue <= Minimax(cells, turn, depth, sense) <= WinningValue
    decreases depth, 1
  {
    if Leaf(cells, turn, depth) {
      StaticValueRange(cells, turn);
    } else {
      var moves := YieldedMoves(cells, SideOf(sense));
      if moves != [] {
        ValuesRange(cells, turn, depth, sense, moves);
      }
    }
  }

  lemma {:induction false} ValuesRange(cells: Grid, turn: Piece, depth: nat, sense: int, moves: seq<Move>)
    requires IsSide(turn) && depth >= 1
    ensures forall v :: v in Values(cells, turn, depth, sense, moves) ==> -WinningValue <= v <= WinningValue
    decreases depth, 0, |moves|
  {
    if moves != [] {
      var v := Minimax(AfterMove(cells, moves[0]), Opponent(turn), depth - 1, ChildSense(sense));
      var rest := Values(cells, turn, depth, sense, moves[1..]);
      assert Values(cells, turn, depth, sense, moves) == [v] + rest;
      MinimaxRange(AfterMove(cells, moves[0]), Opponent(turn), depth - 1, ChildSense(sense));
      ValuesRange(cells, turn, depth, sense, moves[1..]);
    }
  }

  // ---------------------------------------------------------------------------
  // The search computes minimax
  // ---------------------------------------------------------------------------

  lemma ExtremeCons(sense: int, x: int, vs: seq<int>)
    requires vs != []
    ensures Extreme(sense, [x] + vs) == if Better(sense, x, Extreme(sense, vs)) then x else Extreme(sense, vs)
  {
    assert ([x] + vs)[1..] == vs;
  }

  lemma FirstIndexCons(x: int, vs: seq<int>, v: int)
    requires v in vs && v != x
    ensures FirstIndex([x] + vs, v) == 1 + FirstIndex(vs, v)
  {
    assert ([x] + vs)[1..] == vs;
  }

  /**
   * With beta at +infinity and alpha below it, alpha-beta search never
   * cuts: it returns the minimax value and the first move attaining it.
   */
  lemma {:induction false} SearchIsMinimax(cells: Grid, turn: Piece, depth: nat, sense: int, alpha: int)
    requires IsSide(turn) && alpha < Infty
    ensures Search(cells, turn, depth, sense, alpha, Infty) ==
      Outcome(Minimax(cells, turn, depth, sense), BestMove(cells, turn, depth, sense))
    decreases depth, 1
  {
    if !Leaf(cells, turn, depth) {
      var moves := YieldedMoves(cells, SideOf(sense));
      SearchLoopIsMinimax(cells, turn, depth, sense, moves, alpha, None, WorstValue(sense));
    }
  }

  /**
   * What the loop returns from some point on when no cut can happen:
   * with no move left, the best so far (or the no-move value); otherwise
   * the best so far unless some move left is strictly better, and then the
   * extreme of the values left with the first move attaining it.
   */
  function LoopResult(sense: int, moves: seq<Move>, vs: seq<int>, best: Option<Move>, bestval: int): Outcome
    requires |vs| == |moves|
  {
    if moves == [] then Finish(sense, best, bestval)
    else
      var e := Extreme(sense, vs);
      if best.Some? && !Better(sense, e, bestval) then Outcome(bestval, best)
      else Outcome(e, Some(moves[FirstIndex(vs, e)]))
  }

  /** One step of the loop: a move scored `score` either becomes the best so far or leaves it as it was. */
  lemma LoopResultCons(sense: int, m: Move, moves: seq<Move>, score: int, vs: seq<int>, best: Option<Move>, bestval: int)
    requires |vs| == |moves|
    requires best.None? ==> bestval == WorstValue(sense)
    requires best.Some? ==> -WinningValue <= bestval <= WinningValue
    requires -WinningValue <= score <= WinningValue
    ensures LoopResult(sense, [m] + moves, [score] + vs, best, bestval) ==
      if Better(sense, score, bestval) then LoopResult(sense, moves, vs, Some(m), score)
      else LoopResult(sense, moves, vs, best, bestval)
  {
    ConsParts(m, moves);
    if vs == [] {
      assert [score] + vs == [score];
    } else {
      ExtremeCons(sense, score, vs);
      var e' := Extreme(sense, vs);
      if Better(sense, e', score) || (!Better(sense, score, bestval) && Better(sense, e', bestval)) {
        FirstIndexCons(score, vs, e');
      }
    }
  }

  /**
   * The loop from some point on, with beta at +infinity: the moves left
   * are scored by minimax and the result is LoopResult of their values.
   */
  lemma {:induction false} SearchLoopIsMinimax(cells: Grid, turn: Piece, depth: nat, sense: int, moves: seq<Move>,
                                               alpha: int, best: Option<Move>, bestval: int)
    requires IsSide(turn) && depth >= 1 && alpha < Infty
    requires best.None? ==> bestval == WorstValue(sense)
    requires best.Some? ==> -WinningValue <= bestval <= WinningValue
    ensures SearchLoop(cells, turn, depth, sense, moves, alpha, Infty, best, bestval) ==
      LoopResult(sense, moves, Values(cells, turn, depth, sense, moves), best, bestval)
    decreases depth, 0, |moves|
  {
    if moves != [] {
      var m := moves[0];
      ChildIsMinimax(cells, turn, depth, sense, m, alpha);
      var score := Minimax(AfterMove(cells, m), Opponent(turn), depth - 1, ChildSense(sense));
      var rest := Values(cells, turn, depth, sense, moves[1..]);
      assert Values(cells, turn, depth, sense, moves) == [score] + rest;
      assert moves == [m] + moves[1..];
      LoopResultCons(sense, m, moves[1..], score, rest, best, bestval);
      SearchLoopNoCut(cells, turn, depth, sense, moves, alpha, best, bestval);
      if Better(sense, score, bestval) {
        var alpha' := if sense == 1 then Max(alpha, score) else Min(alpha, score);
        SearchLoopIsMinimax(cells, turn, depth, sense, moves[1..], alpha', Some(m), score);
      } else {
        SearchLoopIsMinimax(cells, turn, depth, sense, moves[1..], alpha, best, bestval);
      }
    }
  }

  /** With beta at +infinity a child is scored by its minimax value, which lies within the winning values. */
  lemma ChildIsMinimax(cells: Grid, turn: Piece, depth: nat, sense: int, m: Move, alpha: int)
    requires IsSide(turn) && depth >= 1 && alpha < Infty
    ensures
      var v := Minimax(AfterMove(cells, m), Opponent(turn), depth - 1, ChildSense(sense));
      ChildValue(cells, turn, depth, sense, m, alpha, Infty) == v && -WinningValue <= v <= WinningValue
    decreases depth, 0, 0
  {
    SearchValueIsMinimax(AfterMove(cells, m), Opponent(turn), depth - 1, ChildSense(sense), alpha);
  }

  /** With beta at +infinity the search value is the minimax value, within the winning values. */
  lemma SearchValueIsMinimax(cells: Grid, turn: Piece, depth: nat, sense: int, alpha: int)
    requires IsSide(turn) && alpha < Infty
    ensures Search(cells, turn, depth, sense, alpha, Infty).value == Minimax(cells, turn, depth, sense)
    ensures -WinningValue <= Minimax(cells, turn, depth, sense) <= WinningValue
    decreases depth, 2
  {
    SearchIsMinimax(cells, turn, depth, sense, alpha);
    MinimaxRange(cells, turn, depth, sense);
  }

  /** One turn of the loop with beta at +infinity and a child value below it: no cut, alpha stays below +infinity. */
  lemma SearchLoopNoCut(cells: Grid, turn: Piece, depth: nat, sense: int, moves: seq<Move>,
                        alpha: int, best: Option<Move>, bestval: int)
    requires IsSide(turn) && depth >= 1 && alpha < Infty && moves != []
    requires ChildValue(cells, turn, depth, sense, moves[0], alpha, Infty) < Infty
    ensures
      var score := ChildValue(cells, turn, depth, sense, moves[0], alpha, Infty);
      var alpha' := if sense == 1 then Max(alpha, score) else Min(alpha, score);
      alpha' < Infty &&
      SearchLoop(cells, turn, depth, sense, moves, alpha, Infty, best, bestval) ==
        if Better(sense, score, bestval)
        then SearchLoop(cells, turn, depth, sense, moves[1..], alpha', Infty, Some(moves[0]), score)
        else SearchLoop(cells, turn, depth, sense, moves[1..], alpha, Infty, best, bestval)
  {
  }

  /**
   * The move minimax picks is one of the moves enumerated for the node's
   * side; its value is the node's value, every earlier move is strictly
   * worse, and no move is better.
   */
  lemma BestMoveIsFirstBest(cells: Grid, turn: Piece, depth: nat, sense: int)
    requires IsSide(turn) && !Leaf(cells, turn, depth)
    ensures
      var moves := YieldedMoves(cells, SideOf(sense));
      var v := Minimax(cells, turn, depth, sense);
      (BestMove(cells, turn, depth, sense).None? <==> moves == []) &&
      (moves == [] ==> v == NoMoveValue(sense)) &&
      (forall i :: 0 <= i < |moves| ==>
        !Better(sense, Minimax(AfterMove(cells, moves[i]), Opponent(turn), depth - 1, ChildSense(sense)), v)) &&
      (BestMove(cells, turn, depth, sense).Some? ==>
        exists i :: 0 <= i < |moves| && moves[i] == BestMove(cells, turn, depth, sense).value &&
          Minimax(AfterMove(cells, moves[i]), Opponent(turn), depth - 1, ChildSense(sense)) == v &&
          forall j :: 0 <= j < i ==>
            Better(sense, v, Minimax(AfterMove(cells, moves[j]), Opponent(turn), depth - 1, ChildSense(sense))))
  {
    var moves := YieldedMoves(cells, SideOf(sense));
    if moves != [] {
      var vs := Values(cells, turn, depth, sense, moves);
      var v := Extreme(sense, vs);
      forall i | 0 <= i < |moves|
        ensures !Better(sense, Minimax(AfterMove(cells, moves[i]), Opponent(turn), depth - 1, ChildSense(sense)), v)
      {
        ValuesAt(cells, turn, depth, sense, moves, i);
        assert vs[i] in vs;
      }
      var k := FirstIndex(vs, v);
      ValuesAt(cells, turn, depth, sense, moves, k);
      forall j | 0 <= j < k
        ensures Better(sense, v, Minimax(AfterMove(cells, moves[j]), Opponent(turn), depth - 1, ChildSense(sense)))
      {
        ValuesAt(cells, turn, depth, sense, moves, j);
        assert vs[j] in vs;
      }
    }
  }

  /** Each move of `ms` can be made on `cells` and undone exactly. */
  predicate AllUndoable(cells: Grid, ms: seq<Move>) {
    forall m :: m in ms ==> Undoable(cells, m)
  }

  /** Every move the enumeration hands out can be made and undone. */
  lemma YieldedMovesUndoable(cells: Grid, side: Piece)
    ensures AllUndoable(cells, YieldedMoves(cells, side))
  {
    forall m | m in YieldedMoves(cells, side)
      ensures Undoable(cells, m)
    {
      YieldedMoveUndoable(cells, side, m);
    }
  }

  /** The head and the tail of a sequence built by prefixing one element. */
  lemma ConsParts<T>(x: T, s: seq<T>)
    ensures ([x] + s)[0] == x && ([x] + s)[1..] == s
  {
  }

  lemma YieldedMoveUndoable(cells: Grid, side: Piece, m: Move)
    requires m in YieldedMoves(cells, side)
    ensures Undoable(cells, m)
  {
    var s := Scan(cells, side, 0);
    var first := PieceMoves(cells, s, Reachable(cells, s, None));
    if m in first {
      PieceMovesMembers(cells, s, Reachable(cells, s, None), m);
      ReachableExact(cells, s, None, m.to);
      ReachableExact(cells, m.to, Some(s), m.spear);
      UnblockedIgnoresOrigin(cells, s, m.to);
      LegalMoveUndoable(cells, cells[s], m);
    } else {
      LegalMovesFromExact(cells, side, s as int + 1, m);
      LegalMoveUndoable(cells, side, m);
    }
  }

  /** When the node's side has a piece, the move minimax picks is a legal move for that side. */
  lemma BestMoveIsLegal(cells: Grid, turn: Piece, depth: nat, sense: int)
    requires IsSide(turn) && exists i: Square :: cells[i] == SideOf(sense)
    ensures BestMove(cells, turn, depth, sense).Some? ==>
      LegalFor(cells, SideOf(sense), BestMove(cells, turn, depth, sense).value)
  {
    var moves := YieldedMoves(cells, SideOf(sense));
    if BestMove(cells, turn, depth, sense).Some? {
      var vs := Values(cells, turn, depth, sense, moves);
      var k := FirstIndex(vs, Extreme(sense, vs));
      YieldedMovesAreLegalMoves(cells, SideOf(sense));
      LegalMovesExact(cells, SideOf(sense), moves[k]);
    }
  }
}
