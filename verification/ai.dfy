/**
 * The automatic player: the search depth heuristic, the static evaluation
 * and the recursive alpha-beta search, run on a live board that each
 * candidate move is made on and undone from.  Each method is proved
 * against the functions of module GameSearch.
 */
module Engine {
  import opened Geometry
  import opened Reachability
  import opened MoveRules
  import opened Boards
  import opened GameSearch

  /** Number of moves that share one search depth. */
  const Divisor: nat := 30
  /** The search depth at the start of the game. */
  const Initial: nat := 1

  /** maxDepth: one more level of search for every Divisor moves made. */
  function MaxDepth(numMoves: nat): (d: nat)
    ensures d >= Initial
    ensures (d - Initial) * Divisor <= numMoves < (d - Initial + 1) * Divisor
  {
    numMoves / Divisor + Initial
  }

  /** The depth never shrinks as the game goes on. */
  lemma MaxDepthMonotone(m: nat, n: nat)
    requires m <= n
    ensures MaxDepth(m) <= MaxDepth(n)
  {
    var dm, dn := MaxDepth(m), MaxDepth(n);
    assert (dm - Initial) * Divisor <= m <= n < (dn - Initial + 1) * Divisor;
  }

  class AI {
    /** The side this player plays. */
    const myPiece: Piece
    /** The move found by the last search that recorded one. */
    var lastFoundMove: Option<Move>

    constructor (piece: Piece)
      ensures myPiece == piece && lastFoundMove == None
    {
      myPiece := piece;
      lastFoundMove := None;
    }

    /**
     * findMove(): searches a copy of the board to MaxDepth(moves made),
     * maximizing when playing white, and returns the move recorded.  When
     * the game is already decided nothing is recorded, and the move
     * recorded by an earlier search comes back.
     */
    method ChooseMove(board: Board) returns (move: Option<Move>)
      requires board.Valid()
      modifies this`lastFoundMove
      ensures move == lastFoundMove
      ensures
        var sense := if myPiece == White then 1 else -1;
        var depth := MaxDepth(board.numMove);
        move == if Leaf(board.cells, board.turn, depth) then old(lastFoundMove)
                else BestMove(board.cells, board.turn, depth, sense)
    {
      var b := new Board.Clone(board);
      var sense := if myPiece == White then 1 else -1;
      var depth := MaxDepth(b.numMove);
      SearchIsMinimax(b.cells, b.turn, depth, sense, -Infty);
      var _ := FindMove(b, depth, true, sense, -Infty, Infty);
      move := lastFoundMove;
    }

    /**
     * findMove(board, depth, saveMove, sense, alpha, beta): returns the
     * search value and, when saveMove and the position is not a leaf,
     * records the best move (none when there is no move); the board is
     * left as it was found.
     */
    method FindMove(board: Board, depth: nat, saveMove: bool, sense: int, alpha: int, beta: int) returns (v: int)
      requires board.Valid()
      modifies board, this`lastFoundMove
      ensures board.Valid() && board.cells == old(board.cells) && board.turn == old(board.turn)
      ensures board.numMove == old(board.numMove) && board.history == old(board.history)
      ensures v == Search(old(board.cells), old(board.turn), depth, sense, alpha, beta).value
      ensures lastFoundMove ==
        if saveMove && !Leaf(old(board.cells), old(board.turn), depth)
        then Search(old(board.cells), old(board.turn), depth, sense, alpha, beta).best
        else old(lastFoundMove)
      decreases depth, 2
    {
      var leaf := IsLeaf(board, depth);
      if leaf {
        v := StaticScore(board);
        return;
      }
      var best;
      v, best := SearchMoves(board, depth, sense, alpha, beta);
      if saveMove {
        lastFoundMove := best;
      }
    }

    /** The test that ends findMove's recursion: no depth left, or the game is decided. */
    method IsLeaf(board: Board, depth: nat) returns (leaf: bool)
      requires board.Valid()
      ensures leaf == Leaf(board.cells, board.turn, depth)
    {
      leaf := depth == 0;
      if !leaf {
        var w := board.Winner();
        leaf := w.Some?;
      }
    }

    /**
     * The loop of findMove: tries each legal move of the side `sense`
     * stands for in the order legalMoves yields them, keeps the first best
     * one, narrows the window and stops at a cut.
     */
    method SearchMoves(board: Board, depth: nat, sense: int, alpha: int, beta: int) returns (v: int, best: Option<Move>)
      requires board.Valid() && depth >= 1
      modifies board, this`lastFoundMove
      ensures board.Valid() && board.cells == old(board.cells) && board.turn == old(board.turn)
      ensures board.numMove == old(board.numMove) && board.history == old(board.history)
      ensures lastFoundMove == old(lastFoundMove)
      ensures Outcome(v, best) == SearchLoop(old(board.cells), old(board.turn), depth, sense,
        YieldedMoves(old(board.cells), SideOf(sense)), alpha, beta, None, WorstValue(sense))
      decreases depth, 1
    {
      var side := if sense == 1 then White else Black;
      YieldedMovesUndoable(board.cells, side);
      var legal := board.LegalMovesFor(side);
      var more := legal.HasNext();
      ghost var todo := YieldedMoves(board.cells, side);
      var bestval;
      best, bestval := ScanMoves(board, legal, more, todo, depth, sense, alpha, beta);
      if best.None? {
        v := if sense == 1 then -WinningValue else WinningValue;
      } else {
        v := bestval;
      }
    }

    /**
     * The loop itself, entered with the answer of the first hasNext() and
     * the moves still to come: returns the best move and its score.
     */
    method ScanMoves(board: Board, legal: LegalMoveIterator, first: bool, ghost moves: seq<Move>,
                     depth: nat, sense: int, alpha: int, beta: int) returns (best: Option<Move>, bestval: int)
      requires board.Valid() && depth >= 1
      requires legal.board == board && legal.Snapshot == board.cells && legal.side == SideOf(sense) && legal.Valid()
      requires first ==> legal.next.Some? && moves == [legal.next.value] + legal.Remaining()
      requires !first ==> moves == []
      requires AllUndoable(board.cells, moves)
      modifies board, this`lastFoundMove, legal, legal.pieceMoves, legal.spearThrows
      ensures board.Valid() && board.cells == old(board.cells) && board.turn == old(board.turn)
      ensures board.numMove == old(board.numMove) && board.history == old(board.history)
      ensures lastFoundMove == old(lastFoundMove)
      ensures Finish(sense, best, bestval) ==
        SearchLoop(old(board.cells), old(board.turn), depth, sense, moves, alpha, beta, None, WorstValue(sense))
      decreases depth, 0, 1
    {
      ghost var cells0, turn0 := board.cells, board.turn;
      bestval := if sense == 1 then -Infty else Infty;
      best := None;
      var a := alpha;
      var more := first;
      ghost var todo := moves;
      ghost var result := SearchLoop(cells0, turn0, depth, sense, todo, alpha, beta, None, bestval);
      while more
        invariant board.Valid() && board.cells == cells0 && board.turn == turn0
        invariant board.numMove == old(board.numMove) && board.history == old(board.history)
        invariant lastFoundMove == old(lastFoundMove)
        invariant legal.Valid()
        invariant legal.pieceMoves == old(legal.pieceMoves) || fresh(legal.pieceMoves)
        invariant legal.spearThrows == old(legal.spearThrows) || fresh(legal.spearThrows)
        invariant more ==> legal.next.Some? && todo == [legal.next.value] + legal.Remaining()
        invariant !more ==> todo == []
        invariant AllUndoable(cells0, todo)
        invariant SearchLoop(cells0, turn0, depth, sense, todo, a, beta, best, bestval) == result
        decreases |todo|
      {
        var m := legal.Next().value;
        ghost var rest := legal.Remaining();
        var score := TryMove(board, m, depth, sense, a, beta);
        SearchLoopCons(cells0, turn0, depth, sense, m, rest, a, beta, best, bestval);
        if (sense == 1 && score > bestval) || (sense != 1 && score < bestval) {
          best := Some(m);
          bestval := score;
          a := if sense == 1 then Max(a, bestval) else Min(a, bestval);
          if beta <= a {
            break;
          }
        }
        todo := rest;
        more := legal.HasNext();
      }
    }

    /**
     * The body of the search loop for one move: makes it, searches the
     * position after it one level shallower without recording a move, and
     * undoes it, so the board ends as it began.
     */
    method TryMove(board: Board, m: Move, depth: nat, sense: int, alpha: int, beta: int) returns (score: int)
      requires board.Valid() && depth >= 1 && Undoable(board.cells, m)
      modifies board, this`lastFoundMove
      ensures board.Valid() && board.cells == old(board.cells) && board.turn == old(board.turn)
      ensures board.numMove == old(board.numMove) && board.history == old(board.history)
      ensures lastFoundMove == old(lastFoundMove)
      ensures score == ChildValue(old(board.cells), old(board.turn), depth, sense, m, alpha, beta)
      decreases depth, 0, 0
    {
      board.MakeMove(m);
      score := FindMove(board, depth - 1, false, ChildSense(sense), alpha, beta);
      assert board.history[..|board.history| - 1] == old(board.history);
      board.Undo();
      UndoAfterMove(old(board.cells), m);
    }

    /** staticScore: counts white's reachable squares up and black's down, or scores the win. */
    method StaticScore(board: Board) returns (v: int)
      requires board.Valid()
      ensures v == StaticValue(board.cells, board.turn)
    {
      var winner := board.Winner();
      if winner == Some(Black) {
        return -WinningValue;
      } else if winner == Some(White) {
        return WinningValue;
      }
      var positivePoint := 0;
      var negativePoint := 0;
      for s := 0 to 100
        invariant positivePoint == MobilityUpTo(board.cells, White, s)
      {
        if board.Get(s) == White {
          var reachable := board.ReachableFrom(s, Some(s));
          while reachable.HasNext()
            invariant reachable.Valid() && reachable.board == board && reachable.Snapshot == board.cells
            invariant positivePoint + |reachable.Remaining()| ==
              MobilityUpTo(board.cells, White, s) + |Reachable(board.cells, s, Some(s))|
            decreases |reachable.Remaining()|
          {
            positivePoint := positivePoint + 1;
            var _ := reachable.Next();
          }
        }
      }
      for s := 0 to 100
        invariant negativePoint == -MobilityUpTo(board.cells, Black, s)
      {
        if board.Get(s) == Black {
          var reachable := board.ReachableFrom(s, Some(s));
          while reachable.HasNext()
            invariant reachable.Valid() && reachable.board == board && reachable.Snapshot == board.cells
            invariant negativePoint - |reachable.Remaining()| ==
              -MobilityUpTo(board.cells, Black, s) - |Reachable(board.cells, s, Some(s))|
            decreases |reachable.Remaining()|
          {
            negativePoint := negativePoint - 1;
            var _ := reachable.Next();
          }
        }
      }
      v := positivePoint + negativePoint;
    }
  }
}
