/**
 * The Amazons board state machine: the grid, the side to move, the move
 * counter and the move history, changed in place by makeMove and undo, with
 * the legality predicates and the two lazy enumerators (reachable squares and
 * legal moves) over the live board.
 */
module Boards {
  import opened Geometry
  import opened Reachability
  import opened MoveRules

  /** Opening squares of the white pieces (d1, g1, a4, j4) and the black ones (a7, j7, d10, g10). */
  const W1: Square := 3
  const W2: Square := 6
  const W3: Square := 30
  const W4: Square := 39
  const B1: Square := 60
  const B2: Square := 69
  const B3: Square := 93
  const B4: Square := 96

  /** The fixed opening layout: four white and four black pieces, everything else empty. */
  predicate InitialLayout(cells: Grid) {
    forall s: Square :: cells[s] ==
      if s == W1 || s == W2 || s == W3 || s == W4 then White
      else if s == B1 || s == B2 || s == B3 || s == B4 then Black
      else Empty
  }

  class Board {
    /** The piece on each square. */
    var cells: Grid
    /** The side to move. */
    var turn: Piece
    /** The number of moves made and not undone. */
    var numMove: int
    /** The moves made and not undone, oldest first. */
    var history: seq<Move>

    ghost predicate Valid()
      reads this
    {
      IsSide(turn) && numMove == |history|
    }

    /** A board in the opening position. */
    constructor ()
      ensures Valid() && InitialLayout(cells)
      ensures turn == White && numMove == 0 && history == []
    {
      new;
      Init();
    }

    /** An independent copy of `model`. */
    constructor Clone(model: Board)
      requires model.Valid()
      ensures Valid()
      ensures cells == model.cells && turn == model.turn
      ensures numMove == model.numMove && history == model.history
    {
      new;
      Copy(model);
    }

    /** Makes this board a copy of `model`, cell by cell. */
    method Copy(model: Board)
      requires model.Valid()
      modifies this
      ensures Valid()
      ensures cells == old(model.cells) && turn == old(model.turn)
      ensures numMove == old(model.numMove) && history == old(model.history)
    {
      var copied: seq<Piece> := [];
      for i := 0 to 100
        invariant copied == model.cells[..i]
      {
        copied := copied + [model.cells[i]];
      }
      cells := copied;
      turn := model.turn;
      numMove := model.numMove;
      history := model.history;
    }

    /** Clears the board to the opening position. */
    method Init()
      modifies this
      ensures Valid() && InitialLayout(cells)
      ensures turn == White && numMove == 0 && history == []
    {
      var layout: seq<Piece> := [];
      for i := 0 to 100
        invariant |layout| == i
        invariant forall s :: 0 <= s < i ==>
          layout[s] == if s == W1 || s == W2 || s == W3 || s == W4 then White
          else if s == B1 || s == B2 || s == B3 || s == B4 then Black
          else Empty
      {
        if i == W1 || i == W2 || i == W3 || i == W4 {
          layout := layout + [White];
        } else if i == B1 || i == B2 || i == B3 || i == B4 {
          layout := layout + [Black];
        } else {
          layout := layout + [Empty];
        }
      }
      cells := layout;
      turn := White;
      numMove := 0;
      history := [];
    }

    /** The contents of square s. */
    function Get(s: Square): Piece
      reads this
    {
      cells[s]
    }

    /** get(COL, ROW): the contents of the square in column col and row row. */
    function GetAt(col: int, row: int): (p: Piece)
      requires 0 <= col < 10 && 0 <= row < 10
      reads this
      ensures forall s: Square :: Col(s) == col && Row(s) == row ==> p == cells[s]
    {
      SquareAt(col, row);
      Get(row * 10 + col)
    }

    /** Sets square s to p; nothing else changes. */
    method Put(p: Piece, s: Square)
      requires Valid()
      modifies this
      ensures Valid() && cells == old(cells)[s := p]
      ensures turn == old(turn) && numMove == old(numMove) && history == old(history)
    {
      cells := cells[s := p];
    }

    /** put(P, COL, ROW): sets the square in column col and row row to p; nothing else changes. */
    method PutAt(p: Piece, col: int, row: int)
      requires Valid() && 0 <= col < 10 && 0 <= row < 10
      modifies this
      ensures Valid()
      ensures forall s: Square :: cells[s] == if Col(s) == col && Row(s) == row then p else old(cells[s])
      ensures turn == old(turn) && numMove == old(numMove) && history == old(history)
    {
      SquareAt(col, row);
      Put(p, row * 10 + col);
    }

    /**
     * True iff FROM-TO is an unblocked queen move, treating `asEmpty` as
     * empty: the squares at steps 1..distance (`to` included) are all free.
     */
    method IsUnblockedMove(from: Square, to: Square, asEmpty: Option<Square>) returns (b: bool)
      ensures b == Unblocked(cells, from, to, asEmpty)
    {
      UnblockedEndFree(cells, from, to, asEmpty);
      if IsQueenMove(from, to) && (cells[to] == Empty || Some(to) == asEmpty) {
        var dir := Direction(from, to);
        var n := Distance(from, to);
        QueenMoveReaches(from, to);
        var i := 1;
        while i <= n
          invariant 1 <= i <= n + 1
          invariant PathClear(cells, from, dir, i - 1, asEmpty)
        {
          var step := QueenMove(from, dir, i).value;
          if cells[step] != Empty && Some(step) != asEmpty {
            PathBlocked(cells, from, dir, n, asEmpty, i);
            return false;
          }
          i := i + 1;
        }
        return true;
      } else {
        return false;
      }
    }

    /** isLegal(FROM): FROM holds the side to move. */
    predicate IsLegalFrom(from: Square)
      reads this
    {
      cells[from] == turn
    }

    /**
     * isLegal(FROM, TO, ASEMPTY): the first part of a move, FROM-TO, ignoring
     * the spear.  With no `asEmpty`, TO must be empty; otherwise TO may also
     * be `asEmpty`.
     */
    predicate IsLegalStep(from: Square, to: Square, asEmpty: Option<Square>)
      reads this
      ensures IsLegalStep(from, to, asEmpty) ==> cells[from] == turn && to in Reachable(cells, from, asEmpty)
      ensures asEmpty.None? ==>
        (IsLegalStep(from, to, asEmpty) <==> cells[from] == turn && to in Reachable(cells, from, None))
    {
      ReachableExact(cells, from, asEmpty, to);
      UnblockedEndFree(cells, from, to, asEmpty);
      if asEmpty.Some? then
        IsLegalFrom(from) && (cells[to] == Empty || Some(to) == asEmpty) && Unblocked(cells, from, to, asEmpty)
      else
        IsLegalFrom(from) && cells[to] == Empty && Unblocked(cells, from, to, asEmpty)
    }

    /** isLegal(FROM, TO, SPEAR, ASEMPTY): FROM-TO(SPEAR) is legal, the spear thrown with FROM treated as empty. */
    predicate IsLegalMove(from: Square, to: Square, spear: Square, asEmpty: Option<Square>)
      reads this
      ensures asEmpty.None? ==> (IsLegalMove(from, to, spear, asEmpty) <==> LegalFor(cells, turn, Move(from, to, spear)))
    {
      UnblockedIgnoresOrigin(cells, from, to);
      UnblockedEndFree(cells, from, to, None);
      IsLegalStep(from, to, asEmpty) &&
      (cells[to] == Empty || Some(spear) == asEmpty) &&
      Unblocked(cells, to, spear, Some(from))
    }

    /**
     * isLegal(MOVE, null) holds iff the origin holds the side to move, the
     * destination is reachable from it, and the spear square is reachable
     * from the destination with the origin treated as empty.
     */
    predicate IsLegal(m: Move, asEmpty: Option<Square>)
      reads this
      ensures asEmpty.None? ==>
        (IsLegal(m, asEmpty) <==>
         cells[m.from] == turn && m.to in Reachable(cells, m.from, None) &&
         m.spear in Reachable(cells, m.to, Some(m.from)))
      ensures asEmpty.None? ==> (IsLegal(m, asEmpty) <==> LegalFor(cells, turn, m))
    {
      ReachableExact(cells, m.to, Some(m.from), m.spear);
      ReachableExact(cells, m.from, None, m.to);
      UnblockedIgnoresOrigin(cells, m.from, m.to);
      UnblockedEndFree(cells, m.from, m.to, None);
      IsLegalMove(m.from, m.to, m.spear, asEmpty)
    }

    /**
     * Makes move FROM-TO(SPEAR) without checking it: `from` is emptied, `to`
     * takes its piece, `spear` gets a spear; the move is recorded, the move
     * count goes up and the turn passes.
     */
    method MakeMove(m: Move)
      requires Valid()
      modifies this
      ensures Valid() && cells == AfterMove(old(cells), m)
      ensures turn == Opponent(old(turn)) && numMove == old(numMove) + 1
      ensures history == old(history) + [m]
    {
      history := history + [m];
      var queen := cells[m.from];
      cells := cells[m.from := Empty];
      cells := cells[m.to := queen];
      cells := cells[m.spear := Spear];
      numMove := numMove + 1;
      turn := Opponent(turn);
    }

    /** Undoes the last move; has no effect when no move is recorded. */
    method Undo()
      requires Valid()
      modifies this
      ensures Valid()
      ensures old(history) == [] ==>
        cells == old(cells) && turn == old(turn) && numMove == old(numMove) && history == old(history)
      ensures old(history) != [] ==>
        var last := old(history)[|old(history)| - 1];
        cells == AfterUndo(old(cells), last) && turn == Opponent(old(turn)) &&
        numMove == old(numMove) - 1 && history == old(history)[..|old(history)| - 1]
    {
      if |history| > 0 {
        var last := history[numMove - 1];
        var queen := cells[last.to];
        cells := cells[last.spear := Empty];
        cells := cells[last.to := Empty];
        cells := cells[last.from := queen];
        history := history[..numMove - 1];
        numMove := numMove - 1;
        turn := Opponent(turn);
      }
    }

    /** The winner: the side not to move iff the side to move has no legal move, else none. */
    method Winner() returns (w: Option<Piece>)
      requires Valid()
      ensures w == WinnerOf(cells, turn)
    {
      var legal := LegalMovesFor(turn);
      var more := legal.HasNext();
      if !more {
        w := Some(Opponent(turn));
      } else {
        w := None;
      }
    }

    /** reachableFrom(FROM, ASEMPTY): a lazy enumerator of Reachable(cells, from, asEmpty). */
    method ReachableFrom(from: Square, asEmpty: Option<Square>) returns (it: ReachableFromIterator)
      ensures fresh(it) && it.board == this && it.Snapshot == cells && it.Valid()
      ensures it.Remaining() == Reachable(cells, from, asEmpty)
    {
      it := new ReachableFromIterator(this, from, asEmpty);
    }

    /** legalMoves(): the enumerator of the moves of the side to move. */
    method LegalMovesOfTurn() returns (it: LegalMoveIterator)
      ensures fresh(it) && fresh(it.pieceMoves) && it.spearThrows == null
      ensures it.board == this && it.Snapshot == cells && it.side == turn && it.Valid() && it.Yielded == []
      ensures it.Remaining() == YieldedMoves(cells, turn)
    {
      it := LegalMovesFor(turn);
    }

    /** legalMoves(SIDE): a lazy enumerator of the moves of `side`, whoever is to move. */
    method LegalMovesFor(side: Piece) returns (it: LegalMoveIterator)
      ensures fresh(it) && fresh(it.pieceMoves) && it.spearThrows == null
      ensures it.board == this && it.Snapshot == cells && it.side == side && it.Valid() && it.Yielded == []
      ensures it.Remaining() == YieldedMoves(cells, side)
    {
      it := new LegalMoveIterator(this, side);
    }
  }

  /**
   * Walks the squares reachable from `from`: direction `dir` (0..7) at
   * distance `steps`, then further along the same direction until blocked,
   * then the next direction.  The cursor always rests on the next square to
   * yield, or on dir == 8 when there is none.
   */
  class ReachableFromIterator {
    const board: Board
    /** The grid the enumeration walks: the board must keep it while the enumeration is in use. */
    ghost const Snapshot: Grid
    const from: Square
    const asEmpty: Option<Square>
    var dir: int
    var steps: nat

    /** The cursor is in range. */
    ghost predicate Cursor()
      reads this`dir, this`steps
    {
      0 <= dir <= 8 && 1 <= steps
    }

    /** The cursor rests on an open square of the snapshot, or past the last direction. */
    ghost predicate Valid()
      reads this`dir, this`steps
    {
      Cursor() && (dir < 8 ==> StepOpen(Snapshot, from, dir, steps, asEmpty))
    }

    /** The squares still to be yielded. */
    ghost function Remaining(): seq<Square>
      reads this`dir, this`steps
      requires Cursor()
    {
      Suffix(Snapshot, from, asEmpty, dir, steps)
    }

    constructor (board: Board, from: Square, asEmpty: Option<Square>)
      ensures Valid() && this.board == board && this.from == from && this.asEmpty == asEmpty
      ensures Snapshot == board.cells
      ensures Remaining() == Reachable(board.cells, from, asEmpty)
    {
      this.board := board;
      Snapshot := board.cells;
      this.from := from;
      this.asEmpty := asEmpty;
      dir := 0;
      steps := 1;
      new;
      SuffixStart(board.cells, from, asEmpty);
      ToNext();
    }

    predicate HasNext()
      reads this`dir, this`steps
      requires Valid()
      ensures HasNext() <==> Remaining() != []
    {
      SuffixNonEmpty(Snapshot, from, asEmpty, dir, steps);
      dir < 8
    }

    method Next() returns (s: Square)
      requires Valid() && HasNext() && board.cells == Snapshot
      modifies this`dir, this`steps
      ensures Valid() && old(Remaining()) == [s] + Remaining()
    {
      s := QueenMove(from, dir, steps).value;
      SuffixCons(Snapshot, from, asEmpty, dir, steps);
      steps := steps + 1;
      ToNext();
    }

    /** Moves the cursor forward, direction by direction, to the next unblocked square. */
    method ToNext()
      requires board.cells == Snapshot && 0 <= dir < 8 && 1 <= steps
      modifies this`dir, this`steps
      ensures Valid()
      ensures Remaining() == old(Suffix(Snapshot, from, asEmpty, dir, steps))
    {
      ghost var rest := Suffix(Snapshot, from, asEmpty, dir, steps);
      while true
        invariant 0 <= dir < 8 && 1 <= steps
        invariant Suffix(Snapshot, from, asEmpty, dir, steps) == rest
        decreases 8 - dir
      {
        var open := IsOpen();
        if open {
          assert Valid();
          break;
        }
        SuffixTurn(Snapshot, from, asEmpty, dir, steps);
        dir := dir + 1;
        steps := 1;
        if dir == 8 {
          assert Remaining() == rest;
          break;
        }
      }
    }

    /** The loop test of toNext: the square at the cursor is on the board and unblocked. */
    method IsOpen() returns (open: bool)
      requires 0 <= dir < 8 && 1 <= steps
      ensures open == StepOpen(board.cells, from, dir, steps, asEmpty)
    {
      StepOpenUnblocked(board.cells, from, dir, steps, asEmpty);
      var target := QueenMove(from, dir, steps);
      open := false;
      if target.Some? {
        open := board.IsUnblockedMove(from, target.value, asEmpty);
      }
    }
  }

  /**
   * Walks the legal moves of `side`: starting squares in square order (only
   * those holding `side`), for each its reachable destinations, for each
   * destination its reachable spear squares with the starting square treated
   * as empty.  hasNext() is the advancing operation: it consumes the next
   * spear throw and caches the move, which next() then returns.
   */
  class LegalMoveIterator {
    const board: Board
    /** The grid the enumeration walks: the board must keep it while the enumeration is in use. */
    ghost const Snapshot: Grid
    const side: Piece
    /** The next square the starting-square enumeration hands out; 100 when it is used up. */
    var nextStart: int
    var start: Square
    var nextSquare: Square
    /** Destinations of the piece on `start` still to come; null stands for the empty enumerator. */
    var pieceMoves: ReachableFromIterator?
    /** Spear squares from `nextSquare` still to come; null stands for the empty enumerator. */
    var spearThrows: ReachableFromIterator?
    /** The move cached by the last successful hasNext(). */
    var next: Option<Move>
    /** The moves handed out so far. */
    ghost var Yielded: seq<Move>

    /** The enumeration state is well formed, whatever the board holds. */
    ghost predicate Shape()
      reads this`nextStart, this`pieceMoves, this`spearThrows, pieceMoves, spearThrows
    {
      0 <= nextStart <= 100 &&
      pieceMoves != null && pieceMoves.board == board && pieceMoves.Snapshot == Snapshot && pieceMoves.Cursor() &&
      (spearThrows != null ==>
        spearThrows.board == board && spearThrows.Snapshot == Snapshot && spearThrows.Cursor() &&
        spearThrows != pieceMoves)
    }

    /** The board is as it was when the enumeration began and both sub-enumerators are well formed. */
    ghost predicate Valid()
      reads this`nextStart, this`pieceMoves, this`spearThrows, pieceMoves, spearThrows
    {
      Shape() && pieceMoves.Valid() && (spearThrows != null ==> spearThrows.Valid())
    }

    /** The spear squares still to come for the move start-nextSquare. */
    ghost function Throws(): seq<Square>
      reads this`spearThrows, spearThrows
      requires spearThrows != null ==> spearThrows.Cursor()
    {
      if spearThrows == null then [] else spearThrows.Remaining()
    }

    /** The moves still to be handed out. */
    ghost function Remaining(): seq<Move>
      reads this`nextStart, this`start, this`nextSquare, this`pieceMoves, this`spearThrows, pieceMoves, spearThrows
      requires Shape()
    {
      Pending(Snapshot, side, start, nextSquare, Throws(), pieceMoves.Remaining(), nextStart)
    }

    /** Every legal move of `side` has been handed out or is pending, in the order of the enumeration. */
    ghost predicate Accounts()
      reads this`nextStart, this`start, this`nextSquare, this`pieceMoves, this`spearThrows, this`Yielded, pieceMoves, spearThrows
      requires Shape()
    {
      Yielded + Remaining() == YieldedMoves(Snapshot, side)
    }

    /**
     * What hasNext() has done, given what was pending, what had been handed
     * out and what was cached before it: it answers true iff a move was
     * pending; then the first pending move is cached in `next` and handed
     * out and the rest stays pending; otherwise nothing is pending and the
     * cached move and the moves handed out are as they were.
     */
    ghost predicate Answered(more: bool, pending: seq<Move>, yielded: seq<Move>, cached: Option<Move>)
      reads this`nextStart, this`start, this`nextSquare, this`pieceMoves, this`spearThrows, this`next, this`Yielded, pieceMoves, spearThrows
      requires Shape()
    {
      (more <==> pending != []) &&
      (more ==> next.Some? && pending == [next.value] + Remaining() && Yielded == yielded + [next.value]) &&
      (!more ==> Remaining() == [] && Yielded == yielded && next == cached)
    }

    constructor (board: Board, side: Piece)
      ensures Valid() && Accounts() && this.board == board && this.side == side
      ensures Snapshot == board.cells
      ensures Yielded == [] && Remaining() == YieldedMoves(board.cells, side)
      ensures fresh(pieceMoves) && spearThrows == null && next == None
    {
      this.board := board;
      Snapshot := board.cells;
      this.side := side;
      nextStart := 0;
      pieceMoves, spearThrows := null, null;
      next := None;
      Yielded := [];
      new;
      FirstPiece();
      EmptyPrefix(YieldedMoves(Snapshot, side));
    }

    /** Starts on the destinations of the first piece of `side` in square order (of square 99 when there is none). */
    method FirstPiece()
      requires nextStart == 0 && spearThrows == null && board.cells == Snapshot
      modifies this`nextStart, this`start, this`pieceMoves
      ensures Valid() && Remaining() == YieldedMoves(Snapshot, side)
      ensures fresh(pieceMoves) && spearThrows == null
    {
      var s := NextOwnedStart();
      start := s;
      pieceMoves := new ReachableFromIterator(board, start, None);
      ghost var tos := pieceMoves.Remaining();
      assert Remaining() == Pending(Snapshot, side, s, nextSquare, [], tos, s as int + 1);
      PendingInitially(Snapshot, side, s, nextSquare, tos);
    }

    /** The move cached by the last hasNext() that returned true. */
    function Next(): Option<Move>
      reads this
    {
      next
    }

    /**
     * Advances to the next legal move, caches it for Next() and returns true;
     * returns false when every move has been handed out.
     */
    method HasNext() returns (more: bool)
      requires Valid() && board.cells == Snapshot
      modifies this`nextStart, this`start, this`nextSquare, this`pieceMoves, this`spearThrows, this`next, this`Yielded
      modifies pieceMoves, spearThrows
      ensures Valid()
      ensures Answered(more, old(Remaining()), old(Yielded), old(next))
      ensures old(Accounts()) ==> Accounts()
      ensures pieceMoves == old(pieceMoves) || fresh(pieceMoves)
      ensures spearThrows == old(spearThrows) || fresh(spearThrows)
      decreases 100 - nextStart, |pieceMoves.Remaining()|, 2
    {
      if spearThrows != null && spearThrows.HasNext() {
        TakeThrow();
        more := true;
      } else if !pieceMoves.HasNext() && nextStart == 100 {
        PendingDone(Snapshot, side, start, nextSquare);
        more := false;
      } else {
        more := MoveOn();
      }
    }

    /** hasNext() with no spear throw left but more to scan: moves on and retries. */
    method MoveOn() returns (more: bool)
      requires Valid() && board.cells == Snapshot && Throws() == [] && (pieceMoves.Remaining() != [] || nextStart < 100)
      modifies this`nextStart, this`start, this`nextSquare, this`pieceMoves, this`spearThrows, this`next, this`Yielded
      modifies pieceMoves, spearThrows
      ensures Valid()
      ensures Answered(more, old(Remaining()), old(Yielded), old(next))
      ensures old(Accounts()) ==> Accounts()
      ensures pieceMoves == old(pieceMoves) || fresh(pieceMoves)
      ensures spearThrows == old(spearThrows) || fresh(spearThrows)
      decreases 100 - nextStart, |pieceMoves.Remaining()|, 1
    {
      ToNext();
      more := HasNext();
    }

    /** The last step of hasNext(): consumes the next spear throw and caches the move it completes. */
    method TakeThrow()
      requires Valid() && board.cells == Snapshot && spearThrows != null && spearThrows.HasNext()
      modifies this`next, this`Yielded, spearThrows
      ensures Valid() && Answered(true, old(Remaining()), old(Yielded), old(next))
      ensures old(Accounts()) ==> Accounts()
    {
      ghost var accounted := Accounts();
      ghost var done := Yielded;
      ghost var tos := pieceMoves.Remaining();
      var spear := spearThrows.Next();
      ghost var spears := spearThrows.Remaining();
      assert pieceMoves.Remaining() == tos;
      PendingThrow(Snapshot, side, start, nextSquare, spear, spears, tos, nextStart);
      var m := Move(start, nextSquare, spear);
      ghost var rest := Pending(Snapshot, side, start, nextSquare, spears, tos, nextStart);
      assert Remaining() == rest;
      if accounted {
        HandOut(done, m, rest, YieldedMoves(Snapshot, side));
      }
      next := Some(m);
      Yielded := Yielded + [m];
    }

    /**
     * With no spear throw pending, moves on to the next destination of the
     * current piece, or else to the next starting square that holds `side`.
     */
    method ToNext()
      requires Valid() && board.cells == Snapshot && Throws() == []
      modifies this`nextStart, this`start, this`nextSquare, this`pieceMoves, this`spearThrows, pieceMoves
      ensures Valid() && Remaining() == old(Remaining())
      ensures pieceMoves == old(pieceMoves) || fresh(pieceMoves)
      ensures spearThrows == old(spearThrows) || fresh(spearThrows)
      ensures old(nextStart) <= nextStart
      ensures nextStart == old(nextStart) ==> |pieceMoves.Remaining()| <= old(|pieceMoves.Remaining()|)
      ensures old(pieceMoves.Remaining()) != [] || old(nextStart) < 100 ==>
        old(nextStart) < nextStart || |pieceMoves.Remaining()| < old(|pieceMoves.Remaining()|)
      decreases 100 - nextStart, |pieceMoves.Remaining()|, 0
    {
      if pieceMoves.HasNext() {
        NextTarget();
        if !spearThrows.HasNext() {
          ToNext();
        }
      } else if nextStart < 100 {
        var found := NextPiece();
        if found {
          if !pieceMoves.HasNext() {
            ToNext();
          } else {
            NextTarget();
          }
        }
      }
    }

    /** Takes the next destination of the current piece and starts on its spear throws. */
    method NextTarget()
      requires Valid() && board.cells == Snapshot && Throws() == [] && pieceMoves.Remaining() != []
      modifies this`nextSquare, this`spearThrows, pieceMoves
      ensures Valid() && Remaining() == old(Remaining())
      ensures spearThrows != null && fresh(spearThrows)
      ensures |pieceMoves.Remaining()| < old(|pieceMoves.Remaining()|)
    {
      var target := pieceMoves.Next();
      PendingTarget(Snapshot, side, start, nextSquare, target, pieceMoves.Remaining(), nextStart);
      nextSquare := target;
      spearThrows := new ReachableFromIterator(board, nextSquare, Some(start));
    }

    /**
     * Scans the remaining starting squares for the next one holding `side`;
     * when it finds one, starts on the destinations of the piece there.
     */
    method NextPiece() returns (found: bool)
      requires Valid() && board.cells == Snapshot && Throws() == [] && pieceMoves.Remaining() == [] && nextStart < 100
      modifies this`nextStart, this`start, this`pieceMoves
      ensures Valid() && Throws() == [] && Remaining() == old(Remaining())
      ensures old(nextStart) < nextStart
      ensures found ==> fresh(pieceMoves)
      ensures !found ==> pieceMoves == old(pieceMoves)
    {
      var s := NextOwnedStart();
      found := board.cells[s] == side;
      if found {
        PendingStartFound(Snapshot, side, start, nextSquare, old(nextStart), s);
        start := s;
        pieceMoves := new ReachableFromIterator(board, start, Some(start));
      } else {
        PendingStartMissed(Snapshot, side, start, nextSquare, old(nextStart), s);
      }
    }

    /** Hands out starting squares until one holds `side` or none is left. */
    method NextOwnedStart() returns (s: Square)
      requires 0 <= nextStart < 100
      modifies this`nextStart
      ensures s == Scan(board.cells, side, old(nextStart)) && nextStart == s as int + 1
    {
      s := nextStart;
      nextStart := nextStart + 1;
      while board.cells[s] != side && nextStart < 100
        invariant 0 <= s < 100 && nextStart == s as int + 1
        invariant Scan(board.cells, side, old(nextStart)) == Scan(board.cells, side, s)
        decreases 100 - nextStart
      {
        s := nextStart;
        nextStart := nextStart + 1;
      }
    }
  }
}
