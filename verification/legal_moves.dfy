/**
 * The legal moves of a side and the effect of making and undoing a move, as
 * values: the specification that Board.makeMove, Board.undo, Board.winner and
 * the legal-move iterator are proved against.
 */
module MoveRules {
  import opened Geometry
  import opened Reachability

  /** The moves FROM-TO(sp) for each sp of `spears`, in order. */
  function SpearMoves(from: Square, to: Square, spears: seq<Square>): (r: seq<Move>)
    ensures |r| == |spears|
  {
    if spears == [] then [] else [Move(from, to, spears[0])] + SpearMoves(from, to, spears[1..])
  }

  /** The i-th move of SpearMoves throws the i-th spear. */
  lemma {:induction false} SpearMovesAt(from: Square, to: Square, spears: seq<Square>)
    ensures forall i :: 0 <= i < |spears| ==> SpearMoves(from, to, spears)[i] == Move(from, to, spears[i])
  {
    if spears != [] {
      SpearMovesAt(from, to, spears[1..]);
    }
  }

  /**
   * For each destination of `tos` in order, the moves of the piece on `from`
   * to it followed by every spear throw from there, with `from` treated as empty.
   */
  function PieceMoves(cells: Grid, from: Square, tos: seq<Square>): seq<Move> {
    if tos == [] then []
    else SpearMoves(from, tos[0], Reachable(cells, tos[0], Some(from))) + PieceMoves(cells, from, tos[1..])
  }

  /** All moves of the piece on `from`. */
  function MovesOf(cells: Grid, from: Square): seq<Move> {
    PieceMoves(cells, from, Reachable(cells, from, Some(from)))
  }

  /** The moves of the pieces of `side` on squares s, s + 1, ..., 99, in square order. */
  function LegalMovesFrom(cells: Grid, side: Piece, s: int): seq<Move>
    requires 0 <= s <= 100
    decreases |cells| - s // |cells| is 100, as in Reachability.PathClear
  {
    if s == 100 then []
    else (if cells[s] == side then MovesOf(cells, s) else []) + LegalMovesFrom(cells, side, s + 1)
  }

  /** All legal moves of `side`, in square-then-destination-then-spear order. */
  function LegalMoves(cells: Grid, side: Piece): seq<Move> {
    LegalMovesFrom(cells, side, 0)
  }

  /** The rule a legal move of `side` obeys. */
  predicate LegalFor(cells: Grid, side: Piece, m: Move) {
    cells[m.from] == side &&
    Unblocked(cells, m.from, m.to, Some(m.from)) &&
    Unblocked(cells, m.to, m.spear, Some(m.from))
  }

  /**
   * The starting-square scan of the legal-move iterator: the first square
   * from i on that holds `side`, or the last square when none does.
   */
  function Scan(cells: Grid, side: Piece, i: Square): (r: Square)
    ensures i <= r
    decreases |cells| - i // as in LegalMovesFrom
  {
    if cells[i] == side || i == 99 then i else Scan(cells, side, i + 1)
  }

  /** The scan passes over no square that holds `side`, and stops on one unless it reaches the last square. */
  lemma {:induction false} ScanSkips(cells: Grid, side: Piece, i: Square)
    ensures forall j :: i <= j < Scan(cells, side, i) ==> cells[j] != side
    ensures cells[Scan(cells, side, i)] == side || Scan(cells, side, i) == 99
    decreases 100 - i
  {
    if cells[i] != side && i != 99 {
      ScanSkips(cells, side, i + 1);
    }
  }

  /**
   * What the legal-move iterator of `side` yields: the moves of the first
   * square its opening scan stops on (which holds `side` unless `side` holds
   * no square at all), then those of the later squares that hold `side`.
   */
  function YieldedMoves(cells: Grid, side: Piece): seq<Move> {
    var s := Scan(cells, side, 0);
    PieceMoves(cells, s, Reachable(cells, s, None)) + LegalMovesFrom(cells, side, s as int + 1)
  }

  /**
   * What the legal-move iterator still has to hand out, from its state: the
   * spear throws `spears` left for the piece on `start` moved to `target`,
   * the destinations `tos` left for that piece, and the moves of the
   * starting squares from `next` on.
   */
  function Pending(cells: Grid, side: Piece, start: Square, target: Square, spears: seq<Square>,
                   tos: seq<Square>, next: int): seq<Move>
    requires 0 <= next <= 100
  {
    SpearMoves(start, target, spears) + (PieceMoves(cells, start, tos) + LegalMovesFrom(cells, side, next))
  }

  lemma SpearMovesCons(from: Square, to: Square, spear: Square, spears: seq<Square>)
    ensures SpearMoves(from, to, [spear] + spears) == [Move(from, to, spear)] + SpearMoves(from, to, spears)
  {
    assert ([spear] + spears)[1..] == spears;
  }

  lemma SpearMovesNil(from: Square, to: Square)
    ensures SpearMoves(from, to, []) == []
  {
  }

  lemma PieceMovesCons(cells: Grid, from: Square, to: Square, tos: seq<Square>)
    ensures PieceMoves(cells, from, [to] + tos) ==
      SpearMoves(from, to, Reachable(cells, to, Some(from))) + PieceMoves(cells, from, tos)
  {
    assert ([to] + tos)[1..] == tos;
  }

  lemma Assoc<T>(a: seq<T>, b: seq<T>, c: seq<T>)
    ensures (a + b) + c == a + (b + c)
  {
  }

  lemma LegalMovesFromStep(cells: Grid, side: Piece, s: int)
    requires 0 <= s < 100
    ensures LegalMovesFrom(cells, side, s) ==
      (if cells[s] == side then MovesOf(cells, s) else []) + LegalMovesFrom(cells, side, s + 1)
  {
  }

  /** Right after construction, everything the iterator yields is pending. */
  lemma PendingInitially(cells: Grid, side: Piece, s: Square, target: Square, tos: seq<Square>)
    requires s == Scan(cells, side, 0) && tos == Reachable(cells, s, None)
    ensures Pending(cells, side, s, target, [], tos, s as int + 1) == YieldedMoves(cells, side)
  {
    SpearMovesNil(s, target);
    EmptyPrefix(PieceMoves(cells, s, tos) + LegalMovesFrom(cells, side, s as int + 1));
  }

  /** With a spear throw left, the next move is that throw. */
  lemma PendingThrow(cells: Grid, side: Piece, start: Square, target: Square, spear: Square,
                     spears: seq<Square>, tos: seq<Square>, next: int)
    requires 0 <= next <= 100
    ensures Pending(cells, side, start, target, [spear] + spears, tos, next) ==
      [Move(start, target, spear)] + Pending(cells, side, start, target, spears, tos, next)
  {
    SpearMovesCons(start, target, spear, spears);
    ConsAssoc(Move(start, target, spear), SpearMoves(start, target, spears),
      PieceMoves(cells, start, tos) + LegalMovesFrom(cells, side, next));
  }

  /** With no throw left but a destination left, the throws from that destination come next. */
  lemma PendingTarget(cells: Grid, side: Piece, start: Square, target: Square, to: Square,
                      tos: seq<Square>, next: int)
    requires 0 <= next <= 100
    ensures Pending(cells, side, start, target, [], [to] + tos, next) ==
      Pending(cells, side, start, to, Reachable(cells, to, Some(start)), tos, next)
  {
    var head := SpearMoves(start, to, Reachable(cells, to, Some(start)));
    var rest := PieceMoves(cells, start, tos);
    var later := LegalMovesFrom(cells, side, next);
    PieceMovesCons(cells, start, to, tos);
    SpearMovesNil(start, target);
    EmptyPrefix((head + rest) + later);
    Assoc(head, rest, later);
  }

  /**
   * With nothing left for the current piece, the starting-square scan moves
   * on to the next square s holding `side`: the moves of the piece there
   * come next.
   */
  lemma PendingStartFound(cells: Grid, side: Piece, start: Square, target: Square, next: int, s: Square)
    requires 0 <= next < 100 && s == Scan(cells, side, next) && cells[s] == side
    ensures Pending(cells, side, start, target, [], [], next) ==
      Pending(cells, side, s, target, [], Reachable(cells, s, Some(s)), s as int + 1)
  {
    ScanSkips(cells, side, next);
    LegalMovesFromSkip(cells, side, next, s);
    LegalMovesFromStep(cells, side, s);
    SpearMovesNil(start, target);
    SpearMovesNil(s, target);
    EmptyPrefix(LegalMovesFrom(cells, side, next));
    EmptyPrefix<Move>([] + LegalMovesFrom(cells, side, next));
    EmptyPrefix(MovesOf(cells, s) + LegalMovesFrom(cells, side, s as int + 1));
  }

  /**
   * When the scan runs off the board without finding `side`, nothing is
   * pending before or after it.
   */
  lemma PendingStartMissed(cells: Grid, side: Piece, start: Square, target: Square, next: int, s: Square)
    requires 0 <= next < 100 && s == Scan(cells, side, next) && cells[s] != side
    ensures Pending(cells, side, start, target, [], [], next) ==
      Pending(cells, side, start, target, [], [], s as int + 1)
  {
    ScanSkips(cells, side, next);
    LegalMovesFromSkip(cells, side, next, s);
    LegalMovesFromStep(cells, side, s);
    SpearMovesNil(start, target);
    EmptyPrefix(LegalMovesFrom(cells, side, next));
    EmptyPrefix<Move>([] + LegalMovesFrom(cells, side, next));
    PendingDone(cells, side, start, target);
    EmptyPrefix(LegalMovesFrom(cells, side, 100));
  }

  /** With every part used up, nothing is pending. */
  lemma PendingDone(cells: Grid, side: Piece, start: Square, target: Square)
    ensures Pending(cells, side, start, target, [], [], 100) == []
  {
    assert SpearMoves(start, target, []) == [];
  }

  /** The derived winner: the side not to move, iff the side to move has no move. */
  function WinnerOf(cells: Grid, turn: Piece): Option<Piece>
    requires IsSide(turn)
  {
    if YieldedMoves(cells, turn) == [] then Some(Opponent(turn)) else None
  }

  /** The cells after FROM-TO(SPEAR): `from` emptied, `to` takes its piece, `spear` gets a spear. */
  function AfterMove(cells: Grid, m: Move): (r: Grid)
    ensures r[m.spear] == Spear
    ensures m.to != m.spear ==> r[m.to] == cells[m.from]
    ensures m.from != m.to && m.from != m.spear ==> r[m.from] == Empty
    ensures forall s: Square {:trigger r[s]} :: s != m.from && s != m.to && s != m.spear ==> r[s] == cells[s]
  {
    cells[m.from := Empty][m.to := cells[m.from]][m.spear := Spear]
  }

  /** The cells after undoing FROM-TO(SPEAR): `spear` and `to` emptied, `from` takes the piece on `to`. */
  function AfterUndo(cells: Grid, m: Move): (r: Grid)
    ensures r[m.from] == cells[m.to]
    ensures m.to != m.from ==> r[m.to] == Empty
    ensures m.spear != m.from ==> r[m.spear] == Empty
    ensures forall s: Square {:trigger r[s]} :: s != m.from && s != m.to && s != m.spear ==> r[s] == cells[s]
  {
    cells[m.spear := Empty][m.to := Empty][m.from := cells[m.to]]
  }

  /** The conditions under which undo exactly reverses makeMove. */
  predicate Undoable(cells: Grid, m: Move) {
    cells[m.to] == Empty && (cells[m.spear] == Empty || m.spear == m.from) &&
    m.to != m.from && m.spear != m.to
  }

  /** undo immediately after makeMove(m) restores every cell. */
  lemma UndoAfterMove(cells: Grid, m: Move)
    requires Undoable(cells, m)
    ensures AfterUndo(AfterMove(cells, m), m) == cells
  {
    var r := AfterUndo(AfterMove(cells, m), m);
    forall s: Square
      ensures r[s] == cells[s]
    {
    }
  }

  /** The last square of an unblocked line is free. */
  lemma UnblockedEndFree(cells: Grid, from: Square, to: Square, asEmpty: Option<Square>)
    ensures Unblocked(cells, from, to, asEmpty) ==> Free(cells, to, asEmpty)
  {
    if IsQueenMove(from, to) {
      QueenMoveReaches(from, to);
    }
  }

  /** Every legal move can be undone exactly. */
  lemma LegalMoveUndoable(cells: Grid, side: Piece, m: Move)
    requires LegalFor(cells, side, m)
    ensures Undoable(cells, m)
  {
    UnblockedEndFree(cells, m.from, m.to, Some(m.from));
    UnblockedEndFree(cells, m.to, m.spear, Some(m.from));
  }

  lemma {:induction false} SpearMovesMembers(from: Square, to: Square, spears: seq<Square>, m: Move)
    ensures m in SpearMoves(from, to, spears) <==> m.from == from && m.to == to && m.spear in spears
  {
    var r := SpearMoves(from, to, spears);
    SpearMovesAt(from, to, spears);
    if m.from == from && m.to == to && m.spear in spears {
      var i :| 0 <= i < |spears| && spears[i] == m.spear;
      assert r[i] == m;
    }
  }

  lemma SpearMovesDistinct(from: Square, to: Square, spears: seq<Square>)
    requires Distinct(spears)
    ensures Distinct(SpearMoves(from, to, spears))
  {
    SpearMovesAt(from, to, spears);
  }

  lemma {:induction false} PieceMovesMembers(cells: Grid, from: Square, tos: seq<Square>, m: Move)
    ensures m in PieceMoves(cells, from, tos) <==>
      m.from == from && m.to in tos && m.spear in Reachable(cells, m.to, Some(from))
  {
    if tos != [] {
      SpearMovesMembers(from, tos[0], Reachable(cells, tos[0], Some(from)), m);
      PieceMovesMembers(cells, from, tos[1..], m);
      assert tos == [tos[0]] + tos[1..];
    }
  }

  lemma {:induction false} PieceMovesDistinct(cells: Grid, from: Square, tos: seq<Square>)
    requires Distinct(tos)
    ensures Distinct(PieceMoves(cells, from, tos))
  {
    if tos != [] {
      var head := SpearMoves(from, tos[0], Reachable(cells, tos[0], Some(from)));
      var rest := PieceMoves(cells, from, tos[1..]);
      ReachableDistinct(cells, tos[0], Some(from));
      SpearMovesDistinct(from, tos[0], Reachable(cells, tos[0], Some(from)));
      PieceMovesDistinct(cells, from, tos[1..]);
      forall x | x in head
        ensures x !in rest
      {
        SpearMovesMembers(from, tos[0], Reachable(cells, tos[0], Some(from)), x);
        PieceMovesMembers(cells, from, tos[1..], x);
        assert tos[0] !in tos[1..];
      }
      DistinctConcat(head, rest);
    }
  }

  /** The moves of one piece are exactly its legal moves, each once. */
  lemma MovesOfExact(cells: Grid, from: Square, m: Move)
    ensures m in MovesOf(cells, from) <==>
      m.from == from && Unblocked(cells, from, m.to, Some(from)) && Unblocked(cells, m.to, m.spear, Some(from))
  {
    PieceMovesMembers(cells, from, Reachable(cells, from, Some(from)), m);
    ReachableExact(cells, from, Some(from), m.to);
    ReachableExact(cells, m.to, Some(from), m.spear);
  }

  lemma MovesOfDistinct(cells: Grid, from: Square)
    ensures Distinct(MovesOf(cells, from))
  {
    ReachableDistinct(cells, from, Some(from));
    PieceMovesDistinct(cells, from, Reachable(cells, from, Some(from)));
  }

  lemma {:induction false} LegalMovesFromExact(cells: Grid, side: Piece, s: int, m: Move)
    requires 0 <= s <= 100
    ensures m in LegalMovesFrom(cells, side, s) <==> s <= m.from && LegalFor(cells, side, m)
    decreases |cells| - s
  {
    if s < 100 {
      LegalMovesFromExact(cells, side, s + 1, m);
      MovesOfExact(cells, s, m);
    }
  }

  lemma {:induction false} LegalMovesFromDistinct(cells: Grid, side: Piece, s: int)
    requires 0 <= s <= 100
    ensures Distinct(LegalMovesFrom(cells, side, s))
    decreases |cells| - s
  {
    if s < 100 {
      var head := if cells[s] == side then MovesOf(cells, s) else [];
      var rest := LegalMovesFrom(cells, side, s + 1);
      LegalMovesFromDistinct(cells, side, s + 1);
      MovesOfDistinct(cells, s);
      forall x | x in head
        ensures x !in rest
      {
        MovesOfExact(cells, s, x);
        LegalMovesFromExact(cells, side, s + 1, x);
      }
      DistinctConcat(head, rest);
    }
  }

  /** legalMoves(side) holds exactly the legal moves of `side`... */
  lemma LegalMovesExact(cells: Grid, side: Piece, m: Move)
    ensures m in LegalMoves(cells, side) <==> LegalFor(cells, side, m)
  {
    LegalMovesFromExact(cells, side, 0, m);
  }

  /** ...and each of them once. */
  lemma LegalMovesDistinct(cells: Grid, side: Piece)
    ensures Distinct(LegalMoves(cells, side))
  {
    LegalMovesFromDistinct(cells, side, 0);
  }

  /** Squares that do not hold `side` contribute no moves. */
  lemma {:induction false} LegalMovesFromSkip(cells: Grid, side: Piece, s: int, t: int)
    requires 0 <= s <= t <= 100
    requires forall j :: s <= j < t ==> cells[j] != side
    ensures LegalMovesFrom(cells, side, s) == LegalMovesFrom(cells, side, t)
    decreases t - s
  {
    if s < t {
      LegalMovesFromSkip(cells, side, s + 1, t);
    }
  }

  /** When `side` holds some square, the iterator yields exactly legalMoves(side). */
  lemma YieldedMovesAreLegalMoves(cells: Grid, side: Piece)
    requires exists i: Square :: cells[i] == side
    ensures YieldedMoves(cells, side) == LegalMoves(cells, side)
  {
    var s := Scan(cells, side, 0);
    ScanSkips(cells, side, 0);
    if cells[s] != side {
      var i: Square :| cells[i] == side;
      assert false;
    }
    LegalMovesFromSkip(cells, side, 0, s);
    ReachableIgnoresOrigin(cells, s);
  }

  /**
   * When `side` holds no square, the opening scan stops on square 99 anyway
   * and the iterator yields the moves of whatever stands there.
   */
  lemma YieldedMovesWithoutPieces(cells: Grid, side: Piece)
    requires forall i: Square :: cells[i] != side
    ensures YieldedMoves(cells, side) == PieceMoves(cells, 99, Reachable(cells, 99, None))
  {
    ScanSkips(cells, side, 0);
    LegalMovesFromSkip(cells, side, 100, 100);
  }

  /**
   * winner(): the side to move has lost iff it has no legal move at all
   * (for a side that holds at least one square).
   */
  lemma WinnerIffNoLegalMove(cells: Grid, turn: Piece)
    requires IsSide(turn) && exists i: Square :: cells[i] == turn
    ensures WinnerOf(cells, turn) == Some(Opponent(turn)) <==> forall m: Move :: !LegalFor(cells, turn, m)
    ensures WinnerOf(cells, turn) == None <==> exists m: Move :: LegalFor(cells, turn, m)
  {
    YieldedMovesAreLegalMoves(cells, turn);
    var ms := LegalMoves(cells, turn);
    if ms != [] {
      LegalMovesExact(cells, turn, ms[0]);
    } else {
      forall m: Move
        ensures !LegalFor(cells, turn, m)
      {
        LegalMovesExact(cells, turn, m);
      }
    }
  }
}
