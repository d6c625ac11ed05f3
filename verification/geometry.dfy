/**
 * Squares, pieces and moves of a 10x10 Amazons board, and the queen-line
 * geometry between squares.  A square is its linear index 0..99; its column
 * is the index modulo 10 and its row the index divided by 10.
 */
module Geometry {

  datatype Option<+T> = None | Some(value: T)

  /** A board coordinate, as the linear index row * 10 + col. */
  type Square = i: int | 0 <= i < 100

  /** The contents of a cell. */
  datatype Piece = Empty | White | Black | Spear

  /** The two sides that move pieces. */
  predicate IsSide(p: Piece) {
    p == White || p == Black
  }

  /** The other side. */
  function Opponent(p: Piece): (q: Piece)
    requires IsSide(p)
    ensures IsSide(q) && q != p
  {
    if p == White then Black else White
  }

  /** A move: a piece goes from `from` to `to` and throws a spear onto `spear`. */
  datatype Move = Move(from: Square, to: Square, spear: Square)

  /**
   * The column of s.  Col and Row are written as repeated subtraction of a
   * row rather than with % and /, so that reasoning about squares only meets
   * division where ColRowArith is called.
   */
  function Col(s: Square): int
    decreases s
  {
    if s < 10 then s else Col(s - 10)
  }

  /** The row of s. */
  function Row(s: Square): int
    decreases s
  {
    if s < 10 then 0 else Row(s - 10) + 1
  }

  /** The column is the index modulo 10 and the row the index divided by 10. */
  lemma {:induction false} ColRowArith(s: Square)
    ensures Col(s) == s % 10 && Row(s) == s / 10
    decreases s
  {
    if s >= 10 {
      ColRowArith(s - 10);
    }
  }

  /** The square at (col, row) is row * 10 + col, and Col and Row recover col and row. */
  lemma SqCoords(col: int, row: int)
    requires 0 <= col < 10 && 0 <= row < 10
    ensures 0 <= row * 10 + col < 100 && Col(row * 10 + col) == col && Row(row * 10 + col) == row
  {
    ColRowArith(row * 10 + col);
  }

  /** The square in column col and row row is the only square with those coordinates. */
  lemma SquareAt(col: int, row: int)
    requires 0 <= col < 10 && 0 <= row < 10
    ensures 0 <= row * 10 + col < 100
    ensures forall s: Square :: Col(s) == col && Row(s) == row <==> s == row * 10 + col
  {
    SqCoords(col, row);
    forall s: Square | Col(s) == col && Row(s) == row
      ensures s == row * 10 + col
    {
      ColRowArith(s);
    }
  }

  function Abs(x: int): int { if x < 0 then -x else x }

  function Max(x: int, y: int): int { if x < y then y else x }

  function Min(x: int, y: int): int { if x < y then x else y }

  function Sign(x: int): int { if x > 0 then 1 else if x < 0 then -1 else 0 }

  /** Column step of direction d: 0 N, 1 NE, 2 E, 3 SE, 4 S, 5 SW, 6 W, 7 NW. */
  function DCol(d: int): int
    requires 0 <= d < 8
  {
    if d == 0 || d == 4 then 0 else if d <= 3 then 1 else -1
  }

  /** Row step of direction d. */
  function DRow(d: int): int
    requires 0 <= d < 8
  {
    if d == 2 || d == 6 then 0 else if d == 0 || d == 1 || d == 7 then 1 else -1
  }

  /** k steps of unit step u (u is -1, 0 or 1), without a multiplication. */
  function Offset(u: int, k: int): int {
    if u > 0 then k else if u < 0 then -k else 0
  }

  /** One queen step from p in direction d, or None when that leaves the board. */
  function Neighbor(p: Square, d: int): (r: Option<Square>)
    requires 0 <= d < 8
  {
    var c := Col(p) + DCol(d);
    var r := Row(p) + DRow(d);
    if 0 <= c < 10 && 0 <= r < 10 then Some(r * 10 + c) else None
  }

  /**
   * The square k steps from `from` in direction d, or None when that lies
   * off the board.  No direction stays on the board for ten steps.
   */
  function QueenMove(from: Square, d: int, k: nat): (r: Option<Square>)
    requires 0 <= d < 8
    ensures r.Some? ==> k <= 9
    decreases k, 1
  {
    if k == 0 then Some(from) else Walk(from, d, k)
  }

  /** k >= 1 steps: one step beyond the square k - 1 steps away. */
  function Walk(from: Square, d: int, k: nat): (r: Option<Square>)
    requires 0 <= d < 8 && 1 <= k
    ensures r.Some? ==> k <= 9
    decreases k, 0
  {
    if k >= 10 then None
    else match QueenMove(from, d, k - 1)
      case None => None
      case Some(p) => Neighbor(p, d)
  }

  /**
   * The closed form of a queen move, computed in one go: k column steps and
   * k row steps from `from`, if that is on the board.
   */
  function DirectMove(from: Square, d: int, k: nat): Option<Square>
    requires 0 <= d < 8
  {
    var c := Col(from) + Offset(DCol(d), k);
    var r := Row(from) + Offset(DRow(d), k);
    if 0 <= c < 10 && 0 <= r < 10 then Some(r * 10 + c) else None
  }

  /** Walking k steps one at a time lands where the closed form says. */
  lemma {:induction false} QueenMoveClosed(from: Square, d: int, k: nat)
    requires 0 <= d < 8
    ensures QueenMove(from, d, k) == DirectMove(from, d, k)
    decreases k
  {
    if k == 0 {
      SquareCoords(from);
    } else if k >= 10 {
      FarOffBoard(from, d, k);
    } else {
      QueenMoveClosed(from, d, k - 1);
      ClosedStep(from, d, k);
    }
  }

  /** Ten or more steps in any direction leave the board. */
  lemma FarOffBoard(from: Square, d: int, k: nat)
    requires 0 <= d < 8 && 10 <= k
    ensures DirectMove(from, d, k) == None
  {
    SquareCoords(from);
    assert DCol(d) != 0 || DRow(d) != 0;
  }

  /** One more step of the walk agrees with one more step of the closed form. */
  lemma ClosedStep(from: Square, d: int, k: nat)
    requires 0 <= d < 8 && 1 <= k <= 9
    requires QueenMove(from, d, k - 1) == DirectMove(from, d, k - 1)
    ensures QueenMove(from, d, k) == DirectMove(from, d, k)
  {
    var prev := QueenMove(from, d, k - 1);
    WalkStep(from, d, k);
    if prev.Some? {
      var c' := Col(from) + Offset(DCol(d), k - 1);
      var r' := Row(from) + Offset(DRow(d), k - 1);
      assert prev.value == r' * 10 + c' && 0 <= c' < 10 && 0 <= r' < 10;
      NeighborOf(c', r', d);
      DirectStep(from, d, k);
    } else {
      DirectStaysOff(from, d, k);
    }
  }

  /** A walk of k >= 1 steps is one step beyond the walk of k - 1 steps. */
  lemma WalkStep(from: Square, d: int, k: nat)
    requires 0 <= d < 8 && 1 <= k <= 9
    ensures QueenMove(from, d, k) ==
      match QueenMove(from, d, k - 1)
      case None => None
      case Some(p) => Neighbor(p, d)
  {
  }

  /** The closed form one step further is one step of d further. */
  lemma DirectStep(from: Square, d: int, k: nat)
    requires 0 <= d < 8 && 1 <= k
    ensures Col(from) + Offset(DCol(d), k) == Col(from) + Offset(DCol(d), k - 1) + DCol(d)
    ensures Row(from) + Offset(DRow(d), k) == Row(from) + Offset(DRow(d), k - 1) + DRow(d)
  {
  }

  /** A step from the square at (c, r). */
  lemma NeighborOf(c: int, r: int, d: int)
    requires 0 <= c < 10 && 0 <= r < 10 && 0 <= d < 8
    ensures Neighbor(r * 10 + c, d) ==
      if 0 <= c + DCol(d) < 10 && 0 <= r + DRow(d) < 10 then Some((r + DRow(d)) * 10 + c + DCol(d)) else None
  {
    SqCoords(c, r);
  }

  /** Once the closed form has left the board, one more step does not bring it back. */
  lemma DirectStaysOff(from: Square, d: int, k: nat)
    requires 0 <= d < 8 && 1 <= k && DirectMove(from, d, k - 1) == None
    ensures DirectMove(from, d, k) == None
  {
    SquareCoords(from);
    var c := Col(from) + Offset(DCol(d), k);
    var r := Row(from) + Offset(DRow(d), k);
    if 0 <= c < 10 && 0 <= r < 10 {
      StepWithin(Col(from), DCol(d), k - 1, k);
      StepWithin(Row(from), DRow(d), k - 1, k);
    }
  }

  /** The square k steps away lies k column steps and k row steps from `from`. */
  lemma QueenMoveCoords(from: Square, d: int, k: nat)
    requires 0 <= d < 8 && QueenMove(from, d, k).Some?
    ensures var t := QueenMove(from, d, k).value;
      Col(t) == Col(from) + Offset(DCol(d), k) && Row(t) == Row(from) + Offset(DRow(d), k)
  {
    QueenMoveClosed(from, d, k);
    SqCoords(Col(from) + Offset(DCol(d), k), Row(from) + Offset(DRow(d), k));
  }

  /** True iff a and b are distinct and share a row, a column or a diagonal. */
  predicate IsQueenMove(a: Square, b: Square) {
    a != b &&
    (Col(a) == Col(b) || Row(a) == Row(b) || Abs(Col(a) - Col(b)) == Abs(Row(a) - Row(b)))
  }

  /** The direction that leads from a to b. */
  function Direction(a: Square, b: Square): (d: int)
    ensures 0 <= d < 8
  {
    var sc := Sign(Col(b) - Col(a));
    var sr := Sign(Row(b) - Row(a));
    if sc == 0 then (if sr >= 0 then 0 else 4)
    else if sc > 0 then (if sr > 0 then 1 else if sr == 0 then 2 else 3)
    else (if sr < 0 then 5 else if sr == 0 then 6 else 7)
  }

  /** The number of queen steps between a and b (the larger coordinate difference). */
  function Distance(a: Square, b: Square): nat {
    Max(Abs(Col(a) - Col(b)), Abs(Row(a) - Row(b)))
  }

  lemma SquareCoords(s: Square)
    ensures 0 <= Col(s) < 10 && 0 <= Row(s) < 10 && s == Row(s) * 10 + Col(s)
  {
    ColRowArith(s);
  }

  /** Direction(a, b) taken Distance(a, b) times covers exactly the coordinate differences. */
  lemma DirectionOffsets(a: Square, b: Square)
    requires IsQueenMove(a, b)
    ensures 1 <= Distance(a, b)
    ensures Offset(DCol(Direction(a, b)), Distance(a, b)) == Col(b) - Col(a)
    ensures Offset(DRow(Direction(a, b)), Distance(a, b)) == Row(b) - Row(a)
  {
    SquareCoords(a);
    SquareCoords(b);
    assert Col(a) != Col(b) || Row(a) != Row(b);
  }

  /**
   * A queen move from a to b is Distance(a, b) steps in direction
   * Direction(a, b), and every step on the way is on the board.
   */
  lemma QueenMoveReaches(a: Square, b: Square)
    requires IsQueenMove(a, b)
    ensures 1 <= Distance(a, b) <= 9
    ensures QueenMove(a, Direction(a, b), Distance(a, b)) == Some(b)
    ensures forall j :: 1 <= j <= Distance(a, b) ==> QueenMove(a, Direction(a, b), j).Some?
  {
    DirectionOffsets(a, b);
    var d, n := Direction(a, b), Distance(a, b);
    LandsOn(a, b, d, n);
    forall j | 1 <= j <= n
      ensures QueenMove(a, d, j).Some?
    {
      StepOnBoard(a, b, d, j, n);
    }
  }

  lemma LandsOn(a: Square, b: Square, d: int, n: nat)
    requires 0 <= d < 8
    requires Offset(DCol(d), n) == Col(b) - Col(a) && Offset(DRow(d), n) == Row(b) - Row(a)
    ensures QueenMove(a, d, n) == Some(b)
  {
    QueenMoveClosed(a, d, n);
    SquareCoords(a);
    SquareCoords(b);
  }

  lemma StepOnBoard(a: Square, b: Square, d: int, j: nat, n: nat)
    requires 0 <= d < 8 && j <= n
    requires Offset(DCol(d), n) == Col(b) - Col(a) && Offset(DRow(d), n) == Row(b) - Row(a)
    ensures QueenMove(a, d, j).Some?
  {
    QueenMoveClosed(a, d, j);
    SquareCoords(a);
    SquareCoords(b);
    StepWithin(Col(a), DCol(d), j, n);
    StepWithin(Row(a), DRow(d), j, n);
  }

  /** A shorter step along a line whose far end is on the board is also on the board. */
  lemma StepWithin(x: int, u: int, j: int, n: int)
    requires 0 <= x < 10 && 0 <= x + Offset(u, n) < 10 && 0 <= j <= n
    ensures 0 <= x + Offset(u, j) < 10
  {
  }

  /** The square k >= 1 steps away in direction d is a queen move of exactly that direction and length. */
  lemma QueenMoveShape(a: Square, d: int, k: nat)
    requires 0 <= d < 8 && 1 <= k
    requires QueenMove(a, d, k).Some?
    ensures var t := QueenMove(a, d, k).value;
      IsQueenMove(a, t) && Direction(a, t) == d && Distance(a, t) == k
  {
    var t := QueenMove(a, d, k).value;
    QueenMoveCoords(a, d, k);
    SquareCoords(a);
    SquareCoords(t);
    assert Col(a) != Col(t) || Row(a) != Row(t);
  }
}
