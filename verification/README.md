# Amazons board and automatic player, in Dafny

A model of the game state and the automatic player of a Java implementation
of the Game of the Amazons. The game is played on a 10x10 board. Each side has
four queens. A move is a queen move to an empty square, followed by a queen
move from the new square that throws a spear, which blocks that square for
the rest of the game. A side that cannot move loses.

The model covers two source files:

- `Board.java`. The board is a class (`Boards.Board`) whose grid, side to
  move, move counter and move history are changed in place by `Put`,
  `MakeMove` and `Undo`. The two lazy enumerators (reachable squares and
  legal moves) are classes whose cursor fields advance with each call. Each
  method is proved against a value-level specification:
  - `Reachability.Reachable`: the squares reachable from a square, direction
    by direction, each by increasing distance;
  - `MoveRules.LegalMoves`, `MoveRules.YieldedMoves`: the moves of a side, in
    enumeration order;
  - `MoveRules.AfterMove`, `MoveRules.AfterUndo`: the effect of making and
    undoing a move.
- `AI.java`. The player is a class (`Engine.AI`) holding the last move it
  found. Its recursive alpha-beta search makes and undoes each candidate move
  on a live board. It is proved equal to `GameSearch.Search`, a function that
  mirrors the loop as written, cut test included. `GameSearch.SearchIsMinimax`
  then shows that `Search` computes plain minimax: its value, and the first
  move that attains it.

The search never prunes. The maximizing branch raises alpha and the
minimizing branch lowers alpha too (`AI.java:111`). Every call starts with
beta at +infinity, so the cut test `beta <= alpha` never holds. The search
therefore visits every move, and its result is exactly minimax.

Squares are numbered 0..99, with column `s % 10` and row `s / 10`. Directions
are numbered 0..7 starting north and turning clockwise: N, NE, E, SE, S, SW,
W, NW.

## Model

| member | source | states |
|---|---|---|
| `Boards.Board.constructor` | amazons/Board.java:35-37 | A new board is in the opening layout (`InitialLayout`: white on squares 3, 6, 30 and 39, black on 60, 69, 93 and 96, every other square empty), white to move, with no move made or recorded. |
| `Boards.Board.Init` | amazons/Board.java:74-88 | Clears the board to the opening layout, white to move, move count 0, empty history. |
| `Boards.Board.Clone` | amazons/Board.java:40-42 | The copy has the model's cells, side to move, move count and history. |
| `Boards.Board.Copy` | amazons/Board.java:45-55 | Copies the model's cells square by square (loop invariant: the prefix copied so far), then its side to move, move count and history. |
| `Boards.Board.GetAt` | amazons/Board.java:124-126 | The contents of the square whose column and row are the given ones. |
| `Boards.Board.Put` | amazons/Board.java:134-136 | Exactly square s changes, to p; the side to move, count and history stay. |
| `Boards.Board.PutAt` | amazons/Board.java:139-142 | Exactly the square at the given column and row changes, to p; nothing else changes. |
| `Boards.Board.IsUnblockedMove` | amazons/Board.java:154-170 | The result is true iff FROM-TO is a queen move and every square on it, `to` included, is empty or is `asEmpty`. |
| `Reachability.ReachableExact` | amazons/Board.java:149-170 | A square is among those reachable from `from` iff FROM-it is an unblocked queen move. |
| `Reachability.UnblockedIgnoresOrigin` | amazons/Board.java:149-170 | Treating the origin itself as empty changes no unblocked move from it. |
| `Reachability.ReachableIgnoresOrigin` | amazons/Board.java:331 | The destinations of the first piece (enumerated with no `asEmpty`) are those of every later piece (enumerated with the piece's own square as `asEmpty`, line 378). |
| `Boards.Board.IsLegalStep` | amazons/Board.java:172-189 | isLegal(FROM, TO, ASEMPTY), built on isLegal(FROM), implies that FROM holds the side to move and TO is reachable from FROM (with `asEmpty` treated as empty). With no `asEmpty`, it holds exactly when both do. |
| `Boards.Board.IsLegalMove` | amazons/Board.java:191-197 | With no `asEmpty`: isLegal(FROM, TO, SPEAR, ASEMPTY) holds iff the move obeys `LegalFor`. |
| `Boards.Board.IsLegal` | amazons/Board.java:199-203 | With no `asEmpty`: legal iff FROM holds the side to move, TO is reachable from FROM, and SPEAR is reachable from TO with FROM treated as empty. That is, iff `LegalFor` holds. |
| `Boards.Board.MakeMove` | amazons/Board.java:205-220 | The cells become `AfterMove` of the old cells, the turn passes, the count goes up by one, and the move is appended to the history. |
| `MoveRules.AfterMove` | amazons/Board.java:206-215 | The spear square holds a spear, the destination holds the moved piece, the origin is emptied, and every other square is unchanged. |
| `Boards.Board.Undo` | amazons/Board.java:222-233 | With an empty history nothing changes. Otherwise the cells become `AfterUndo` of the last move, the turn passes back, the count goes down by one and the last move is dropped. |
| `MoveRules.AfterUndo` | amazons/Board.java:224-231 | The origin takes the piece on the destination, the destination and spear squares are emptied, and every other square is unchanged. |
| `MoveRules.UndoAfterMove` | amazons/Board.java:205-233 | Undoing a move right after making it restores every cell, provided the move is `Undoable`: the destination is empty and differs from the origin, and the spear square is empty or the origin and differs from the destination. |
| `MoveRules.LegalMoveUndoable` | amazons/Board.java:191-233 | Every legal move meets the condition under which undo exactly reverses it. |
| `Boards.Board.Winner` | amazons/Board.java:103-110 | The winner is the side not to move iff the side to move's enumeration yields no move, and none otherwise. |
| `MoveRules.WinnerIffNoLegalMove` | amazons/Board.java:103-110 | For a side to move that holds at least one square: the other side is the winner iff no move at all obeys `LegalFor`, and there is no winner iff some move does. |
| `Boards.Board.ReachableFrom` | amazons/Board.java:242-244 | The returned enumerator is fresh and has exactly `Reachable(cells, from, asEmpty)` still to yield. |
| `Boards.ReachableFromIterator.constructor` | amazons/Board.java:262-268 | A new enumerator has all of `Reachable` still to yield, with its cursor on the first open square. |
| `Boards.ReachableFromIterator.HasNext` | amazons/Board.java:271-273 | True iff something is still to be yielded. |
| `Boards.ReachableFromIterator.Next` | amazons/Board.java:277-282 | Returns the first square still to be yielded and removes it. |
| `Boards.ReachableFromIterator.ToNext` | amazons/Board.java:286-295 | Moves the cursor forward to the next open square, or past direction 7, without changing what remains to be yielded. |
| `Boards.ReachableFromIterator.IsOpen` | amazons/Board.java:287-288 | The loop test of toNext: the square at the cursor is on the board and unblocked from `from`. |
| `Reachability.SuffixRays` | amazons/Board.java:258-295 | From a cursor position, what the walk yields is the rest of the current ray followed by the later rays. |
| `Reachability.ReachableDistinct` | amazons/Board.java:258-295 | The reachable-squares enumeration never yields a square twice. |
| `Reachability.ReachableLength` | amazons/Board.java:258-295 | At most 72 squares are reachable from any square. |
| `Boards.Board.LegalMovesFor` | amazons/Board.java:251-255 | The returned enumerator is fresh and has exactly `YieldedMoves(cells, side)` still to hand out. |
| `Boards.Board.LegalMovesOfTurn` | amazons/Board.java:246-249 | The same enumerator, for the side to move. |
| `Boards.LegalMoveIterator.constructor` | amazons/Board.java:319-332 | A new enumerator has handed out nothing and has all of `YieldedMoves` pending. |
| `Boards.LegalMoveIterator.FirstPiece` | amazons/Board.java:324-332 | Finds the first square holding `side` (square 99 when there is none) and starts on its destinations, with no `asEmpty`. |
| `Boards.LegalMoveIterator.HasNext` | amazons/Board.java:335-358 | True iff a move is pending. Then the first pending move is cached, for `next()` to return, and counted as handed out. Otherwise nothing is pending and the cache is unchanged. Handed-out plus pending moves always make up `YieldedMoves`. |
| `Boards.LegalMoveIterator.MoveOn` | amazons/Board.java:337-349 | The recursive branches of hasNext: toNext, then hasNext again, with the same answer. |
| `Boards.LegalMoveIterator.TakeThrow` | amazons/Board.java:351-352 | Consumes the next spear throw and caches the move it completes, which was the first pending one. |
| `Boards.LegalMoveIterator.ToNext` | amazons/Board.java:360-388 | Moves on to the next destination or the next starting square holding `side`. What is pending does not change, and the scan position only grows. |
| `Boards.LegalMoveIterator.NextTarget` | amazons/Board.java:364-369 | Takes the next destination and starts on its spear throws, with the origin treated as empty. |
| `Boards.LegalMoveIterator.NextPiece` | amazons/Board.java:370-387 | Scans for the next starting square holding `side`. If one is found, starts on its destinations. What is pending does not change. |
| `Boards.LegalMoveIterator.NextOwnedStart` | amazons/Board.java:371-375 | Returns the first square from the scan position on that holds `side`, or square 99. |
| `MoveRules.ScanSkips` | amazons/Board.java:325-329 | The scan passes no square holding `side`, and stops on one unless it reaches square 99. |
| `MoveRules.LegalMovesExact` | amazons/Board.java:251-255 | A move is among a side's legal moves iff its origin holds the side, its destination is an unblocked queen move away, and its spear square is an unblocked queen move from the destination with the origin treated as empty. |
| `MoveRules.LegalMovesDistinct` | amazons/Board.java:307-404 | The legal-move enumeration never yields a move twice. |
| `MoveRules.MovesOfExact` | amazons/Board.java:363-388 | A move is among those generated for the piece on FROM iff it starts at FROM, its destination is an unblocked queen move away and its spear square is one from the destination, FROM treated as empty in both. |
| `MoveRules.YieldedMovesAreLegalMoves` | amazons/Board.java:319-388 | When the side holds a square, the enumerator yields exactly `LegalMoves`, in square-then-destination-then-spear order. |
| `MoveRules.YieldedMovesWithoutPieces` | amazons/Board.java:319-332 | When the side holds no square, the scan still stops on square 99 and the enumerator yields the moves of whatever stands there. |
| `Engine.MaxDepth` | amazons/AI.java:127-137 | The depth d is at least 1, and (d - 1) * 30 <= numMoves < d * 30. That is, numMoves / 30 + 1. |
| `Engine.MaxDepthMonotone` | amazons/AI.java:134-137 | The depth never decreases as moves are made. |
| `Engine.AI.StaticScore` | amazons/AI.java:139-169 | A decided position scores minus or plus the winning value. Otherwise the score is white's mobility minus black's, each counted over the squares holding that side, with the square treated as empty. |
| `GameSearch.StaticValueRange` | amazons/AI.java:13-17 | A decided position scores as a loss for the side to move. An undecided one lies within [-7200, 7200], so it never reaches the winning value. Every score lies within the winning values. |
| `GameSearch.MobilityUpToRange` | amazons/AI.java:147-167 | Mobility over the first n squares lies between 0 and 72n. |
| `Engine.AI.FindMove` | amazons/AI.java:62-125 | Returns the value of `Search`. When saveMove holds and the position is not a leaf, records its best move. Leaves the board's cells, turn, count and history as they were. |
| `Engine.AI.IsLeaf` | amazons/AI.java:70 | True iff the depth is 0 or the game is decided. |
| `Engine.AI.SearchMoves` | amazons/AI.java:72-124 | The loop over the node's side's moves in enumeration order. The result is `SearchLoop`, with the no-move value when no move exists. |
| `Engine.AI.ScanMoves` | amazons/AI.java:76-90 | The while loop. Its result, finished with the no-move value when no move was kept, equals `SearchLoop` over the moves still to be enumerated: the first strictly better move is kept, alpha narrows and the loop stops at a cut. The board is left as it was. |
| `Engine.AI.TryMove` | amazons/AI.java:77-81 | Makes the move, searches one level shallower with the other sense, and undoes the move. The board ends as it began, and the score is the child's search value. |
| `Engine.AI.ChooseMove` | amazons/AI.java:46-56 | Searches a copy to `MaxDepth`, with sense 1 iff playing white, and returns the recorded move. When the root is a leaf, it returns the move recorded earlier. |
| `GameSearch.SearchIsMinimax` | amazons/AI.java:68-125 | With beta at +infinity, the search returns the minimax value and the first move that attains it. No cut ever happens. |
| `GameSearch.SearchLoopIsMinimax` | amazons/AI.java:76-90 | The loop from any point on yields the best move so far, unless a later move is strictly better. In that case it yields the extreme of the later values and the first move that attains it. |
| `GameSearch.MinimaxRange` | amazons/AI.java:91-123 | Every search value lies within the winning values. |
| `GameSearch.BestMoveIsFirstBest` | amazons/AI.java:82-89 | There is no recorded move iff the side has no move, and then the value is the no-move loss. No move is better than the value. The recorded move attains it, and every earlier move is strictly worse. |
| `GameSearch.BestMoveIsLegal` | amazons/AI.java:58-60 | When the side holds a square, the recorded move is a legal move of that side. |
| `GameSearch.YieldedMovesUndoable` | amazons/AI.java:77-81 | Every move the search tries can be made and undone exactly. |
| `Fixtures.ReachableFixture` | amazons/IteratorTests.java:26-43 | On the reachable-squares test board, the squares reachable from (5,4) are exactly 55, 56, 67, 78, 46, 47, 44, 54, in this order. |
| `Fixtures.LegalMovesFixture` | amazons/IteratorTests.java:71-87 | On the legal-move test board, white's legal moves are exactly the nine of the test, and the enumerator yields them in this order. |
| `Fixtures.UndoFixture` | amazons/IteratorTests.java:121-129 | On a new board, a4-b4(a4) made and then undone leaves the opening layout, white to move, with nothing recorded. |

## Left out

- `Copy`: the source shares one history list between the board and its copy (`Board.java:53`). The model gives the copy its own history. The only copy is the player's scratch board, and `FindMove` provably leaves the history as it found it. So the shared list returns to its old contents after every search.
- The enumerators require that the board not change while they are in use (`board.cells == Snapshot`). Every caller in the source makes and undoes moves only between two whole enumerations, or restores the board before the enumeration goes on.
- `StaticScore`: the source iterates over the key set of a `HashMap`. The model visits squares 0..99 in order. The sums do not depend on the order.
- The `Square`, `Move` and `Piece` classes are not part of this model. Their behaviour is fixed by assumption: the direction order is N, NE, E, SE, S, SW, W, NW; `Square.iterator()` yields squares 0..99; a queen move that leaves the board is "no square"; a move is its three squares.
- The `_winner` field and its resets in `init`, `copy` and `put(P, COL, ROW)` are left out: `winner()` always recomputes the result, and nothing reads the field.
- The legal-move enumerator's `num` counter and its `num()` accessor are left out, because nothing uses them.
- The character overloads `get(COL, ROW)` and `put(P, COL, ROW)` are left out: they only convert `'a'..` and `'1'..` to coordinates for text input.
- The `Controller`, `TextPlayer` and `myMove` code is left out: text I/O and reporting. So are `toString` (a text rendering of the board), the no-argument `AI()` template and `create`.
- The other tests of `IteratorTests.java` (`testReachableFrom1`, `test1`, `testLegalMoves2`, `testMoves`) are left out: they only print and assert nothing.
- `Engine.AI.FindMove`: values are unbounded integers, so 32-bit overflow is not modelled. No value ever overflows: every score lies within the winning values, and `-INFTY` never meets a subtraction.
- `Engine.AI.FindMove`: the depth is a natural number. The source's depth is never negative, because every call starts at `maxDepth >= 1` and goes down by one until 0.
- `Engine.AI.FindMove`: the two branches for `sense == 1` and `sense == -1` are one loop parameterised by sense. A sense other than 1 behaves as -1, as the source's `else` branch does.
- `Engine.AI.ChooseMove`: when the game is already decided at the root, nothing is recorded and the move found by an earlier search is returned, as in the source.
