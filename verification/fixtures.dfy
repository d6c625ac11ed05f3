module Fixtures {
  import opened Geometry
  import opened Reachability
  import opened MoveRules
  import opened Boards

  /** The board of the reachable-squares fixture, row 0 first. */
  const ReachTestBoard: Grid :=
      [Empty, Empty, Empty, Empty, Empty, Empty, Empty, Empty, Empty, Empty]
    + [Empty, Empty, Empty, Empty, Empty, Empty, Empty, Empty, Empty, Empty]
    + [Empty, Empty, Empty, Empty, Empty, Empty, Empty, Empty, Empty, Empty]
    + [Empty, Empty, Empty, Spear, Spear, Spear, Black, White, Black, Empty]
    + [Empty, Empty, Empty, Spear, Empty, White, Empty, Empty, Black, Empty]
    + [Empty, Empty, Empty, Spear, Empty, Empty, Empty, Empty, Black, Empty]
    + [Empty, Empty, Empty, Spear, Spear, Spear, Spear, Empty, Empty, Spear]
    + [Empty, Empty, Empty, Empty, Empty, Empty, Empty, Spear, Empty, Spear]
    + [Empty, Empty, Empty, Empty, Empty, Empty, Empty, Empty, White, White]
    + [Empty, Empty, Empty, Empty, Empty, Empty, Empty, Empty, Empty, Empty]

  /** The board of the legal-move fixture, row 0 first. */
  const LegalTestBoard: Grid :=
      [Empty, White, Empty, Spear, Empty, Empty, Spear, White, Spear, Empty]
    + [Spear, Spear, Spear, Spear, Empty, Empty, Spear, Spear, Spear, Empty]
    + [Spear, Spear, Empty, Empty, Empty, Empty, Empty, Empty, Empty, Empty]
    + [Spear, Spear, Empty, Spear, Spear, Spear, Black, Spear, Black, Empty]
    + [Spear, Spear, Empty, Spear, Spear, Spear, Spear, Empty, Black, Empty]
    + [Spear, Spear, Empty, Spear, Spear, Spear, Spear, Empty, Black, Empty]
    + [Spear, Spear, Empty, Spear, Spear, Spear, Spear, Empty, Empty, Spear]
    + [Empty, Spear, Empty, Empty, Empty, Empty, Empty, Spear, Spear, Spear]
    + [Empty, Spear, Empty, Empty, Empty, Empty, Empty, Spear, White, Spear]
    + [White, Spear, Spear, Empty, Empty, Empty, Empty, Spear, Spear, Empty]

  /** The square k steps from `from` in direction d, or -1 when that is off the board. */
  function Step(from: Square, d: int, k: nat): int
    requires 0 <= d < 8
  {
    var c := from % 10 + Offset(DCol(d), k);
    var r := from / 10 + Offset(DRow(d), k);
    if 0 <= c < 10 && 0 <= r < 10 then r * 10 + c else -1
  }

  lemma StepIsQueenMove(from: Square, d: int, k: nat)
    requires 0 <= d < 8
    ensures QueenMove(from, d, k) == if Step(from, d, k) < 0 then None else Some(Step(from, d, k))
  {
    QueenMoveClosed(from, d, k);
    ColRowArith(from);
  }

  /**
   * `squares` are the squares at steps k, k + 1, ... of direction d from
   * `from`, in order, and `stop` is what comes next (-1 off the board).
   */
  predicate Path(from: Square, d: int, k: nat, squares: seq<Square>, stop: int)
    requires 0 <= d < 8
    decreases |squares|
  {
    if squares == [] then Step(from, d, k) == stop
    else Step(from, d, k) == squares[0] && Path(from, d, k + 1, squares[1..], stop)
  }

  /** Every square of `squares` is free. */
  predicate AllFree(cells: Grid, squares: seq<Square>, asEmpty: Option<Square>) {
    forall j :: 0 <= j < |squares| ==> Free(cells, squares[j], asEmpty)
  }

  /** s is off the board, or a square that is not free. */
  predicate Blocks(cells: Grid, s: int, asEmpty: Option<Square>) {
    !(0 <= s < 100) || !Free(cells, s, asEmpty)
  }

  /**
   * The ray of direction d from step k on is `squares` when they are the
   * next steps of that line, all free, and the step after them blocks.
   */
  lemma {:induction false} RayFrom(cells: Grid, from: Square, asEmpty: Option<Square>, d: int, k: nat,
                                   squares: seq<Square>, stop: int)
    requires 0 <= d < 8 && 1 <= k && PathClear(cells, from, d, k - 1, asEmpty)
    requires Path(from, d, k, squares, stop) && AllFree(cells, squares, asEmpty) && Blocks(cells, stop, asEmpty)
    ensures Ray(cells, from, asEmpty, d, k) == squares
    decreases |squares|
  {
    StepIsQueenMove(from, d, k);
    if squares != [] {
      assert Free(cells, squares[0], asEmpty);
      RayFrom(cells, from, asEmpty, d, k + 1, squares[1..], stop);
    }
  }

  /** Eight rays, one after the other. */
  function Join(r0: seq<Square>, r1: seq<Square>, r2: seq<Square>, r3: seq<Square>,
                r4: seq<Square>, r5: seq<Square>, r6: seq<Square>, r7: seq<Square>): seq<Square>
  {
    r0 + (r1 + (r2 + (r3 + (r4 + (r5 + (r6 + r7))))))
  }

  /**
   * The squares reachable from `from` are the rays r0, ..., r7 one after
   * the other, when ray d ends where e<d> blocks it.
   */
  lemma {:induction false} ReachableOf(cells: Grid, from: Square, asEmpty: Option<Square>,
                    r0: seq<Square>, r1: seq<Square>, r2: seq<Square>, r3: seq<Square>,
                    r4: seq<Square>, r5: seq<Square>, r6: seq<Square>, r7: seq<Square>,
                    e0: int, e1: int, e2: int, e3: int, e4: int, e5: int, e6: int, e7: int)
    requires Path(from, 0, 1, r0, e0) && AllFree(cells, r0, asEmpty) && Blocks(cells, e0, asEmpty)
    requires Path(from, 1, 1, r1, e1) && AllFree(cells, r1, asEmpty) && Blocks(cells, e1, asEmpty)
    requires Path(from, 2, 1, r2, e2) && AllFree(cells, r2, asEmpty) && Blocks(cells, e2, asEmpty)
    requires Path(from, 3, 1, r3, e3) && AllFree(cells, r3, asEmpty) && Blocks(cells, e3, asEmpty)
    requires Path(from, 4, 1, r4, e4) && AllFree(cells, r4, asEmpty) && Blocks(cells, e4, asEmpty)
    requires Path(from, 5, 1, r5, e5) && AllFree(cells, r5, asEmpty) && Blocks(cells, e5, asEmpty)
    requires Path(from, 6, 1, r6, e6) && AllFree(cells, r6, asEmpty) && Blocks(cells, e6, asEmpty)
    requires Path(from, 7, 1, r7, e7) && AllFree(cells, r7, asEmpty) && Blocks(cells, e7, asEmpty)
    ensures Reachable(cells, from, asEmpty) == Join(r0, r1, r2, r3, r4, r5, r6, r7)
  {
    RayFrom(cells, from, asEmpty, 0, 1, r0, e0);
    RayFrom(cells, from, asEmpty, 1, 1, r1, e1);
    RayFrom(cells, from, asEmpty, 2, 1, r2, e2);
    RayFrom(cells, from, asEmpty, 3, 1, r3, e3);
    RayFrom(cells, from, asEmpty, 4, 1, r4, e4);
    RayFrom(cells, from, asEmpty, 5, 1, r5, e5);
    RayFrom(cells, from, asEmpty, 6, 1, r6, e6);
    RayFrom(cells, from, asEmpty, 7, 1, r7, e7);
    RaysJoin(cells, from, asEmpty, r0, r1, r2, r3, r4, r5, r6, r7);
  }

  /** The reachable squares are the eight rays one after the other. */
  lemma {:induction false} RaysJoin(cells: Grid, from: Square, asEmpty: Option<Square>,
                 r0: seq<Square>, r1: seq<Square>, r2: seq<Square>, r3: seq<Square>,
                 r4: seq<Square>, r5: seq<Square>, r6: seq<Square>, r7: seq<Square>)
    requires Ray(cells, from, asEmpty, 0, 1) == r0 && Ray(cells, from, asEmpty, 1, 1) == r1
    requires Ray(cells, from, asEmpty, 2, 1) == r2 && Ray(cells, from, asEmpty, 3, 1) == r3
    requires Ray(cells, from, asEmpty, 4, 1) == r4 && Ray(cells, from, asEmpty, 5, 1) == r5
    requires Ray(cells, from, asEmpty, 6, 1) == r6 && Ray(cells, from, asEmpty, 7, 1) == r7
    ensures Reachable(cells, from, asEmpty) == Join(r0, r1, r2, r3, r4, r5, r6, r7)
  {
    assert Rays(cells, from, asEmpty, 7) == r7 + [];
    assert r7 + [] == r7;
    assert Rays(cells, from, asEmpty, 6) == r6 + Rays(cells, from, asEmpty, 7);
    assert Rays(cells, from, asEmpty, 5) == r5 + Rays(cells, from, asEmpty, 6);
    assert Rays(cells, from, asEmpty, 4) == r4 + Rays(cells, from, asEmpty, 5);
    assert Rays(cells, from, asEmpty, 3) == r3 + Rays(cells, from, asEmpty, 4);
    assert Rays(cells, from, asEmpty, 2) == r2 + Rays(cells, from, asEmpty, 3);
    assert Rays(cells, from, asEmpty, 1) == r1 + Rays(cells, from, asEmpty, 2);
    assert Rays(cells, from, asEmpty, 0) == r0 + Rays(cells, from, asEmpty, 1);
  }

  /** The first four rays from square 45 of the reachable-squares board: their squares and where they stop. */
  lemma LinesFrom45()
    ensures Path(45, 0, 1, [55], 65) && AllFree(ReachTestBoard, [55], None) && Blocks(ReachTestBoard, 65, None)
    ensures Path(45, 1, 1, [56, 67, 78], 89) && AllFree(ReachTestBoard, [56, 67, 78], None) && Blocks(ReachTestBoard, 89, None)
    ensures Path(45, 2, 1, [46, 47], 48) && AllFree(ReachTestBoard, [46, 47], None) && Blocks(ReachTestBoard, 48, None)
    ensures Path(45, 3, 1, [], 36) && AllFree(ReachTestBoard, [], None) && Blocks(ReachTestBoard, 36, None)
  {
  }

  /** The last four rays from square 45 of the reachable-squares board. */
  lemma LinesFrom45Back()
    ensures Path(45, 4, 1, [], 35) && AllFree(ReachTestBoard, [], None) && Blocks(ReachTestBoard, 35, None)
    ensures Path(45, 5, 1, [], 34) && AllFree(ReachTestBoard, [], None) && Blocks(ReachTestBoard, 34, None)
    ensures Path(45, 6, 1, [44], 43) && AllFree(ReachTestBoard, [44], None) && Blocks(ReachTestBoard, 43, None)
    ensures Path(45, 7, 1, [54], 63) && AllFree(ReachTestBoard, [54], None) && Blocks(ReachTestBoard, 63, None)
  {
  }

  lemma ReachableFixture()
    ensures Reachable(ReachTestBoard, 45, None) == [55, 56, 67, 78, 46, 47, 44, 54]
  {
    LinesFrom45();
    LinesFrom45Back();
    ReachableOf(ReachTestBoard, 45, None, [55], [56, 67, 78], [46, 47], [], [], [], [44], [54],
      65, 89, 48, 36, 35, 34, 43, 63);
  }

  lemma LegalLinesFrom1()
    ensures Path(1, 0, 1, [], 11) && AllFree(LegalTestBoard, [], Some(1)) && Blocks(LegalTestBoard, 11, Some(1))
    ensures Path(1, 1, 1, [], 12) && AllFree(LegalTestBoard, [], Some(1)) && Blocks(LegalTestBoard, 12, Some(1))
    ensures Path(1, 2, 1, [2], 3) && AllFree(LegalTestBoard, [2], Some(1)) && Blocks(LegalTestBoard, 3, Some(1))
    ensures Path(1, 3, 1, [], -1) && AllFree(LegalTestBoard, [], Some(1)) && Blocks(LegalTestBoard, -1, Some(1))
  {
  }

  lemma LegalLinesFrom1Back()
    ensures Path(1, 4, 1, [], -1) && AllFree(LegalTestBoard, [], Some(1)) && Blocks(LegalTestBoard, -1, Some(1))
    ensures Path(1, 5, 1, [], -1) && AllFree(LegalTestBoard, [], Some(1)) && Blocks(LegalTestBoard, -1, Some(1))
    ensures Path(1, 6, 1, [0], -1) && AllFree(LegalTestBoard, [0], Some(1)) && Blocks(LegalTestBoard, -1, Some(1))
    ensures Path(1, 7, 1, [], 10) && AllFree(LegalTestBoard, [], Some(1)) && Blocks(LegalTestBoard, 10, Some(1))
  {
  }

  lemma LegalReachableFrom1()
    ensures Reachable(LegalTestBoard, 1, Some(1)) == [2, 0]
  {
    LegalLinesFrom1();
    LegalLinesFrom1Back();
    ReachableOf(LegalTestBoard, 1, Some(1), [], [], [2], [], [], [], [0], [],
      11, 12, 3, -1, -1, -1, -1, 10);
  }

  lemma LegalLinesFrom2()
    ensures Path(2, 0, 1, [], 12) && AllFree(LegalTestBoard, [], Some(1)) && Blocks(LegalTestBoard, 12, Some(1))
    ensures Path(2, 1, 1, [], 13) && AllFree(LegalTestBoard, [], Some(1)) && Blocks(LegalTestBoard, 13, Some(1))
    ensures Path(2, 2, 1, [], 3) && AllFree(LegalTestBoard, [], Some(1)) && Blocks(LegalTestBoard, 3, Some(1))
    ensures Path(2, 3, 1, [], -1) && AllFree(LegalTestBoard, [], Some(1)) && Blocks(LegalTestBoard, -1, Some(1))
  {
  }

  lemma LegalLinesFrom2Back()
    ensures Path(2, 4, 1, [], -1) && AllFree(LegalTestBoard, [], Some(1)) && Blocks(LegalTestBoard, -1, Some(1))
    ensures Path(2, 5, 1, [], -1) && AllFree(LegalTestBoard, [], Some(1)) && Blocks(LegalTestBoard, -1, Some(1))
    ensures Path(2, 6, 1, [1, 0], -1) && AllFree(LegalTestBoard, [1, 0], Some(1)) && Blocks(LegalTestBoard, -1, Some(1))
    ensures Path(2, 7, 1, [], 11) && AllFree(LegalTestBoard, [], Some(1)) && Blocks(LegalTestBoard, 11, Some(1))
  {
  }

  lemma LegalReachableFrom2()
    ensures Reachable(LegalTestBoard, 2, Some(1)) == [1, 0]
  {
    LegalLinesFrom2();
    LegalLinesFrom2Back();
    ReachableOf(LegalTestBoard, 2, Some(1), [], [], [], [], [], [], [1, 0], [],
      12, 13, 3, -1, -1, -1, -1, 11);
  }

  lemma LegalLinesFrom0()
    ensures Path(0, 0, 1, [], 10) && AllFree(LegalTestBoard, [], Some(1)) && Blocks(LegalTestBoard, 10, Some(1))
    ensures Path(0, 1, 1, [], 11) && AllFree(LegalTestBoard, [], Some(1)) && Blocks(LegalTestBoard, 11, Some(1))
    ensures Path(0, 2, 1, [1, 2], 3) && AllFree(LegalTestBoard, [1, 2], Some(1)) && Blocks(LegalTestBoard, 3, Some(1))
    ensures Path(0, 3, 1, [], -1) && AllFree(LegalTestBoard, [], Some(1)) && Blocks(LegalTestBoard, -1, Some(1))
  {
  }

  lemma LegalLinesFrom0Back()
    ensures Path(0, 4, 1, [], -1) && AllFree(LegalTestBoard, [], Some(1)) && Blocks(LegalTestBoard, -1, Some(1))
    ensures Path(0, 5, 1, [], -1) && AllFree(LegalTestBoard, [], Some(1)) && Blocks(LegalTestBoard, -1, Some(1))
    ensures Path(0, 6, 1, [], -1) && AllFree(LegalTestBoard, [], Some(1)) && Blocks(LegalTestBoard, -1, Some(1))
    ensures Path(0, 7, 1, [], -1) && AllFree(LegalTestBoard, [], Some(1)) && Blocks(LegalTestBoard, -1, Some(1))
  {
  }

  lemma LegalReachableFrom0()
    ensures Reachable(LegalTestBoard, 0, Some(1)) == [1, 2]
  {
    LegalLinesFrom0();
    LegalLinesFrom0Back();
    ReachableOf(LegalTestBoard, 0, Some(1), [], [], [1, 2], [], [], [], [], [],
      10, 11, 3, -1, -1, -1, -1, -1);
  }

  lemma LegalLinesFrom7()
    ensures Path(7, 0, 1, [], 17) && AllFree(LegalTestBoard, [], Some(7)) && Blocks(LegalTestBoard, 17, Some(7))
    ensures Path(7, 1, 1, [], 18) && AllFree(LegalTestBoard, [], Some(7)) && Blocks(LegalTestBoard, 18, Some(7))
    ensures Path(7, 2, 1, [], 8) && AllFree(LegalTestBoard, [], Some(7)) && Blocks(LegalTestBoard, 8, Some(7))
    ensures Path(7, 3, 1, [], -1) && AllFree(LegalTestBoard, [], Some(7)) && Blocks(LegalTestBoard, -1, Some(7))
  {
  }

  lemma LegalLinesFrom7Back()
    ensures Path(7, 4, 1, [], -1) && AllFree(LegalTestBoard, [], Some(7)) && Blocks(LegalTestBoard, -1, Some(7))
    ensures Path(7, 5, 1, [], -1) && AllFree(LegalTestBoard, [], Some(7)) && Blocks(LegalTestBoard, -1, Some(7))
    ensures Path(7, 6, 1, [], 6) && AllFree(LegalTestBoard, [], Some(7)) && Blocks(LegalTestBoard, 6, Some(7))
    ensures Path(7, 7, 1, [], 16) && AllFree(LegalTestBoard, [], Some(7)) && Blocks(LegalTestBoard, 16, Some(7))
  {
  }

  lemma LegalReachableFrom7()
    ensures Reachable(LegalTestBoard, 7, Some(7)) == []
  {
    LegalLinesFrom7();
    LegalLinesFrom7Back();
    ReachableOf(LegalTestBoard, 7, Some(7), [], [], [], [], [], [], [], [],
      17, 18, 8, -1, -1, -1, 6, 16);
  }

  lemma LegalLinesFrom88()
    ensures Path(88, 0, 1, [], 98) && AllFree(LegalTestBoard, [], Some(88)) && Blocks(LegalTestBoard, 98, Some(88))
    ensures Path(88, 1, 1, [99], -1) && AllFree(LegalTestBoard, [99], Some(88)) && Blocks(LegalTestBoard, -1, Some(88))
    ensures Path(88, 2, 1, [], 89) && AllFree(LegalTestBoard, [], Some(88)) && Blocks(LegalTestBoard, 89, Some(88))
    ensures Path(88, 3, 1, [], 79) && AllFree(LegalTestBoard, [], Some(88)) && Blocks(LegalTestBoard, 79, Some(88))
  {
  }

  lemma LegalLinesFrom88Back()
    ensures Path(88, 4, 1, [], 78) && AllFree(LegalTestBoard, [], Some(88)) && Blocks(LegalTestBoard, 78, Some(88))
    ensures Path(88, 5, 1, [], 77) && AllFree(LegalTestBoard, [], Some(88)) && Blocks(LegalTestBoard, 77, Some(88))
    ensures Path(88, 6, 1, [], 87) && AllFree(LegalTestBoard, [], Some(88)) && Blocks(LegalTestBoard, 87, Some(88))
    ensures Path(88, 7, 1, [], 97) && AllFree(LegalTestBoard, [], Some(88)) && Blocks(LegalTestBoard, 97, Some(88))
  {
  }

  lemma LegalReachableFrom88()
    ensures Reachable(LegalTestBoard, 88, Some(88)) == [99]
  {
    LegalLinesFrom88();
    LegalLinesFrom88Back();
    ReachableOf(LegalTestBoard, 88, Some(88), [], [99], [], [], [], [], [], [],
      98, -1, 89, 79, 78, 77, 87, 97);
  }

  lemma LegalLinesFrom99()
    ensures Path(99, 0, 1, [], -1) && AllFree(LegalTestBoard, [], Some(88)) && Blocks(LegalTestBoard, -1, Some(88))
    ensures Path(99, 1, 1, [], -1) && AllFree(LegalTestBoard, [], Some(88)) && Blocks(LegalTestBoard, -1, Some(88))
    ensures Path(99, 2, 1, [], -1) && AllFree(LegalTestBoard, [], Some(88)) && Blocks(LegalTestBoard, -1, Some(88))
    ensures Path(99, 3, 1, [], -1) && AllFree(LegalTestBoard, [], Some(88)) && Blocks(LegalTestBoard, -1, Some(88))
  {
  }

  lemma LegalLinesFrom99Back()
    ensures Path(99, 4, 1, [], 89) && AllFree(LegalTestBoard, [], Some(88)) && Blocks(LegalTestBoard, 89, Some(88))
    ensures Path(99, 5, 1, [88], 77) && AllFree(LegalTestBoard, [88], Some(88)) && Blocks(LegalTestBoard, 77, Some(88))
    ensures Path(99, 6, 1, [], 98) && AllFree(LegalTestBoard, [], Some(88)) && Blocks(LegalTestBoard, 98, Some(88))
    ensures Path(99, 7, 1, [], -1) && AllFree(LegalTestBoard, [], Some(88)) && Blocks(LegalTestBoard, -1, Some(88))
  {
  }

  lemma LegalReachableFrom99()
    ensures Reachable(LegalTestBoard, 99, Some(88)) == [88]
  {
    LegalLinesFrom99();
    LegalLinesFrom99Back();
    ReachableOf(LegalTestBoard, 99, Some(88), [], [], [], [], [], [88], [], [],
      -1, -1, -1, -1, 89, 77, 98, -1);
  }

  lemma LegalLinesFrom90()
    ensures Path(90, 0, 1, [], -1) && AllFree(LegalTestBoard, [], Some(90)) && Blocks(LegalTestBoard, -1, Some(90))
    ensures Path(90, 1, 1, [], -1) && AllFree(LegalTestBoard, [], Some(90)) && Blocks(LegalTestBoard, -1, Some(90))
    ensures Path(90, 2, 1, [], 91) && AllFree(LegalTestBoard, [], Some(90)) && Blocks(LegalTestBoard, 91, Some(90))
    ensures Path(90, 3, 1, [], 81) && AllFree(LegalTestBoard, [], Some(90)) && Blocks(LegalTestBoard, 81, Some(90))
  {
  }

  lemma LegalLinesFrom90Back()
    ensures Path(90, 4, 1, [80, 70], 60) && AllFree(LegalTestBoard, [80, 70], Some(90)) && Blocks(LegalTestBoard, 60, Some(90))
    ensures Path(90, 5, 1, [], -1) && AllFree(LegalTestBoard, [], Some(90)) && Blocks(LegalTestBoard, -1, Some(90))
    ensures Path(90, 6, 1, [], -1) && AllFree(LegalTestBoard, [], Some(90)) && Blocks(LegalTestBoard, -1, Some(90))
    ensures Path(90, 7, 1, [], -1) && AllFree(LegalTestBoard, [], Some(90)) && Blocks(LegalTestBoard, -1, Some(90))
  {
  }

  lemma LegalReachableFrom90()
    ensures Reachable(LegalTestBoard, 90, Some(90)) == [80, 70]
  {
    LegalLinesFrom90();
    LegalLinesFrom90Back();
    ReachableOf(LegalTestBoard, 90, Some(90), [], [], [], [], [80, 70], [], [], [],
      -1, -1, 91, 81, 60, -1, -1, -1);
  }

  lemma LegalLinesFrom80()
    ensures Path(80, 0, 1, [90], -1) && AllFree(LegalTestBoard, [90], Some(90)) && Blocks(LegalTestBoard, -1, Some(90))
    ensures Path(80, 1, 1, [], 91) && AllFree(LegalTestBoard, [], Some(90)) && Blocks(LegalTestBoard, 91, Some(90))
    ensures Path(80, 2, 1, [], 81) && AllFree(LegalTestBoard, [], Some(90)) && Blocks(LegalTestBoard, 81, Some(90))
    ensures Path(80, 3, 1, [], 71) && AllFree(LegalTestBoard, [], Some(90)) && Blocks(LegalTestBoard, 71, Some(90))
  {
  }

  lemma LegalLinesFrom80Back()
    ensures Path(80, 4, 1, [70], 60) && AllFree(LegalTestBoard, [70], Some(90)) && Blocks(LegalTestBoard, 60, Some(90))
    ensures Path(80, 5, 1, [], -1) && AllFree(LegalTestBoard, [], Some(90)) && Blocks(LegalTestBoard, -1, Some(90))
    ensures Path(80, 6, 1, [], -1) && AllFree(LegalTestBoard, [], Some(90)) && Blocks(LegalTestBoard, -1, Some(90))
    ensures Path(80, 7, 1, [], -1) && AllFree(LegalTestBoard, [], Some(90)) && Blocks(LegalTestBoard, -1, Some(90))
  {
  }

  lemma LegalReachableFrom80()
    ensures Reachable(LegalTestBoard, 80, Some(90)) == [90, 70]
  {
    LegalLinesFrom80();
    LegalLinesFrom80Back();
    ReachableOf(LegalTestBoard, 80, Some(90), [90], [], [], [], [70], [], [], [],
      -1, 91, 81, 71, 60, -1, -1, -1);
  }

  lemma LegalLinesFrom70()
    ensures Path(70, 0, 1, [80, 90], -1) && AllFree(LegalTestBoard, [80, 90], Some(90)) && Blocks(LegalTestBoard, -1, Some(90))
    ensures Path(70, 1, 1, [], 81) && AllFree(LegalTestBoard, [], Some(90)) && Blocks(LegalTestBoard, 81, Some(90))
    ensures Path(70, 2, 1, [], 71) && AllFree(LegalTestBoard, [], Some(90)) && Blocks(LegalTestBoard, 71, Some(90))
    ensures Path(70, 3, 1, [], 61) && AllFree(LegalTestBoard, [], Some(90)) && Blocks(LegalTestBoard, 61, Some(90))
  {
  }

  lemma LegalLinesFrom70Back()
    ensures Path(70, 4, 1, [], 60) && AllFree(LegalTestBoard, [], Some(90)) && Blocks(LegalTestBoard, 60, Some(90))
    ensures Path(70, 5, 1, [], -1) && AllFree(LegalTestBoard, [], Some(90)) && Blocks(LegalTestBoard, -1, Some(90))
    ensures Path(70, 6, 1, [], -1) && AllFree(LegalTestBoard, [], Some(90)) && Blocks(LegalTestBoard, -1, Some(90))
    ensures Path(70, 7, 1, [], -1) && AllFree(LegalTestBoard, [], Some(90)) && Blocks(LegalTestBoard, -1, Some(90))
  {
  }

  lemma LegalReachableFrom70()
    ensures Reachable(LegalTestBoard, 70, Some(90)) == [80, 90]
  {
    LegalLinesFrom70();
    LegalLinesFrom70Back();
    ReachableOf(LegalTestBoard, 70, Some(90), [80, 90], [], [], [], [], [], [], [],
      -1, 81, 71, 61, 60, -1, -1, -1);
  }

  /** The moves of the white piece on square 1 of the legal-move board. */
  lemma LegalMovesOf1()
    ensures MovesOf(LegalTestBoard, 1) == [Move(1, 2, 1), Move(1, 2, 0), Move(1, 0, 1), Move(1, 0, 2)]
  {
    LegalReachableFrom1();
    LegalReachableFrom2();
    LegalReachableFrom0();
    PieceMovesCons(LegalTestBoard, 1, 2, [0]);
    PieceMovesCons(LegalTestBoard, 1, 0, []);
  }

  /** The white piece on square 7 of the legal-move board is walled in. */
  lemma LegalMovesOf7()
    ensures MovesOf(LegalTestBoard, 7) == []
  {
    LegalReachableFrom7();
  }

  /** The moves of the white piece on square 88 of the legal-move board. */
  lemma LegalMovesOf88()
    ensures MovesOf(LegalTestBoard, 88) == [Move(88, 99, 88)]
  {
    LegalReachableFrom88();
    LegalReachableFrom99();
    PieceMovesCons(LegalTestBoard, 88, 99, []);
    assert [99] + [] == [99];
  }

  /** The moves of the white piece on square 90 of the legal-move board. */
  lemma LegalMovesOf90()
    ensures MovesOf(LegalTestBoard, 90) == [Move(90, 80, 90), Move(90, 80, 70), Move(90, 70, 80), Move(90, 70, 90)]
  {
    LegalReachableFrom90();
    LegalReachableFrom80();
    LegalReachableFrom70();
    PieceMovesCons(LegalTestBoard, 90, 80, [70]);
    PieceMovesCons(LegalTestBoard, 90, 70, []);
  }

  /** From square 89 on, only the piece on square 90 moves. */
  lemma LegalMovesFrom89()
    ensures LegalMovesFrom(LegalTestBoard, White, 89) == [Move(90, 80, 90), Move(90, 80, 70), Move(90, 70, 80), Move(90, 70, 90)]
  {
    LegalMovesFromSkip(LegalTestBoard, White, 89, 90);
    LegalMovesFromStep(LegalTestBoard, White, 90);
    LegalMovesOf90();
    LegalMovesFromSkip(LegalTestBoard, White, 91, 100);
  }

  /** No white piece stands on squares 8 to 87 of the legal-move board. */
  lemma LegalNoWhiteFrom8To88()
    ensures forall j :: 8 <= j < 88 ==> LegalTestBoard[j] != White
  {
  }

  /** From square 8 on, the pieces on squares 88 and 90 move. */
  lemma LegalMovesFrom8()
    ensures LegalMovesFrom(LegalTestBoard, White, 8) == [Move(88, 99, 88), Move(90, 80, 90), Move(90, 80, 70), Move(90, 70, 80), Move(90, 70, 90)]
  {
    LegalNoWhiteFrom8To88();
    LegalMovesFromSkip(LegalTestBoard, White, 8, 88);
    LegalMovesFromStep(LegalTestBoard, White, 88);
    LegalMovesOf88();
    LegalMovesFrom89();
  }

  /** From square 2 on, the pieces on squares 7, 88 and 90 move (the one on 7 has no move). */
  lemma LegalMovesFrom2()
    ensures LegalMovesFrom(LegalTestBoard, White, 2) == [Move(88, 99, 88), Move(90, 80, 90), Move(90, 80, 70), Move(90, 70, 80), Move(90, 70, 90)]
  {
    LegalMovesFromSkip(LegalTestBoard, White, 2, 7);
    LegalMovesFromStep(LegalTestBoard, White, 7);
    LegalMovesOf7();
    LegalMovesFrom8();
  }

  /**
   * The legal-move fixture: white has exactly these nine moves on the
   * legal-move board, and the iterator yields them in this order.
   */
  lemma LegalMovesFixture()
    ensures LegalMoves(LegalTestBoard, White) == [Move(1, 2, 1), Move(1, 2, 0), Move(1, 0, 1), Move(1, 0, 2), Move(88, 99, 88), Move(90, 80, 90), Move(90, 80, 70), Move(90, 70, 80), Move(90, 70, 90)]
    ensures YieldedMoves(LegalTestBoard, White) == LegalMoves(LegalTestBoard, White)
  {
    LegalMovesFromSkip(LegalTestBoard, White, 0, 1);
    LegalMovesFromStep(LegalTestBoard, White, 1);
    LegalMovesOf1();
    LegalMovesFrom2();
    assert LegalTestBoard[1] == White;
    YieldedMovesAreLegalMoves(LegalTestBoard, White);
  }

  /**
   * The undo fixture: on a fresh board, a4-b4(a4) made and then undone
   * leaves the opening position, white to move, with nothing made.
   */
  method UndoFixture() returns (board: Board)
    ensures fresh(board) && board.Valid() && InitialLayout(board.cells)
    ensures board.turn == White && board.numMove == 0 && board.history == []
  {
    board := new Board();
    ghost var start := board.cells;
    var m := Move(30, 31, 30);
    assert Undoable(start, m) by {
      assert start[31] == Empty;
    }
    board.MakeMove(m);
    board.Undo();
    UndoAfterMove(start, m);
  }
}
