/**
 * Unblocked queen lines on a board, and the sequence of squares reachable
 * from a square in direction-then-distance order: the specification that
 * Board.isUnblockedMove and the reachable-squares iterator are proved against.
 */
module Reachability {
  import opened Geometry

  /** The contents of the 100 cells, indexed by square. */
  type Grid = c: seq<Piece> | |c| == 100 witness seq(100, _ => Empty)

  /** Square s counts as empty: it is EMPTY, or it is the square treated as empty. */
  predicate Free(cells: Grid, s: Square, asEmpty: Option<Square>) {
    cells[s] == Empty || asEmpty == Some(s)
  }

  /** Steps 1..k from `from` in direction d are all on the board and free. */
  predicate PathClear(cells: Grid, from: Square, d: int, k: nat, asEmpty: Option<Square>)
    requires 0 <= d < 8
    decreases |cells| + k
    // |cells| is 100; a measure that mentions the grid keeps the
    // verifier from unfolding calls on literal arguments all the way down.
  {
    k == 0 ||
    (PathClear(cells, from, d, k - 1, asEmpty) &&
     QueenMove(from, d, k).Some? && Free(cells, QueenMove(from, d, k).value, asEmpty))
  }

  /**
   * FROM-TO is an unblocked queen move: `to` is on a queen line from `from`,
   * and every square at steps 1..distance of that line (`to` included) is free.
   */
  predicate Unblocked(cells: Grid, from: Square, to: Square, asEmpty: Option<Square>) {
    IsQueenMove(from, to) && PathClear(cells, from, Direction(from, to), Distance(from, to), asEmpty)
  }

  /**
   * The square k steps from `from` in direction d exists and the line up to
   * it is free; StepOpenUnblocked shows this is an unblocked queen move there.
   * (No line is longer than nine steps; the bound is spelled out here so that
   * recursion over the cursor position can see it without unfolding QueenMove.)
   */
  predicate StepOpen(cells: Grid, from: Square, d: int, k: nat, asEmpty: Option<Square>)
    requires 0 <= d < 8
  {
    k <= 9 && QueenMove(from, d, k).Some? && PathClear(cells, from, d, k, asEmpty)
  }

  /** The squares reachable in direction d at distance k, k + 1, ... until blocked. */
  function Ray(cells: Grid, from: Square, asEmpty: Option<Square>, d: int, k: nat): seq<Square>
    requires 0 <= d < 8 && 1 <= k
    decreases |cells| - k // as in PathClear
  {
    if StepOpen(cells, from, d, k, asEmpty)
    then [QueenMove(from, d, k).value] + Ray(cells, from, asEmpty, d, k + 1)
    else []
  }

  /** The rays of directions d, d + 1, ..., 7, one after the other. */
  function Rays(cells: Grid, from: Square, asEmpty: Option<Square>, d: int): seq<Square>
    requires 0 <= d <= 8
    decreases |cells| - d // as in PathClear
  {
    if d == 8 then [] else Ray(cells, from, asEmpty, d, 1) + Rays(cells, from, asEmpty, d + 1)
  }

  /** All squares reachable from `from`, direction 0 first, each direction by increasing distance. */
  function Reachable(cells: Grid, from: Square, asEmpty: Option<Square>): seq<Square> {
    Rays(cells, from, asEmpty, 0)
  }

  /**
   * What is still to come when the cursor stands at distance `steps` of
   * direction `dir`: the square there if it is open, followed by what comes
   * one step further; at a closed square, whatever comes from the first step
   * of the next direction.  SuffixRays shows this is the rest of the ray
   * followed by the later rays.
   */
  function Suffix(cells: Grid, from: Square, asEmpty: Option<Square>, dir: int, steps: nat): seq<Square>
    requires 0 <= dir <= 8 && 1 <= steps
    decreases 8 - dir, 10 - steps
  {
    if dir == 8 then []
    else if StepOpen(cells, from, dir, steps, asEmpty)
    then [QueenMove(from, dir, steps).value] + Suffix(cells, from, asEmpty, dir, steps + 1)
    else Suffix(cells, from, asEmpty, dir + 1, 1)
  }

  /** The cursor walk yields the rest of the current ray, then the rays of the later directions. */
  lemma {:induction false} SuffixRays(cells: Grid, from: Square, asEmpty: Option<Square>, dir: int, steps: nat)
    requires 0 <= dir < 8 && 1 <= steps
    ensures Suffix(cells, from, asEmpty, dir, steps) ==
      Ray(cells, from, asEmpty, dir, steps) + Rays(cells, from, asEmpty, dir + 1)
    decreases 8 - dir, 10 - steps
  {
    if StepOpen(cells, from, dir, steps, asEmpty) {
      SuffixRays(cells, from, asEmpty, dir, steps + 1);
    } else if dir < 7 {
      SuffixRays(cells, from, asEmpty, dir + 1, 1);
    }
    RaysStep(cells, from, asEmpty, dir, steps);
  }

  /** The inductive step of SuffixRays. */
  lemma RaysStep(cells: Grid, from: Square, asEmpty: Option<Square>, dir: int, steps: nat)
    requires 0 <= dir < 8 && 1 <= steps
    ensures (if StepOpen(cells, from, dir, steps, asEmpty)
        then Suffix(cells, from, asEmpty, dir, steps + 1) ==
          Ray(cells, from, asEmpty, dir, steps + 1) + Rays(cells, from, asEmpty, dir + 1)
        else dir < 7 ==>
          Suffix(cells, from, asEmpty, dir + 1, 1) ==
          Ray(cells, from, asEmpty, dir + 1, 1) + Rays(cells, from, asEmpty, dir + 1 + 1)) ==>
      Suffix(cells, from, asEmpty, dir, steps) ==
      Ray(cells, from, asEmpty, dir, steps) + Rays(cells, from, asEmpty, dir + 1)
  {
    if StepOpen(cells, from, dir, steps, asEmpty) {
      ConsAssoc(QueenMove(from, dir, steps).value, Ray(cells, from, asEmpty, dir, steps + 1),
        Rays(cells, from, asEmpty, dir + 1));
    } else {
      EmptyPrefix(Rays(cells, from, asEmpty, dir + 1));
    }
  }

  lemma EmptyPrefix<T>(a: seq<T>)
    ensures [] + a == a
  {
  }

  /** At an open square the cursor yields that square, then continues one step further. */
  lemma SuffixCons(cells: Grid, from: Square, asEmpty: Option<Square>, dir: int, steps: nat)
    requires 0 <= dir < 8 && 1 <= steps && StepOpen(cells, from, dir, steps, asEmpty)
    ensures Suffix(cells, from, asEmpty, dir, steps) ==
      [QueenMove(from, dir, steps).value] + Suffix(cells, from, asEmpty, dir, steps + 1)
  {
  }

  lemma ConsAssoc<T>(x: T, a: seq<T>, b: seq<T>)
    ensures ([x] + a) + b == [x] + (a + b)
  {
  }

  /** Handing out the first pending element keeps done + pending unchanged. */
  lemma HandOut<T>(done: seq<T>, x: T, rest: seq<T>, whole: seq<T>)
    requires done + ([x] + rest) == whole
    ensures (done + [x]) + rest == whole
  {
    assert (done + [x]) + rest == done + ([x] + rest);
  }

  /** At a closed square the rest of the direction is skipped. */
  lemma SuffixTurn(cells: Grid, from: Square, asEmpty: Option<Square>, dir: int, steps: nat)
    requires 0 <= dir < 8 && 1 <= steps && !StepOpen(cells, from, dir, steps, asEmpty)
    ensures Suffix(cells, from, asEmpty, dir, steps) == Suffix(cells, from, asEmpty, dir + 1, 1)
  {
  }

  /** The cursor at the first step of direction d has the rays of d, d + 1, ..., 7 still to come. */
  lemma SuffixFrom(cells: Grid, from: Square, asEmpty: Option<Square>, dir: int)
    requires 0 <= dir < 8
    ensures Suffix(cells, from, asEmpty, dir, 1) == Rays(cells, from, asEmpty, dir)
  {
    SuffixRays(cells, from, asEmpty, dir, 1);
  }

  /** The cursor at the first step of the first direction has everything still to come. */
  lemma SuffixStart(cells: Grid, from: Square, asEmpty: Option<Square>)
    ensures Suffix(cells, from, asEmpty, 0, 1) == Reachable(cells, from, asEmpty)
  {
    SuffixFrom(cells, from, asEmpty, 0);
  }

  /** An open square at the cursor means something is still to come. */
  lemma SuffixNonEmpty(cells: Grid, from: Square, asEmpty: Option<Square>, dir: int, steps: nat)
    requires 0 <= dir <= 8 && 1 <= steps
    requires dir < 8 ==> StepOpen(cells, from, dir, steps, asEmpty)
    ensures Suffix(cells, from, asEmpty, dir, steps) != [] <==> dir < 8
  {
  }

  /** No element occurs twice. */
  predicate Distinct<T(==)>(s: seq<T>) {
    forall i, j :: 0 <= i < j < |s| ==> s[i] != s[j]
  }

  lemma DistinctConcat<T>(a: seq<T>, b: seq<T>)
    requires Distinct(a) && Distinct(b)
    requires forall x :: x in a ==> x !in b
    ensures Distinct(a + b)
  {
    forall i, j | 0 <= i < j < |a + b|
      ensures (a + b)[i] != (a + b)[j]
    {
      if j < |a| {
        assert (a + b)[i] == a[i] && (a + b)[j] == a[j];
      } else if i >= |a| {
        assert (a + b)[i] == b[i - |a|] && (a + b)[j] == b[j - |a|];
      } else {
        assert (a + b)[i] == a[i] && (a + b)[j] == b[j - |a|];
        assert a[i] in a && b[j - |a|] in b;
      }
    }
  }

  /** A clear path of length k is clear at every step up to k. */
  lemma {:induction false} PathClearAt(cells: Grid, from: Square, d: int, k: nat, asEmpty: Option<Square>, j: nat)
    requires 0 <= d < 8 && PathClear(cells, from, d, k, asEmpty) && j <= k
    ensures PathClear(cells, from, d, j, asEmpty)
    decreases k
  {
    if j < k {
      PathClearAt(cells, from, d, k - 1, asEmpty, j);
    }
  }

  /** A path with a step that is not free at or before step k is not clear to step k. */
  lemma {:induction false} PathBlocked(cells: Grid, from: Square, d: int, k: nat, asEmpty: Option<Square>, j: nat)
    requires 0 <= d < 8 && 1 <= j <= k
    requires QueenMove(from, d, j).Some? && !Free(cells, QueenMove(from, d, j).value, asEmpty)
    ensures !PathClear(cells, from, d, k, asEmpty)
    decreases k
  {
    if j < k {
      PathBlocked(cells, from, d, k - 1, asEmpty, j);
    }
  }

  /** The square k >= 1 steps away is open iff it exists and the move there is unblocked. */
  lemma StepOpenUnblocked(cells: Grid, from: Square, d: int, k: nat, asEmpty: Option<Square>)
    requires 0 <= d < 8 && 1 <= k
    ensures StepOpen(cells, from, d, k, asEmpty) <==>
      QueenMove(from, d, k).Some? && Unblocked(cells, from, QueenMove(from, d, k).value, asEmpty)
  {
    if QueenMove(from, d, k).Some? {
      QueenMoveShape(from, d, k);
    }
  }

  /** A ray holds exactly the unblocked squares of its direction at distance k or more. */
  lemma {:induction false} RayExact(cells: Grid, from: Square, asEmpty: Option<Square>, d: int, k: nat, s: Square)
    requires 0 <= d < 8 && 1 <= k
    ensures s in Ray(cells, from, asEmpty, d, k) <==>
      Unblocked(cells, from, s, asEmpty) && Direction(from, s) == d && Distance(from, s) >= k
    decreases 10 - k
  {
    var ray := Ray(cells, from, asEmpty, d, k);
    if StepOpen(cells, from, d, k, asEmpty) {
      var t := QueenMove(from, d, k).value;
      QueenMoveShape(from, d, k);
      RayExact(cells, from, asEmpty, d, k + 1, s);
      assert ray == [t] + Ray(cells, from, asEmpty, d, k + 1);
      if Unblocked(cells, from, s, asEmpty) && Direction(from, s) == d && Distance(from, s) == k {
        QueenMoveReaches(from, s);
      }
    } else if Unblocked(cells, from, s, asEmpty) && Direction(from, s) == d && Distance(from, s) >= k {
      PathClearAt(cells, from, d, Distance(from, s), asEmpty, k);
      assert false;
    }
  }

  /** Rays d..7 hold exactly the unblocked squares whose direction is d or later. */
  lemma {:induction false} RaysExact(cells: Grid, from: Square, asEmpty: Option<Square>, d: int, s: Square)
    requires 0 <= d <= 8
    ensures s in Rays(cells, from, asEmpty, d) <==> Unblocked(cells, from, s, asEmpty) && Direction(from, s) >= d
    decreases 8 - d
  {
    if d < 8 {
      RayExact(cells, from, asEmpty, d, 1, s);
      RaysExact(cells, from, asEmpty, d + 1, s);
      if Unblocked(cells, from, s, asEmpty) {
        QueenMoveReaches(from, s);
      }
    }
  }

  /** reachableFrom is exact: it yields s iff FROM-s is an unblocked queen move. */
  lemma ReachableExact(cells: Grid, from: Square, asEmpty: Option<Square>, s: Square)
    ensures s in Reachable(cells, from, asEmpty) <==> Unblocked(cells, from, s, asEmpty)
  {
    RaysExact(cells, from, asEmpty, 0, s);
  }

  /** A ray never yields a square twice. */
  lemma {:induction false} RayDistinct(cells: Grid, from: Square, asEmpty: Option<Square>, d: int, k: nat)
    requires 0 <= d < 8 && 1 <= k
    ensures Distinct(Ray(cells, from, asEmpty, d, k))
    decreases 10 - k
  {
    if StepOpen(cells, from, d, k, asEmpty) {
      var t := QueenMove(from, d, k).value;
      QueenMoveShape(from, d, k);
      RayDistinct(cells, from, asEmpty, d, k + 1);
      RayExact(cells, from, asEmpty, d, k + 1, t);
      DistinctConcat([t], Ray(cells, from, asEmpty, d, k + 1));
    }
  }

  /** Rays d..7 never yield a square twice. */
  lemma {:induction false} RaysDistinct(cells: Grid, from: Square, asEmpty: Option<Square>, d: int)
    requires 0 <= d <= 8
    ensures Distinct(Rays(cells, from, asEmpty, d))
    decreases 8 - d
  {
    if d < 8 {
      var ray, rest := Ray(cells, from, asEmpty, d, 1), Rays(cells, from, asEmpty, d + 1);
      RayDistinct(cells, from, asEmpty, d, 1);
      RaysDistinct(cells, from, asEmpty, d + 1);
      forall x | x in ray
        ensures x !in rest
      {
        RayExact(cells, from, asEmpty, d, 1, x);
        RaysExact(cells, from, asEmpty, d + 1, x);
      }
      DistinctConcat(ray, rest);
    }
  }

  /** reachableFrom yields each square exactly once. */
  lemma ReachableDistinct(cells: Grid, from: Square, asEmpty: Option<Square>)
    ensures Distinct(Reachable(cells, from, asEmpty))
  {
    RaysDistinct(cells, from, asEmpty, 0);
  }

  /** A ray starting at distance k has at most 10 - k squares. */
  lemma {:induction false} RayLength(cells: Grid, from: Square, asEmpty: Option<Square>, d: int, k: nat)
    requires 0 <= d < 8 && 1 <= k <= 10
    ensures |Ray(cells, from, asEmpty, d, k)| <= 10 - k
    decreases 10 - k
  {
    if StepOpen(cells, from, d, k, asEmpty) {
      RayLength(cells, from, asEmpty, d, k + 1);
    }
  }

  lemma {:induction false} RaysLength(cells: Grid, from: Square, asEmpty: Option<Square>, d: int)
    requires 0 <= d <= 8
    ensures |Rays(cells, from, asEmpty, d)| <= 9 * (8 - d)
    decreases 8 - d
  {
    if d < 8 {
      RayLength(cells, from, asEmpty, d, 1);
      RaysLength(cells, from, asEmpty, d + 1);
    }
  }

  /** No square reaches more than 72 squares (8 directions of at most 9 steps). */
  lemma ReachableLength(cells: Grid, from: Square, asEmpty: Option<Square>)
    ensures |Reachable(cells, from, asEmpty)| <= 72
  {
    RaysLength(cells, from, asEmpty, 0);
  }

  /** Treating the origin itself as empty never matters: no queen line passes through its start. */
  lemma {:induction false} PathClearIgnoresOrigin(cells: Grid, from: Square, d: int, k: nat)
    requires 0 <= d < 8
    ensures PathClear(cells, from, d, k, None) == PathClear(cells, from, d, k, Some(from))
    decreases k
  {
    if k > 0 {
      PathClearIgnoresOrigin(cells, from, d, k - 1);
      if QueenMove(from, d, k).Some? {
        QueenMoveShape(from, d, k);
      }
    }
  }

  lemma {:induction false} RayIgnoresOrigin(cells: Grid, from: Square, d: int, k: nat)
    requires 0 <= d < 8 && 1 <= k
    ensures Ray(cells, from, None, d, k) == Ray(cells, from, Some(from), d, k)
    decreases 10 - k
  {
    var t := QueenMove(from, d, k);
    if t.Some? {
      QueenMoveShape(from, d, k);
      PathClearIgnoresOrigin(cells, from, d, k);
      if StepOpen(cells, from, d, k, None) {
        RayIgnoresOrigin(cells, from, d, k + 1);
      }
    }
  }

  lemma {:induction false} RaysIgnoreOrigin(cells: Grid, from: Square, d: int)
    requires 0 <= d <= 8
    ensures Rays(cells, from, None, d) == Rays(cells, from, Some(from), d)
    decreases 8 - d
  {
    if d < 8 {
      RayIgnoresOrigin(cells, from, d, 1);
      RaysIgnoreOrigin(cells, from, d + 1);
    }
  }

  /** reachableFrom(s, null) and reachableFrom(s, s) yield the same squares in the same order. */
  lemma ReachableIgnoresOrigin(cells: Grid, from: Square)
    ensures Reachable(cells, from, None) == Reachable(cells, from, Some(from))
  {
    RaysIgnoreOrigin(cells, from, 0);
  }

  /** The same fact for a single queen line. */
  lemma UnblockedIgnoresOrigin(cells: Grid, from: Square, to: Square)
    ensures Unblocked(cells, from, to, None) == Unblocked(cells, from, to, Some(from))
  {
    PathClearIgnoresOrigin(cells, from, Direction(from, to), Distance(from, to));
  }
}
