/** The directional walks of the sliding pieces (pieces.py:64-149): from the
    origin, step square by square, appending each square reached, until the
    current square is occupied or the loop guard for that direction holds. */
module Rays {
  import opened Wrappers
  import opened Geometry
  import opened Indexing
  import opened Piece

  /** The eight walk directions of pieces.py, plus `NorthCorrected`, the north
      walk with the guard the rook evidently intended (see `Halts`). */
  datatype Ray =
    | East | West | North | South
    | NorthEast | SouthEast | SouthWest | NorthWest
    | NorthCorrected

  /** Rook walks read the mask before testing the edge; bishop walks test
      the edges first. The order decides when an out-of-range read raises. */
  predicate ReadsFirst(d: Ray)
  {
    d.East? || d.West? || d.North? || d.South? || d.NorthCorrected?
  }

  /** The loop guard of each walk, as written in pieces.py: the walk leaves
      the current square only while this is false. The north guard
      `c - n <= 0` also stops on index n, which is why the rook never reaches
      index 0 going up; `NorthCorrected` uses `c - n < 0`. */
  predicate Halts(d: Ray, c: int, n: int)
    requires n > 0
  {
    match d
    case East => c % n >= n - 1
    case West => c % n <= 0
    case North => c - n <= 0
    case NorthCorrected => c - n < 0
    case South => c + n >= n * n
    case NorthEast => c % n >= n - 1 || c - n < 0
    case SouthEast => c % n >= n - 1 || c + n >= n * n
    case SouthWest => c % n <= 0 || c + n >= n * n
    case NorthWest => c % n <= 0 || c - n < 0
  }

  /** Ranks gained per step (rank 0 is the top row). */
  function RankStep(d: Ray): int
  {
    match d
    case East => 0
    case West => 0
    case North => -1
    case NorthCorrected => -1
    case South => 1
    case NorthEast => -1
    case SouthEast => 1
    case SouthWest => 1
    case NorthWest => -1
  }

  /** Files gained per step. */
  function FileStep(d: Ray): int
  {
    match d
    case East => 1
    case West => -1
    case North => 0
    case NorthCorrected => 0
    case South => 0
    case NorthEast => 1
    case SouthEast => 1
    case SouthWest => -1
    case NorthWest => -1
  }

  /** The index increment of one step, as the source writes it. */
  function Delta(d: Ray, n: int): (r: int)
    ensures r == RankStep(d) * n + FileStep(d)
  {
    match d
    case East => 1
    case West => -1
    case North => -n
    case NorthCorrected => -n
    case South => n
    case NorthEast => -n + 1
    case SouthEast => n + 1
    case SouthWest => n - 1
    case NorthWest => -n - 1
  }

  function Cons(c: int, rest: Option<seq<int>>): Option<seq<int>>
  {
    match rest
    case None => None
    case Some(s) => Some([c] + s)
  }

  /** One walk from square c, or None when a read of the mask raises. */
  function Walk(obstacles: seq<bool>, n: int, c: int, d: Ray): Option<seq<int>>
    requires n > 0
    decreases if Delta(d, n) > 0 then |obstacles| - c else |obstacles| + c
  {
    if ReadsFirst(d) then
      match PyRead(obstacles, c)
      case None => None
      case Some(blocked) =>
        if blocked || Halts(d, c, n) then Some([])
        else Cons(c + Delta(d, n), Walk(obstacles, n, c + Delta(d, n), d))
    else if Halts(d, c, n) then Some([])
    else
      match PyRead(obstacles, c)
      case None => None
      case Some(blocked) =>
        if blocked then Some([])
        else Cons(c + Delta(d, n), Walk(obstacles, n, c + Delta(d, n), d))
  }

  /** The k-th square along d from origin, k >= 1, in board coordinates:
      on the board, k ranks and k files away in the direction's sense. */
  ghost predicate Along(n: int, origin: int, d: Ray, r: seq<int>)
    requires n > 0
  {
    forall i :: 0 <= i < |r| ==>
      && OnBoard(r[i], n)
      && Rank(r[i], n) == Rank(origin, n) + (i + 1) * RankStep(d)
      && File(r[i], n) == File(origin, n) + (i + 1) * FileStep(d)
  }

  /** Consecutive squares: each one step past the previous one. */
  ghost predicate Consecutive(n: int, origin: int, d: Ray, r: seq<int>)
  {
    && (|r| > 0 ==> r[0] == origin + Delta(d, n))
    && (forall i :: 0 < i < |r| ==> r[i] == r[i - 1] + Delta(d, n))
  }

  /** The square the walk stopped on: the last one emitted, or the origin. */
  function LastSquare(origin: int, r: seq<int>): int
  {
    if |r| == 0 then origin else r[|r| - 1]
  }

  /** Stopping at the first blocker, inclusive: no emitted square but the last
      is occupied, and the walk stops only on an occupied square or where the
      guard holds. */
  ghost predicate StopsAtFirstBlocker(obstacles: seq<bool>, n: int, origin: int, d: Ray, r: seq<int>)
    requires n > 0
    requires 0 <= origin < |obstacles|
    requires forall i :: 0 <= i < |r| ==> 0 <= r[i] < |obstacles|
  {
    && (forall i :: 0 <= i < |r| - 1 ==> !obstacles[r[i]])
    && (Halts(d, LastSquare(origin, r), n) || obstacles[LastSquare(origin, r)])
  }

  /** A step that the guard allows stays on the board and moves one rank and
      file step in the direction's sense. */
  lemma StepInside(d: Ray, c: int, n: int)
    requires n > 0 && OnBoard(c, n) && !Halts(d, c, n)
    ensures OnBoard(c + Delta(d, n), n)
    ensures Rank(c + Delta(d, n), n) == Rank(c, n) + RankStep(d)
    ensures File(c + Delta(d, n), n) == File(c, n) + FileStep(d)
  {
    Coordinates(c, n);
    RankBounds(c, n);
    assert 0 <= Rank(c, n) + RankStep(d) < n;
    assert 0 <= File(c, n) + FileStep(d) < n;
    Shift(c, n, RankStep(d), FileStep(d));
    Coordinates(c + Delta(d, n), n);
  }

  /** On a mask sized for the board, one step of a walk from a board square:
      it stops on an occupied square or where the guard holds, and otherwise
      emits the next square and walks on from there. */
  lemma WalkUnfold(obstacles: seq<bool>, n: int, c: int, d: Ray)
    requires n > 0 && |obstacles| == n * n && OnBoard(c, n)
    ensures obstacles[c] || Halts(d, c, n) ==> Walk(obstacles, n, c, d) == Some([])
    ensures !(obstacles[c] || Halts(d, c, n)) ==>
      Walk(obstacles, n, c, d) == Cons(c + Delta(d, n), Walk(obstacles, n, c + Delta(d, n), d))
  {
  }

  /** On a mask sized for the board, a walk from a square of the board never
      raises. */
  lemma {:induction false} WalkDefined(obstacles: seq<bool>, n: int, c: int, d: Ray)
    requires n > 0 && |obstacles| == n * n && OnBoard(c, n)
    ensures Walk(obstacles, n, c, d).Some?
    decreases if Delta(d, n) > 0 then |obstacles| - c else |obstacles| + c
  {
    WalkUnfold(obstacles, n, c, d);
    if !(obstacles[c] || Halts(d, c, n)) {
      StepInside(d, c, n);
      WalkDefined(obstacles, n, c + Delta(d, n), d);
    }
  }

  /** It follows its direction square by square without leaving the board or
      wrapping round an edge. */
  lemma {:induction false} WalkAlong(obstacles: seq<bool>, n: int, c: int, d: Ray)
    requires n > 0 && |obstacles| == n * n && OnBoard(c, n)
    ensures Walk(obstacles, n, c, d).Some?
    ensures Along(n, c, d, Walk(obstacles, n, c, d).value)
    ensures Consecutive(n, c, d, Walk(obstacles, n, c, d).value)
    decreases if Delta(d, n) > 0 then |obstacles| - c else |obstacles| + c
  {
    WalkUnfold(obstacles, n, c, d);
    WalkDefined(obstacles, n, c, d);
    if !(obstacles[c] || Halts(d, c, n)) {
      var c' := c + Delta(d, n);
      StepInside(d, c, n);
      WalkAlong(obstacles, n, c', d);
      var rest := Walk(obstacles, n, c', d).value;
      assert Walk(obstacles, n, c, d).value == [c'] + rest;
      AlongCons(n, c, d, rest);
    }
  }

  /** It stops at the first blocker, inclusive. */
  lemma {:induction false} WalkStops(obstacles: seq<bool>, n: int, c: int, d: Ray)
    requires n > 0 && |obstacles| == n * n && OnBoard(c, n)
    ensures Walk(obstacles, n, c, d).Some?
    ensures Along(n, c, d, Walk(obstacles, n, c, d).value)
    ensures StopsAtFirstBlocker(obstacles, n, c, d, Walk(obstacles, n, c, d).value)
    decreases if Delta(d, n) > 0 then |obstacles| - c else |obstacles| + c
  {
    WalkUnfold(obstacles, n, c, d);
    WalkAlong(obstacles, n, c, d);
    if !(obstacles[c] || Halts(d, c, n)) {
      var c' := c + Delta(d, n);
      StepInside(d, c, n);
      WalkStops(obstacles, n, c', d);
      var rest := Walk(obstacles, n, c', d).value;
      var r := [c'] + rest;
      assert Walk(obstacles, n, c, d).value == r;
      assert LastSquare(c, r) == LastSquare(c', rest);
    }
  }

  lemma AlongCons(n: int, c: int, d: Ray, rest: seq<int>)
    requires n > 0 && OnBoard(c + Delta(d, n), n)
    requires Rank(c + Delta(d, n), n) == Rank(c, n) + RankStep(d)
    requires File(c + Delta(d, n), n) == File(c, n) + FileStep(d)
    requires Along(n, c + Delta(d, n), d, rest)
    ensures Along(n, c, d, [c + Delta(d, n)] + rest)
  {
    var r := [c + Delta(d, n)] + rest;
    forall i | 0 <= i < |r|
      ensures OnBoard(r[i], n)
      ensures Rank(r[i], n) == Rank(c, n) + (i + 1) * RankStep(d)
      ensures File(r[i], n) == File(c, n) + (i + 1) * FileStep(d)
    {
      if i > 0 {
        assert r[i] == rest[i - 1];
        assert (i + 1) * RankStep(d) == RankStep(d) + i * RankStep(d);
        assert (i + 1) * FileStep(d) == FileStep(d) + i * FileStep(d);
      }
    }
  }

  /** What a square of a walk has in common with the origin: it is on the
      board and not the origin; orthogonal walks keep the rank or the file,
      diagonal walks change both by the same non-zero amount. */
  lemma RayMember(n: int, origin: int, d: Ray, r: seq<int>, c: int)
    requires n > 0 && Along(n, origin, d, r) && c in r
    ensures OnBoard(c, n) && c != origin
    ensures RankStep(d) == 0 ==> Rank(c, n) == Rank(origin, n)
    ensures FileStep(d) == 0 ==> File(c, n) == File(origin, n)
    ensures RankStep(d) != 0 && FileStep(d) != 0 ==>
      Abs(Rank(c, n) - Rank(origin, n)) == Abs(File(c, n) - File(origin, n)) > 0
    ensures RankStep(d) > 0 ==> Rank(c, n) > Rank(origin, n)
    ensures RankStep(d) < 0 ==> Rank(c, n) < Rank(origin, n)
  {
    var i :| 0 <= i < |r| && r[i] == c;
    var k := i + 1;
    assert Rank(c, n) == Rank(origin, n) + k * RankStep(d);
    assert File(c, n) == File(origin, n) + k * FileStep(d);
  }

  /** The rook's north walk under an edition. */
  function NorthRay(ed: Edition): Ray
  {
    if ed == AsWritten then North else NorthCorrected
  }

  /** As written, the north walk never reaches index 0: it steps from c only
      when c - n > 0, so every square it emits is positive. */
  lemma {:induction false} NorthMissesCorner(obstacles: seq<bool>, n: int, c: int)
    requires n > 0 && |obstacles| == n * n && OnBoard(c, n)
    ensures Walk(obstacles, n, c, North).Some?
    ensures 0 !in Walk(obstacles, n, c, North).value
    decreases |obstacles| + c
  {
    WalkUnfold(obstacles, n, c, North);
    WalkDefined(obstacles, n, c, North);
    if !(obstacles[c] || Halts(North, c, n)) {
      StepInside(North, c, n);
      NorthMissesCorner(obstacles, n, c - n);
    }
  }

  /** With the guard `c - n < 0`, on a clear board the north walk from any
      square below rank 0 reaches the top square of its file. */
  lemma {:induction false} NorthCorrectedReachesTop(obstacles: seq<bool>, n: int, c: int)
    requires n > 0 && |obstacles| == n * n && OnBoard(c, n) && Rank(c, n) >= 1
    requires forall i :: 0 <= i < |obstacles| ==> !obstacles[i]
    ensures Walk(obstacles, n, c, NorthCorrected).Some?
    ensures File(c, n) in Walk(obstacles, n, c, NorthCorrected).value
    decreases |obstacles| + c
  {
    WalkUnfold(obstacles, n, c, NorthCorrected);
    RankBounds(c, n);
    StepInside(NorthCorrected, c, n);
    var c' := c - n;
    WalkDefined(obstacles, n, c', NorthCorrected);
    if Rank(c', n) >= 1 {
      NorthCorrectedReachesTop(obstacles, n, c');
    } else {
      Coordinates(c', n);
    }
  }
}
