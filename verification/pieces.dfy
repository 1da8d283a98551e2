/** Pseudo-legal move generation for the six chess pieces (pieces.py). Every
    generator takes the piece's index, an occupancy mask and the side length n,
    and lists destination indices in the order the source appends them. */
module Pieces {
  import opened Wrappers
  import opened Geometry
  import opened Indexing
  import opened Rays
  import opened Piece

  /** What `getMoves` returns, together with the caller's mask as the call
      leaves it (the rook and the bishop write to it). */
  datatype Generated = Generated(moves: seq<int>, mask: seq<bool>)

  function Join(a: Option<seq<int>>, b: Option<seq<int>>): (r: Option<seq<int>>)
    ensures r.Some? <==> a.Some? && b.Some?
    ensures r.Some? ==> r.value == a.value + b.value
  {
    if a.Some? && b.Some? then Some(a.value + b.value) else None
  }

  // ---------------------------------------------------------------- king

  /** The last file as the king and knight edge tests name it: the literal 7
      as written, n - 1 as intended. The two agree on the standard board. */
  function LastFile(n: int, ed: Edition): int
  {
    if ed == AsWritten then 7 else n - 1
  }

  /** King steps, in source order; the right-edge test allows files up to
      the one before `LastFile`. */
  function KingMoves(pos: int, n: int, ed: Edition): seq<int>
    requires n > 0
  {
    var up := pos - n >= 0;
    var down := pos + n < n * n;
    var left := pos % n >= 1;
    var right := pos % n <= LastFile(n, ed) - 1;
    (if up && left then [pos - n - 1] else [])
    + (if up then [pos - n] else [])
    + (if up && right then [pos - n + 1] else [])
    + (if right then [pos + 1] else [])
    + (if down && right then [pos + n + 1] else [])
    + (if down then [pos + n] else [])
    + (if down && left then [pos + n - 1] else [])
    + (if left then [pos - 1] else [])
  }

  /** One king step away: on the board, a different square, at most one rank
      and one file away. */
  ghost predicate KingStep(from: int, to: int, n: int)
    requires n > 0
  {
    && OnBoard(to, n) && to != from
    && -1 <= Rank(to, n) - Rank(from, n) <= 1
    && -1 <= File(to, n) - File(from, n) <= 1
  }

  /** A square dr ranks and df files away that stays on the board is a
      king step away when neither offset exceeds one. */
  lemma Neighbour(pos: int, n: int, dr: int, df: int)
    requires n > 0 && OnBoard(pos, n)
    requires -1 <= dr <= 1 && -1 <= df <= 1 && (dr != 0 || df != 0)
    requires 0 <= Rank(pos, n) + dr < n && 0 <= File(pos, n) + df < n
    ensures KingStep(pos, pos + dr * n + df, n)
  {
    Shift(pos, n, dr, df);
    Coordinates(pos + dr * n + df, n);
  }

  /** Every king candidate is a neighbouring square, none leaving the board
      or wrapping round an edge: as intended on every board, as written on
      boards of side 8 or more. */
  lemma KingMovesSound(pos: int, n: int, ed: Edition)
    requires n > 0 && OnBoard(pos, n) && (ed == Intended || n >= 8)
    ensures forall c :: c in KingMoves(pos, n, ed) ==> KingStep(pos, c, n)
  {
    forall c | c in KingMoves(pos, n, ed)
      ensures KingStep(pos, c, n)
    {
      KingCandidate(pos, c, n, ed);
    }
  }

  /** One king candidate at a time: each edge test the source makes keeps
      the step inside the board. */
  lemma KingCandidate(pos: int, c: int, n: int, ed: Edition)
    requires n > 0 && OnBoard(pos, n) && (ed == Intended || n >= 8)
    requires c in KingMoves(pos, n, ed)
    ensures KingStep(pos, c, n)
  {
    Coordinates(pos, n);
    RankBounds(pos, n);
    var r, f := Rank(pos, n), File(pos, n);
    var up, down := pos - n >= 0, pos + n < n * n;
    var left, right := pos % n >= 1, pos % n <= LastFile(n, ed) - 1;
    assert up <==> r >= 1;
    assert down <==> r < n - 1;
    assert right ==> f + 1 < n;
    if up && left && c == pos - n - 1 { Neighbour(pos, n, -1, -1); }
    else if up && c == pos - n { Neighbour(pos, n, -1, 0); }
    else if up && right && c == pos - n + 1 { Neighbour(pos, n, -1, 1); }
    else if right && c == pos + 1 { Neighbour(pos, n, 0, 1); }
    else if down && right && c == pos + n + 1 { Neighbour(pos, n, 1, 1); }
    else if down && c == pos + n { Neighbour(pos, n, 1, 0); }
    else if down && left && c == pos + n - 1 { Neighbour(pos, n, 1, -1); }
    else { assert left && c == pos - 1; Neighbour(pos, n, 0, -1); }
  }

  /** On the standard board every neighbouring square is a king candidate. */
  lemma KingMovesComplete(pos: int, c: int, ed: Edition)
    requires OnBoard(pos, 8) && KingStep(pos, c, 8)
    ensures c in KingMoves(pos, 8, ed)
  {
    Coordinates(pos, 8);
    Coordinates(c, 8);
    RankBounds(pos, 8);
  }

  /** From a square off every edge of the standard board the king has eight
      candidates, from a corner three. */
  lemma KingCounts(pos: int, ed: Edition)
    requires OnBoard(pos, 8)
    ensures 1 <= Rank(pos, 8) <= 6 && 1 <= File(pos, 8) <= 6 ==> |KingMoves(pos, 8, ed)| == 8
    ensures pos in {0, 7, 56, 63} ==> |KingMoves(pos, 8, ed)| == 3
  {
    RankBounds(pos, 8);
  }

  /** As written, on a board of side 5 a king on the last file of rank 0
      (index 4) is offered index 5, the first square of the next rank. */
  lemma KingWrapsAsWritten()
    ensures 5 in KingMoves(4, 5, AsWritten)
    ensures !KingStep(4, 5, 5)
    ensures 5 !in KingMoves(4, 5, Intended)
  {
  }

  // -------------------------------------------------------------- knight

  /** Knight jumps in the four blocks of the source: two ranks down, two
      ranks up, two files left, two files right. The right-edge tests name
      `LastFile` (the literal 7, and 6 for two files, as written). */
  function KnightMoves(pos: int, n: int, ed: Edition): seq<int>
    requires n > 0
  {
    TwoDown(pos, n, ed) + TwoUp(pos, n, ed) + TwoLeft(pos, n) + TwoRight(pos, n, ed)
  }

  function TwoDown(pos: int, n: int, ed: Edition): seq<int>
    requires n > 0
  {
    if pos + 2 * n < n * n then
      (if pos % n != 0 then [pos + 2 * n - 1] else [])
      + (if pos % n != LastFile(n, ed) then [pos + 2 * n + 1] else [])
    else []
  }

  function TwoUp(pos: int, n: int, ed: Edition): seq<int>
    requires n > 0
  {
    if pos - 2 * n >= 0 then
      (if pos % n != 0 then [pos - 2 * n - 1] else [])
      + (if pos % n != LastFile(n, ed) then [pos - 2 * n + 1] else [])
    else []
  }

  function TwoLeft(pos: int, n: int): seq<int>
    requires n > 0
  {
    if !(pos % n <= 1) then
      (if pos - n >= 0 then [pos - 2 - n] else []) + (if pos + n < n * n then [pos - 2 + n] else [])
    else []
  }

  function TwoRight(pos: int, n: int, ed: Edition): seq<int>
    requires n > 0
  {
    if !(pos % n >= LastFile(n, ed) - 1) then
      (if pos - n >= 0 then [pos + 2 - n] else []) + (if pos + n < n * n then [pos + 2 + n] else [])
    else []
  }

  /** A knight's jump: on the board, two ranks and one file away or one rank
      and two files away. */
  ghost predicate KnightJump(from: int, to: int, n: int)
    requires n > 0
  {
    var dr, df := Abs(Rank(to, n) - Rank(from, n)), Abs(File(to, n) - File(from, n));
    OnBoard(to, n) && ((dr == 2 && df == 1) || (dr == 1 && df == 2))
  }

  lemma Jump(pos: int, n: int, dr: int, df: int)
    requires n > 0 && OnBoard(pos, n)
    requires (Abs(dr) == 2 && Abs(df) == 1) || (Abs(dr) == 1 && Abs(df) == 2)
    requires 0 <= Rank(pos, n) + dr < n && 0 <= File(pos, n) + df < n
    ensures KnightJump(pos, pos + dr * n + df, n)
  {
    Shift(pos, n, dr, df);
    Coordinates(pos + dr * n + df, n);
  }

  /** Two ranks below a square of the board there is a rank exactly when
      the index plus 2n is still on the board; likewise above. */
  lemma TwoRanks(pos: int, n: int)
    requires n > 0 && OnBoard(pos, n)
    ensures pos + 2 * n < n * n <==> Rank(pos, n) + 2 < n
    ensures pos - 2 * n >= 0 <==> Rank(pos, n) >= 2
  {
    Coordinates(pos, n);
    RankBounds(pos, n);
    if pos + n < n * n {
      Shift(pos, n, 1, 0);
      RankBounds(pos + n, n);
    }
    if pos - n >= 0 {
      Shift(pos, n, -1, 0);
      RankBounds(pos - n, n);
    }
  }

  /** The jumps two ranks down. */
  lemma TwoDownSound(pos: int, c: int, n: int, ed: Edition)
    requires n > 0 && OnBoard(pos, n) && LastFile(n, ed) == n - 1
    requires c in TwoDown(pos, n, ed)
    ensures KnightJump(pos, c, n)
  {
    Coordinates(pos, n);
    TwoRanks(pos, n);
    var f := pos % n;
    if c == pos + 2 * n - 1 && f != 0 { Jump(pos, n, 2, -1); }
    else { assert c == pos + 2 * n + 1 && f != n - 1; Jump(pos, n, 2, 1); }
  }

  /** The jumps two ranks up. */
  lemma TwoUpSound(pos: int, c: int, n: int, ed: Edition)
    requires n > 0 && OnBoard(pos, n) && LastFile(n, ed) == n - 1
    requires c in TwoUp(pos, n, ed)
    ensures KnightJump(pos, c, n)
  {
    Coordinates(pos, n);
    TwoRanks(pos, n);
    var f := pos % n;
    if c == pos - 2 * n - 1 && f != 0 { Jump(pos, n, -2, -1); }
    else { assert c == pos - 2 * n + 1 && f != n - 1; Jump(pos, n, -2, 1); }
  }

  /** The jumps two files left. */
  lemma TwoLeftSound(pos: int, c: int, n: int)
    requires n > 0 && OnBoard(pos, n)
    requires c in TwoLeft(pos, n)
    ensures KnightJump(pos, c, n)
  {
    Coordinates(pos, n);
    RankBounds(pos, n);
    if c == pos - 2 - n && pos - n >= 0 { Jump(pos, n, -1, -2); }
    else { assert c == pos - 2 + n && pos + n < n * n; Jump(pos, n, 1, -2); }
  }

  /** The jumps two files right. */
  lemma TwoRightSound(pos: int, c: int, n: int, ed: Edition)
    requires n > 0 && OnBoard(pos, n) && LastFile(n, ed) == n - 1
    requires c in TwoRight(pos, n, ed)
    ensures KnightJump(pos, c, n)
  {
    Coordinates(pos, n);
    RankBounds(pos, n);
    assert File(pos, n) + 2 < n;
    if c == pos + 2 - n && pos - n >= 0 {
      assert Rank(pos, n) >= 1;
      Jump(pos, n, -1, 2);
    } else {
      assert c == pos + 2 + n && pos + n < n * n;
      assert Rank(pos, n) < n - 1;
      Jump(pos, n, 1, 2);
    }
  }

  /** Every knight candidate is a knight's jump away, none leaving the board
      or wrapping round an edge: as intended on every board, as written on
      the standard board. */
  lemma KnightMovesSound(pos: int, c: int, n: int, ed: Edition)
    requires n > 0 && OnBoard(pos, n) && (ed == Intended || n == 8)
    requires c in KnightMoves(pos, n, ed)
    ensures KnightJump(pos, c, n)
  {
    if c in TwoDown(pos, n, ed) { TwoDownSound(pos, c, n, ed); }
    else if c in TwoUp(pos, n, ed) { TwoUpSound(pos, c, n, ed); }
    else if c in TwoLeft(pos, n) { TwoLeftSound(pos, c, n); }
    else { TwoRightSound(pos, c, n, ed); }
  }

  /** As written, on a board of side 9 a knight on the last file of rank 0
      (index 8) is offered index 27, the first square of rank 3. */
  lemma KnightWrapsAsWritten()
    ensures 27 in KnightMoves(8, 9, AsWritten)
    ensures !KnightJump(8, 27, 9)
    ensures 27 !in KnightMoves(8, 9, Intended)
  {
  }

  /** On the standard board every square a knight's jump away is a
      candidate. */
  lemma KnightMovesComplete(pos: int, c: int, ed: Edition)
    requires OnBoard(pos, 8) && KnightJump(pos, c, 8)
    ensures c in KnightMoves(pos, 8, ed)
  {
    Coordinates(pos, 8);
    Coordinates(c, 8);
    var dr, df := Rank(c, 8) - Rank(pos, 8), File(c, 8) - File(pos, 8);
    assert c == pos + dr * 8 + df;
    var f := pos % 8;
    var m := KnightMoves(pos, 8, ed);
    if dr == 2 {
      assert pos + 16 < 64;
      if df == -1 { assert m[0] == c; } else { assert f != 7; }
    } else if dr == -2 {
      assert pos - 16 >= 0;
    } else if df == -2 {
      assert !(f <= 1);
    } else {
      assert !(f >= 6);
    }
  }

  /** From a central square of the standard board (such as index 27, d5) the
      knight has eight candidates, from a corner two. */
  lemma KnightCounts(pos: int, ed: Edition)
    requires OnBoard(pos, 8)
    ensures 2 <= Rank(pos, 8) <= 5 && 2 <= File(pos, 8) <= 5 ==> |KnightMoves(pos, 8, ed)| == 8
    ensures pos in {0, 7, 56, 63} ==> |KnightMoves(pos, 8, ed)| == 2
  {
    Coordinates(pos, 8);
  }

  // ---------------------------------------------------------------- pawn

  /** The square straight ahead of a pawn: up the board for White. */
  function Ahead(colour: Colour, pos: int, n: int): int
  {
    if colour == White then pos - n else pos + n
  }

  /** Whether the source's bounds test accepts the square ahead. */
  predicate AheadInside(colour: Colour, pos: int, n: int)
  {
    if colour == White then pos - n >= 0 else pos + n < n * n
  }

  /** Pawn moves as written: the push when the square ahead is free, and both
      diagonals when the square AHEAD is occupied (not the diagonal square
      itself). The read of the square ahead is unguarded on the capture lines,
      so a black pawn on the last rank makes it raise (None), while a white
      pawn on rank 0 reads a wrapped negative index whose value is then
      ignored. */
  function PawnMoves(colour: Colour, pos: int, obstacles: seq<bool>, n: int): Option<seq<int>>
    requires n > 0
  {
    var ahead := Ahead(colour, pos, n);
    var inside := AheadInside(colour, pos, n);
    match PyRead(obstacles, ahead)
    case None => None
    case Some(blocked) =>
      Some((if inside && !blocked then [ahead] else [])
           + (if blocked && inside && pos % n > 0 then [ahead - 1] else [])
           + (if blocked && inside && pos % n < n - 1 then [ahead + 1] else []))
  }

  /** On a mask sized for the board: the generator raises exactly for a black
      pawn on the last rank; the push square is the one ahead and is listed
      exactly when it is on the board and free; each diagonal that stays on
      the board is listed exactly when the square ahead is occupied (whatever
      the diagonal square holds), so push and captures exclude each other
      and there are at most two candidates; every candidate is on the board,
      one rank forward and at most one file aside. */
  lemma PawnMovesSpec(colour: Colour, pos: int, obstacles: seq<bool>, n: int)
    requires n > 0 && |obstacles| == n * n && OnBoard(pos, n)
    ensures PawnMoves(colour, pos, obstacles, n).None? <==> colour == Black && Rank(pos, n) == n - 1
    ensures PawnMoves(colour, pos, obstacles, n).Some? ==>
      var r := PawnMoves(colour, pos, obstacles, n).value;
      var ahead := Ahead(colour, pos, n);
      var forward := if colour == White then -1 else 1;
      && |r| <= 2
      && (ahead in r <==> OnBoard(ahead, n) && !obstacles[ahead])
      && (forall c :: c in r && c != ahead ==> OnBoard(ahead, n) && obstacles[ahead])
      && (ahead - 1 in r <==> OnBoard(ahead, n) && obstacles[ahead] && File(pos, n) > 0)
      && (ahead + 1 in r <==> OnBoard(ahead, n) && obstacles[ahead] && File(pos, n) < n - 1)
      && (forall c :: c in r ==>
            && OnBoard(c, n)
            && Rank(c, n) == Rank(pos, n) + forward
            && -1 <= File(c, n) - File(pos, n) <= 1)
  {
    Coordinates(pos, n);
    RankBounds(pos, n);
    var ahead := Ahead(colour, pos, n);
    var forward := if colour == White then -1 else 1;
    if AheadInside(colour, pos, n) {
      assert 0 <= Rank(pos, n) + forward < n;
      Shift(pos, n, forward, 0);
      Coordinates(ahead, n);
      assert ahead == pos + forward * n + 0;
      if pos % n > 0 {
        Shift(pos, n, forward, -1);
        assert ahead - 1 == pos + forward * n + (-1);
        Coordinates(ahead - 1, n);
      }
      if pos % n < n - 1 {
        Shift(pos, n, forward, 1);
        assert ahead + 1 == pos + forward * n + 1;
        Coordinates(ahead + 1, n);
      }
    } else if colour == Black {
      assert pos + n >= |obstacles|;
    }
  }

  /** Pawn moves as intended: the push when the square ahead is free, and a
      diagonal step forward when that diagonal square itself is occupied. A
      pawn with no rank ahead has no moves; a read past a short mask raises. */
  function PawnMovesIntended(colour: Colour, pos: int, obstacles: seq<bool>, n: int): Option<seq<int>>
    requires n > 0
  {
    var ahead := Ahead(colour, pos, n);
    if !AheadInside(colour, pos, n) then Some([])
    else
      var west := if pos % n > 0 then PyRead(obstacles, ahead - 1) else Some(false);
      var east := if pos % n < n - 1 then PyRead(obstacles, ahead + 1) else Some(false);
      match (PyRead(obstacles, ahead), west, east)
      case (Some(blocked), Some(w), Some(e)) =>
        Some((if !blocked then [ahead] else [])
             + (if w then [ahead - 1] else [])
             + (if e then [ahead + 1] else []))
      case _ => None
  }

  /** A square a pawn captures on: on the board, one rank forward and one
      file aside. */
  ghost predicate PawnCapture(colour: Colour, pos: int, c: int, n: int)
    requires n > 0
  {
    var forward := if colour == White then -1 else 1;
    OnBoard(c, n) && Rank(c, n) == Rank(pos, n) + forward && Abs(File(c, n) - File(pos, n)) == 1
  }

  /** The squares one rank forward of a board square, written as index
      offsets. */
  lemma ForwardSquares(colour: Colour, pos: int, n: int)
    requires n > 0 && OnBoard(pos, n) && AheadInside(colour, pos, n)
    ensures OnBoard(Ahead(colour, pos, n), n)
    ensures Rank(Ahead(colour, pos, n), n) == Rank(pos, n) + (if colour == White then -1 else 1)
    ensures File(Ahead(colour, pos, n), n) == File(pos, n)
    ensures forall c :: PawnCapture(colour, pos, c, n) <==>
      (c == Ahead(colour, pos, n) - 1 && File(pos, n) > 0)
      || (c == Ahead(colour, pos, n) + 1 && File(pos, n) < n - 1)
  {
    Coordinates(pos, n);
    RankBounds(pos, n);
    var forward := if colour == White then -1 else 1;
    var ahead := Ahead(colour, pos, n);
    assert 0 <= Rank(pos, n) + forward < n;
    Shift(pos, n, forward, 0);
    assert ahead == pos + forward * n + 0;
    Coordinates(ahead, n);
    forall c
      ensures PawnCapture(colour, pos, c, n) <==>
        (c == ahead - 1 && File(pos, n) > 0) || (c == ahead + 1 && File(pos, n) < n - 1)
    {
      if c == ahead - 1 && File(pos, n) > 0 {
        Shift(pos, n, forward, -1);
        assert c == pos + forward * n + (-1);
        Coordinates(c, n);
      } else if c == ahead + 1 && File(pos, n) < n - 1 {
        Shift(pos, n, forward, 1);
        assert c == pos + forward * n + 1;
        Coordinates(c, n);
      } else if PawnCapture(colour, pos, c, n) {
        Coordinates(c, n);
        assert false;
      }
    }
  }

  /** On a mask sized for the board the intended generator never raises, and
      a square is a candidate exactly when it is the free square ahead or an
      occupied square a pawn captures on. */
  lemma PawnMovesIntendedSpec(colour: Colour, pos: int, obstacles: seq<bool>, n: int)
    requires n > 0 && |obstacles| == n * n && OnBoard(pos, n)
    ensures PawnMovesIntended(colour, pos, obstacles, n).Some?
    ensures forall c :: c in PawnMovesIntended(colour, pos, obstacles, n).value <==>
      || (c == Ahead(colour, pos, n) && OnBoard(c, n) && !obstacles[c])
      || (PawnCapture(colour, pos, c, n) && obstacles[c])
  {
    var ahead := Ahead(colour, pos, n);
    if AheadInside(colour, pos, n) {
      ForwardSquares(colour, pos, n);
      Coordinates(pos, n);
      if File(pos, n) > 0 { assert PawnCapture(colour, pos, ahead - 1, n); }
      if File(pos, n) < n - 1 { assert PawnCapture(colour, pos, ahead + 1, n); }
    } else {
      Coordinates(pos, n);
      RankBounds(pos, n);
      forall c ensures !PawnCapture(colour, pos, c, n) && !(c == ahead && OnBoard(c, n)) {
        if PawnCapture(colour, pos, c, n) {
          Coordinates(c, n);
          assert false;
        }
      }
    }
  }

  /** A standard-board mask with only index k occupied. */
  function OnlyAt(k: int): (m: seq<bool>)
    ensures |m| == 64 && forall i :: 0 <= i < 64 ==> m[i] == (i == k)
  {
    seq(64, i => i == k)
  }

  /** As written, a white pawn on e2 (index 52) facing a piece on e3 (44) is
      offered the empty squares d3 and f3 (43, 45); as intended it has no
      move. */
  lemma PawnPhantomCaptures()
    ensures PawnMoves(White, 52, OnlyAt(44), 8) == Some([43, 45])
    ensures PawnMovesIntended(White, 52, OnlyAt(44), 8) == Some([])
  {
    var mask := OnlyAt(44);
    assert mask[44] && !mask[43] && !mask[45];
    assert 52 % 8 == 4;
    assert PyRead(mask, 44) == Some(true);
    assert Ahead(White, 52, 8) == 44 && AheadInside(White, 52, 8);
    assert PawnMoves(White, 52, mask, 8) == Some([] + [43] + [45]);
    assert [] + [43] + [45] == [43, 45];
    assert PyRead(mask, 43) == Some(false) && PyRead(mask, 45) == Some(false);
    var none: seq<int> := [];
    assert PawnMovesIntended(White, 52, mask, 8) == Some(none + none + none);
    assert none + none + none == [];
  }

  /** The same mirrored: as written, a black pawn on e7 (index 12) facing a
      piece on e6 (20) is offered the empty squares d6 and f6 (19, 21); as
      intended it has no move. */
  lemma BlackPawnPhantomCaptures()
    ensures PawnMoves(Black, 12, OnlyAt(20), 8) == Some([19, 21])
    ensures PawnMovesIntended(Black, 12, OnlyAt(20), 8) == Some([])
  {
    var mask := OnlyAt(20);
    assert mask[20] && !mask[19] && !mask[21];
    assert 12 % 8 == 4;
    assert PyRead(mask, 20) == Some(true);
    assert Ahead(Black, 12, 8) == 20 && AheadInside(Black, 12, 8);
    assert PawnMoves(Black, 12, mask, 8) == Some([] + [19] + [21]);
    assert [] + [19] + [21] == [19, 21];
    assert PyRead(mask, 19) == Some(false) && PyRead(mask, 21) == Some(false);
    var none: seq<int> := [];
    assert PawnMovesIntended(Black, 12, mask, 8) == Some(none + none + none);
    assert none + none + none == [];
  }

  /** As written, a white pawn on e2 with a piece on d3 (43) and e3 free is
      offered only the push; as intended it may also capture on d3. */
  lemma PawnMissedCapture()
    ensures PawnMoves(White, 52, OnlyAt(43), 8) == Some([44])
    ensures PawnMovesIntended(White, 52, OnlyAt(43), 8) == Some([44, 43])
  {
    var mask := OnlyAt(43);
    assert !mask[44] && mask[43] && !mask[45];
    assert 52 % 8 == 4;
    assert PyRead(mask, 44) == Some(false);
    assert PyRead(mask, 43) == Some(true) && PyRead(mask, 45) == Some(false);
    assert Ahead(White, 52, 8) == 44 && AheadInside(White, 52, 8);
    var none: seq<int> := [];
    assert PawnMoves(White, 52, mask, 8) == Some([44] + none + none);
    assert PawnMovesIntended(White, 52, mask, 8) == Some([44] + [43] + none);
    assert [44] + none + none == [44];
    assert [44] + [43] + none == [44, 43];
  }

  // ------------------------------------------------- rook, bishop, queen

  /** `obstacles[position] = False`, or None when that assignment raises. */
  function ClearOrigin(obstacles: seq<bool>, pos: int): (r: Option<seq<bool>>)
    ensures r.Some? <==> PyIndex(|obstacles|, pos).Some?
    ensures r.Some? ==> |r.value| == |obstacles|
  {
    match PyIndex(|obstacles|, pos)
    case None => None
    case Some(j) => Some(obstacles[j := false])
  }

  /** The rook's four walks in source order: right, left, up, down. */
  function RookRays(mask: seq<bool>, n: int, pos: int, ed: Edition): Option<seq<int>>
    requires n > 0
  {
    Join(Join(Join(Walk(mask, n, pos, East), Walk(mask, n, pos, West)),
              Walk(mask, n, pos, NorthRay(ed))),
         Walk(mask, n, pos, South))
  }

  /** The bishop's four walks in source order: north-east, south-east,
      south-west, north-west. */
  function BishopRays(mask: seq<bool>, n: int, pos: int): Option<seq<int>>
    requires n > 0
  {
    Join(Join(Join(Walk(mask, n, pos, NorthEast), Walk(mask, n, pos, SouthEast)),
              Walk(mask, n, pos, SouthWest)),
         Walk(mask, n, pos, NorthWest))
  }

  function RookGenerate(pos: int, obstacles: seq<bool>, n: int, ed: Edition): Option<Generated>
    requires n > 0
  {
    match ClearOrigin(obstacles, pos)
    case None => None
    case Some(mask) =>
      match RookRays(mask, n, pos, ed)
      case None => None
      case Some(m) => Some(Generated(m, mask))
  }

  function BishopGenerate(pos: int, obstacles: seq<bool>, n: int): Option<Generated>
    requires n > 0
  {
    match ClearOrigin(obstacles, pos)
    case None => None
    case Some(mask) =>
      match BishopRays(mask, n, pos)
      case None => None
      case Some(m) => Some(Generated(m, mask))
  }

  /** The queen runs a rook from its square on the caller's mask, then a
      bishop from its square on the mask as the rook left it. */
  function QueenGenerate(pos: int, obstacles: seq<bool>, n: int, ed: Edition): Option<Generated>
    requires n > 0
  {
    match RookGenerate(pos, obstacles, n, ed)
    case None => None
    case Some(g1) =>
      match BishopGenerate(pos, g1.mask, n)
      case None => None
      case Some(g2) => Some(Generated(g1.moves + g2.moves, g2.mask))
  }

  /** The queen's candidates are the rook's followed by the bishop's, both
      computed from the same square and the same caller's mask. */
  lemma QueenIsRookThenBishop(pos: int, obstacles: seq<bool>, n: int, ed: Edition)
    requires n > 0
    ensures QueenGenerate(pos, obstacles, n, ed).Some? <==>
      RookGenerate(pos, obstacles, n, ed).Some? && BishopGenerate(pos, obstacles, n).Some?
    ensures QueenGenerate(pos, obstacles, n, ed).Some? ==>
      QueenGenerate(pos, obstacles, n, ed).value.moves ==
        RookGenerate(pos, obstacles, n, ed).value.moves + BishopGenerate(pos, obstacles, n).value.moves
  {
    match PyIndex(|obstacles|, pos)
    case None =>
    case Some(j) =>
      var mask := obstacles[j := false];
      assert mask[j := false] == mask;
      assert ClearOrigin(mask, pos) == ClearOrigin(obstacles, pos);
  }

  /** On a mask sized for the board, the rook never raises and every
      candidate is another square of the board on the rook's rank or file. */
  lemma RookMovesOnLines(pos: int, obstacles: seq<bool>, n: int, ed: Edition)
    requires n > 0 && |obstacles| == n * n && OnBoard(pos, n)
    ensures RookGenerate(pos, obstacles, n, ed).Some?
    ensures forall c :: c in RookGenerate(pos, obstacles, n, ed).value.moves ==>
      OnBoard(c, n) && c != pos && (Rank(c, n) == Rank(pos, n) || File(c, n) == File(pos, n))
  {
    var mask := obstacles[pos := false];
    assert ClearOrigin(obstacles, pos) == Some(mask);
    WalkAlong(mask, n, pos, East);
    WalkAlong(mask, n, pos, West);
    WalkAlong(mask, n, pos, NorthRay(ed));
    WalkAlong(mask, n, pos, South);
    var e, w := Walk(mask, n, pos, East).value, Walk(mask, n, pos, West).value;
    var u, s := Walk(mask, n, pos, NorthRay(ed)).value, Walk(mask, n, pos, South).value;
    assert RookGenerate(pos, obstacles, n, ed) == Some(Generated(e + w + u + s, mask));
    forall c | c in e + w + u + s
      ensures OnBoard(c, n) && c != pos && (Rank(c, n) == Rank(pos, n) || File(c, n) == File(pos, n))
    {
      if c in e { RayMember(n, pos, East, e, c); }
      else if c in w { RayMember(n, pos, West, w, c); }
      else if c in u { RayMember(n, pos, NorthRay(ed), u, c); }
      else { RayMember(n, pos, South, s, c); }
    }
  }

  /** On a mask sized for the board, the bishop never raises and every
      candidate is another square of the board whose rank and file offsets
      from the bishop are equal in size and not zero. */
  lemma BishopMovesOnDiagonals(pos: int, obstacles: seq<bool>, n: int)
    requires n > 0 && |obstacles| == n * n && OnBoard(pos, n)
    ensures BishopGenerate(pos, obstacles, n).Some?
    ensures forall c :: c in BishopGenerate(pos, obstacles, n).value.moves ==>
      OnBoard(c, n) && Abs(Rank(c, n) - Rank(pos, n)) == Abs(File(c, n) - File(pos, n)) > 0
  {
    var mask := obstacles[pos := false];
    assert ClearOrigin(obstacles, pos) == Some(mask);
    WalkAlong(mask, n, pos, NorthEast);
    WalkAlong(mask, n, pos, SouthEast);
    WalkAlong(mask, n, pos, SouthWest);
    WalkAlong(mask, n, pos, NorthWest);
    var a, b := Walk(mask, n, pos, NorthEast).value, Walk(mask, n, pos, SouthEast).value;
    var e, f := Walk(mask, n, pos, SouthWest).value, Walk(mask, n, pos, NorthWest).value;
    assert BishopGenerate(pos, obstacles, n) == Some(Generated(a + b + e + f, mask));
    forall c | c in a + b + e + f
      ensures OnBoard(c, n) && Abs(Rank(c, n) - Rank(pos, n)) == Abs(File(c, n) - File(pos, n)) > 0
    {
      if c in a { RayMember(n, pos, NorthEast, a, c); }
      else if c in b { RayMember(n, pos, SouthEast, b, c); }
      else if c in e { RayMember(n, pos, SouthWest, e, c); }
      else { RayMember(n, pos, NorthWest, f, c); }
    }
  }

  // ------------------------------------------------------------ dispatch

  /** The sliding pieces write `False` into the caller's mask at their own
      square before walking. */
  predicate Slides(k: Kind)
  {
    k == Rook || k == Bishop || k == Queen
  }

  /** `getMoves` dispatched on the piece's kind, or None when it raises. */
  function GetMoves(p: Piece, obstacles: seq<bool>, n: int, ed: Edition): (r: Option<Generated>)
    requires n > 0
    ensures r.Some? ==> |r.value.mask| == |obstacles|
    ensures r.Some? ==> forall i :: 0 <= i < |obstacles| ==>
      r.value.mask[i] == (obstacles[i] && !(Slides(p.kind) && PyIndex(|obstacles|, p.position) == Some(i)))
  {
    match p.kind
    case King => Some(Generated(KingMoves(p.position, n, ed), obstacles))
    case Knight => Some(Generated(KnightMoves(p.position, n, ed), obstacles))
    case Pawn =>
      var pawn := if ed == AsWritten then PawnMoves(p.colour, p.position, obstacles, n)
                  else PawnMovesIntended(p.colour, p.position, obstacles, n);
      (match pawn
       case None => None
       case Some(m) => Some(Generated(m, obstacles)))
    case Rook => RookGenerate(p.position, obstacles, n, ed)
    case Bishop => BishopGenerate(p.position, obstacles, n)
    case Queen => QueenGenerate(p.position, obstacles, n, ed)
  }

  /** King and knight candidates do not depend on the mask at all. */
  lemma JumpersIgnoreObstacles(p: Piece, a: seq<bool>, b: seq<bool>, n: int, ed: Edition)
    requires n > 0 && (p.kind == King || p.kind == Knight)
    ensures GetMoves(p, a, n, ed).Some? && GetMoves(p, b, n, ed).Some?
    ensures GetMoves(p, a, n, ed).value.moves == GetMoves(p, b, n, ed).value.moves
  {
  }

  /** A black pawn on the last rank, whose generator reads past the mask. */
  predicate StrandedPawn(p: Piece, n: int)
    requires n > 0
  {
    p.kind == Pawn && p.colour == Black && Rank(p.position, n) == n - 1
  }

  /** On the standard board with a full-size mask, generation from a square of
      the board raises only for a black pawn on the last rank, as written, and
      never as intended; every candidate is another square of the board. */
  lemma GetMovesOnBoard(p: Piece, obstacles: seq<bool>, ed: Edition)
    requires |obstacles| == 64 && OnBoard(p.position, 8)
    ensures GetMoves(p, obstacles, 8, ed).Some? <==> !(ed == AsWritten && StrandedPawn(p, 8))
    ensures GetMoves(p, obstacles, 8, ed).Some? ==>
      forall c :: c in GetMoves(p, obstacles, 8, ed).value.moves ==> OnBoard(c, 8) && c != p.position
  {
    var pos := p.position;
    match p.kind
    case King =>
      KingMovesSound(pos, 8, ed);
    case Knight =>
      forall c | c in KnightMoves(pos, 8, ed) ensures OnBoard(c, 8) && c != pos {
        KnightMovesSound(pos, c, 8, ed);
      }
    case Pawn =>
      if ed == AsWritten {
        PawnMovesSpec(p.colour, pos, obstacles, 8);
      } else {
        PawnMovesIntendedSpec(p.colour, pos, obstacles, 8);
        forall c | c in PawnMovesIntended(p.colour, pos, obstacles, 8).value ensures OnBoard(c, 8) && c != pos {
          if c != Ahead(p.colour, pos, 8) {
            Coordinates(c, 8);
            Coordinates(pos, 8);
          } else {
            ForwardSquares(p.colour, pos, 8);
          }
        }
      }
    case Rook =>
      RookMovesOnLines(pos, obstacles, 8, ed);
    case Bishop =>
      BishopMovesOnDiagonals(pos, obstacles, 8);
    case Queen =>
      QueenIsRookThenBishop(pos, obstacles, 8, ed);
      RookMovesOnLines(pos, obstacles, 8, ed);
      BishopMovesOnDiagonals(pos, obstacles, 8);
  }

  /** As written, a rook on the first file below rank 0 never reaches the
      corner index 0, whatever the mask; as intended it reaches it over an
      otherwise empty board. */
  lemma RookCorner(pos: int, obstacles: seq<bool>, n: int)
    requires n > 0 && |obstacles| == n * n && OnBoard(pos, n)
    requires File(pos, n) == 0 && Rank(pos, n) >= 1
    ensures RookGenerate(pos, obstacles, n, AsWritten).Some?
    ensures 0 !in RookGenerate(pos, obstacles, n, AsWritten).value.moves
    ensures (forall i :: 0 <= i < |obstacles| && i != pos ==> !obstacles[i]) ==>
      RookGenerate(pos, obstacles, n, Intended).Some? && 0 in RookGenerate(pos, obstacles, n, Intended).value.moves
  {
    var mask := obstacles[pos := false];
    assert ClearOrigin(obstacles, pos) == Some(mask);
    Coordinates(0, n);
    WalkAlong(mask, n, pos, East);
    WalkAlong(mask, n, pos, West);
    WalkAlong(mask, n, pos, South);
    WalkAlong(mask, n, pos, NorthCorrected);
    NorthMissesCorner(mask, n, pos);
    var e, w := Walk(mask, n, pos, East).value, Walk(mask, n, pos, West).value;
    var s := Walk(mask, n, pos, South).value;
    if 0 in e { RayMember(n, pos, East, e, 0); }
    if 0 in w { RayMember(n, pos, West, w, 0); }
    if 0 in s { RayMember(n, pos, South, s, 0); }
    if forall i :: 0 <= i < |obstacles| && i != pos ==> !obstacles[i] {
      NorthCorrectedReachesTop(mask, n, pos);
    }
  }
}
