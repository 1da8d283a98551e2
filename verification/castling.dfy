/** Revoking the castling rights a side has lost: the helper defined inside
    the enforced move at chess.py:405-463. For every right of the colour it
    keeps the right only while the king stands on its home square and, for a
    kingside (queenside) right, a rook of the colour stands at least two
    squares east (west) of the king on the king's rank. */
module Castling {
  import opened Wrappers
  import opened Geometry
  import opened Indexing
  import opened Piece
  import opened Squares

  /** The rights a colour holds: upper-case letters for White, lower-case
      letters for Black. */
  predicate Owns(colour: Colour, right: char)
  {
    if colour == White then IsUpper(right) else IsLower(right)
  }

  /** The colour's rights, in the order they are listed. */
  function ColourRights(rights: seq<char>, colour: Colour): (r: seq<char>)
    ensures |r| <= |rights|
    ensures forall c :: c in r <==> c in rights && Owns(colour, c)
  {
    if |rights| == 0 then []
    else (if Owns(colour, rights[0]) then [rights[0]] else []) + ColourRights(rights[1..], colour)
  }

  predicate IsKingOf(cell: Option<Piece>, colour: Colour)
  {
    cell.Some? && cell.value.kind == King && cell.value.colour == colour
  }

  predicate IsRookOf(cell: Option<Piece>, colour: Colour)
  {
    cell.Some? && cell.value.kind == Rook && cell.value.colour == colour
  }

  /** The index of the first king of the colour at or after `from`. */
  function FindKing(cells: seq<Option<Piece>>, colour: Colour, from: nat): (r: Option<nat>)
    ensures r.Some? ==> from <= r.value < |cells| && IsKingOf(cells[r.value], colour)
    ensures forall j :: from <= j < |cells| && (r.None? || j < r.value) ==> !IsKingOf(cells[j], colour)
    decreases |cells| - from
  {
    if from >= |cells| then None
    else if IsKingOf(cells[from], colour) then Some(from)
    else FindKing(cells, colour, from + 1)
  }

  /** The king stands on the e-file of its own back rank: the last row of
      the array for White, row 0 for Black. */
  predicate AtHome(king: int, colour: Colour, n: int)
    requires n > 0
  {
    File(king, n) == 4 && Rank(king, n) == (if colour == White then n - 1 else 0)
  }

  /** The kingside search: step east from `cur` until the last file, and
      report whether a rook of the colour stands at least two squares east
      of the king. A rook one square away does not end the search, and
      neither does any other piece. Reading past the array raises. */
  function ScanEast(cells: seq<Option<Piece>>, colour: Colour, king: int, cur: int, n: int): Option<bool>
    requires n > 0
    decreases n - File(cur, n)
  {
    if File(cur, n) < n - 1 then
      Shift(cur, n, 0, 1);
      var next := cur + 1;
      match PyRead(cells, next)
      case None => None
      case Some(cell) =>
        if IsRookOf(cell, colour) && next - king >= 2 then Some(true)
        else ScanEast(cells, colour, king, next, n)
    else Some(false)
  }

  /** The queenside search: step west from `cur` until the first file. */
  function ScanWest(cells: seq<Option<Piece>>, colour: Colour, king: int, cur: int, n: int): Option<bool>
    requires n > 0
    decreases File(cur, n)
  {
    if File(cur, n) > 0 then
      Shift(cur, n, 0, -1);
      var next := cur - 1;
      match PyRead(cells, next)
      case None => None
      case Some(cell) =>
        if IsRookOf(cell, colour) && king - next >= 2 then Some(true)
        else ScanWest(cells, colour, king, next, n)
    else Some(false)
  }

  /** Whether one right of the colour survives the check, or None when the
      search raises. */
  function Survives(cells: seq<Option<Piece>>, colour: Colour, king: int, right: char, n: int): Option<bool>
    requires n > 0
  {
    if !AtHome(king, colour, n) then Some(false)
    else if Lower(right) == 'k' then ScanEast(cells, colour, king, king, n)
    else if Lower(right) == 'q' then ScanWest(cells, colour, king, king, n)
    else Some(true)
  }

  /** `list.remove`: drop the first occurrence, raising when there is none. */
  function RemoveFirst(xs: seq<char>, x: char): (r: Option<seq<char>>)
    ensures r.None? <==> x !in xs
    ensures r.Some? ==> |r.value| == |xs| - 1
  {
    if |xs| == 0 then None
    else if xs[0] == x then Some(xs[1..])
    else
      match RemoveFirst(xs[1..], x)
      case None => None
      case Some(rest) => Some([xs[0]] + rest)
  }

  /** The loop over the colour's rights: each right that does not survive is
      removed from the list, one occurrence at a time. */
  function Revoke(pending: seq<char>, rights: seq<char>, cells: seq<Option<Piece>>,
                  colour: Colour, king: int, n: int): Result<seq<char>>
    requires n > 0
    decreases |pending|
  {
    if |pending| == 0 then Ok(rights)
    else
      match Survives(cells, colour, king, pending[0], n)
      case None => Fail
      case Some(true) => Revoke(pending[1..], rights, cells, colour, king, n)
      case Some(false) =>
        match RemoveFirst(rights, pending[0])
        case None => Fail
        case Some(rest) => Revoke(pending[1..], rest, cells, colour, king, n)
  }

  /** The helper with its board loop read as `enumerate(self.boardPieces)`:
      nothing changes when the colour has no king. */
  function CheckCastlingRights(rights: seq<char>, cells: seq<Option<Piece>>, colour: Colour, n: int)
    : Result<seq<char>>
    requires n > 0
  {
    match FindKing(cells, colour, 0)
    case None => Ok(rights)
    case Some(king) => Revoke(ColourRights(rights, colour), rights, cells, colour, king, n)
  }

  /** The helper as written: its board loop unpacks every cell into an index
      and a piece, which raises on the first cell, whether empty or a piece;
      only an empty board gets through, and it has no king. */
  function CheckCastlingRightsAsWritten(rights: seq<char>, cells: seq<Option<Piece>>, colour: Colour)
    : (r: Result<seq<char>>)
    ensures r.Ok? <==> |cells| == 0
    ensures r.Ok? ==> r.value == rights
  {
    if |cells| > 0 then Fail else Ok(rights)
  }

  // --------------------------------------------------------- properties

  /** The last index of the king's rank. */
  function RowEnd(king: int, n: int): int
    requires n > 0
  {
    king - File(king, n) + n - 1
  }

  /** The first index of the king's rank. */
  function RowStart(king: int, n: int): int
    requires n > 0
  {
    king - File(king, n)
  }

  /** A rook of the colour at least two squares east of the king, on its rank. */
  predicate RookEast(cells: seq<Option<Piece>>, colour: Colour, king: int, n: int)
    requires n > 0
  {
    exists j :: king + 2 <= j <= RowEnd(king, n) && 0 <= j < |cells| && IsRookOf(cells[j], colour)
  }

  /** A rook of the colour at least two squares west of the king, on its rank. */
  predicate RookWest(cells: seq<Option<Piece>>, colour: Colour, king: int, n: int)
    requires n > 0
  {
    exists j :: RowStart(king, n) <= j <= king - 2 && 0 <= j < |cells| && IsRookOf(cells[j], colour)
  }

  /** The rule a right of the colour is kept by. */
  predicate KeepsRight(cells: seq<Option<Piece>>, colour: Colour, king: int, right: char, n: int)
    requires n > 0
  {
    && AtHome(king, colour, n)
    && (Lower(right) == 'k' ==> RookEast(cells, colour, king, n))
    && (Lower(right) == 'q' ==> RookWest(cells, colour, king, n))
  }

  /** The rights left afterwards, as a filter: the other colour's rights all
      stay, the colour's rights stay when the rule keeps them. */
  function Retain(rights: seq<char>, cells: seq<Option<Piece>>, colour: Colour, king: int, n: int)
    : (r: seq<char>)
    requires n > 0
    ensures |r| <= |rights|
    ensures forall c :: c in r <==>
      c in rights && (!Owns(colour, c) || KeepsRight(cells, colour, king, c, n))
  {
    if |rights| == 0 then []
    else
      var c := rights[0];
      (if !Owns(colour, c) || KeepsRight(cells, colour, king, c, n) then [c] else [])
        + Retain(rights[1..], cells, colour, king, n)
  }

  /** The eastward search over a full board finds exactly the rooks of the
      colour between `cur` and the end of the king's rank that stand at
      least two squares from the king. */
  lemma {:induction false} ScanEastFinds(cells: seq<Option<Piece>>, colour: Colour, king: int, cur: int, n: int)
    requires n > 0 && |cells| == n * n && OnBoard(king, n)
    requires king <= cur && Rank(cur, n) == Rank(king, n)
    ensures ScanEast(cells, colour, king, cur, n) ==
      Some(exists j :: cur < j <= RowEnd(king, n) && king + 2 <= j && 0 <= j < |cells| && IsRookOf(cells[j], colour))
    decreases n - File(cur, n)
  {
    Coordinates(cur, n);
    Coordinates(king, n);
    MulMonotone(Rank(king, n), n, n);
    if File(cur, n) < n - 1 {
      Shift(cur, n, 0, 1);
      assert cur + 1 < |cells|;
      ScanEastFinds(cells, colour, king, cur + 1, n);
    }
  }

  /** The westward search over a full board finds exactly the rooks of the
      colour between the start of the king's rank and `cur` that stand at
      least two squares from the king. */
  lemma {:induction false} ScanWestFinds(cells: seq<Option<Piece>>, colour: Colour, king: int, cur: int, n: int)
    requires n > 0 && |cells| == n * n && OnBoard(king, n)
    requires 0 <= cur <= king && Rank(cur, n) == Rank(king, n)
    ensures ScanWest(cells, colour, king, cur, n) ==
      Some(exists j :: RowStart(king, n) <= j < cur && j <= king - 2 && 0 <= j < |cells| && IsRookOf(cells[j], colour))
    decreases File(cur, n)
  {
    Coordinates(cur, n);
    Coordinates(king, n);
    if File(cur, n) > 0 {
      Shift(cur, n, 0, -1);
      ScanWestFinds(cells, colour, king, cur - 1, n);
    }
  }

  /** On a full board the check of one right never raises, and it keeps the
      right exactly when the rule does. */
  lemma SurvivesMeansKept(cells: seq<Option<Piece>>, colour: Colour, king: int, right: char, n: int)
    requires n > 0 && |cells| == n * n && OnBoard(king, n)
    ensures Survives(cells, colour, king, right, n) == Some(KeepsRight(cells, colour, king, right, n))
  {
    if AtHome(king, colour, n) {
      ScanEastFinds(cells, colour, king, king, n);
      ScanWestFinds(cells, colour, king, king, n);
    }
  }

  /** Removing the first occurrence of x, when none comes before the one
      marked. */
  lemma {:induction false} RemoveFirstAt(a: seq<char>, x: char, b: seq<char>)
    requires x !in a
    ensures RemoveFirst(a + [x] + b, x) == Some(a + b)
    decreases |a|
  {
    if |a| == 0 {
      assert a + [x] + b == [x] + b;
      assert ([x] + b)[0] == x && ([x] + b)[1..] == b;
      assert a + b == b;
    } else {
      assert a[0] in a;
      assert (a + [x] + b)[0] == a[0];
      assert (a + [x] + b)[1..] == a[1..] + [x] + b;
      RemoveFirstAt(a[1..], x, b);
      assert [a[0]] + (a[1..] + b) == a + b;
    }
  }

  lemma ColourRightsCons(rights: seq<char>, colour: Colour)
    requires |rights| > 0
    ensures ColourRights(rights, colour) ==
      (if Owns(colour, rights[0]) then [rights[0]] else []) + ColourRights(rights[1..], colour)
  {
  }

  /** The sequential removals leave exactly the filtered rights: with the
      rights already passed all kept, processing the colour's rights among
      the rest removes precisely the ones the rule drops. */
  lemma {:induction false} RevokeFilters(done: seq<char>, rest: seq<char>, cells: seq<Option<Piece>>,
                                         colour: Colour, king: int, n: int)
    requires n > 0 && |cells| == n * n && OnBoard(king, n)
    requires forall i :: 0 <= i < |done| ==> !Owns(colour, done[i]) || KeepsRight(cells, colour, king, done[i], n)
    ensures Revoke(ColourRights(rest, colour), done + rest, cells, colour, king, n)
      == Ok(done + Retain(rest, cells, colour, king, n))
    decreases |rest|
  {
    if |rest| == 0 {
      assert done + rest == done;
    } else {
      var c := rest[0];
      var tail := rest[1..];
      ColourRightsCons(rest, colour);
      assert rest == [c] + tail;
      var done' := done + [c];
      assert done + rest == done' + tail;
      assert done' + Retain(tail, cells, colour, king, n) == done + ([c] + Retain(tail, cells, colour, king, n));
      if !Owns(colour, c) {
        assert ColourRights(rest, colour) == ColourRights(tail, colour);
        assert Retain(rest, cells, colour, king, n) == [c] + Retain(tail, cells, colour, king, n);
        RevokeFilters(done', tail, cells, colour, king, n);
      } else {
        SurvivesMeansKept(cells, colour, king, c, n);
        assert ColourRights(rest, colour)[1..] == ColourRights(tail, colour);
        if KeepsRight(cells, colour, king, c, n) {
          RevokeFilters(done', tail, cells, colour, king, n);
        } else {
          assert c !in done by {
            forall i | 0 <= i < |done| ensures done[i] != c {}
          }
          RemoveFirstAt(done, c, tail);
          assert done + rest == done + [c] + tail;
          assert ColourRights(rest, colour)[0] == c;
          assert Retain(rest, cells, colour, king, n) == Retain(tail, cells, colour, king, n);
          RevokeFilters(done, tail, cells, colour, king, n);
        }
      }
    }
  }

  /** On a full board the check never raises. With no king of the colour the
      rights are unchanged; otherwise exactly the colour's rights the rule
      drops are removed, in order, and the other colour's rights stay. */
  lemma CheckCastlingRightsSpec(rights: seq<char>, cells: seq<Option<Piece>>, colour: Colour, n: int)
    requires n > 0 && |cells| == n * n
    ensures CheckCastlingRights(rights, cells, colour, n).Ok?
    ensures FindKing(cells, colour, 0).None? ==> CheckCastlingRights(rights, cells, colour, n).value == rights
    ensures FindKing(cells, colour, 0).Some? ==>
      CheckCastlingRights(rights, cells, colour, n).value
        == Retain(rights, cells, colour, FindKing(cells, colour, 0).value, n)
  {
    match FindKing(cells, colour, 0)
    case None =>
    case Some(king) =>
      RevokeFilters([], rights, cells, colour, king, n);
      assert [] + rights == rights;
  }

  /** A king off its home square loses every right of its colour; the other
      colour's rights are untouched either way. */
  lemma KingMovedLosesRights(rights: seq<char>, cells: seq<Option<Piece>>, colour: Colour, n: int)
    requires n > 0 && |cells| == n * n
    requires FindKing(cells, colour, 0).Some? && !AtHome(FindKing(cells, colour, 0).value, colour, n)
    ensures CheckCastlingRights(rights, cells, colour, n).Ok?
    ensures forall c :: c in CheckCastlingRights(rights, cells, colour, n).value <==>
      c in rights && !Owns(colour, c)
  {
    CheckCastlingRightsSpec(rights, cells, colour, n);
  }

  /** As written the helper raises on every board the constructor accepts
      under the intended digit rule, where the intended helper succeeds. */
  lemma AsWrittenRaises(rights: seq<char>, cells: seq<Option<Piece>>, colour: Colour, n: int)
    requires n > 0 && |cells| == n * n
    ensures CheckCastlingRightsAsWritten(rights, cells, colour).Fail?
    ensures CheckCastlingRights(rights, cells, colour, n).Ok?
  {
    CheckCastlingRightsSpec(rights, cells, colour, n);
  }
}
