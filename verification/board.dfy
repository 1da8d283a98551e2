/** The board of chess.py: a flat array of optional pieces plus the game
    state, with move validation (`checkMove`) and move application (`move`).
    The side length is the class constant 8 (chess.py:277). */
module Chessboard {
  import opened Wrappers
  import opened Geometry
  import opened Indexing
  import opened Piece
  import opened Pieces

  const SideLength: int := 8

  /** The board state. `cells` should hold 64 entries, but a position parsed
      from text holds one entry per character of the rank descriptions. */
  datatype Board = Board(
    cells: seq<Option<Piece>>,
    turn: Colour,
    castling: seq<char>,
    enPassant: Option<int>,
    halfmoves: nat,
    fullmoves: nat)

  /** `[x != None for x in boardPieces]`. */
  function Occupancy(cells: seq<Option<Piece>>): (m: seq<bool>)
    ensures |m| == |cells|
    ensures forall i :: 0 <= i < |cells| ==> (m[i] <==> cells[i].Some?)
  {
    seq(|cells|, i requires 0 <= i < |cells| => cells[i].Some?)
  }

  /** `checkMove`: whether the target is among the moves generated for the
      piece at the origin on a fresh occupancy mask. It raises when the origin
      index is invalid, when the origin is empty, and when generation raises. */
  function CheckMove(b: Board, origin: int, target: int, ed: Edition): (r: Result<bool>)
    ensures r.Ok? ==> PyRead(b.cells, origin).Some? && PyRead(b.cells, origin).value.Some?
    ensures r.Ok? ==>
      var g := GetMoves(PyRead(b.cells, origin).value.value, Occupancy(b.cells), SideLength, ed);
      g.Some? && r.value == (target in g.value.moves)
  {
    match PyRead<Option<Piece>>(b.cells, origin)
    case None => Fail
    case Some(None) => Fail
    case Some(Some(p)) =>
      match GetMoves(p, Occupancy(b.cells), SideLength, ed)
      case None => Fail
      case Some(g) => Ok(target in g.moves)
  }

  /** On a full-size board, checking a move of a piece standing on its own
      square never raises (as written, unless it is a black pawn on the last
      rank), and a move it accepts goes to another square of the board. */
  lemma CheckMoveOnBoard(b: Board, origin: int, target: int, ed: Edition)
    requires |b.cells| == 64 && 0 <= origin < 64
    requires b.cells[origin].Some? && b.cells[origin].value.position == origin
    requires !(ed == AsWritten && StrandedPawn(b.cells[origin].value, SideLength))
    ensures CheckMove(b, origin, target, ed).Ok?
    ensures CheckMove(b, origin, target, ed) == Ok(true) ==> OnBoard(target, 8) && target != origin
  {
    GetMovesOnBoard(b.cells[origin].value, Occupancy(b.cells), ed);
  }

  /** The unenforced move (`move(origin, target, False)`): the target cell
      receives the origin's piece, recorded at the target index, and the
      origin cell is emptied. It raises on an invalid index, and when the
      target cell is empty afterwards (an empty origin, or origin and target
      naming the same cell). */
  function MoveUnchecked(b: Board, origin: int, target: int): (r: Result<Board>)
    ensures r.Ok? <==>
      && PyIndex(|b.cells|, origin).Some? && PyIndex(|b.cells|, target).Some?
      && PyIndex(|b.cells|, origin) != PyIndex(|b.cells|, target)
      && b.cells[PyIndex(|b.cells|, origin).value].Some?
    ensures r.Ok? ==>
      var o, t := PyIndex(|b.cells|, origin).value, PyIndex(|b.cells|, target).value;
      && |r.value.cells| == |b.cells|
      && r.value.cells[t] == Some(Relocate(b.cells[o].value, target))
      && r.value.cells[o] == None
      && (forall i :: 0 <= i < |b.cells| && i != o && i != t ==> r.value.cells[i] == b.cells[i])
      && r.value == b.(cells := r.value.cells)
  {
    match (PyIndex(|b.cells|, origin), PyIndex(|b.cells|, target))
    case (Some(o), Some(t)) =>
      var cells := b.cells[t := b.cells[o]][o := None];
      if cells[t].None? then Fail
      else Ok(b.(cells := cells[t := Some(Relocate(cells[t].value, target))]))
    case _ => Fail
  }

  /** Moving a piece from its own square to an empty cell and back restores
      the board. */
  lemma MoveUncheckedUndo(b: Board, origin: int, target: int)
    requires 0 <= origin < |b.cells| && 0 <= target < |b.cells| && origin != target
    requires b.cells[origin].Some? && b.cells[origin].value.position == origin
    requires b.cells[target].None?
    ensures MoveUnchecked(b, origin, target).Ok?
    ensures MoveUnchecked(MoveUnchecked(b, origin, target).value, target, origin) == Ok(b)
  {
    var b1 := MoveUnchecked(b, origin, target).value;
    var b2 := MoveUnchecked(b1, target, origin).value;
    assert b2.cells == b.cells;
  }

  /** What the enforced `move` returns: True with the new board, False with
      the board untouched, or an exception. */
  datatype MoveOutcome = Moved(after: Board) | Refused | Raised

  /** The enforced `move` (chess.py:468-525). An empty origin or a target of
      the mover's colour is refused. As written an empty target raises, since
      its colour is read without a test; as intended an empty target is a
      quiet move. A move that `checkMove` accepts relocates the piece and
      hands the turn over; any other move raises, since the en-passant test
      calls `isinstance` with its arguments reversed. */
  function Move(b: Board, origin: int, target: int, ed: Edition): MoveOutcome
  {
    match PyRead<Option<Piece>>(b.cells, origin)
    case None => Raised
    case Some(None) => Refused
    case Some(Some(mover)) =>
      match PyRead<Option<Piece>>(b.cells, target)
      case None => Raised
      case Some(victim) =>
        if victim.None? && ed == AsWritten then Raised
        else if victim.Some? && mover.colour == victim.value.colour then Refused
        else
          match CheckMove(b, origin, target, ed)
          case Fail => Raised
          case Ok(legal) =>
            if !legal then Raised
            else
              match MoveUnchecked(b, origin, target)
              case Fail => Raised
              case Ok(after) => Moved(after.(turn := Opponent(b.turn)))
  }

  /** A move is made exactly when the origin holds a piece, the target holds
      a piece of the other colour (or, as intended, is empty), and
      `checkMove` accepts it; the piece then stands on the target recorded
      there, the origin is empty, every other cell and the castling rights,
      en-passant square and clocks are as before, and the turn passes to the
      other side. */
  lemma MoveSpec(b: Board, origin: int, target: int, ed: Edition)
    requires 0 <= origin < |b.cells| && 0 <= target < |b.cells|
    ensures Move(b, origin, target, ed).Moved? <==>
      && b.cells[origin].Some?
      && (if b.cells[target].Some?
          then b.cells[origin].value.colour != b.cells[target].value.colour
          else ed == Intended)
      && CheckMove(b, origin, target, ed) == Ok(true)
    ensures Move(b, origin, target, ed).Moved? ==>
      var a := Move(b, origin, target, ed).after;
      && |a.cells| == |b.cells|
      && a.cells[target] == Some(Relocate(b.cells[origin].value, target))
      && a.cells[origin] == None
      && (forall i :: 0 <= i < |b.cells| && i != origin && i != target ==> a.cells[i] == b.cells[i])
      && a.turn == Opponent(b.turn)
      && a.castling == b.castling && a.enPassant == b.enPassant
      && a.halfmoves == b.halfmoves && a.fullmoves == b.fullmoves
  {
  }

  /** A move is refused, with nothing changed, exactly when the origin is
      empty or the target holds a piece of the mover's colour. */
  lemma MoveRefusedSpec(b: Board, origin: int, target: int, ed: Edition)
    requires 0 <= origin < |b.cells| && 0 <= target < |b.cells|
    ensures Move(b, origin, target, ed).Refused? <==>
      || b.cells[origin].None?
      || (b.cells[target].Some? && b.cells[origin].value.colour == b.cells[target].value.colour)
  {
  }

  /** The number of occupied cells. */
  function PieceCount(cells: seq<Option<Piece>>): (k: nat)
    ensures k <= |cells|
  {
    if |cells| == 0 then 0
    else PieceCount(cells[..|cells| - 1]) + (if cells[|cells| - 1].Some? then 1 else 0)
  }

  lemma {:induction false} PieceCountUpdate(cells: seq<Option<Piece>>, i: int, x: Option<Piece>)
    requires 0 <= i < |cells|
    ensures PieceCount(cells[i := x]) ==
      PieceCount(cells) - (if cells[i].Some? then 1 else 0) + (if x.Some? then 1 else 0)
    decreases |cells|
  {
    var last := |cells| - 1;
    assert cells[i := x][..last] == if i < last then cells[..last][i := x] else cells[..last];
    if i < last {
      PieceCountUpdate(cells[..last], i, x);
    }
  }

  /** A move removes the captured piece from the count and keeps every
      other piece; as written every move is a capture. */
  lemma MoveCaptures(b: Board, origin: int, target: int, ed: Edition)
    requires 0 <= origin < |b.cells| && 0 <= target < |b.cells|
    requires Move(b, origin, target, ed).Moved?
    ensures ed == AsWritten ==> b.cells[target].Some?
    ensures PieceCount(Move(b, origin, target, ed).after.cells)
      == PieceCount(b.cells) - (if b.cells[target].Some? then 1 else 0)
  {
    MoveSpec(b, origin, target, ed);
    var a := Move(b, origin, target, ed).after;
    var p := b.cells[origin];
    var mid := b.cells[target := Some(Relocate(p.value, target))];
    PieceCountUpdate(b.cells, target, Some(Relocate(p.value, target)));
    PieceCountUpdate(mid, origin, None);
    assert a.cells == mid[origin := None];
  }

  /** As written a move to an empty cell raises whatever the piece; as
      intended it is made whenever `checkMove` accepts it. */
  lemma QuietMove(b: Board, origin: int, target: int)
    requires 0 <= origin < |b.cells| && 0 <= target < |b.cells|
    requires b.cells[origin].Some? && b.cells[target].None?
    ensures Move(b, origin, target, AsWritten) == Raised
    ensures Move(b, origin, target, Intended).Moved? <==> CheckMove(b, origin, target, Intended) == Ok(true)
  {
    MoveSpec(b, origin, target, Intended);
  }
}
