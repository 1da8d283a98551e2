/** The base piece record of base.py: a kind, a square index and a colour. */
module Piece {

  datatype Colour = White | Black

  /** The six piece classes of pieces.py, as a closed variant instead of
      subclass dispatch. */
  datatype Kind = King | Queen | Rook | Bishop | Knight | Pawn

  datatype Piece = Piece(kind: Kind, position: int, colour: Colour)

  /** Which reading of a defect the model follows: the code as written, or
      the behaviour its authors evidently intended. Each defect is listed
      with the definition that changes under `Intended`. */
  datatype Edition = AsWritten | Intended

  /** The other side. */
  function Opponent(c: Colour): (r: Colour)
    ensures r != c
  {
    if c == White then Black else White
  }

  /** Placing a piece of the given kind and colour on a board index. */
  function Place(kind: Kind, boardIndex: int, colour: Colour): (p: Piece)
    ensures p.position == boardIndex
    ensures p.colour == colour && p.kind == kind
  {
    Piece(kind, boardIndex, colour)
  }

  /** The default move generator of the base class: no moves, whatever the
      obstacles and side length, and the mask is left untouched (a pure
      function cannot change it). */
  function DefaultMoves(p: Piece, obstacles: seq<bool>, sideLength: int): (r: seq<int>)
    ensures |r| == 0
  {
    []
  }

  /** Moving a piece records its new index and nothing else. */
  function Relocate(p: Piece, newBoardIndex: int): (q: Piece)
    ensures q.position == newBoardIndex
    ensures q.colour == p.colour && q.kind == p.kind
  {
    p.(position := newBoardIndex)
  }

  /** Only the last move counts, and moving back restores the piece. */
  lemma RelocateOverwrites(p: Piece, i: int, j: int)
    ensures Relocate(Relocate(p, i), j) == Relocate(p, j)
    ensures Relocate(Relocate(p, i), p.position) == p
  {
  }
}
