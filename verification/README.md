# Chess rules layer of python-chess, in Dafny

This project models the rules layer of the python-chess repository. The
board is a flat array of N×N cells, with N the class constant 8. The square
index is `rank * N + file`, and rank 0 is the top row (Black's back rank).
The model covers:

- **Pieces** (`piece.dfy`, from `base.py`): a record of kind, index and
  colour. The base move generator yields nothing, and `move` records a new
  index.
- **Move generators** (`pieces.dfy`, `rays.dfy`, from `pieces.py`).
  - King, knight and pawn use fixed offsets and edge tests.
  - Rook, bishop and queen walk rays over an occupancy mask. The rook and
    bishop first clear their own square in the caller's mask, and the queen
    runs a rook and then a bishop on that same mask.
  - Every generator follows the source's order of appends. Mask reads follow
    Python's list indexing: a negative index counts from the end, and an
    index past the end raises.
- **Squares** (`squares.dfy`): conversion between algebraic squares such as
  `e4` and board indices, in both directions.
- **Position text** (`fen.dfy`): the FEN-like constructor.
  - The text is split on `/` and spaces into N + 5 tokens: N rank
    descriptions, the side to move, the castling letters, the en-passant
    square and two clocks.
  - The rank descriptions are expanded into the cell array.
- **Board** (`board.dfy`).
  - `checkMove` tests whether the target is among the generated moves, on a
    fresh occupancy mask.
  - The unenforced `move` relocates a piece.
  - The enforced `move` refuses an empty origin and own-colour captures. It
    makes an accepted move and hands the turn to the other side.
- **Castling rights** (`castling.dfy`): the helper that removes the rights a
  side has lost, given where its king and rooks stand.

Python exceptions become an explicit failure value: `Result.Fail`,
`Option.None`, or the `Raised` outcome of a move. The game state is an
immutable `Board` value, so every operation returns a new value instead of
mutating the board.

Several defects of the source are modelled twice. An `Edition` value
selects the reading: `AsWritten` follows the code, and `Intended` follows
what its authors evidently meant. The generators, `checkMove`, the enforced
`move` and the constructor all take an edition, and every definition that
differs between the two says so in its comment. The properties the source
promises are proved for the code as written, except where "## Findings"
names a defect. There they are proved for the intended reading:
castling rights under the `enumerate` loop, the N×N cell array of the
constructor, and quiet moves. The as-written side of each defect is
exhibited by its own lemma.

The plain functions (`KingMoves`, `KnightMoves`, `PawnMoves`, `Walk`,
`RookGenerate`, `BishopGenerate`, `QueenGenerate`, `GetMoves`, `Move`,
`ParseRank`, `ParseRanks`, `Build`, `Parse`, `ScanEast`, `ScanWest`,
`Revoke`, `CheckCastlingRights`) model the code directly. The lemmas below
state what they compute.

## Model

| member | source | states |
|---|---|---|
| Piece.Place | base.py:12-21 | A new piece records the given board index as its position and keeps the given colour and kind. |
| Piece.DefaultMoves | base.py:23-33 | The base class offers no moves for any mask and side length. |
| Piece.Relocate | base.py:35-43 | A moved piece records exactly the new index; its colour and kind are unchanged. |
| Piece.RelocateOverwrites | base.py:35-43 | Only the last move counts, and moving a piece back to its old index restores it. |
| Piece.Opponent | chess.py:520-525 | Handing over the turn always gives it to the other side. |
| Rays.StepInside | pieces.py:75-99 | A step the loop guard allows stays on the board and moves one rank step and one file step in the walk's direction, without wrapping. |
| Rays.WalkDefined | pieces.py:64-101 | On a mask of N×N entries, a walk from a square of the board never raises. |
| Rays.WalkAlong | pieces.py:75-99 | The k-th emitted square is k rank steps and k file steps from the origin. Consecutive squares differ by one step. |
| Rays.WalkStops | pieces.py:114-147 | A walk stops at the first occupied square and includes it. No earlier emitted square is occupied, and the last square is occupied or on the edge the guard tests. |
| Rays.RayMember | pieces.py:64-149 | A walked square is on the board and differs from the origin. Orthogonal walks keep the rank or file, diagonal walks change both by the same non-zero amount, and up or down walks strictly change the rank. |
| Rays.NorthMissesCorner | pieces.py:89-93 | As written, the rook's upward walk never emits index 0, whatever the mask. |
| Rays.NorthCorrectedReachesTop | pieces.py:89-93 | With the guard `c - N < 0`, the upward walk over a clear board reaches the top square of its file. |
| Pieces.KingMovesSound | pieces.py:13-50 | Every king candidate is an on-board neighbour at most one rank and one file away. This holds as written for N ≥ 8 and as intended for every N. |
| Pieces.KingMovesComplete | pieces.py:13-50 | On the standard board, every neighbouring square is a king candidate. |
| Pieces.KingCounts | pieces.py:19-50 | On the standard board a king has 8 candidates from a square off every edge and 3 from a corner. |
| Pieces.KingWrapsAsWritten | pieces.py:22 | On a side-5 board the as-written king at index 4 is offered index 5, which is not a neighbour. The intended test does not offer it. |
| Pieces.KnightMovesSound | pieces.py:151-194 | Every knight candidate is on the board and a (2,1) or (1,2) jump away. This holds as written on the standard board and as intended for every N. |
| Pieces.KnightMovesComplete | pieces.py:151-194 | On the standard board, every square a knight's jump away is a candidate. |
| Pieces.KnightCounts | pieces.py:160-192 | On the standard board a knight has 8 candidates from a central square and 2 from a corner. |
| Pieces.KnightWrapsAsWritten | pieces.py:166-167 | On a side-9 board the as-written knight at index 8 is offered index 27, which is not a knight's jump away. The intended test does not offer it. |
| Pieces.PawnMovesSpec | pieces.py:196-238 | As written on a full mask, the generator raises exactly for a black pawn on the last rank. The square ahead is offered exactly when it is on the board and free. Each diagonal inside the board's files is offered exactly when the square ahead is occupied, whatever the diagonal square holds, so there are at most two candidates. Every candidate is one rank forward and at most one file aside. |
| Pieces.PawnMovesIntendedSpec | pieces.py:212-237 | As intended, the generator never raises on a full mask. A square is a candidate exactly when it is the free square ahead, or an occupied square one rank forward and one file aside. |
| Pieces.PawnPhantomCaptures | pieces.py:212-220 | As written, a white pawn on e2 facing a piece on e3 is offered the empty squares d3 and f3. As intended it has no move. |
| Pieces.BlackPawnPhantomCaptures | pieces.py:225-237 | As written, a black pawn on e7 facing a piece on e6 is offered the empty squares d6 and f6. As intended it has no move. |
| Pieces.PawnMissedCapture | pieces.py:212-220 | As written, a white pawn on e2 with a piece on d3 is offered only the push. As intended it may also capture on d3. |
| Pieces.QueenIsRookThenBishop | pieces.py:52-62 | The queen's candidates are the rook's followed by the bishop's, both from the same square and the caller's mask. It raises exactly when either of them does. |
| Pieces.RookMovesOnLines | pieces.py:64-101 | On a full mask the rook never raises, and every candidate is another board square on its rank or file. |
| Pieces.BishopMovesOnDiagonals | pieces.py:103-149 | On a full mask the bishop never raises, and every candidate is a board square whose rank and file offsets are equal in size and non-zero. |
| Pieces.RookCorner | pieces.py:89-93 | As written, a rook on the first file below rank 0 never reaches index 0. As intended, it reaches index 0 over an otherwise empty board. |
| Pieces.GetMoves | pieces.py:64-71 | Generation leaves the caller's mask unchanged, except that a rook, bishop or queen clears its own (Python-indexed) square. |
| Pieces.JumpersIgnoreObstacles | pieces.py:13-50 | King and knight candidates do not depend on the mask. |
| Pieces.GetMovesOnBoard | pieces.py:224-238 | On the standard board with a full mask, generation raises only for a black pawn on the last rank, and never as intended. Every candidate is another board square. |
| Squares.SquareToIndex | chess.py:288-300 | Conversion fails exactly when the stripped square has fewer than two characters or its rank part is not a decimal number. |
| Squares.IndexToSquare | chess.py:302-309 | An index is written as a lower-case file letter followed by at least one rank character. |
| Squares.IndexSquareRoundTrip | chess.py:288-309 | Every board index survives conversion to a square and back. |
| Squares.SquareIndexRoundTrip | chess.py:288-309 | Every lower-case square of the board with a plain rank number survives conversion to an index and back. |
| Squares.FileLetterCaseInsensitive | chess.py:295-300 | An upper-case file letter converts exactly as its lower-case form. |
| Squares.ParseNat | chess.py:374-375 | Reading a clock succeeds exactly on a non-empty string of decimal digits. |
| Squares.DecimalRoundTrip | chess.py:374-375 | Reading back the decimal text of a natural number gives the number. |
| Fen.SplitOnSpace | chess.py:332 | Splitting on single spaces yields at least one piece, and no piece contains a space. |
| Fen.SplitJoinsBack | chess.py:332 | Joining the pieces of the split with one space between neighbours gives back the text, so the split loses and adds nothing. |
| Fen.DropBlank | chess.py:332 | The filter keeps every piece that is not all whitespace and drops every piece that is. |
| Fen.DropBlankAppend | chess.py:332 | The filter keeps the pieces' order: filtering a concatenation is concatenating the filters. |
| Fen.Empties | chess.py:344-347 | A digit yields empty cells only: one as written, and as many as its value as intended. |
| Fen.CastlingLetters | chess.py:367-369 | The castling list keeps exactly the token's characters that are among K, Q, k and q. |
| Fen.CastlingLettersAppend | chess.py:367-369 | The letters are kept in token order and with their repetitions: the list for a concatenated token is the concatenation of the lists. |
| Fen.ParseRankAccepts | chess.py:340-358 | A rank description is read without failing exactly when every character is a digit or a piece letter. |
| Fen.ParseRankShape | chess.py:340-358 | A read rank adds its claimed squares to the count and appends its cells after the cells already built. It appends one cell per character as written, or one per claimed square as intended. Each piece records its own index. |
| Fen.ParseRankCells | chess.py:343-354 | As written, character j of a rank yields cell j after the cells already built: empty for a digit, or the named piece coloured White exactly when the letter is upper case. |
| Fen.ParseRanksAccepts | chess.py:339-360 | The ranks are accepted exactly when each one is spelled with digits and piece letters and claims N squares. |
| Fen.ParseRanksShape | chess.py:339-360 | Accepted ranks extend the cell array, and every piece records its own index. The array grows by one cell per character as written, or by N per rank as intended. |
| Fen.ParseRanksCells | chess.py:339-360 | As written, cell i comes from character i of the rank descriptions laid end to end. |
| Fen.BuildAccepts | chess.py:335-375 | The constructor succeeds exactly when there are N + 5 tokens, every rank is valid, the side to move is `w` or `b`, the en-passant field is `-` or a square, and both clocks are decimal. |
| Fen.BuildFields | chess.py:362-375 | An accepted board holds the named side to move, the filtered castling letters, no en-passant square exactly for `-` (otherwise the converted square), and both clocks. |
| Fen.ParseLayout | chess.py:339-358 | As written, a parsed board has one cell per character of the rank descriptions. Cell i comes from character i, and every piece records its own index. |
| Fen.ParseCorrectedShape | chess.py:344-347 | As intended, an accepted board has N×N cells and every piece records its own index. |
| Fen.EmptyRankWidth | chess.py:344-347 | The empty rank `8` yields one cell as written and eight as intended. Either way it claims eight squares. |
| Fen.EmptyBoardAsWritten | chess.py:344-347 | As written, eight empty ranks are accepted and build a board of 8 cells, not 64. |
| Chessboard.Occupancy | chess.py:385 | The mask marks exactly the occupied cells. |
| Chessboard.CheckMove | chess.py:377-385 | `checkMove` answers whether the target is among the moves generated for the origin's piece on the board's occupancy mask. It fails when the origin is invalid or empty, or when generation raises. |
| Chessboard.CheckMoveOnBoard | chess.py:385 | On a full board, checking a piece that records its own square never raises (as written, except a black pawn on the last rank). An accepted target is another board square. |
| Chessboard.MoveUnchecked | chess.py:394-402 | The unenforced move succeeds exactly when both indices are valid, they name different cells, and the origin is occupied. The target then holds the piece recorded there, and the origin is empty. Every other cell, the turn, the castling rights and the clocks are unchanged. |
| Chessboard.MoveUncheckedUndo | chess.py:394-402 | Moving a piece to an empty cell and back restores the board. |
| Chessboard.MoveSpec | chess.py:468-481 | A move is made exactly when the origin is occupied, the target holds an opposing piece (or, as intended, is empty), and `checkMove` accepts. The piece lands on the target and the origin empties. Other cells, castling rights, en-passant square and clocks are kept, and the turn passes over. |
| Chessboard.MoveRefusedSpec | chess.py:468-472 | A move is refused, with nothing changed, exactly when the origin is empty or the target holds a piece of the mover's colour. |
| Chessboard.MoveCaptures | chess.py:468-481 | A made move removes exactly the captured piece from the count. As written, every move is a capture. |
| Chessboard.QuietMove | chess.py:471 | As written, a move to an empty cell raises. As intended, it is made exactly when `checkMove` accepts it. |
| Castling.ColourRights | chess.py:408-413 | A colour's rights are exactly the listed letters of its case. |
| Castling.FindKing | chess.py:415-420 | The search returns the first index holding a king of the colour, or nothing when there is none. |
| Castling.CheckCastlingRightsAsWritten | chess.py:415-416 | As written, the board loop unpacks each cell into two names, so the helper raises on every non-empty board. |
| Castling.RemoveFirst | chess.py:433 | `list.remove` raises exactly when the letter is absent, and otherwise shortens the list by one. |
| Castling.RemoveFirstAt | chess.py:433 | Removal drops the first occurrence of the letter. |
| Castling.ScanEastFinds | chess.py:436-449 | On a full board, the kingside search finds exactly a rook of the colour at least two squares east of the king on its rank. A rook one square away or any other piece does not stop it. |
| Castling.ScanWestFinds | chess.py:451-463 | On a full board, the queenside search finds exactly a rook of the colour at least two squares west of the king on its rank. |
| Castling.SurvivesMeansKept | chess.py:430-463 | On a full board, checking one right never raises. It keeps the right exactly when the king is on its home square and, for k or q, the rook on that side is found. |
| Castling.Retain | chess.py:405-463 | The remaining rights are the listed rights of the other colour plus the colour's rights the rule keeps. Nothing is added. |
| Castling.RevokeFilters | chess.py:430-463 | Removing the dropped rights one occurrence at a time leaves exactly the filtered list, and `list.remove` never raises there. |
| Castling.CheckCastlingRightsSpec | chess.py:405-463 | With the board loop read as `enumerate`, the helper never raises on a full board. With no king of the colour nothing changes. Otherwise exactly the dropped rights are removed, in order. |
| Castling.KingMovedLosesRights | chess.py:424-435 | A king off its home square loses every right of its colour, and the other colour keeps all of its rights. |
| Castling.AsWrittenRaises | chess.py:415-416 | On every full board the as-written helper raises, while the enumerate reading succeeds. |

## Left out

- The en-passant and castling branches of the enforced `move` (chess.py:482-518). They begin with `isinstance(pawn, piece)` and `isinstance(king, piece)`, which raise a TypeError. Reaching them is the `Raised` outcome in both editions, because what those branches were meant to do is not evident from their bodies.
- `_checkForCheck` (chess.py:465-466) is an empty stub.
- The unused `originalBoard` alias and the `hasCastled` flag (chess.py:474-477, chess.py:502).
- Exception types and messages. Every exception is one failure value. The state of a board after an exception is not modelled; some exceptions happen after a partial update.
- The constructor's `pieceMappings` table is the closed `Kind` datatype. The piece classes duplicated in chess.py (lines 47-272) match pieces.py line for line and are modelled once.
- The side to move and piece colours are the `Colour` datatype, not the strings `"w"` and `"b"`. The constructor only ever stores those two strings.
- `_checkCastlingRights` is never called by `move`, so the board model does not call it either.
- Squares.Strip: removes ASCII whitespace and the ASCII separator characters only. Python's `strip` also removes other Unicode whitespace, and `casefold` and `isdecimal` are likewise limited to ASCII.
- Squares.ParseNat: accepts ASCII digits only. Python's `int()` also accepts a sign, surrounding whitespace, underscores and non-ASCII digits, so a negative rank or clock is not modelled.
- Squares.SquareToIndex: its rank part is read by `ParseNat`, so it fails on squares Python's `int()` reads, such as "a-1" or "a 1".
- Squares.IndexToSquare: requires 0 < N ≤ 26, because a file letter past `z` is not a letter. Only the side length 8 is ever used.
- Castling.CheckCastlingRightsSpec: proved only for boards of N×N cells. On the shorter boards the as-written constructor builds, the kingside search may read past the array. `ScanEast` models that as a failure, but the lemma does not characterise it.
- Rays.WalkStops: like the other walk lemmas, it is stated for masks of N×N entries. On other masks the walks are modelled, including Python's negative indexing and IndexError, but not characterised.
- Pieces.KingMovesSound: for the as-written edition, proved only for N ≥ 8. The literal 6 wraps on smaller boards, as `KingWrapsAsWritten` shows.
- Pieces.KnightMovesSound: for the as-written edition, proved only for N = 8. The literals 6 and 7 wrap on other boards, as `KnightWrapsAsWritten` shows.
- A side length of 0 is outside the model: the generators require N > 0, and the board's N is the constant 8.
- The order in which the constructor detects errors is not modelled. Every failure is the same value, so only whether it fails matters.

## Findings

| source | as written | input that shows it | evidently intended | confidence | as-written member | corrected member |
|---|---|---|---|---|---|---|
| pieces.py:91 | the rook's upward loop stops when `currentIndex - sideLength <= 0` | a rook on a1 (index 56) of an empty board never reaches a8 (index 0) | stop when `currentIndex - sideLength < 0` | high; not executed | Rays.NorthMissesCorner | Rays.NorthCorrectedReachesTop |
| pieces.py:212-220 | white pawn diagonals are offered when the square AHEAD is occupied | white pawn on e2 (52), piece only on e3 (44): offered the empty d3 and f3 (43, 45) | offer a diagonal when that diagonal square is occupied | high; not executed | Pieces.PawnPhantomCaptures | Pieces.PawnMovesIntendedSpec |
| pieces.py:229-237 | black pawn diagonals test the square ahead, read without a bounds test | black pawn on e7 (12), piece only on e6 (20): offered the empty d6 and f6 (19, 21); a black pawn on the last rank raises IndexError (`PawnMovesSpec`) | test the diagonal square, and offer nothing past the last rank | high; not executed | Pieces.BlackPawnPhantomCaptures | Pieces.PawnMovesIntendedSpec |
| pieces.py:22 | the king's right edge is the literal file 6 | side 5, king at index 4: offered index 5 on the next rank | `position % sideLength <= sideLength - 2` | medium; not executed | Pieces.KingWrapsAsWritten | Pieces.KingMovesSound |
| pieces.py:166-187 | the knight's right edges are the literal files 7 and 6 | side 9, knight at index 8: offered index 27 three ranks down | `sideLength - 1` and `sideLength - 2` | medium; not executed | Pieces.KnightWrapsAsWritten | Pieces.KnightMovesSound |
| chess.py:345-346 | a digit appends one `None` per character of the digit | eight ranks `8` build a board of 8 cells | append `int(pieceLetter)` empty cells | high; not executed | Fen.EmptyBoardAsWritten | Fen.ParseCorrectedShape |
| chess.py:471 | the target's colour is read without testing for an empty cell | any move to an empty square raises AttributeError | an empty target is a quiet move | high; not executed | Chessboard.QuietMove | Chessboard.MoveSpec |
| chess.py:416 | `for index, piece in self.boardPieces` unpacks each cell | any non-empty board raises TypeError | `enumerate(self.boardPieces)` | high; not executed | Castling.AsWrittenRaises | Castling.CheckCastlingRightsSpec |
