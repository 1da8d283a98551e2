/** Building a board from the FEN-like text of chess.py:311-375: N rank
    descriptions, the side to move, castling letters, the en-passant square
    and the two clocks, split on '/' and ' ' into exactly N + 5 tokens. */
module Fen {
  import opened Wrappers
  import opened Piece
  import opened Squares
  import opened Chessboard

  /** `s.replace("/", " ")`. */
  function SlashesToSpaces(s: string): (r: string)
    ensures |r| == |s|
    ensures forall i :: 0 <= i < |s| ==> r[i] == (if s[i] == '/' then ' ' else s[i])
  {
    seq(|s|, i requires 0 <= i < |s| => if s[i] == '/' then ' ' else s[i])
  }

  /** `s.split(" ")`: cut at every single space, keeping empty pieces. */
  function SplitOnSpace(s: string): (r: seq<string>)
    ensures |r| >= 1
    ensures forall t :: t in r ==> ' ' !in t
  {
    if |s| == 0 then [""]
    else
      var rest := SplitOnSpace(s[1..]);
      if s[0] == ' ' then [""] + rest else [[s[0]] + rest[0]] + rest[1..]
  }

  /** `" ".join(parts)`: the pieces with one space between neighbours. */
  function JoinOnSpace(parts: seq<string>): string
  {
    if |parts| == 0 then ""
    else if |parts| == 1 then parts[0]
    else parts[0] + " " + JoinOnSpace(parts[1..])
  }

  /** Extending the first piece extends the joined text at its front. */
  lemma {:induction false} JoinOnSpaceFront(x: string, parts: seq<string>)
    requires |parts| >= 1
    ensures JoinOnSpace([x + parts[0]] + parts[1..]) == x + JoinOnSpace(parts)
  {
    var q := [x + parts[0]] + parts[1..];
    assert |q| == |parts| && q[0] == x + parts[0] && q[1..] == parts[1..];
    if |parts| == 1 {
      assert JoinOnSpace(q) == q[0];
      assert JoinOnSpace(parts) == parts[0];
    } else {
      var tail := JoinOnSpace(parts[1..]);
      assert JoinOnSpace(q) == q[0] + " " + tail;
      assert JoinOnSpace(parts) == parts[0] + " " + tail;
      assert (x + parts[0]) + " " + tail == x + (parts[0] + " " + tail);
    }
  }

  /** Splitting on single spaces loses nothing: joining the pieces with one
      space between them gives back the text. Together with the pieces
      holding no space, this pins the pieces down. */
  lemma {:induction false} SplitJoinsBack(s: string)
    ensures JoinOnSpace(SplitOnSpace(s)) == s
    decreases |s|
  {
    if |s| > 0 {
      var rest := SplitOnSpace(s[1..]);
      SplitJoinsBack(s[1..]);
      if s[0] == ' ' {
        var r := [""] + rest;
        assert r[1..] == rest;
        assert JoinOnSpace(r) == "" + " " + JoinOnSpace(rest);
        assert s == [' '] + s[1..];
      } else {
        JoinOnSpaceFront([s[0]], rest);
        assert s == [s[0]] + s[1..];
      }
    }
  }

  /** `t.isspace()`: non-empty and all whitespace. */
  predicate IsBlank(t: string)
  {
    |t| > 0 && forall i :: 0 <= i < |t| ==> IsSpace(t[i])
  }

  /** Dropping the all-whitespace pieces; empty pieces are kept. */
  function DropBlank(parts: seq<string>): (r: seq<string>)
    ensures |r| <= |parts|
    ensures forall t :: t in r ==> t in parts && !IsBlank(t)
    ensures forall i :: 0 <= i < |parts| && !IsBlank(parts[i]) ==> parts[i] in r
  {
    if |parts| == 0 then []
    else (if IsBlank(parts[0]) then [] else [parts[0]]) + DropBlank(parts[1..])
  }

  /** The filter works piece by piece and keeps the order: filtering two
      runs of pieces one after the other is filtering their concatenation. */
  lemma {:induction false} DropBlankAppend(a: seq<string>, b: seq<string>)
    ensures DropBlank(a + b) == DropBlank(a) + DropBlank(b)
    decreases |a|
  {
    if |a| > 0 {
      var head := if IsBlank(a[0]) then [] else [a[0]];
      assert (a + b)[0] == a[0] && (a + b)[1..] == a[1..] + b;
      assert DropBlank(a + b) == head + DropBlank(a[1..] + b);
      DropBlankAppend(a[1..], b);
      assert DropBlank(a) == head + DropBlank(a[1..]);
    } else {
      assert a + b == b;
    }
  }

  /** A single piece is kept exactly when it is not all whitespace. */
  lemma DropBlankOne(t: string)
    ensures DropBlank([t]) == if IsBlank(t) then [] else [t]
  {
    assert [t][1..] == [];
  }

  function Tokens(fen: string): seq<string>
  {
    DropBlank(SplitOnSpace(SlashesToSpaces(Strip(fen))))
  }

  /** The piece class a lower-case letter maps to. */
  function KindOf(c: char): Option<Kind>
  {
    match c
    case 'k' => Some(King)
    case 'q' => Some(Queen)
    case 'r' => Some(Rook)
    case 'b' => Some(Bishop)
    case 'n' => Some(Knight)
    case 'p' => Some(Pawn)
    case _ => None
  }

  predicate IsPieceLetter(c: char)
  {
    KindOf(Lower(c)).Some?
  }

  /** The empty cells a digit of a rank description yields: one as written
      (the loop runs over the digit's characters), as many as the digit's
      value as intended. */
  function Empties(ed: Edition, c: char): (r: seq<Option<Piece>>)
    requires IsDigit(c)
    ensures forall i :: 0 <= i < |r| ==> r[i].None?
    ensures |r| == (if ed == AsWritten then 1 else DigitValue(c))
  {
    if ed == AsWritten then [None] else seq(DigitValue(c), _ => None)
  }

  /** One rank description appended to the cells built so far, with the
      running square count; fails on a character that is neither a digit nor
      a piece letter. Each piece is placed at the array length at that
      point, and is White exactly when its letter is upper case. */
  function ParseRank(tok: string, cells: seq<Option<Piece>>, sum: int, ed: Edition)
    : Result<(seq<Option<Piece>>, int)>
    decreases |tok|
  {
    if |tok| == 0 then Ok((cells, sum))
    else
      var c := tok[0];
      if IsDigit(c) then ParseRank(tok[1..], cells + Empties(ed, c), sum + DigitValue(c), ed)
      else
        match KindOf(Lower(c))
        case None => Fail
        case Some(k) =>
          var colour := if IsUpper(c) then White else Black;
          ParseRank(tok[1..], cells + [Some(Place(k, |cells|, colour))], sum + 1, ed)
  }

  /** The squares a rank description claims: a digit counts its value, any
      other character one. */
  function RankSum(tok: string): nat
  {
    if |tok| == 0 then 0
    else (if IsDigit(tok[0]) then DigitValue(tok[0]) else 1) + RankSum(tok[1..])
  }

  /** Every character is a digit or a piece letter. */
  predicate Spelled(tok: string)
  {
    forall i :: 0 <= i < |tok| ==> IsDigit(tok[i]) || IsPieceLetter(tok[i])
  }

  /** A rank description the parser accepts. */
  predicate ValidRank(tok: string, n: int)
  {
    Spelled(tok) && RankSum(tok) == n
  }

  /** The rank descriptions one after another. */
  function ParseRanks(ranks: seq<string>, cells: seq<Option<Piece>>, ed: Edition)
    : Result<seq<Option<Piece>>>
    decreases |ranks|
  {
    if |ranks| == 0 then Ok(cells)
    else
      match ParseRank(ranks[0], cells, 0, ed)
      case Fail => Fail
      case Ok((cells', sum)) =>
        if sum != SideLength then Fail else ParseRanks(ranks[1..], cells', ed)
  }

  /** The castling token keeps only the letters K, Q, k and q. */
  function CastlingLetters(tok: string): (r: seq<char>)
    ensures forall c :: c in r <==> c in tok && c in "KQkq"
    ensures (forall i :: 0 <= i < |tok| ==> tok[i] in "KQkq") ==> r == tok
    ensures (forall i :: 0 <= i < |tok| ==> tok[i] !in "KQkq") ==> r == []
  {
    if |tok| == 0 then []
    else (if Lower(tok[0]) in "qk" then [tok[0]] else []) + CastlingLetters(tok[1..])
  }

  /** The letters are kept in token order, with their repetitions: the
      filter of a concatenation is the concatenation of the filters. */
  lemma {:induction false} CastlingLettersAppend(a: string, b: string)
    ensures CastlingLetters(a + b) == CastlingLetters(a) + CastlingLetters(b)
    decreases |a|
  {
    if |a| > 0 {
      assert (a + b)[0] == a[0] && (a + b)[1..] == a[1..] + b;
      CastlingLettersAppend(a[1..], b);
    } else {
      assert a + b == b;
    }
  }

  /** One character is kept exactly when it is K, Q, k or q. */
  lemma CastlingLettersOne(c: char)
    ensures CastlingLetters([c]) == if c in "KQkq" then [c] else []
  {
    assert [c][1..] == [];
  }

  function ParseTurn(tok: string): Result<Colour>
  {
    if tok == "w" then Ok(White) else if tok == "b" then Ok(Black) else Fail
  }

  function ParseEnPassant(tok: string): Result<Option<int>>
  {
    if tok == "-" then Ok(None)
    else
      match SquareToIndex(tok, SideLength)
      case Fail => Fail
      case Ok(i) => Ok(Some(i))
  }

  /** The board constructor under an edition. */
  function ParseWith(fen: string, ed: Edition): Result<Board>
  {
    Build(Tokens(fen), ed)
  }

  /** The board from its tokens: N ranks, side to move, castling letters,
      en-passant square, then the two clocks. */
  function Build(tokens: seq<string>, ed: Edition): Result<Board>
  {
    if |tokens| != SideLength + 5 then Fail
    else
      match ParseRanks(tokens[..SideLength], [], ed)
      case Fail => Fail
      case Ok(cells) =>
        match ParseTurn(tokens[SideLength])
        case Fail => Fail
        case Ok(turn) =>
          match ParseEnPassant(tokens[SideLength + 2])
          case Fail => Fail
          case Ok(ep) =>
            match ParseNat(tokens[SideLength + 3])
            case Fail => Fail
            case Ok(half) =>
              match ParseNat(tokens[SideLength + 4])
              case Fail => Fail
              case Ok(full) =>
                Ok(Board(cells, turn, CastlingLetters(tokens[SideLength + 1]), ep, half, full))
  }

  /** The board constructor as written. */
  function Parse(fen: string): Result<Board>
  {
    ParseWith(fen, AsWritten)
  }

  // --------------------------------------------------------- properties

  /** The cell one character of a rank description yields under the
      as-written ed, placed at index i. */
  function CellFor(c: char, i: int): Option<Piece>
    requires IsDigit(c) || IsPieceLetter(c)
  {
    if IsDigit(c) then None
    else Some(Place(KindOf(Lower(c)).value, i, if IsUpper(c) then White else Black))
  }

  /** The cells a rank appends: as many as its characters (as
      written) or as many squares as it claims (as intended). */
  function Width(tok: string, ed: Edition): int
  {
    if ed == AsWritten then |tok| else RankSum(tok)
  }

  /** Every piece in cells[from..] records its own index. */
  ghost predicate PlacedFrom(cells: seq<Option<Piece>>, from: int)
  {
    forall i :: 0 <= from <= i < |cells| && cells[i].Some? ==> cells[i].value.position == i
  }

  /** The cells one character appends. */
  function Appended(c: char, at: int, ed: Edition): seq<Option<Piece>>
    requires IsDigit(c) || IsPieceLetter(c)
  {
    if IsDigit(c) then Empties(ed, c) else [CellFor(c, at)]
  }

  lemma SpelledTail(tok: string)
    requires |tok| > 0
    ensures Spelled(tok) <==> (IsDigit(tok[0]) || IsPieceLetter(tok[0])) && Spelled(tok[1..])
  {
    if Spelled(tok[1..]) && (IsDigit(tok[0]) || IsPieceLetter(tok[0])) {
      forall i | 0 <= i < |tok| ensures IsDigit(tok[i]) || IsPieceLetter(tok[i]) {
        if i > 0 { assert tok[i] == tok[1..][i - 1]; }
      }
    }
  }

  /** One character of a rank description that parses. */
  lemma ParseRankUnfold(tok: string, cells: seq<Option<Piece>>, sum: int, ed: Edition)
    requires |tok| > 0 && (IsDigit(tok[0]) || IsPieceLetter(tok[0]))
    ensures ParseRank(tok, cells, sum, ed) ==
      ParseRank(tok[1..], cells + Appended(tok[0], |cells|, ed),
                sum + (if IsDigit(tok[0]) then DigitValue(tok[0]) else 1), ed)
  {
  }

  /** A rank description is accepted exactly when it is spelled with digits
      and piece letters. */
  lemma {:induction false} ParseRankAccepts(tok: string, cells: seq<Option<Piece>>, sum: int, ed: Edition)
    ensures ParseRank(tok, cells, sum, ed).Ok? <==> Spelled(tok)
    decreases |tok|
  {
    if |tok| > 0 {
      SpelledTail(tok);
      var c := tok[0];
      if IsDigit(c) || IsPieceLetter(c) {
        ParseRankUnfold(tok, cells, sum, ed);
        ParseRankAccepts(tok[1..], cells + Appended(c, |cells|, ed),
                         sum + (if IsDigit(c) then DigitValue(c) else 1), ed);
      }
    }
  }

  /** An accepted rank adds its claimed squares to the count and appends its
      cells after the ones already built (one per character as written, one
      per claimed square as intended), each piece recording its own index. */
  lemma {:induction false} ParseRankShape(tok: string, cells: seq<Option<Piece>>, sum: int, ed: Edition)
    requires ParseRank(tok, cells, sum, ed).Ok?
    ensures
      var (cells', sum') := ParseRank(tok, cells, sum, ed).value;
      && sum' == sum + RankSum(tok)
      && |cells'| == |cells| + Width(tok, ed)
      && cells'[..|cells|] == cells
      && PlacedFrom(cells', |cells|)
    decreases |tok|
  {
    if |tok| > 0 {
      ParseRankAccepts(tok, cells, sum, ed);
      SpelledTail(tok);
      var c := tok[0];
      var next := cells + Appended(c, |cells|, ed);
      var sumNext := sum + (if IsDigit(c) then DigitValue(c) else 1);
      ParseRankUnfold(tok, cells, sum, ed);
      ParseRankShape(tok[1..], next, sumNext, ed);
      var (cells', sum') := ParseRank(tok, cells, sum, ed).value;
      assert cells'[..|next|] == next;
      assert cells'[..|cells|] == next[..|cells|];
    }
  }

  /** As written, character j of an accepted rank yields cell j after the
      cells already built. */
  lemma {:induction false} ParseRankCells(tok: string, cells: seq<Option<Piece>>, sum: int)
    requires ParseRank(tok, cells, sum, AsWritten).Ok?
    ensures Spelled(tok)
    ensures
      var cells' := ParseRank(tok, cells, sum, AsWritten).value.0;
      && |cells'| == |cells| + |tok|
      && forall j :: 0 <= j < |tok| ==> cells'[|cells| + j] == CellFor(tok[j], |cells| + j)
    decreases |tok|
  {
    ParseRankAccepts(tok, cells, sum, AsWritten);
    ParseRankShape(tok, cells, sum, AsWritten);
    if |tok| > 0 {
      SpelledTail(tok);
      var c := tok[0];
      var next := cells + Appended(c, |cells|, AsWritten);
      var sumNext := sum + (if IsDigit(c) then DigitValue(c) else 1);
      ParseRankUnfold(tok, cells, sum, AsWritten);
      ParseRankCells(tok[1..], next, sumNext);
      ParseRankShape(tok[1..], next, sumNext, AsWritten);
      var cells' := ParseRank(tok, cells, sum, AsWritten).value.0;
      assert |next| == |cells| + 1;
      forall j | 0 <= j < |tok| ensures cells'[|cells| + j] == CellFor(tok[j], |cells| + j) {
        if j == 0 {
          assert cells'[|cells|] == cells'[..|next|][|cells|];
        } else {
          assert tok[j] == tok[1..][j - 1];
        }
      }
    }
  }

  /** The rank descriptions one after another. */
  function Layout(ranks: seq<string>): string
  {
    if |ranks| == 0 then [] else ranks[0] + Layout(ranks[1..])
  }

  lemma AllValidTail(ranks: seq<string>)
    requires |ranks| > 0
    ensures (forall r :: 0 <= r < |ranks| ==> ValidRank(ranks[r], SideLength)) <==>
      ValidRank(ranks[0], SideLength) && forall r :: 0 <= r < |ranks[1..]| ==> ValidRank(ranks[1..][r], SideLength)
  {
    forall r | 1 <= r < |ranks| ensures ranks[r] == ranks[1..][r - 1] {}
  }

  /** The rank descriptions are accepted exactly when each one is spelled
      with digits and piece letters and claims N squares. */
  lemma {:induction false} ParseRanksAccepts(ranks: seq<string>, cells: seq<Option<Piece>>, ed: Edition)
    ensures ParseRanks(ranks, cells, ed).Ok? <==>
      forall r :: 0 <= r < |ranks| ==> ValidRank(ranks[r], SideLength)
    decreases |ranks|
  {
    if |ranks| > 0 {
      AllValidTail(ranks);
      ParseRankAccepts(ranks[0], cells, 0, ed);
      if ParseRank(ranks[0], cells, 0, ed).Ok? {
        ParseRankShape(ranks[0], cells, 0, ed);
        ParseRanksAccepts(ranks[1..], ParseRank(ranks[0], cells, 0, ed).value.0, ed);
      }
    }
  }

  /** Accepted ranks append to the cells already built, every piece records
      its own index, and the cells grow by one per character as written, or
      by N per rank as intended. */
  lemma {:induction false} ParseRanksShape(ranks: seq<string>, cells: seq<Option<Piece>>, ed: Edition)
    requires ParseRanks(ranks, cells, ed).Ok?
    ensures
      var cells' := ParseRanks(ranks, cells, ed).value;
      && |cells| <= |cells'| && cells'[..|cells|] == cells
      && PlacedFrom(cells', |cells|)
      && |cells'| == |cells| + (if ed == AsWritten then |Layout(ranks)| else SideLength * |ranks|)
    decreases |ranks|
  {
    if |ranks| > 0 {
      var tok := ranks[0];
      ParseRankShape(tok, cells, 0, ed);
      var mid := ParseRank(tok, cells, 0, ed).value.0;
      ParseRanksShape(ranks[1..], mid, ed);
      var cells' := ParseRanks(ranks, cells, ed).value;
      assert cells' == ParseRanks(ranks[1..], mid, ed).value;
      assert cells'[..|cells|] == cells'[..|mid|][..|cells|];
      forall i | |cells| <= i < |cells'| && cells'[i].Some?
        ensures cells'[i].value.position == i
      {
        if i < |mid| { assert cells'[i] == cells'[..|mid|][i]; }
      }
      assert Layout(ranks) == tok + Layout(ranks[1..]);
      assert SideLength * |ranks| == SideLength + SideLength * |ranks[1..]|;
    }
  }

  /** As written, cell i after the cells already built comes from character
      i of the rank descriptions laid end to end. */
  lemma {:induction false} ParseRanksCells(ranks: seq<string>, cells: seq<Option<Piece>>)
    requires ParseRanks(ranks, cells, AsWritten).Ok?
    ensures Spelled(Layout(ranks))
    ensures
      var cells' := ParseRanks(ranks, cells, AsWritten).value;
      && |cells'| == |cells| + |Layout(ranks)|
      && forall j :: 0 <= j < |Layout(ranks)| ==> cells'[|cells| + j] == CellFor(Layout(ranks)[j], |cells| + j)
    decreases |ranks|
  {
    ParseRanksShape(ranks, cells, AsWritten);
    if |ranks| > 0 {
      var tok := ranks[0];
      ParseRankCells(tok, cells, 0);
      var mid := ParseRank(tok, cells, 0, AsWritten).value.0;
      ParseRanksCells(ranks[1..], mid);
      ParseRanksShape(ranks[1..], mid, AsWritten);
      var cells' := ParseRanks(ranks, cells, AsWritten).value;
      var L := Layout(ranks);
      var R := Layout(ranks[1..]);
      assert L == tok + R;
      forall k | 0 <= k < |L| ensures IsDigit(L[k]) || IsPieceLetter(L[k]) {
        if k >= |tok| { assert L[k] == R[k - |tok|]; }
      }
      forall j | 0 <= j < |L| ensures cells'[|cells| + j] == CellFor(L[j], |cells| + j) {
        if j < |tok| {
          assert cells'[|cells| + j] == cells'[..|mid|][|cells| + j];
        } else {
          assert L[j] == R[j - |tok|];
          assert cells'[|mid| + (j - |tok|)] == CellFor(R[j - |tok|], |mid| + (j - |tok|));
        }
      }
    }
  }

  /** The text a board is built from: N + 5 tokens, N valid ranks, a side to
      move of "w" or "b", an en-passant field of "-" or a square, and two
      clocks written in digits. */
  predicate WellFormed(tokens: seq<string>)
  {
    && |tokens| == SideLength + 5
    && (forall r :: 0 <= r < SideLength ==> ValidRank(tokens[r], SideLength))
    && tokens[SideLength] in {"w", "b"}
    && (tokens[SideLength + 2] == "-" || SquareToIndex(tokens[SideLength + 2], SideLength).Ok?)
    && ParseNat(tokens[SideLength + 3]).Ok?
    && ParseNat(tokens[SideLength + 4]).Ok?
  }

  /** The constructor succeeds exactly on well-formed text, under either
      edition. */
  lemma BuildAccepts(t: seq<string>, ed: Edition)
    ensures Build(t, ed).Ok? <==> WellFormed(t)
  {
    if |t| == SideLength + 5 {
      ParseRanksAccepts(t[..SideLength], [], ed);
      assert forall r :: 0 <= r < SideLength ==> t[..SideLength][r] == t[r];
    }
  }

  /** An accepted board carries the side to move, the castling letters, the
      en-passant square and the clocks the text names. */
  lemma BuildFields(t: seq<string>, ed: Edition)
    requires Build(t, ed).Ok?
    ensures
      var b := Build(t, ed).value;
      && |t| == SideLength + 5
      && b.cells == ParseRanks(t[..SideLength], [], ed).value
      && b.turn == (if t[SideLength] == "w" then White else Black)
      && b.castling == CastlingLetters(t[SideLength + 1])
      && (b.enPassant.None? <==> t[SideLength + 2] == "-")
      && (b.enPassant.Some? ==> Ok(b.enPassant.value) == SquareToIndex(t[SideLength + 2], SideLength))
      && Ok(b.halfmoves) == ParseNat(t[SideLength + 3])
      && Ok(b.fullmoves) == ParseNat(t[SideLength + 4])
  {
  }

  /** As written, every digit yields one empty cell, so the board holds one
      cell per character of the rank descriptions: cell i comes from
      character i, and a piece records its own index. */
  lemma ParseLayout(fen: string)
    requires Parse(fen).Ok?
    ensures
      var L := Layout(Tokens(fen)[..SideLength]);
      var cells := Parse(fen).value.cells;
      && Spelled(L)
      && |cells| == |L|
      && (forall i :: 0 <= i < |L| ==> cells[i] == CellFor(L[i], i))
      && PlacedFrom(cells, 0)
  {
    var t := Tokens(fen);
    BuildFields(t, AsWritten);
    ParseRanksCells(t[..SideLength], []);
    ParseRanksShape(t[..SideLength], [], AsWritten);
  }

  /** With a digit yielding as many empty cells as its value, an accepted
      board has N * N cells and each piece sits at the index it records. */
  lemma ParseCorrectedShape(fen: string)
    requires ParseWith(fen, Intended).Ok?
    ensures
      var cells := ParseWith(fen, Intended).value.cells;
      && |cells| == SideLength * SideLength
      && PlacedFrom(cells, 0)
  {
    BuildFields(Tokens(fen), Intended);
    ParseRanksShape(Tokens(fen)[..SideLength], [], Intended);
  }

  /** An empty rank, "8", yields one cell as written and eight as intended;
      its square count is eight either way. */
  lemma EmptyRankWidth()
    ensures ParseRank("8", [], 0, AsWritten) == Ok(([None], 8))
    ensures ParseRank("8", [], 0, Intended) == Ok((seq(8, _ => None), 8))
  {
    assert IsDigit('8') && DigitValue('8') == 8;
    assert "8"[1..] == "";
    ParseRankUnfold("8", [], 0, AsWritten);
    ParseRankUnfold("8", [], 0, Intended);
    var none: seq<Option<Piece>> := [None];
    assert [] + Empties(AsWritten, '8') == none;
    assert ParseRank("8", [], 0, AsWritten) == ParseRank("", none, 8, AsWritten);
    assert ParseRank("", none, 8, AsWritten) == Ok((none, 8));
    var eight: seq<Option<Piece>> := seq(8, _ => None);
    assert [] + Empties(Intended, '8') == eight;
    assert ParseRank("8", [], 0, Intended) == ParseRank("", eight, 8, Intended);
  }

  /** As written, eight empty ranks build a board of 8 cells, not 64. */
  lemma EmptyBoardAsWritten()
    ensures ParseRanks(seq(SideLength, _ => "8"), [], AsWritten).Ok?
    ensures |ParseRanks(seq(SideLength, _ => "8"), [], AsWritten).value| == SideLength
  {
    var ranks: seq<string> := seq(SideLength, _ => "8");
    assert ValidRank("8", SideLength) by { assert "8"[1..] == ""; }
    ParseRanksAccepts(ranks, [], AsWritten);
    ParseRanksShape(ranks, [], AsWritten);
    assert Layout(ranks) == "88888888" by {
      var i := 0;
      while i < SideLength
        invariant 0 <= i <= SideLength
        invariant Layout(ranks[SideLength - i..]) == seq(i, _ => '8')
      {
        assert ranks[SideLength - i - 1..] == ["8"] + ranks[SideLength - i..];
        i := i + 1;
      }
    }
  }
}
