/** Text helpers over ASCII strings and the conversion between algebraic
    squares such as "a1" and board indices (chess.py:288-309). */
module Squares {
  import opened Wrappers
  import opened Geometry

  /** The ASCII characters Python's `str.isspace` accepts. */
  predicate IsSpace(c: char)
  {
    c == ' ' || ('\t' <= c <= '\r') || ('\U{1c}' <= c <= '\U{1f}')
  }

  predicate IsDigit(c: char)
  {
    '0' <= c <= '9'
  }

  predicate IsUpper(c: char)
  {
    'A' <= c <= 'Z'
  }

  predicate IsLower(c: char)
  {
    'a' <= c <= 'z'
  }

  /** ASCII `casefold`. */
  function Lower(c: char): (r: char)
    ensures IsUpper(c) ==> IsLower(r) && r as int == c as int + 32
    ensures !IsUpper(c) ==> r == c
  {
    if IsUpper(c) then (c as int + 32) as char else c
  }

  function TrimStart(s: string): (r: string)
    ensures |r| <= |s| && r == s[|s| - |r|..]
    ensures |r| > 0 ==> !IsSpace(r[0])
    ensures forall i :: 0 <= i < |s| - |r| ==> IsSpace(s[i])
  {
    if |s| > 0 && IsSpace(s[0]) then TrimStart(s[1..]) else s
  }

  function TrimEnd(s: string): (r: string)
    ensures |r| <= |s| && r == s[..|r|]
    ensures |r| > 0 ==> !IsSpace(r[|r| - 1])
    ensures forall i :: |r| <= i < |s| ==> IsSpace(s[i])
  {
    if |s| > 0 && IsSpace(s[|s| - 1]) then TrimEnd(s[..|s| - 1]) else s
  }

  /** `str.strip()` over ASCII whitespace. */
  function Strip(s: string): string
  {
    TrimEnd(TrimStart(s))
  }

  lemma StripKeeps(s: string)
    requires |s| > 0 && !IsSpace(s[0]) && !IsSpace(s[|s| - 1])
    ensures Strip(s) == s
  {
  }

  /** The value of an ASCII digit. */
  function DigitValue(c: char): (r: nat)
    requires IsDigit(c)
    ensures r < 10
  {
    c as int - '0' as int
  }

  predicate AllDigits(s: string)
  {
    forall i :: 0 <= i < |s| ==> IsDigit(s[i])
  }

  /** The decimal value of a string of ASCII digits (leading zeros allowed). */
  function DecimalValue(s: string): nat
    requires AllDigits(s)
  {
    if |s| == 0 then 0 else 10 * DecimalValue(s[..|s| - 1]) + DigitValue(s[|s| - 1])
  }

  /** Python's `int()` restricted to unsigned ASCII decimals: it fails on
      anything else, including the empty string. */
  function ParseNat(s: string): (r: Result<nat>)
    ensures r.Ok? <==> |s| > 0 && AllDigits(s)
  {
    if |s| > 0 && AllDigits(s) then Ok(DecimalValue(s)) else Fail
  }

  function DigitChar(d: nat): (c: char)
    requires d < 10
    ensures IsDigit(c) && DigitValue(c) == d
  {
    ('0' as int + d) as char
  }

  /** Python's `str()` of a natural number. */
  function NatToString(k: nat): (s: string)
    ensures |s| > 0 && AllDigits(s)
  {
    if k < 10 then [DigitChar(k)] else NatToString(k / 10) + [DigitChar(k % 10)]
  }

  /** Python's `str()` of an integer. */
  function IntToString(k: int): (s: string)
    ensures |s| > 0
  {
    if k < 0 then "-" + NatToString(-k) else NatToString(k)
  }

  /** Printing a natural number and reading it back gives it again. */
  lemma {:induction false} DecimalRoundTrip(k: nat)
    ensures DecimalValue(NatToString(k)) == k
  {
    if k >= 10 {
      var s := NatToString(k);
      assert s[..|s| - 1] == NatToString(k / 10);
      DecimalRoundTrip(k / 10);
    }
  }

  /** `convertSquareToIndex`: strip, fail below two characters, then combine
      the rank number (the rest of the string) and the case-folded file
      letter. The result is not range-checked. */
  function SquareToIndex(square: string, n: int): (r: Result<int>)
    ensures r.Fail? <==> |Strip(square)| < 2 || !AllDigits(Strip(square)[1..])
  {
    var s := Strip(square);
    if |s| < 2 then Fail
    else
      match ParseNat(s[1..])
      case Fail => Fail
      case Ok(rank) => Ok(n * (n - rank) + (Lower(s[0]) as int - 97))
  }

  /** `convertIndexToSquare`: the file letter counted from 'a' and the rank
      number counted from the bottom. Letters past 'z' are not ASCII, so the
      side length is kept to 26. */
  function IndexToSquare(i: int, n: int): (s: string)
    requires 0 < n <= 26
    ensures |s| >= 2 && IsLower(s[0])
  {
    [((i % n) + 97) as char] + IntToString(n - i / n)
  }

  /** Every index of the board survives the trip to a square and back. */
  lemma IndexSquareRoundTrip(i: int, n: int)
    requires 0 < n <= 26 && OnBoard(i, n)
    ensures SquareToIndex(IndexToSquare(i, n), n) == Ok(i)
  {
    Coordinates(i, n);
    var rank := n - i / n;
    var s := IndexToSquare(i, n);
    assert s == [((i % n) + 97) as char] + NatToString(rank);
    StripKeeps(s);
    assert s[1..] == NatToString(rank);
    DecimalRoundTrip(rank);
    assert n * (n - rank) == (i / n) * n;
  }

  /** Every square of the board written in lower case with a plain rank
      number survives the trip to an index and back. */
  lemma SquareIndexRoundTrip(file: char, rank: nat, n: int)
    requires 0 < n <= 26
    requires 'a' <= file && (file as int) < 97 + n && 1 <= rank <= n
    ensures SquareToIndex([file] + NatToString(rank), n).Ok?
    ensures IndexToSquare(SquareToIndex([file] + NatToString(rank), n).value, n) == [file] + NatToString(rank)
  {
    var s := [file] + NatToString(rank);
    StripKeeps(s);
    assert s[1..] == NatToString(rank);
    DecimalRoundTrip(rank);
    var f := file as int - 97;
    var i := n * (n - rank) + f;
    assert SquareToIndex(s, n) == Ok(i);
    assert i == (n - rank) * n + f;
    Compose(n - rank, f, n);
    assert i % n == f && i / n == n - rank;
    assert ((i % n) + 97) as char == file;
  }

  lemma TrimEndCons(c: char, t: string)
    requires !IsSpace(c)
    ensures TrimEnd([c] + t) == [c] + TrimEnd(t)
    decreases |t|
  {
    if |t| > 0 && IsSpace(t[|t| - 1]) {
      assert ([c] + t)[..|t|] == [c] + t[..|t| - 1];
      TrimEndCons(c, t[..|t| - 1]);
    }
  }

  /** Stripping a string that starts with a non-space only trims its end. */
  lemma StripCons(c: char, rest: string)
    requires !IsSpace(c)
    ensures Strip([c] + rest) == [c] + TrimEnd(rest)
  {
    assert TrimStart([c] + rest) == [c] + rest;
    TrimEndCons(c, rest);
  }

  /** The file letter may be given in either case. */
  lemma FileLetterCaseInsensitive(c: char, rest: string, n: int)
    requires IsUpper(c)
    ensures SquareToIndex([c] + rest, n) == SquareToIndex([Lower(c)] + rest, n)
  {
    var t := TrimEnd(rest);
    StripCons(c, rest);
    StripCons(Lower(c), rest);
    var s1, s2 := [c] + t, [Lower(c)] + t;
    assert s1[1..] == t && s2[1..] == t;
    assert |s1| == |s2|;
    assert Lower(s1[0]) == Lower(s2[0]);
  }
}
