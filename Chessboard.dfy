/**
 * The rectangular board shared by the chess-like games: square numbering
 * (`x` runs over the `rows` files, `y` over the `columns` ranks), the
 * Zobrist hash kept up to date as pieces are set, piece counting, and the
 * text of a square ("A1", "c 12") in both directions.
 *
 * The C++ class is a template over the two extents and the INVERTY flag;
 * here they are fields fixed at construction. The random keys drawn once
 * by `setup` are parameters of the constructor.
 */
module Chessboard {
  import opened Wrappers
  import opened Decimal
  import opened Modular
  import opened Bits

  /** A piece kind, stored in a byte; 0 is the empty square. */
  type Chess = x: int | 0 <= x < 256

  /** The board extents the template accepts: both in [1, 26]. */
  predicate ValidExtents(rows: int, columns: int)
  {
    1 <= rows <= 26 && 1 <= columns <= 26
  }

  // C++ division and remainder truncate toward zero.
  function CDiv(a: int, b: int): int
    requires b > 0
  {
    if a >= 0 then a / b else -((-a) / b)
  }

  function CMod(a: int, b: int): int
    requires b > 0
  {
    a - b * CDiv(a, b)
  }

  predicate IsPosInBoard(rows: int, columns: int, x: int, y: int)
  {
    0 <= x < rows && 0 <= y < columns
  }

  function PosTo1D(rows: int, x: int, y: int): int
  {
    rows * y + x
  }

  function PosTo2D(rows: int, xy: int): (int, int)
    requires rows > 0
  {
    (CMod(xy, rows), CDiv(xy, rows))
  }

  /** `isPosInBoard(xy)`: the square numbered xy, taken apart with C++ division, is on the board. */
  predicate IsIndexInBoard(rows: int, columns: int, xy: int)
    requires rows > 0
  {
    IsPosInBoard(rows, columns, PosTo2D(rows, xy).0, PosTo2D(rows, xy).1)
  }

  lemma SquareBound(rows: int, columns: int, x: int, y: int)
    requires IsPosInBoard(rows, columns, x, y)
    ensures 0 <= PosTo1D(rows, x, y) < rows * columns
  {
    MulLe(rows, y, columns - 1);
    assert rows * (columns - 1) + rows == rows * columns;
  }

  /** Numbering a square and taking the number apart again gives the square back. */
  lemma PosRoundTrip(rows: int, columns: int, x: int, y: int)
    requires ValidExtents(rows, columns) && IsPosInBoard(rows, columns, x, y)
    ensures 0 <= PosTo1D(rows, x, y) < rows * columns
    ensures PosTo2D(rows, PosTo1D(rows, x, y)) == (x, y)
  {
    SquareBound(rows, columns, x, y);
    DivModOf(PosTo1D(rows, x, y), rows, y, x);
  }

  /** Every number of a square on the board is the number of the square it names. */
  lemma IndexRoundTrip(rows: int, columns: int, xy: int)
    requires ValidExtents(rows, columns) && 0 <= xy < rows * columns
    ensures IsIndexInBoard(rows, columns, xy)
    ensures PosTo1D(rows, PosTo2D(rows, xy).0, PosTo2D(rows, xy).1) == xy
  {
    var q, r := xy / rows, xy % rows;
    assert CDiv(xy, rows) == q && CMod(xy, rows) == r;
    if q >= columns {
      MulLe(rows, columns, q);
      assert false;
    }
  }

  /** `isPosInBoard(xy)` holds exactly for the numbers 0 .. squares-1; negative numbers are refused. */
  lemma IndexInBoardIff(rows: int, columns: int, xy: int)
    requires ValidExtents(rows, columns)
    ensures IsIndexInBoard(rows, columns, xy) <==> 0 <= xy < rows * columns
  {
    if 0 <= xy < rows * columns {
      IndexRoundTrip(rows, columns, xy);
    } else if xy < 0 {
      var q := (-xy) / rows;
      if q == 0 {
        assert CMod(xy, rows) == xy;
      } else {
        assert CDiv(xy, rows) < 0;
      }
    } else {
      var q, r := xy / rows, xy % rows;
      assert xy == rows * q + r;
      if q < columns {
        MulLe(rows, q, columns - 1);
        assert false;
      }
    }
  }

  // ---------------------------------------------------------------------
  // Square names: a file letter then the rank number.

  /** The white-space characters of the C locale: space, tab, line feed, vertical tab, form feed, carriage return. */
  predicate IsSpace(c: char)
  {
    c == ' ' || 9 <= c as int <= 13
  }

  predicate IsAlpha(c: char)
  {
    'A' <= c <= 'Z' || 'a' <= c <= 'z'
  }

  function ToUpper(c: char): char
  {
    if 'a' <= c <= 'z' then (c as int - 32) as char else c
  }

  /** The rank number printed for rank y: counted from the far side when INVERTY. */
  function RankNumber(columns: int, invertY: bool, y: int): int
  {
    if invertY then columns - y else y + 1
  }

  /** `getPosStr(x, y)`: the file letter, then the rank on two digits when there are ten or more ranks. */
  function PosStr(rows: int, columns: int, invertY: bool, x: int, y: int): (s: string)
    requires ValidExtents(rows, columns) && IsPosInBoard(rows, columns, x, y)
    ensures |s| == (if columns >= 10 then 3 else 2)
    ensures IsAlpha(s[0]) && forall k :: 1 <= k < |s| ==> IsDigit(s[k])
  {
    var n := RankNumber(columns, invertY, y);
    var letter := ('A' as int + x) as char;
    if columns >= 10 then [letter, DigitChar(n / 10), DigitChar(n % 10)] else [letter, DigitChar(n)]
  }

  /** The first position at or after i that is not white space. */
  function SkipSpaces(s: string, i: nat): (j: nat)
    requires i <= |s|
    ensures i <= j <= |s| && (j < |s| ==> !IsSpace(s[j]))
    ensures forall k :: i <= k < j ==> IsSpace(s[k])
    decreases |s| - i
  {
    if i == |s| || !IsSpace(s[i]) then i else SkipSpaces(s, i + 1)
  }

  /** The first position at or after i that is not a digit. */
  function SkipDigits(s: string, i: nat): (j: nat)
    requires i <= |s|
    ensures i <= j <= |s| && (j < |s| ==> !IsDigit(s[j]))
    ensures forall k :: i <= k < j ==> IsDigit(s[k])
    decreases |s| - i
  {
    if i == |s| || !IsDigit(s[i]) then i else SkipDigits(s, i + 1)
  }

  lemma SkipSpacesIs(s: string, i: nat, j: nat)
    requires i <= j <= |s| && (j < |s| ==> !IsSpace(s[j]))
    requires forall k :: i <= k < j ==> IsSpace(s[k])
    ensures SkipSpaces(s, i) == j
  {
  }

  lemma SkipDigitsIs(s: string, i: nat, j: nat)
    requires i <= j <= |s| && (j < |s| ==> !IsDigit(s[j]))
    requires forall k :: i <= k < j ==> IsDigit(s[k])
    ensures SkipDigits(s, i) == j
  {
  }

  /** A skip that reaches a space at i goes past it. */
  lemma SkipSpacesPast(s: string, j: nat, i: nat)
    requires j <= i < |s| && SkipSpaces(s, j) >= i && IsSpace(s[i])
    ensures SkipSpaces(s, j) >= i + 1
  {
  }

  /** A skip that reaches a digit at i goes past it. */
  lemma SkipDigitsPast(s: string, j: nat, i: nat)
    requires j <= i < |s| && SkipDigits(s, j) >= i && IsDigit(s[i])
    ensures SkipDigits(s, j) >= i + 1
  {
  }

  /** Where the letter and the digits of a square name lie: spaces, a letter, spaces, digits, spaces. */
  datatype Token = Token(letter: char, yBegin: nat, yEnd: nat)

  function Tokens(s: string): (t: Option<Token>)
    ensures t.Some? ==> t.value.yBegin < t.value.yEnd <= |s| && IsAlpha(t.value.letter)
    ensures t.Some? ==> forall k :: t.value.yBegin <= k < t.value.yEnd ==> IsDigit(s[k])
  {
    var a := SkipSpaces(s, 0);
    if a == |s| || !IsAlpha(s[a]) then None
    else
      var b := SkipSpaces(s, a + 1);
      if b == |s| || !IsDigit(s[b]) then None
      else
        var e := SkipDigits(s, b);
        if SkipSpaces(s, e) < |s| then None else Some(Token(s[a], b, e))
  }

  /** The square a name denotes, from the file letter and the rank value. */
  function SquareOf(rows: int, columns: int, invertY: bool, letter: char, rank: int): Option<(int, int)>
  {
    var x := ToUpper(letter) as int - 'A' as int;
    var y := if invertY then columns - rank else rank - 1;
    if IsPosInBoard(rows, columns, x, y) then Some((x, y)) else None
  }

  /**
   * `parsePosStr` as written: a rank too large for an unsigned long is
   * refused (the exception of `stoul`), any other is truncated to 32 bits
   * when it is assigned to an `int`.
   * The C++ overflow of `columns - y` is not reproduced: it can only occur
   * for ranks that are off the board either way.
   */
  function ParsedPos(rows: int, columns: int, invertY: bool, s: string): Option<(int, int)>
  {
    match Tokens(s)
    case None => None
    case Some(t) =>
      var v := ParseNat(s[t.yBegin..t.yEnd]);
      if v >= 0x1_0000_0000_0000_0000 then None
      else SquareOf(rows, columns, invertY, t.letter, ToInt32(v))
  }

  /** `parsePosStr` as evidently intended: the rank is the number the digits spell. */
  function IntendedParsedPos(rows: int, columns: int, invertY: bool, s: string): Option<(int, int)>
  {
    match Tokens(s)
    case None => None
    case Some(t) => SquareOf(rows, columns, invertY, t.letter, ParseNat(s[t.yBegin..t.yEnd]))
  }

  lemma TokensOfPosStr(rows: int, columns: int, invertY: bool, x: int, y: int)
    requires ValidExtents(rows, columns) && IsPosInBoard(rows, columns, x, y)
    ensures Tokens(PosStr(rows, columns, invertY, x, y)) ==
            Some(Token(('A' as int + x) as char, 1, |PosStr(rows, columns, invertY, x, y)|))
  {
    var s := PosStr(rows, columns, invertY, x, y);
    SkipSpacesIs(s, 0, 0);
    SkipSpacesIs(s, 1, 1);
    SkipDigitsIs(s, 1, |s|);
    SkipSpacesIs(s, |s|, |s|);
  }

  lemma RankDigits(columns: int, invertY: bool, y: int)
    requires 1 <= columns <= 26 && 0 <= y < columns
    ensures var n := RankNumber(columns, invertY, y);
            1 <= n <= columns &&
            (columns >= 10 ==> ParseNat([DigitChar(n / 10), DigitChar(n % 10)]) == n) &&
            (columns < 10 ==> ParseNat([DigitChar(n)]) == n)
  {
    var n := RankNumber(columns, invertY, y);
    if columns >= 10 {
      ParseNatSnoc([DigitChar(n / 10)], DigitChar(n % 10));
      assert [DigitChar(n / 10)] + [DigitChar(n % 10)] == [DigitChar(n / 10), DigitChar(n % 10)];
      assert [DigitChar(n / 10)][..0] == [];
    } else {
      assert [DigitChar(n)][..0] == [];
    }
  }

  /** The name of a square reads back as that square (the intended reading). */
  lemma IntendedPosStrRoundTrip(rows: int, columns: int, invertY: bool, x: int, y: int)
    requires ValidExtents(rows, columns) && IsPosInBoard(rows, columns, x, y)
    ensures IntendedParsedPos(rows, columns, invertY, PosStr(rows, columns, invertY, x, y)) == Some((x, y))
  {
    var s := PosStr(rows, columns, invertY, x, y);
    TokensOfPosStr(rows, columns, invertY, x, y);
    RankDigits(columns, invertY, y);
    assert s[1..|s|] == s[1..];
  }

  /** The name of a square reads back as that square, truncation included. */
  lemma PosStrRoundTrip(rows: int, columns: int, invertY: bool, x: int, y: int)
    requires ValidExtents(rows, columns) && IsPosInBoard(rows, columns, x, y)
    ensures ParsedPos(rows, columns, invertY, PosStr(rows, columns, invertY, x, y)) == Some((x, y))
  {
    var s := PosStr(rows, columns, invertY, x, y);
    TokensOfPosStr(rows, columns, invertY, x, y);
    RankDigits(columns, invertY, y);
    assert s[1..|s|] == s[1..];
    IntendedPosStrRoundTrip(rows, columns, invertY, x, y);
  }

  /** Whatever the intended reading accepts is a square of the board, named by a letter and its rank. */
  lemma IntendedParsedPosOnBoard(rows: int, columns: int, invertY: bool, s: string)
    requires IntendedParsedPos(rows, columns, invertY, s).Some?
    ensures var (x, y) := IntendedParsedPos(rows, columns, invertY, s).value;
            IsPosInBoard(rows, columns, x, y) && Tokens(s).Some? &&
            ToUpper(Tokens(s).value.letter) as int - 'A' as int == x &&
            RankNumber(columns, invertY, y) == ParseNat(s[Tokens(s).value.yBegin..Tokens(s).value.yEnd])
  {
  }

  /** A name that is not spaces, a letter, spaces, digits and spaces is refused. */
  lemma MalformedRefused(rows: int, columns: int, invertY: bool, s: string)
    requires Tokens(s).None?
    ensures ParsedPos(rows, columns, invertY, s).None? && IntendedParsedPos(rows, columns, invertY, s).None?
  {
  }

  /**
   * On a board of 8 by 8 with the ranks counted from the far side, the rank
   * 4294967304 is truncated to 8, so the name "A4294967304" is read as the
   * square A8 instead of being refused.
   */
  lemma TruncatedRankAccepted()
    ensures ParsedPos(8, 8, true, "A4294967304") == Some((0, 0))
    ensures IntendedParsedPos(8, 8, true, "A4294967304") == None
  {
    var s := "A4294967304";
    LongNameTokens();
    assert s[1..11] == "4294967304";
    LongRankValue();
    assert ToInt32(4294967304) == 8;
  }

  lemma LongNameTokens()
    ensures Tokens("A4294967304") == Some(Token('A', 1, 11))
  {
    var s := "A4294967304";
    SkipSpacesIs(s, 0, 0);
    SkipSpacesIs(s, 1, 1);
    SkipDigitsIs(s, 1, |s|);
    SkipSpacesIs(s, |s|, |s|);
  }

  lemma HighDigitsValue()
    ensures ParseNat("42949") == 42949
  {
    ParseNatSnoc("4", '2');
    assert "4" + ['2'] == "42";
    ParseNatSnoc("42", '9');
    assert "42" + ['9'] == "429";
    ParseNatSnoc("429", '4');
    assert "429" + ['4'] == "4294";
    ParseNatSnoc("4294", '9');
    assert "4294" + ['9'] == "42949";
  }

  lemma LongRankValue()
    ensures ParseNat("4294967304") == 4294967304
  {
    HighDigitsValue();
    ParseNatSnoc("42949", '6');
    assert "42949" + ['6'] == "429496";
    ParseNatSnoc("429496", '7');
    assert "429496" + ['7'] == "4294967";
    ParseNatSnoc("4294967", '3');
    assert "4294967" + ['3'] == "42949673";
    ParseNatSnoc("42949673", '0');
    assert "42949673" + ['0'] == "429496730";
    ParseNatSnoc("429496730", '4');
    assert "429496730" + ['4'] == "4294967304";
  }

  /** A letter after the leading spaces, digits after the next spaces, and only spaces after them make a token. */
  lemma ScannedToken(s: string, a: nat, b: nat, e: nat)
    requires a < |s| && SkipSpaces(s, 0) == a && IsAlpha(s[a])
    requires b < |s| && SkipSpaces(s, a + 1) == b && IsDigit(s[b])
    requires e <= |s| && SkipDigits(s, b) == e && SkipSpaces(s, e) == |s|
    ensures Tokens(s) == Some(Token(s[a], b, e))
  {
  }

  /**
   * What the scan of `parsePosStr` has seen of `s` before position i: x < 0
   * while only spaces came, then the letter at a, yBegin the first digit
   * after the spaces that follow it, yEnd the first non-digit after that.
   */
  ghost predicate Scanning(s: string, i: int, x: int, a: int, letter: char, yBegin: int, yEnd: int)
  {
    && 0 <= i <= |s|
    && (x < 0 ==> yBegin < 0 && SkipSpaces(s, 0) >= i)
    && (x >= 0 ==> 0 <= a < i && SkipSpaces(s, 0) == a && IsAlpha(s[a]) && letter == s[a])
    && (x >= 0 && yBegin < 0 ==> yEnd < 0 && SkipSpaces(s, a + 1) >= i)
    && (yBegin >= 0 ==> x >= 0 && yBegin < i && SkipSpaces(s, a + 1) == yBegin && IsDigit(s[yBegin]))
    && (yBegin >= 0 && yEnd < 0 ==> SkipDigits(s, yBegin) >= i)
    && (yEnd >= 0 ==> yBegin >= 0 && yEnd < i && SkipDigits(s, yBegin) == yEnd && SkipSpaces(s, yEnd) >= i)
  }

  /** A space before the letter. */
  lemma LeadingSpace(s: string, i: nat, a: int, letter: char)
    requires i < |s| && Scanning(s, i, -1, a, letter, -1, -1) && IsSpace(s[i])
    ensures Scanning(s, i + 1, -1, a, letter, -1, -1)
  {
    SkipSpacesPast(s, 0, i);
  }

  /** The letter. */
  lemma Letter(s: string, i: nat, x: int, a: int, letter: char)
    requires i < |s| && Scanning(s, i, -1, a, letter, -1, -1) && IsAlpha(s[i]) && x >= 0
    ensures Scanning(s, i + 1, x, i, s[i], -1, -1)
  {
  }

  /** A space between the letter and the digits. */
  lemma MiddleSpace(s: string, i: nat, x: int, a: int, letter: char)
    requires i < |s| && Scanning(s, i, x, a, letter, -1, -1) && x >= 0 && IsSpace(s[i])
    ensures Scanning(s, i + 1, x, a, letter, -1, -1)
  {
    SkipSpacesPast(s, a + 1, i);
  }

  /** The first digit. */
  lemma FirstDigit(s: string, i: nat, x: int, a: int, letter: char)
    requires i < |s| && Scanning(s, i, x, a, letter, -1, -1) && x >= 0 && IsDigit(s[i])
    ensures Scanning(s, i + 1, x, a, letter, i, -1)
  {
    SkipDigitsPast(s, i, i);
  }

  /** A further digit. */
  lemma NextDigit(s: string, i: nat, x: int, a: int, letter: char, yBegin: nat)
    requires i < |s| && Scanning(s, i, x, a, letter, yBegin, -1) && IsDigit(s[i])
    ensures Scanning(s, i + 1, x, a, letter, yBegin, -1)
  {
    SkipDigitsPast(s, yBegin, i);
  }

  /** The space that ends the digits. */
  lemma DigitsEnd(s: string, i: nat, x: int, a: int, letter: char, yBegin: nat)
    requires i < |s| && Scanning(s, i, x, a, letter, yBegin, -1) && IsSpace(s[i])
    ensures Scanning(s, i + 1, x, a, letter, yBegin, i)
  {
    SkipSpacesPast(s, i, i);
  }

  /** A space after the digits. */
  lemma TrailingSpace(s: string, i: nat, x: int, a: int, letter: char, yBegin: nat, yEnd: nat)
    requires i < |s| && Scanning(s, i, x, a, letter, yBegin, yEnd) && IsSpace(s[i])
    ensures Scanning(s, i + 1, x, a, letter, yBegin, yEnd)
  {
    SkipSpacesPast(s, yEnd, i);
  }

  /**
   * The scanning loop of `parsePosStr`: one pass that skips spaces, takes the
   * letter, skips spaces, takes the digits and then allows only spaces.
   */
  method ScanPosStr(s: string) returns (t: Option<Token>)
    ensures t == Tokens(s)
  {
    var x, yBegin, yEnd := -1, -1, -1;
    ghost var a := 0;
    var letter := 'A';
    var i := 0;
    while i < |s|
      invariant Scanning(s, i, x, a, letter, yBegin, yEnd)
    {
      var c := s[i];
      if x < 0 {
        if IsSpace(c) {
          LeadingSpace(s, i, a, letter);
          i := i + 1;
          continue;
        } else if !IsAlpha(c) {
          return None;
        }
        x := ToUpper(c) as int - 'A' as int;
        Letter(s, i, x, a, letter);
        a := i;
        letter := c;
      } else if yBegin < 0 {
        if IsSpace(c) {
          MiddleSpace(s, i, x, a, letter);
          i := i + 1;
          continue;
        } else if !IsDigit(c) {
          return None;
        }
        FirstDigit(s, i, x, a, letter);
        yBegin := i;
      } else if yEnd < 0 {
        if IsDigit(c) {
          NextDigit(s, i, x, a, letter, yBegin);
          i := i + 1;
          continue;
        } else if !IsSpace(c) {
          return None;
        }
        DigitsEnd(s, i, x, a, letter, yBegin);
        yEnd := i;
      } else if !IsSpace(c) {
        return None;
      } else {
        TrailingSpace(s, i, x, a, letter, yBegin, yEnd);
      }
      i := i + 1;
    }
    if x < 0 {
      return None;
    }
    if yBegin < 0 {
      return None;
    }
    if yEnd < 0 {
      yEnd := |s|;
    }
    ScannedToken(s, a, yBegin, yEnd);
    t := Some(Token(letter, yBegin, yEnd));
  }

  /** `parsePosStr`: the scan, then the rank read with `stoul` into an `int`, then the board check. */
  method ParsePosStr(rows: int, columns: int, invertY: bool, s: string) returns (r: Option<(int, int)>)
    ensures r == ParsedPos(rows, columns, invertY, s)
    ensures r.Some? ==> IsPosInBoard(rows, columns, r.value.0, r.value.1)
  {
    var t := ScanPosStr(s);
    if t.None? {
      return None;
    }
    var v := ParseNat(s[t.value.yBegin..t.value.yEnd]);
    if v >= 0x1_0000_0000_0000_0000 {
      return None;
    }
    r := SquareOf(rows, columns, invertY, t.value.letter, ToInt32(v));
  }

  // ---------------------------------------------------------------------
  // The Zobrist hash: one random key per (piece kind, square).

  /** The index of the key of piece `chess` on square `xy` in the key list. */
  function KeyIndex(squares: nat, chess: Chess, xy: nat): nat
  {
    squares * chess + xy
  }

  lemma KeyIndexBound(squares: nat, kinds: nat, chess: Chess, xy: nat)
    requires chess < kinds && xy < squares
    ensures KeyIndex(squares, chess, xy) < kinds * squares
  {
    MulLe(squares, chess, kinds - 1);
    assert squares * (kinds - 1) + squares == kinds * squares;
  }

  /** The key of piece `chess` on square `xy`. */
  function Key(keys: seq<nat>, kinds: nat, squares: nat, chess: Chess, xy: nat): nat
    requires chess < kinds && xy < squares && |keys| == kinds * squares
  {
    KeyIndexBound(squares, kinds, chess, xy);
    keys[KeyIndex(squares, chess, xy)]
  }

  predicate KindsBelow(b: seq<Chess>, kinds: nat)
  {
    forall i :: 0 <= i < |b| ==> b[i] < kinds
  }

  /** Keys of w bits: with w = 64, the unsigned 64-bit keys of the source. */
  predicate KeysBelow(keys: seq<nat>, w: nat)
  {
    forall i :: 0 <= i < |keys| ==> keys[i] < Pow2(w)
  }

  /** The hash of the first n squares of b: the exclusive or of the keys of their pieces. */
  function PrefixHash(b: seq<Chess>, keys: seq<nat>, kinds: nat, n: nat): nat
    requires n <= |b| && KindsBelow(b, kinds) && |keys| == kinds * |b|
  {
    if n == 0 then 0
    else
      Xor(PrefixHash(b, keys, kinds, n - 1), Key(keys, kinds, |b|, b[n - 1], n - 1))
  }

  /** The hash `updateHash()` recomputes from scratch. */
  function BoardHash(b: seq<Chess>, keys: seq<nat>, kinds: nat): nat
    requires KindsBelow(b, kinds) && |keys| == kinds * |b|
  {
    PrefixHash(b, keys, kinds, |b|)
  }

  /** Keys of w bits give a hash of w bits: no 64-bit truncation is ever needed. */
  lemma {:induction false} PrefixHashIsWord(b: seq<Chess>, keys: seq<nat>, kinds: nat, n: nat, w: nat)
    requires n <= |b| && KindsBelow(b, kinds) && |keys| == kinds * |b| && KeysBelow(keys, w)
    ensures PrefixHash(b, keys, kinds, n) < Pow2(w)
  {
    if n > 0 {
      PrefixHashIsWord(b, keys, kinds, n - 1, w);
      var k := Key(keys, kinds, |b|, b[n - 1], n - 1);
      assert k < Pow2(w) by {
        KeyIndexBound(|b|, kinds, b[n - 1], n - 1);
      }
      XorBound(PrefixHash(b, keys, kinds, n - 1), k, w);
    }
  }

  /**
   * Replacing the piece on one square changes the hash of every prefix
   * holding that square by the key of the piece removed and the key of the
   * piece put there.
   */
  lemma {:induction false} PrefixHashUpdate(b: seq<Chess>, keys: seq<nat>, kinds: nat, n: nat, xy: nat, c: Chess)
    requires n <= |b| && xy < |b| && c < kinds && KindsBelow(b, kinds) && |keys| == kinds * |b|
    ensures KindsBelow(b[xy := c], kinds)
    ensures xy < n ==> PrefixHash(b[xy := c], keys, kinds, n) ==
                       Xor(Xor(PrefixHash(b, keys, kinds, n), Key(keys, kinds, |b|, b[xy], xy)), Key(keys, kinds, |b|, c, xy))
    ensures n <= xy ==> PrefixHash(b[xy := c], keys, kinds, n) == PrefixHash(b, keys, kinds, n)
  {
    if n > 0 {
      PrefixHashUpdate(b, keys, kinds, n - 1, xy, c);
      var p := PrefixHash(b, keys, kinds, n - 1);
      var k1, k2 := Key(keys, kinds, |b|, b[xy], xy), Key(keys, kinds, |b|, c, xy);
      var k3 := Key(keys, kinds, |b|, b[n - 1], n - 1);
      if xy == n - 1 {
        XorCancel(p, k1);
      } else if xy < n - 1 {
        XorSwap(Xor(p, k1), k2, k3);
        XorSwap(p, k1, k3);
      }
    }
  }

  lemma BoardHashUpdate(b: seq<Chess>, keys: seq<nat>, kinds: nat, xy: nat, c: Chess)
    requires xy < |b| && c < kinds && KindsBelow(b, kinds) && |keys| == kinds * |b|
    ensures KindsBelow(b[xy := c], kinds)
    ensures BoardHash(b[xy := c], keys, kinds) ==
            Xor(Xor(BoardHash(b, keys, kinds), Key(keys, kinds, |b|, b[xy], xy)), Key(keys, kinds, |b|, c, xy))
  {
    PrefixHashUpdate(b, keys, kinds, |b|, xy, c);
  }

  /** How many squares of b hold each kind, kind by kind. */
  function KindCounts(b: seq<Chess>, kinds: nat): (counts: seq<nat>)
    ensures |counts| == kinds
    ensures forall c :: 0 <= c < kinds ==> counts[c] == if c < 256 then multiset(b)[c as Chess] else 0
  {
    seq(kinds, c => if 0 <= c < 256 then multiset(b)[c as Chess] else 0)
  }

  function Sum(s: seq<nat>): nat
  {
    if s == [] then 0 else Sum(s[..|s| - 1]) + s[|s| - 1]
  }

  lemma {:induction false} SumIncrement(s: seq<nat>, i: nat)
    requires i < |s|
    ensures Sum(s[i := s[i] + 1]) == Sum(s) + 1
  {
    var t := s[i := s[i] + 1];
    var n := |s| - 1;
    assert t[..n] == if i < n then s[..n][i := s[i] + 1] else s[..n];
    if i < n {
      SumIncrement(s[..n], i);
    }
  }

  /** One more square holding x adds one to the count of x and to nothing else. */
  lemma KindCountsAppend(b: seq<Chess>, x: Chess, kinds: nat)
    requires x < kinds
    ensures KindCounts(b + [x], kinds) == KindCounts(b, kinds)[x := KindCounts(b, kinds)[x] + 1]
  {
    assert multiset(b + [x]) == multiset(b) + multiset{x};
  }

  /** When every square holds one of the kinds, the counts add up to the number of squares. */
  lemma {:induction false} CountsTotal(b: seq<Chess>, kinds: nat)
    requires KindsBelow(b, kinds)
    ensures Sum(KindCounts(b, kinds)) == |b|
  {
    if b == [] {
      var z := KindCounts(b, kinds);
      assert forall k :: 0 <= k <= kinds ==> Sum(z[..k]) == 0 by {
        forall k | 0 <= k <= kinds ensures Sum(z[..k]) == 0 {
          ZeroSum(z, k);
        }
      }
      assert z[..kinds] == z;
    } else {
      var n := |b| - 1;
      assert b == b[..n] + [b[n]];
      CountsTotal(b[..n], kinds);
      KindCountsAppend(b[..n], b[n], kinds);
      SumIncrement(KindCounts(b[..n], kinds), b[n]);
    }
  }

  lemma {:induction false} ZeroSum(z: seq<nat>, k: nat)
    requires k <= |z| && forall i :: 0 <= i < |z| ==> z[i] == 0
    ensures Sum(z[..k]) == 0
  {
    if k > 0 {
      assert z[..k][..k - 1] == z[..k - 1];
      ZeroSum(z, k - 1);
    }
  }

  /** The hash as the board keeps it: the hash of the squares, with the side-to-move key folded in when turned. */
  function KeptHash(squaresHash: nat, turnKey: nat, turned: bool): nat
  {
    if turned then Xor(squaresHash, turnKey) else squaresHash
  }

  /** Folding the side-to-move key in flips `turned`; doing it twice gives the hash back. */
  lemma TurnFlips(squaresHash: nat, turnKey: nat, turned: bool)
    ensures Xor(KeptHash(squaresHash, turnKey, turned), turnKey) == KeptHash(squaresHash, turnKey, !turned)
  {
    if turned {
      XorCancel(squaresHash, turnKey);
    }
  }

  /** Setting a square in a hash with the side to move folded in. */
  lemma KeptHashUpdate(h: nat, turnKey: nat, turned: bool, k1: nat, k2: nat)
    ensures Xor(Xor(KeptHash(h, turnKey, turned), k1), k2) == KeptHash(Xor(Xor(h, k1), k2), turnKey, turned)
  {
    if turned {
      XorSwap(Xor(h, turnKey), k1, k2);
      XorSwap(h, turnKey, k2);
      XorSwap(Xor(h, k2), turnKey, k1);
      XorSwap(h, k2, k1);
      XorSwap(Xor(h, k1), turnKey, k2);
    }
  }

  class Board {
    const rows: int
    const columns: int
    const invertY: bool
    const squares: nat
    /** `hashList`, `hashTurn` and `chessKinds`, drawn once by `setup`. */
    const hashList: seq<nat>
    const hashTurn: nat
    const chessKinds: nat
    var board: array<Chess>
    var hash: nat
    /** Whether the side-to-move key is currently folded into the hash. */
    ghost var turned: bool

    ghost predicate Valid()
      reads this, board
    {
      ValidExtents(rows, columns) && squares == rows * columns && board.Length == squares &&
      |hashList| == chessKinds * squares && KindsBelow(board[..], chessKinds) &&
      hash == KeptHash(BoardHash(board[..], hashList, chessKinds), hashTurn, turned)
    }

    constructor(rows: int, columns: int, invertY: bool, keys: seq<nat>, turnKey: nat, kinds: nat)
      requires ValidExtents(rows, columns) && kinds >= 1 && |keys| == kinds * (rows * columns)
      ensures Valid() && fresh(board)
      ensures this.rows == rows && this.columns == columns && this.invertY == invertY
      ensures hashList == keys && hashTurn == turnKey && chessKinds == kinds
      ensures forall i :: 0 <= i < board.Length ==> board[i] == 0
      ensures !turned
    {
      this.rows, this.columns, this.invertY := rows, columns, invertY;
      squares := rows * columns;
      hashList, hashTurn, chessKinds := keys, turnKey, kinds;
      board := new Chess[rows * columns](_ => 0);
      new;
      RecomputeHash();
    }

    /** `updateHash()`: the hash recomputed square by square, without the side to move. */
    method RecomputeHash()
      requires ValidExtents(rows, columns) && squares == rows * columns && board.Length == squares
      requires |hashList| == chessKinds * squares && KindsBelow(board[..], chessKinds)
      modifies this`hash, this`turned
      ensures Valid() && !turned
    {
      hash := 0;
      var xy := 0;
      while xy < squares
        invariant 0 <= xy <= squares
        invariant hash == PrefixHash(board[..], hashList, chessKinds, xy)
      {
        hash := Xor(hash, Key(hashList, chessKinds, squares, board[xy], xy));
        xy := xy + 1;
      }
      turned := false;
    }

    /** `initialize()`: every square emptied, the hash recomputed. */
    method Initialize()
      requires Valid()
      modifies this`hash, this`turned, board
      ensures Valid() && !turned
      ensures forall i :: 0 <= i < board.Length ==> board[i] == 0
    {
      var i := 0;
      while i < board.Length
        invariant 0 <= i <= board.Length
        invariant forall k :: 0 <= k < i ==> board[k] == 0
        invariant KindsBelow(board[..], chessKinds)
      {
        board[i] := 0;
        i := i + 1;
      }
      RecomputeHash();
    }

    /** `initialize(b)`: the squares copied from b, the hash recomputed. */
    method InitializeFrom(b: seq<Chess>)
      requires Valid() && |b| == board.Length && KindsBelow(b, chessKinds)
      modifies this`hash, this`turned, board
      ensures Valid() && !turned && board[..] == b
    {
      var i := 0;
      while i < board.Length
        invariant 0 <= i <= board.Length
        invariant board[..i] == b[..i]
      {
        board[i] := b[i];
        assert board[..i + 1] == board[..i] + [b[i]];
        i := i + 1;
      }
      assert board[..] == board[..board.Length];
      RecomputeHash();
    }

    function GetChess(xy: int): Chess
      reads this, board
      requires 0 <= xy < board.Length
    {
      board[xy]
    }

    /**
     * `setChess(xy, chess)`: the key of the old piece and the key of the new
     * one are folded into the hash, which stays the hash a full recompute
     * gives (with the side to move as it was).
     */
    method SetChess(xy: int, chess: Chess)
      requires Valid() && 0 <= xy < board.Length && chess < chessKinds
      modifies this`hash, board
      ensures Valid() && turned == old(turned)
      ensures board[..] == old(board[..])[xy := chess]
      ensures hash == Xor(Xor(old(hash), Key(hashList, chessKinds, squares, old(board[xy]), xy)),
                          Key(hashList, chessKinds, squares, chess, xy))
    {
      ghost var before := board[..];
      BoardHashUpdate(before, hashList, chessKinds, xy, chess);
      var k1, k2 := Key(hashList, chessKinds, squares, board[xy], xy), Key(hashList, chessKinds, squares, chess, xy);
      KeptHashUpdate(BoardHash(before, hashList, chessKinds), hashTurn, turned, k1, k2);
      hash := Xor(hash, k1);
      board[xy] := chess;
      hash := Xor(hash, k2);
      assert board[..] == before[xy := chess];
    }

    /** `setChess(x, y, chess)`. */
    method SetChessAt(x: int, y: int, chess: Chess)
      requires Valid() && IsPosInBoard(rows, columns, x, y) && chess < chessKinds
      modifies this`hash, board
      ensures Valid() && turned == old(turned)
      ensures forall i :: 0 <= i < board.Length ==> board[i] == if i == PosTo1D(rows, x, y) then chess else old(board[i])
    {
      SquareBound(rows, columns, x, y);
      SetChess(PosTo1D(rows, x, y), chess);
    }

    /** `turnHash()`: the side-to-move key toggled in the hash. */
    method TurnHash()
      requires Valid()
      modifies this`hash, this`turned
      ensures Valid() && turned == !old(turned)
      ensures hash == Xor(old(hash), hashTurn)
    {
      TurnFlips(BoardHash(board[..], hashList, chessKinds), hashTurn, turned);
      hash := Xor(hash, hashTurn);
      turned := !turned;
    }

    /** `countChesses()`: for each kind, the number of squares holding it. */
    method CountChesses() returns (counts: seq<nat>)
      requires Valid()
      ensures counts == KindCounts(board[..], chessKinds)
      ensures Sum(counts) == board.Length
    {
      counts := seq(chessKinds, _ => 0);
      var i := 0;
      while i < board.Length
        invariant 0 <= i <= board.Length
        invariant counts == KindCounts(board[..i], chessKinds)
      {
        assert board[..i + 1] == board[..i] + [board[i]];
        KindCountsAppend(board[..i], board[i], chessKinds);
        counts := counts[board[i] := counts[board[i]] + 1];
        i := i + 1;
      }
      assert board[..i] == board[..];
      CountsTotal(board[..], chessKinds);
    }

    /** `operator==`: the same hash and the same squares. */
    predicate SameAs(other: Board)
      reads this, board, other, other.board
    {
      hash == other.hash && board[..] == other.board[..]
    }
  }
}
