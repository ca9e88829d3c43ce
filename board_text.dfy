/** The text games/OthelloUtils.py produces from a board: `str(n)` of a
    count, the `win_or_lose` verdict and the `__str__` drawing. */
module BoardText {
  import opened Grid

  predicate IsDigit(c: char) {
    '0' <= c <= '9'
  }

  function DigitChar(d: nat): (c: char)
    requires d < 10
    ensures IsDigit(c)
  {
    (48 + d) as char
  }

  /** `str(n)` for a count: its decimal digits, no leading zero. */
  function NatToString(n: nat): (s: string)
    ensures |s| >= 1 && (|s| > 1 ==> s[0] != '0')
    ensures forall c <- s :: IsDigit(c)
  {
    if n < 10 then [DigitChar(n)] else NatToString(n / 10) + [DigitChar(n % 10)]
  }

  /** The number a string of decimal digits denotes. */
  function DigitsValue(s: string): nat
    requires forall c <- s :: IsDigit(c)
  {
    if s == [] then 0
    else
      var last := s[|s| - 1];
      assert last in s && IsDigit(last);
      DigitsValue(s[..|s| - 1]) * 10 + (last as int - '0' as int)
  }

  /** Reading the digits of `str(n)` gives `n` back. */
  lemma {:induction false} NatToStringValue(n: nat)
    ensures DigitsValue(NatToString(n)) == n
  {
    var s := NatToString(n);
    if n >= 10 {
      NatToStringValue(n / 10);
      assert s[..|s| - 1] == NatToString(n / 10);
    } else {
      assert s[..0] == [];
    }
  }

  /** The length of the run of digits that starts `s`. */
  function DigitRun(s: string): (r: nat)
    ensures r <= |s| && (forall c <- s[..r] :: IsDigit(c))
    ensures r < |s| ==> !IsDigit(s[r])
  {
    if s == [] || !IsDigit(s[0]) then 0
    else
      assert s[..1 + DigitRun(s[1..])] == [s[0]] + s[1..][..DigitRun(s[1..])];
      1 + DigitRun(s[1..])
  }

  /** The number at the start of `s`, as a reader of the text would take it. */
  function ReadNat(s: string): nat {
    DigitsValue(s[..DigitRun(s)])
  }

  /** A count written by `str` and followed by anything but a digit reads
      back as that count. */
  lemma ReadNatToString(n: nat, t: string)
    requires t == [] || !IsDigit(t[0])
    ensures ReadNat(NatToString(n) + t) == n
  {
    var s := NatToString(n) + t;
    var k := |NatToString(n)|;
    var r := DigitRun(s);
    assert forall i :: 0 <= i < k ==> s[i] == NatToString(n)[i];
    assert k < |s| ==> s[k] == t[0];
    assert r == k;
    assert s[..r] == NatToString(n);
    NatToStringValue(n);
  }

  // ---------------------------------------------------------------------
  // win_or_lose

  /** The fixed parts of the `win_or_lose()` messages. */
  const WINS_HAS: string := " wins.He/she has "
  const PIECES_DASH: string := " pieces - "
  const PIECES: string := " pieces"
  const DRAW_NEITHER: string := "Draw. Neither "
  const NOR: string := " nor "
  const DRAW_END: string := " wins!!"

  /** `win_or_lose()` for `black` and `white` listed pieces. */
  function WinOrLoseText(black: nat, white: nat, playerOne: char, playerTwo: char): string {
    if white > black then
      [playerTwo] + WINS_HAS + NatToString(white) + PIECES_DASH + NatToString(black) + PIECES
    else if white < black then
      [playerOne] + WINS_HAS + NatToString(black) + PIECES_DASH + NatToString(white) + PIECES
    else
      DRAW_NEITHER + [playerOne] + NOR + [playerTwo] + DRAW_END
  }

  /** A count written by `str` reads back from wherever it is placed, when
      a non-digit follows it. */
  lemma ReadNatAfter(pre: string, n: nat, t: string)
    requires t == [] || !IsDigit(t[0])
    ensures |pre| <= |pre + NatToString(n) + t| && ReadNat((pre + NatToString(n) + t)[|pre|..]) == n
  {
    assert (pre + NatToString(n) + t)[|pre|..] == NatToString(n) + t;
    ReadNatToString(n, t);
  }

  /** A win names the side with more pieces, then " wins.He/she has ". */
  lemma WinTextNamesWinner(black: nat, white: nat, playerOne: char, playerTwo: char)
    requires black != white
    ensures var m := WinOrLoseText(black, white, playerOne, playerTwo);
      |m| >= 18 && m[1..18] == WINS_HAS &&
      m[0] == if white > black then playerTwo else playerOne
  {
    var m := WinOrLoseText(black, white, playerOne, playerTwo);
    var hi, lo := if white > black then white else black, if white > black then black else white;
    var w := if white > black then playerTwo else playerOne;
    assert m == [w] + WINS_HAS + (NatToString(hi) + PIECES_DASH + NatToString(lo) + PIECES);
  }

  /** A draw begins with the draw text, whose second character is not the
      first of " wins.He/she has ". */
  lemma DrawTextNamesNobody(black: nat, white: nat, playerOne: char, playerTwo: char)
    requires black == white
    ensures var m := WinOrLoseText(black, white, playerOne, playerTwo);
      |m| >= 18 && m[..14] == DRAW_NEITHER && m[1] != WINS_HAS[0]
  {
    var m := WinOrLoseText(black, white, playerOne, playerTwo);
    assert m == DRAW_NEITHER + ([playerOne] + NOR + [playerTwo] + DRAW_END);
  }

  /** The verdict names the side with more pieces first, and reports a
      win exactly when the counts differ. */
  lemma WinOrLoseNamesWinner(black: nat, white: nat, playerOne: char, playerTwo: char)
    ensures var m := WinOrLoseText(black, white, playerOne, playerTwo);
      |m| >= 18 && (m[1..18] == WINS_HAS <==> black != white)
    ensures var m := WinOrLoseText(black, white, playerOne, playerTwo);
      (white > black ==> m[0] == playerTwo) && (white < black ==> m[0] == playerOne)
    ensures var m := WinOrLoseText(black, white, playerOne, playerTwo);
      white == black ==> m[..14] == DRAW_NEITHER
  {
    var m := WinOrLoseText(black, white, playerOne, playerTwo);
    if black == white {
      DrawTextNamesNobody(black, white, playerOne, playerTwo);
      assert m[1..18][0] == m[1];
    } else {
      WinTextNamesWinner(black, white, playerOne, playerTwo);
    }
  }

  /** A win reports the winner's count, then the loser's, and both read
      back from the text. */
  lemma WinOrLoseReportsCounts(black: nat, white: nat, playerOne: char, playerTwo: char)
    requires black != white
    ensures var m, hi, lo := WinOrLoseText(black, white, playerOne, playerTwo),
        if white > black then white else black, if white > black then black else white;
      18 <= |m| && ReadNat(m[18..]) == hi && 28 + |NatToString(hi)| <= |m| &&
      ReadNat(m[28 + |NatToString(hi)|..]) == lo
  {
    var m := WinOrLoseText(black, white, playerOne, playerTwo);
    var hi, lo := if white > black then white else black, if white > black then black else white;
    var w := if white > black then playerTwo else playerOne;
    var head := [w] + WINS_HAS;
    assert m == head + NatToString(hi) + (PIECES_DASH + NatToString(lo) + PIECES);
    ReadNatAfter(head, hi, PIECES_DASH + NatToString(lo) + PIECES);
    var head2 := head + NatToString(hi) + PIECES_DASH;
    assert m == head2 + NatToString(lo) + PIECES;
    ReadNatAfter(head2, lo, PIECES);
  }

  // ---------------------------------------------------------------------
  // __str__

  /** The column header: " 1" to " n". */
  function HeaderNumbers(n: nat): (s: string)
    requires n <= 9
    ensures |s| == 2 * n
  {
    if n == 0 then [] else HeaderNumbers(n - 1) + [' ', DigitChar(n)]
  }

  /** Row `r`'s first `n` cells, each after a '|'. */
  function CellsText(g: seq<char>, r: int, n: nat): (s: string)
    requires |g| == 100 && 1 <= r <= 8 && n <= 8
    ensures |s| == 2 * n
  {
    if n == 0 then [] else CellsText(g, r, n - 1) + ['|', At(g, Coord(r, n))]
  }

  /** Row `r` of the drawing: its number, a space, the cells, a closing '|'. */
  function RowText(g: seq<char>, r: int): (s: string)
    requires |g| == 100 && 1 <= r <= 8
    ensures |s| == 20
  {
    [DigitChar(r)] + " " + CellsText(g, r, 8) + "|\n"
  }

  /** The first `n` rows of the drawing. */
  function RowsText(g: seq<char>, n: nat): (s: string)
    requires |g| == 100 && n <= 8
    ensures |s| == 20 * n
  {
    if n == 0 then [] else RowsText(g, n - 1) + RowText(g, n)
  }

  /** `__str__()`: the header line, then rows 1 to 8 of the playable board. */
  function Render(g: seq<char>): string
    requires |g| == 100
  {
    "  " + HeaderNumbers(8) + "\n" + RowsText(g, 8)
  }

  /** Cell `c` of row `r` shows after its '|'. */
  lemma {:induction false} CellsTextAt(g: seq<char>, r: int, n: nat, c: int)
    requires |g| == 100 && 1 <= r <= 8 && 1 <= c <= n <= 8
    ensures CellsText(g, r, n)[2 * c - 2] == '|' && CellsText(g, r, n)[2 * c - 1] == At(g, Coord(r, c))
  {
    if c < n {
      CellsTextAt(g, r, n - 1, c);
    }
  }

  /** Row `r` stands at offset 20(r - 1) of the first `n` rows. */
  lemma {:induction false} RowsTextAt(g: seq<char>, n: nat, r: int, k: int)
    requires |g| == 100 && 1 <= r <= n <= 8 && 0 <= k < 20
    ensures RowsText(g, n)[20 * (r - 1) + k] == RowText(g, r)[k]
  {
    if r < n {
      RowsTextAt(g, n - 1, r, k);
    }
  }

  /** Character `k` of row `r` stands at offset 20r - 1 + k of the drawing. */
  lemma RenderRow(g: seq<char>, r: int, k: int)
    requires |g| == 100 && 1 <= r <= 8 && 0 <= k < 20
    ensures |Render(g)| == 179 && Render(g)[20 * r - 1 + k] == RowText(g, r)[k]
  {
    RowsTextAt(g, 8, r, k);
  }

  /** The drawing is 179 characters: a 19-character header line and eight
      20-character rows; row `r` shows the cell in column `c` at offset
      20r + 2c, after a '|'. */
  lemma RenderShowsCells(g: seq<char>)
    requires |g| == 100
    ensures |Render(g)| == 179
    ensures forall r, c :: 1 <= r <= 8 && 1 <= c <= 8 ==>
      Render(g)[20 * r + 2 * c] == At(g, Coord(r, c)) && Render(g)[20 * r + 2 * c - 1] == '|'
  {
    forall r, c | 1 <= r <= 8 && 1 <= c <= 8
      ensures Render(g)[20 * r + 2 * c] == At(g, Coord(r, c)) && Render(g)[20 * r + 2 * c - 1] == '|'
    {
      RenderCell(g, r, c);
    }
  }

  /** The cell in column `c` of row `r` shows at offset 20r + 2c of the
      drawing, after a '|'. */
  lemma RenderCell(g: seq<char>, r: int, c: int)
    requires |g| == 100 && 1 <= r <= 8 && 1 <= c <= 8
    ensures |Render(g)| == 179
    ensures Render(g)[20 * r + 2 * c] == At(g, Coord(r, c)) && Render(g)[20 * r + 2 * c - 1] == '|'
  {
    RowTextCell(g, r, c);
    RenderRow(g, r, 2 * c + 1);
    RenderRow(g, r, 2 * c);
  }

  /** The cell in column `c` shows at offset 2c + 1 of its row's line,
      after a '|'. */
  lemma RowTextCell(g: seq<char>, r: int, c: int)
    requires |g| == 100 && 1 <= r <= 8 && 1 <= c <= 8
    ensures RowText(g, r)[2 * c] == '|' && RowText(g, r)[2 * c + 1] == At(g, Coord(r, c))
  {
    CellsTextAt(g, r, 8, c);
  }

  /** Every line of the drawing ends with a newline, each row after a
      closing '|', and row `r` starts with its number. */
  lemma RenderLines(g: seq<char>)
    requires |g| == 100
    ensures |Render(g)| == 179 && Render(g)[18] == '\n'
    ensures forall r :: 1 <= r <= 8 ==>
      Render(g)[20 * r - 1] == DigitChar(r) && Render(g)[20 * r + 17] == '|' && Render(g)[20 * r + 18] == '\n'
  {
    RenderRow(g, 1, 0);
    forall r | 1 <= r <= 8
      ensures Render(g)[20 * r - 1] == DigitChar(r) && Render(g)[20 * r + 17] == '|' && Render(g)[20 * r + 18] == '\n'
    {
      RenderRow(g, r, 0);
      RenderRow(g, r, 18);
      RenderRow(g, r, 19);
    }
  }
}
