/** games/OthelloUtils.py: the Board class, whose methods scan and update
    its grid and position lists in place, and the part of GameState the
    games rely on (whose turn it is and that player's legal moves). Each
    method is proved against the value-level rules of module OthelloRules. */
module OthelloUtils {
  import opened PyList
  import opened Grid
  import opened OthelloRules
  import opened OthelloMoves
  import opened BoardText

  class Board {
    /** The 10 x 10 grid, row-major: '*' border, '-' empty, else a colour. */
    const gameboard: array<char>
    var blackCurrPos: seq<Coord>
    var whiteCurrPos: seq<Coord>
    var validPositions: seq<Coord>
    var playerOne: char
    var playerTwo: char

    ghost function Value(): BoardValue
      reads this, gameboard
    {
      BoardValue(gameboard[..], blackCurrPos, whiteCurrPos, playerOne, playerTwo)
    }

    ghost predicate Valid()
      reads this, gameboard
    {
      gameboard.Length == 100 && ValidValue(Value())
    }

    /** `Board(player_one, player_two)`: a grid of '-' that `setUp` frames. */
    constructor (playerOne: char, playerTwo: char)
      ensures Valid() && fresh(gameboard)
      ensures Value() == BoardValue(EmptyGrid(), [], [], playerOne, playerTwo)
    {
      gameboard := new char[100](_ => '-');
      new;
      SetUp(playerOne, playerTwo);
      forall k | 0 <= k < 100 ensures gameboard[k] == EmptyGrid()[k] {
        assert Index(Coord(k / 10, k % 10)) == k;
      }
      assert gameboard[..] == EmptyGrid();
    }

    /** `setUp(player_one, player_two)`: writes '*' over the first and last
        column of every row, then over the first and last row, and starts
        both position lists empty. */
    method SetUp(playerOne: char, playerTwo: char)
      requires gameboard.Length == 100
      modifies this, gameboard
      ensures Valid()
      ensures forall q | InGrid(q) ::
        gameboard[Index(q)] == if InBoard(q) then old(gameboard[Index(q)]) else '*'
      ensures blackCurrPos == [] && whiteCurrPos == [] && validPositions == ValidPositions()
      ensures this.playerOne == playerOne && this.playerTwo == playerTwo
    {
      FrameColumns();
      FrameRows();
      whiteCurrPos := [];
      blackCurrPos := [];
      validPositions := ValidPositions();
      this.playerOne := playerOne;
      this.playerTwo := playerTwo;
    }

    /** The first and the last cell of every row set to '*'. */
    method FrameColumns()
      requires gameboard.Length == 100
      modifies gameboard
      ensures forall q | InGrid(q) ::
        gameboard[Index(q)] == if q.col == 0 || q.col == 9 then '*' else old(gameboard[Index(q)])
    {
      for row := 0 to 10
        invariant forall q | InGrid(q) ::
          gameboard[Index(q)] == if (q.col == 0 || q.col == 9) && q.row < row then '*' else old(gameboard[Index(q)])
      {
        forall q | InGrid(q) && q != Coord(row, 0) && q != Coord(row, 9)
          ensures Index(q) != Index(Coord(row, 0)) && Index(q) != Index(Coord(row, 9))
        {
          IndexInjective(q, Coord(row, 0));
          IndexInjective(q, Coord(row, 9));
        }
        gameboard[Index(Coord(row, 0))] := '*';
        gameboard[Index(Coord(row, 9))] := '*';
      }
    }

    /** Every cell of the first and the last row set to '*'. */
    method FrameRows()
      requires gameboard.Length == 100
      modifies gameboard
      ensures forall q | InGrid(q) ::
        gameboard[Index(q)] == if q.row == 0 || q.row == 9 then '*' else old(gameboard[Index(q)])
    {
      for col := 0 to 10
        invariant forall q | InGrid(q) ::
          gameboard[Index(q)] == if (q.row == 0 || q.row == 9) && q.col < col then '*' else old(gameboard[Index(q)])
      {
        forall q | InGrid(q) && q != Coord(0, col) && q != Coord(9, col)
          ensures Index(q) != Index(Coord(0, col)) && Index(q) != Index(Coord(9, col))
        {
          IndexInjective(q, Coord(0, col));
          IndexInjective(q, Coord(9, col));
        }
        gameboard[Index(Coord(0, col))] := '*';
        gameboard[Index(Coord(9, col))] := '*';
      }
    }

    /** `h_setPosition(player, position)` */
    method HSetPosition(player: char, position: Coord)
      requires Valid() && InBoard(position)
      modifies gameboard, this`blackCurrPos, this`whiteCurrPos
      ensures Valid()
      ensures Value() == SetPositionValue(old(Value()), player, position)
    {
      gameboard[Index(position)] := player;
      if player == playerOne {
        blackCurrPos := blackCurrPos + [position];
      } else if player == playerTwo {
        whiteCurrPos := whiteCurrPos + [position];
      }
    }

    /** `removePiece(player, position)`; `ok` is false where `list.remove`
        raises ValueError, and then nothing has changed. */
    method RemovePiece(player: char, position: Coord) returns (ok: bool)
      requires Valid()
      modifies this`blackCurrPos, this`whiteCurrPos
      ensures Valid()
      ensures ok <==> RemovePieceValue(old(Value()), player, position).Some?
      ensures Value() == if ok then RemovePieceValue(old(Value()), player, position).value else old(Value())
    {
      ok := true;
      if player == playerOne {
        if position !in blackCurrPos {
          return false;
        }
        blackCurrPos := RemoveFirst(blackCurrPos, position);
      } else if player == playerTwo {
        if position !in whiteCurrPos {
          return false;
        }
        whiteCurrPos := RemoveFirst(whiteCurrPos, position);
      }
    }

    /** `allPositions(player)` */
    function AllPositions(player: char): (r: Option<seq<Coord>>)
      reads this
      ensures r.Some? <==> player == playerOne || player == playerTwo
      ensures r.Some? ==> r.value == if player == playerOne then blackCurrPos else whiteCurrPos
    {
      if player == playerOne then Some(blackCurrPos)
      else if player == playerTwo then Some(whiteCurrPos)
      else None
    }

    /** `get_no_of_spaces()`: 64 less the listed pieces, which on a board
        whose grid and lists agree is the number of empty playable cells. */
    function GetNoOfSpaces(): (n: int)
      reads this, gameboard
      ensures gameboard.Length == 100 && Consistent(Value()) ==>
        n == |Holding(gameboard[..], ValidPositions(), '-')|
    {
      SpacesCountEmptyCells(Value());
      64 - (|blackCurrPos| + |whiteCurrPos|)
    }

    /** `win_or_lose()`: the verdict on the counts of the two lists. The
        colour with the longer list wins, and the text reports its count,
        then the other's; equal lists give a draw. */
    function WinOrLose(): (m: string)
      reads this
      ensures |m| >= 18 && (m[1..18] == WINS_HAS <==> |blackCurrPos| != |whiteCurrPos|)
      ensures |whiteCurrPos| > |blackCurrPos| ==>
        m[0] == playerTwo && ReadNat(m[18..]) == |whiteCurrPos| &&
        28 + |NatToString(|whiteCurrPos|)| <= |m| && ReadNat(m[28 + |NatToString(|whiteCurrPos|)|..]) == |blackCurrPos|
      ensures |whiteCurrPos| < |blackCurrPos| ==>
        m[0] == playerOne && ReadNat(m[18..]) == |blackCurrPos| &&
        28 + |NatToString(|blackCurrPos|)| <= |m| && ReadNat(m[28 + |NatToString(|blackCurrPos|)|..]) == |whiteCurrPos|
      ensures |whiteCurrPos| == |blackCurrPos| ==> m[..14] == DRAW_NEITHER
    {
      WinOrLoseNamesWinner(|blackCurrPos|, |whiteCurrPos|, playerOne, playerTwo);
      if |blackCurrPos| == |whiteCurrPos| then
        WinOrLoseText(|blackCurrPos|, |whiteCurrPos|, playerOne, playerTwo)
      else
        WinOrLoseReportsCounts(|blackCurrPos|, |whiteCurrPos|, playerOne, playerTwo);
        WinOrLoseText(|blackCurrPos|, |whiteCurrPos|, playerOne, playerTwo)
    }

    /** The body of one step of a direction loop of `getMoves`: it stops
        the scan, records step `i`, or goes on to the next step, just as the
        scan from step `i` does. */
    method MoveStep(position: Coord, d: Dir, player: char, i: nat) returns (v: Verdict)
      requires gameboard.Length == 100 && BorderIntact(gameboard[..]) && InBoard(position) && 1 <= i <= 8
      requires i == 1 || InBoard(Step(position, d, i - 1))
      ensures v == Stop ==> RayMoveStep(gameboard[..], position, d, player, i) == None
      ensures v == Record ==> RayMoveStep(gameboard[..], position, d, player, i) == Some(i)
      ensures v == Continue ==>
        InBoard(Step(position, d, i)) &&
        RayMoveStep(gameboard[..], position, d, player, i) == RayMoveStep(gameboard[..], position, d, player, i + 1)
    {
      if MoveScanOut(d, position, i) {
        return Stop;
      }
      StepAfter(position, d, i);
      var c := gameboard[Index(Step(position, d, i))];
      if i == 1 && (c == '-' || c == '*') {
        return Stop;
      }
      if c == '*' {
        return Stop;
      }
      var before := gameboard[Index(Step(position, d, i - 1))];
      v := if c == '-' && before != player && before != EmptyMark(d) then Record else Continue;
      if v == Continue {
        MoveContinues(gameboard[..], position, d, player, i);
      }
    }

    /** One direction of `getMoves`: the move it appends, if any. */
    method ScanMove(position: Coord, d: Dir, player: char) returns (landing: seq<Coord>)
      requires gameboard.Length == 100 && BorderIntact(gameboard[..]) && InBoard(position)
      ensures landing == Landing(gameboard[..], position, d, player)
    {
      ghost var g := gameboard[..];
      ghost var r := RayMoveStep(g, position, d, player, 1);
      NoEighthStep(position, d);
      landing := [];
      for i := 1 to 9
        invariant i == 1 || InBoard(Step(position, d, i - 1))
        invariant RayMoveStep(g, position, d, player, i) == r
      {
        var v := MoveStep(position, d, player, i);
        if v != Continue {
          if v == Record {
            landing := [Step(position, d, i)];
          }
          return;
        }
      }
      assert false;
    }

    /** `getMoves(position, player)`: the scans of the eight directions, in
        the source's order, appending to one list. */
    method GetMoves(position: Coord, player: char) returns (moves: seq<Coord>)
      requires Valid() && InBoard(position)
      ensures moves == Moves(gameboard[..], position, player)
    {
      moves := [];
      for k := 0 to |MOVE_ORDER|
        invariant moves == MovesAlong(gameboard[..], position, player, MOVE_ORDER[..k])
      {
        assert MOVE_ORDER[..k + 1][..k] == MOVE_ORDER[..k];
        var m := ScanMove(position, MOVE_ORDER[k], player);
        moves := moves + m;
      }
      assert MOVE_ORDER[..|MOVE_ORDER|] == MOVE_ORDER;
    }

    /** The body of one step of a direction loop of `getFlips`: it stops
        the scan, sets the flag at step `i`, or goes on to the next step,
        just as the scan from step `i` does. */
    method FlipStep(d: Dir, player: char, oppPlayer: char, position: Coord, i: nat) returns (v: Verdict)
      requires gameboard.Length == 100 && InBoard(position) && 1 <= i <= 8
      ensures v == Stop ==> FlipBracket(gameboard[..], position, d, player, oppPlayer, i) == None
      ensures v == Record ==> FlipBracket(gameboard[..], position, d, player, oppPlayer, i) == Some(i)
      ensures v == Continue ==>
        FlipBracket(gameboard[..], position, d, player, oppPlayer, i) ==
        FlipBracket(gameboard[..], position, d, player, oppPlayer, i + 1)
    {
      if FlipScanOut(d, position, i) {
        return Stop;
      }
      FlipScanInGrid(position, d, i);
      var c := gameboard[Index(Step(position, d, i))];
      if i == 1 && (c == player || c == '-') {
        return Stop;
      }
      var before := gameboard[Index(Step(position, d, i - 1))];
      v := if c == player && before == oppPlayer then Record else Continue;
    }

    /** The scan loop of one direction of `getFlips`: whether it sets `flag`,
        and the step `count` at which it does. */
    method FindBracket(d: Dir, player: char, oppPlayer: char, position: Coord) returns (flag: bool, count: int)
      requires gameboard.Length == 100 && InBoard(position)
      ensures flag <==> FlipBracket(gameboard[..], position, d, player, oppPlayer, 1).Some?
      ensures flag ==> count == FlipBracket(gameboard[..], position, d, player, oppPlayer, 1).value
    {
      ghost var g := gameboard[..];
      ghost var r := FlipBracket(g, position, d, player, oppPlayer, 1);
      flag, count := false, 0;
      for i := 1 to 9
        invariant FlipBracket(g, position, d, player, oppPlayer, i) == r
      {
        var v := FlipStep(d, player, oppPlayer, position, i);
        if v != Continue {
          if v == Record {
            flag, count := true, i;
          }
          return;
        }
      }
    }

    /** One direction of `getFlips`: the scan, then the loop that appends
        steps 1 .. count-1 when the flag is set. */
    method ScanFlipRun(d: Dir, player: char, oppPlayer: char, position: Coord) returns (run: seq<Coord>)
      requires Valid() && InBoard(position)
      ensures run == FlipRun(gameboard[..], position, d, player, oppPlayer)
    {
      var flag, count := FindBracket(d, player, oppPlayer, position);
      run := [];
      if flag {
        FlipBracketCloses(gameboard[..], position, d, player, oppPlayer, 1);
        for i := 1 to count
          invariant run == Ray(position, d, 1, i)
        {
          RayExtend(position, d, 1, i);
          run := run + [Step(position, d, i)];
        }
      }
    }

    /** `getFlips(player, opp_player, position_to_move)`: the scans of the
        eight directions, in the source's order, appending to one list. */
    method GetFlips(player: char, oppPlayer: char, positionToMove: Coord) returns (flips: seq<Coord>)
      requires Valid() && InBoard(positionToMove)
      ensures flips == Flips(gameboard[..], positionToMove, player, oppPlayer)
    {
      flips := [];
      for k := 0 to |FLIP_ORDER|
        invariant flips == FlipsAlong(gameboard[..], positionToMove, player, oppPlayer, FLIP_ORDER[..k])
      {
        assert FLIP_ORDER[..k + 1][..k] == FLIP_ORDER[..k];
        var run := ScanFlipRun(FLIP_ORDER[k], player, oppPlayer, positionToMove);
        flips := flips + run;
      }
      assert FLIP_ORDER[..|FLIP_ORDER|] == FLIP_ORDER;
    }

    /** `getLegalMoves(player)` for a colour of this board (for any other
        character `allPositions` gives None and `len(None)` raises). */
    method GetLegalMoves(player: char) returns (results: seq<Coord>)
      requires Valid() && (player == playerOne || player == playerTwo)
      ensures results == LegalMoves(Value(), player)
    {
      var queryList := AllPositions(player).value;
      if |queryList| != 0 {
        ghost var g := gameboard[..];
        PiecesOnBoard(Value(), player);
        var all: seq<Coord> := [];
        for k := 0 to |queryList|
          invariant all == AllMovesUpTo(g, queryList, player, k)
        {
          AllMovesUpToNext(g, queryList, player, k);
          var moves := GetMoves(queryList[k], player);
          all := all + moves;
        }
        assert queryList[..|queryList|] == queryList;
        results := Dedup(all);
        return;
      }
      results := queryList;
    }

    /** One row of `__str__()`: the row number, a space, each cell after
        a '|', a closing '|' and a newline. */
    method RowString(i: int) returns (line: string)
      requires gameboard.Length == 100 && 1 <= i <= 8
      ensures line == RowText(gameboard[..], i)
    {
      var cells := "";
      for j := 1 to 9
        invariant cells == CellsText(gameboard[..], i, j - 1)
      {
        cells := cells + ['|', gameboard[Index(Coord(i, j))]];
      }
      line := [DigitChar(i)] + " " + cells + "|\n";
    }

    /** `__str__()`: the header line of column numbers, then each playable
        row as its number and its cells between bars. */
    method ToString() returns (s: string)
      requires gameboard.Length == 100
      ensures s == Render(gameboard[..])
    {
      ghost var g := gameboard[..];
      var head := HeaderLine();
      s := head;
      for i := 1 to 9
        invariant s == head + RowsText(g, i - 1)
      {
        var line := RowString(i);
        AppendAssoc(head, RowsText(g, i - 1), line);
        s := s + line;
      }
    }
  }

  /** The first line of `__str__()`: the column numbers 1 to 8. */
  method HeaderLine() returns (s: string)
    ensures s == "  " + HeaderNumbers(8) + "\n"
  {
    s := "  ";
    for i := 1 to 9
      invariant s == "  " + HeaderNumbers(i - 1)
    {
      AppendAssoc("  ", HeaderNumbers(i - 1), [' ', DigitChar(i)]);
      s := s + [' ', DigitChar(i)];
    }
    s := s + "\n";
  }

  /** The part of `GameState(player, board)` the games read: whose turn it
      is and that player's legal moves on the board. */
  datatype GameState = GameState(turn: char, nextMoves: seq<Coord>)

  /** `GameState(player, board)`: asks the board for the player's legal
      moves. */
  method NewGameState(player: char, board: Board) returns (st: GameState)
    requires board.Valid() && (player == board.playerOne || player == board.playerTwo)
    ensures st.turn == player && st.nextMoves == LegalMoves(board.Value(), player)
  {
    var moves := board.GetLegalMoves(player);
    st := GameState(player, moves);
  }
}
