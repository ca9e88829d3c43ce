/** games/AIOthello.py: the 'b'/'w' game played on an OthelloUtils Board.
    The game keeps the board and a GameState (whose turn it is and that
    player's legal moves); `place` checks a move against the legal moves,
    flips the bracketed pieces and hands the turn over. The procedures here
    take the board and the state as parameters so that the
    games/RandomAIOthello.py copy of the class uses them too. */
module AIOthello {
  import opened PyList
  import opened Grid
  import opened OthelloRules
  import opened OthelloFacts
  import opened OthelloMoves
  import opened OthelloUtils

  const PLAYER_BLACK: char := 'b'
  const PLAYER_WHITE: char := 'w'

  /** The return codes of `place`. */
  const ERROR: string := "invalid move"
  const SUCCESS: string := "valid move"

  /** What `place` does: returns a message carrying a return code, or
      raises. */
  datatype PlaceResult = Returned(code: string) | Raised(error: PyError)

  /** The board and state of a game between 'b' (player one) and 'w'
      (player two), the state's moves being the current player's legal
      moves on the board. */
  ghost predicate GameValid(board: Board, state: GameState)
    reads board, board.gameboard
  {
    board.Valid() && board.playerOne == PLAYER_BLACK && board.playerTwo == PLAYER_WHITE &&
    (state.turn == PLAYER_BLACK || state.turn == PLAYER_WHITE) &&
    state.nextMoves == LegalMoves(board.Value(), state.turn)
  }

  /** `get_opp_player(player)`: `list(set(['b', 'w']).difference([player]))`,
      modelled as the set itself since Python does not fix the order of
      the list it makes from a set. */
  function GetOppPlayer(player: char): (r: set<char>)
    ensures forall c :: c in r <==> (c == PLAYER_BLACK || c == PLAYER_WHITE) && c != player
    ensures player == PLAYER_BLACK ==> r == {PLAYER_WHITE}
    ensures player == PLAYER_WHITE ==> r == {PLAYER_BLACK}
  {
    {PLAYER_BLACK, PLAYER_WHITE} - {player}
  }

  /** The other colour: the one element of `get_opp_player(player)` for a
      colour. */
  function OtherColour(player: char): (c: char)
    requires player == PLAYER_BLACK || player == PLAYER_WHITE
    ensures GetOppPlayer(player) == {c}
  {
    if player == PLAYER_BLACK then PLAYER_WHITE else PLAYER_BLACK
  }

  /** `flip_opp_player_positions(player, opp_player, position_to_move)`:
      the flips are computed on the board as it stands, then the moved
      piece is placed and each flip applied; `ok` is false where
      `removePiece` raised ValueError, which ends the loop. */
  method FlipOppPlayerPositions(board: Board, player: char, oppPlayer: char, positionToMove: Coord)
    returns (ok: bool)
    requires board.Valid() && InBoard(positionToMove)
    modifies board.gameboard, board`blackCurrPos, board`whiteCurrPos
    ensures board.Valid()
    ensures ok == MoveValue(old(board.Value()), player, oppPlayer, positionToMove).ok
    ensures board.Value() == MoveValue(old(board.Value()), player, oppPlayer, positionToMove).after
  {
    var l := board.GetFlips(player, oppPlayer, positionToMove);
    board.HSetPosition(player, positionToMove);
    ghost var placed := board.Value();
    for k := 0 to |l|
      invariant board.Valid()
      invariant FlipAll(placed, player, oppPlayer, l[..k]) == Applied(board.Value(), true)
    {
      FlipAllNextTurn(placed, player, oppPlayer, l, k);
      board.HSetPosition(player, l[k]);
      ok := board.RemovePiece(oppPlayer, l[k]);
      if !ok {
        FlipAllStops(placed, player, oppPlayer, l, k + 1);
        return;
      }
    }
    assert l[..|l|] == l;
    ok := true;
  }

  /** `place(position_to_move, player_opp)` on a game's board and state:
      the next state is returned alongside the result. With no legal move
      for the player the call succeeds and changes nothing; a move not
      among the legal ones is refused; otherwise the move is played
      against `player_opp`, or the other colour when it is not given, and
      the turn passes to that player. */
  method Play(board: Board, state: GameState, positionToMove: Coord, playerOpp: Option<char>)
    returns (result: PlaceResult, next: GameState)
    requires GameValid(board, state)
    modifies board.gameboard, board`blackCurrPos, board`whiteCurrPos
    ensures board.Valid()
    ensures state.nextMoves == [] ==>
      result == Returned(SUCCESS) && next == state && board.Value() == old(board.Value())
    ensures state.nextMoves != [] && positionToMove !in state.nextMoves ==>
      result == Returned(ERROR) && next == state && board.Value() == old(board.Value())
    ensures positionToMove in state.nextMoves ==> InBoard(positionToMove)
    ensures positionToMove in state.nextMoves && InBoard(positionToMove) ==>
      var opp := if playerOpp.Some? then playerOpp.value else OtherColour(state.turn);
      var m := MoveValue(old(board.Value()), state.turn, opp, positionToMove);
      board.Value() == m.after &&
      (!m.ok ==> result == Raised(ValueError) && next == state) &&
      (m.ok && opp != PLAYER_BLACK && opp != PLAYER_WHITE ==> result == Raised(TypeError) && next == state) &&
      (m.ok && (opp == PLAYER_BLACK || opp == PLAYER_WHITE) ==>
        result == Returned(SUCCESS) && next.turn == opp && GameValid(board, next) &&
        (opp != state.turn && Consistent(old(board.Value())) ==> Consistent(board.Value())))
  {
    var player := state.turn;
    var oppPlayer := if playerOpp.None? then OtherColour(player) else playerOpp.value;
    next := state;
    if |state.nextMoves| != 0 {
      if positionToMove !in state.nextMoves {
        return Returned(ERROR), next;
      }
      LegalMovesExactly(board.Value(), player, positionToMove);
      ghost var before := board.Value();
      var ok := FlipOppPlayerPositions(board, player, oppPlayer, positionToMove);
      if ok && oppPlayer != player && (oppPlayer == PLAYER_BLACK || oppPlayer == PLAYER_WHITE) && Consistent(before) {
        MoveKeepsConsistent(before, player, oppPlayer, positionToMove);
      }
      if !ok {
        return Raised(ValueError), next;
      }
      if oppPlayer != board.playerOne && oppPlayer != board.playerTwo {
        // `GameState(opp_player, board)` calls `getLegalMoves`, whose
        // `len(None)` raises
        return Raised(TypeError), next;
      }
      next := NewGameState(oppPlayer, board);
    }
    result := Returned(SUCCESS);
  }

  /** The board of a new game: the empty board with white on (4, 4) and
      (5, 5) and black on (4, 5) and (5, 4), placed in that order. */
  function InitialValue(): BoardValue {
    var v0 := BoardValue(EmptyGrid(), [], [], PLAYER_BLACK, PLAYER_WHITE);
    var v1 := SetPositionValue(v0, PLAYER_WHITE, Coord(4, 4));
    var v2 := SetPositionValue(v1, PLAYER_WHITE, Coord(5, 5));
    var v3 := SetPositionValue(v2, PLAYER_BLACK, Coord(4, 5));
    SetPositionValue(v3, PLAYER_BLACK, Coord(5, 4))
  }

  /** A grid laid out as at the start of a game: white on (4, 4) and
      (5, 5), black on (4, 5) and (5, 4), every other playable cell empty
      and the border intact. */
  ghost predicate OpeningGrid(g: seq<char>) {
    BorderIntact(g) &&
    At(g, Coord(4, 4)) == PLAYER_WHITE && At(g, Coord(5, 5)) == PLAYER_WHITE &&
    At(g, Coord(4, 5)) == PLAYER_BLACK && At(g, Coord(5, 4)) == PLAYER_BLACK &&
    forall q | InBoard(q) && q != Coord(4, 4) && q != Coord(5, 5) && q != Coord(4, 5) && q != Coord(5, 4) ::
      At(g, q) == '-'
  }

  /** The starting pieces stand where `setUp` puts them, each list naming
      its colour's two pieces in placement order. */
  lemma InitialCells()
    ensures OpeningGrid(InitialValue().grid)
    ensures InitialValue().black == [Coord(4, 5), Coord(5, 4)]
    ensures InitialValue().white == [Coord(4, 4), Coord(5, 5)]
  {
  }

  /** The starting board is consistent: its lists name exactly the four
      starting pieces. */
  lemma InitialConsistent()
    ensures Consistent(InitialValue())
  {
    var v0 := BoardValue(EmptyGrid(), [], [], PLAYER_BLACK, PLAYER_WHITE);
    var v1 := SetPositionValue(v0, PLAYER_WHITE, Coord(4, 4));
    var v2 := SetPositionValue(v1, PLAYER_WHITE, Coord(5, 5));
    var v3 := SetPositionValue(v2, PLAYER_BLACK, Coord(4, 5));
    PlaceKeepsConsistent(v0, PLAYER_WHITE, Coord(4, 4));
    PlaceKeepsConsistent(v1, PLAYER_WHITE, Coord(5, 5));
    PlaceKeepsConsistent(v2, PLAYER_BLACK, Coord(4, 5));
    PlaceKeepsConsistent(v3, PLAYER_BLACK, Coord(5, 4));
  }

  /** From (4, 5) the south-west scan for black walks past black's own
      (5, 4) and the spaces after it, off the board: no move. */
  lemma OpeningWalkSouthWest(g: seq<char>)
    requires OpeningGrid(g)
    ensures Landing(g, Coord(4, 5), SW, PLAYER_BLACK) == []
  {
    var p, b := Coord(4, 5), PLAYER_BLACK;
    assert RayMoveStep(g, p, SW, b, 5) == None;
    assert At(g, Coord(8, 1)) == '-' && At(g, Coord(7, 2)) == '-' && At(g, Coord(6, 3)) == '-';
    assert RayMoveStep(g, p, SW, b, 4) == None;
    assert RayMoveStep(g, p, SW, b, 3) == None;
    assert RayMoveStep(g, p, SW, b, 2) == None;
  }

  /** From (5, 4) the north-east scan for black walks past black's own
      (4, 5) and the spaces after it to the border: no move. */
  lemma OpeningWalkNorthEast(g: seq<char>)
    requires OpeningGrid(g)
    ensures Landing(g, Coord(5, 4), NE, PLAYER_BLACK) == []
  {
    var p, b := Coord(5, 4), PLAYER_BLACK;
    assert At(g, Coord(1, 8)) == '-' && At(g, Coord(2, 7)) == '-' && At(g, Coord(3, 6)) == '-';
    assert RayMoveStep(g, p, NE, b, 5) == None;
    assert RayMoveStep(g, p, NE, b, 4) == None;
    assert RayMoveStep(g, p, NE, b, 3) == None;
    assert RayMoveStep(g, p, NE, b, 2) == None;
  }

  /** Black's piece on (4, 5) in the opening: the first neighbour up, to
      the right and on three diagonals is a space. */
  lemma OpeningBlockedFourFive(g: seq<char>)
    requires OpeningGrid(g)
    ensures var p, b := Coord(4, 5), PLAYER_BLACK;
      Landing(g, p, NE, b) == [] && Landing(g, p, E, b) == [] &&
      Landing(g, p, NW, b) == [] && Landing(g, p, SE, b) == [] &&
      Landing(g, p, N, b) == []
  {
    var p, b := Coord(4, 5), PLAYER_BLACK;
    FirstNeighbourBlocks(g, p, NE, b);
    FirstNeighbourBlocks(g, p, E, b);
    FirstNeighbourBlocks(g, p, NW, b);
    FirstNeighbourBlocks(g, p, SE, b);
    FirstNeighbourBlocks(g, p, N, b);
  }

  /** Black's piece on (4, 5) in the opening: the leftward and downward
      neighbours are white with a space beyond; down-left lands nowhere. */
  lemma OpeningFoundFourFive(g: seq<char>)
    requires OpeningGrid(g)
    ensures var p, b := Coord(4, 5), PLAYER_BLACK;
      Landing(g, p, W, b) == [Coord(4, 3)] && Landing(g, p, S, b) == [Coord(6, 5)] &&
      Landing(g, p, SW, b) == []
  {
    var p, b := Coord(4, 5), PLAYER_BLACK;
    TextbookMoveFound(g, p, W, b, PLAYER_WHITE, 2);
    TextbookMoveFound(g, p, S, b, PLAYER_WHITE, 2);
    OpeningWalkSouthWest(g);
  }

  /** Black's piece on (4, 5) in the opening, direction by direction. */
  lemma OpeningLandingsFourFive(g: seq<char>)
    requires OpeningGrid(g)
    ensures var p, b := Coord(4, 5), PLAYER_BLACK;
      Landing(g, p, NE, b) == [] && Landing(g, p, E, b) == [] &&
      Landing(g, p, NW, b) == [] && Landing(g, p, SE, b) == [] &&
      Landing(g, p, N, b) == [] && Landing(g, p, W, b) == [Coord(4, 3)] &&
      Landing(g, p, S, b) == [Coord(6, 5)] && Landing(g, p, SW, b) == []
  {
    OpeningBlockedFourFive(g);
    OpeningFoundFourFive(g);
  }

  /** Black's piece on (5, 4) in the opening: the first neighbour down, to
      the left and on three diagonals is a space. */
  lemma OpeningBlockedFiveFour(g: seq<char>)
    requires OpeningGrid(g)
    ensures var p, b := Coord(5, 4), PLAYER_BLACK;
      Landing(g, p, NW, b) == [] && Landing(g, p, SE, b) == [] &&
      Landing(g, p, W, b) == [] && Landing(g, p, S, b) == [] &&
      Landing(g, p, SW, b) == []
  {
    var p, b := Coord(5, 4), PLAYER_BLACK;
    FirstNeighbourBlocks(g, p, NW, b);
    FirstNeighbourBlocks(g, p, SE, b);
    FirstNeighbourBlocks(g, p, W, b);
    FirstNeighbourBlocks(g, p, S, b);
    FirstNeighbourBlocks(g, p, SW, b);
  }

  /** Black's piece on (5, 4) in the opening: the rightward and upward
      neighbours are white with a space beyond; up-right lands nowhere. */
  lemma OpeningFoundFiveFour(g: seq<char>)
    requires OpeningGrid(g)
    ensures var p, b := Coord(5, 4), PLAYER_BLACK;
      Landing(g, p, NE, b) == [] && Landing(g, p, E, b) == [Coord(5, 6)] &&
      Landing(g, p, N, b) == [Coord(3, 4)]
  {
    var p, b := Coord(5, 4), PLAYER_BLACK;
    OpeningWalkNorthEast(g);
    TextbookMoveFound(g, p, E, b, PLAYER_WHITE, 2);
    TextbookMoveFound(g, p, N, b, PLAYER_WHITE, 2);
  }

  /** Black's piece on (5, 4) in the opening, direction by direction. */
  lemma OpeningLandingsFiveFour(g: seq<char>)
    requires OpeningGrid(g)
    ensures var p, b := Coord(5, 4), PLAYER_BLACK;
      Landing(g, p, NE, b) == [] && Landing(g, p, E, b) == [Coord(5, 6)] &&
      Landing(g, p, NW, b) == [] && Landing(g, p, SE, b) == [] &&
      Landing(g, p, N, b) == [Coord(3, 4)] && Landing(g, p, W, b) == [] &&
      Landing(g, p, S, b) == [] && Landing(g, p, SW, b) == []
  {
    OpeningBlockedFiveFour(g);
    OpeningFoundFiveFour(g);
  }

  /** `getMoves((4, 5), 'b')` in the opening. */
  lemma OpeningMovesFourFive(g: seq<char>)
    requires OpeningGrid(g)
    ensures Moves(g, Coord(4, 5), PLAYER_BLACK) == [Coord(4, 3), Coord(6, 5)]
  {
    OpeningLandingsFourFive(g);
    MovesInOrder(g, Coord(4, 5), PLAYER_BLACK);
  }

  /** `getMoves((5, 4), 'b')` in the opening. */
  lemma OpeningMovesFiveFour(g: seq<char>)
    requires OpeningGrid(g)
    ensures Moves(g, Coord(5, 4), PLAYER_BLACK) == [Coord(5, 6), Coord(3, 4)]
  {
    OpeningLandingsFiveFour(g);
    MovesInOrder(g, Coord(5, 4), PLAYER_BLACK);
  }

  /** On a board laid out as at the start, black has the four textbook
      opening moves, listed in the order `getLegalMoves` finds them:
      (4, 5)'s moves, then (5, 4)'s. */
  lemma OpeningLegalMoves(v: BoardValue)
    requires OpeningGrid(v.grid) && v.playerOne == PLAYER_BLACK
    requires v.black == [Coord(4, 5), Coord(5, 4)] && forall q <- v.white :: InBoard(q)
    ensures ValidValue(v)
    ensures LegalMoves(v, PLAYER_BLACK) == [Coord(4, 3), Coord(6, 5), Coord(5, 6), Coord(3, 4)]
  {
    OpeningMovesFourFive(v.grid);
    OpeningMovesFiveFour(v.grid);
    assert v.black[..1] == [Coord(4, 5)] && [Coord(4, 5)][..0] == [];
    assert AllMoves(v.grid, [], PLAYER_BLACK) == [];
    assert AllMoves(v.grid, [Coord(4, 5)], PLAYER_BLACK) == [Coord(4, 3), Coord(6, 5)];
    var all := AllMoves(v.grid, v.black, PLAYER_BLACK);
    assert all == [Coord(4, 3), Coord(6, 5)] + [Coord(5, 6), Coord(3, 4)];
    assert all == [Coord(4, 3), Coord(6, 5), Coord(5, 6), Coord(3, 4)];
    DedupOfNoDup(all);
  }

  /** Black, who moves first in a new game, has the four textbook opening
      moves. */
  lemma InitialLegalMoves()
    ensures ValidValue(InitialValue())
    ensures LegalMoves(InitialValue(), PLAYER_BLACK) ==
      [Coord(4, 3), Coord(6, 5), Coord(5, 6), Coord(3, 4)]
  {
    InitialCells();
    OpeningLegalMoves(InitialValue());
  }

  /** games/AIOthello.py's game. */
  class Othello {
    const board: Board
    var state: GameState

    ghost predicate Valid()
      reads this, board, board.gameboard
    {
      GameValid(board, state)
    }

    /** `Othello()`: a new board with the four starting pieces, black to
        move. */
    constructor ()
      ensures Valid() && fresh(board) && fresh(board.gameboard)
      ensures board.Value() == InitialValue() && state.turn == PLAYER_BLACK
    {
      var b := new Board(PLAYER_BLACK, PLAYER_WHITE);
      b.HSetPosition(PLAYER_WHITE, Coord(4, 4));
      b.HSetPosition(PLAYER_WHITE, Coord(5, 5));
      b.HSetPosition(PLAYER_BLACK, Coord(4, 5));
      b.HSetPosition(PLAYER_BLACK, Coord(5, 4));
      var st := NewGameState(PLAYER_BLACK, b);
      board, state := b, st;
    }

    /** `place(position_to_move, player_opp)`. */
    method Place(positionToMove: Coord, playerOpp: Option<char>) returns (result: PlaceResult)
      requires Valid()
      modifies this, board.gameboard, board`blackCurrPos, board`whiteCurrPos
      ensures board.Valid()
      ensures result.Returned? ==> Valid()
      ensures old(state.nextMoves) == [] ==>
        result == Returned(SUCCESS) && state == old(state) && board.Value() == old(board.Value())
      ensures old(state.nextMoves) != [] && positionToMove !in old(state.nextMoves) ==>
        result == Returned(ERROR) && state == old(state) && board.Value() == old(board.Value())
      ensures positionToMove in old(state.nextMoves) ==> InBoard(positionToMove)
      ensures positionToMove in old(state.nextMoves) && InBoard(positionToMove) ==>
        var opp := if playerOpp.Some? then playerOpp.value else OtherColour(old(state.turn));
        var m := MoveValue(old(board.Value()), old(state.turn), opp, positionToMove);
        board.Value() == m.after &&
        (!m.ok ==> result == Raised(ValueError) && state == old(state)) &&
        (m.ok && opp != PLAYER_BLACK && opp != PLAYER_WHITE ==> result == Raised(TypeError) && state == old(state)) &&
        (m.ok && (opp == PLAYER_BLACK || opp == PLAYER_WHITE) ==>
          result == Returned(SUCCESS) && state.turn == opp && Valid() &&
          (opp != old(state.turn) && old(Consistent(board.Value())) ==> Consistent(board.Value())))
    {
      result, state := Play(board, state, positionToMove, playerOpp);
    }
  }
}
