/** games/RandomAIOthello.py: the same 'b'/'w' game as games/AIOthello.py,
    started with a player selection (which colour a human plays and which
    the computer plays) that `place` passes on to every new GameState. A
    GameState takes the selection as its `computer` argument and never
    reads it, so the selection does not change what a game does: the
    class runs the game procedures of module AIOthello. */
module RandomAIOthello {
  import opened PyList
  import opened Grid
  import opened OthelloRules
  import opened OthelloUtils
  import opened AIOthello

  /** The player selection: each colour mapped to 'human', 'computer' or
      None. */
  type PlayerSelection = map<char, Option<string>>

  class Othello {
    const board: Board
    var state: GameState

    ghost predicate Valid()
      reads this, board, board.gameboard
    {
      GameValid(board, state)
    }

    /** `Othello(player_selection)`: a new board with the four starting
        pieces, black to move, whatever the selection. */
    constructor (playerSelection: PlayerSelection)
      ensures Valid() && fresh(board) && fresh(board.gameboard)
      ensures board.Value() == InitialValue() && state.turn == PLAYER_BLACK
    {
      var b := new Board(PLAYER_BLACK, PLAYER_WHITE);
      b.HSetPosition(PLAYER_WHITE, Coord(4, 4));
      b.HSetPosition(PLAYER_WHITE, Coord(5, 5));
      b.HSetPosition(PLAYER_BLACK, Coord(4, 5));
      b.HSetPosition(PLAYER_BLACK, Coord(5, 4));
      var st := NewGameState(PLAYER_BLACK, b);
      board, state := b, st;
    }

    /** `place(position_to_move, player_selection, player_opp)`: the move
        of games/AIOthello.py, the selection going unread into the new
        GameState. */
    method Place(positionToMove: Coord, playerSelection: PlayerSelection, playerOpp: Option<char>)
      returns (result: PlaceResult)
      requires Valid()
      modifies this, board.gameboard, board`blackCurrPos, board`whiteCurrPos
      ensures board.Valid()
      ensures result.Returned? ==> Valid()
      ensures old(state.nextMoves) == [] ==>
        result == Returned(SUCCESS) && state == old(state) && board.Value() == old(board.Value())
      ensures old(state.nextMoves) != [] && positionToMove !in old(state.nextMoves) ==>
        result == Returned(ERROR) && state == old(state) && board.Value() == old(board.Value())
      ensures positionToMove in old(state.nextMoves) ==> InBoard(positionToMove)
      ensures positionToMove in old(state.nextMoves) && InBoard(positionToMove) ==>
        var opp := if playerOpp.Some? then playerOpp.value else OtherColour(old(state.turn));
        var m := MoveValue(old(board.Value()), old(state.turn), opp, positionToMove);
        board.Value() == m.after &&
        (!m.ok ==> result == Raised(ValueError) && state == old(state)) &&
        (m.ok && opp != PLAYER_BLACK && opp != PLAYER_WHITE ==> result == Raised(TypeError) && state == old(state)) &&
        (m.ok && (opp == PLAYER_BLACK || opp == PLAYER_WHITE) ==>
          result == Returned(SUCCESS) && state.turn == opp && Valid() &&
          (opp != old(state.turn) && old(Consistent(board.Value())) ==> Consistent(board.Value())))
    {
      result, state := Play(board, state, positionToMove, playerOpp);
    }
  }
}
