# Othello boards and games of AI-Examples, in Dafny

This project models the Othello code of the `games` package:

- `OthelloUtils.Board`, the board the two AI games play on. It is a 10 x 10
  grid with `'*'` on the border, `'-'` for an empty cell and `'b'`/`'w'` for
  the pieces, plus one position list per colour.
  - Its `getMoves` scan, `getFlips` scan, `getLegalMoves`, `h_setPosition`,
    `removePiece`, `win_or_lose` and `__str__`.
  - The part of `GameState` the games read: whose turn it is, and that
    player's legal moves.
- The game classes of `AIOthello` and `RandomAIOthello`: the opening
  position, `place`, `get_opp_player` and `flip_opp_player_positions`.
- The older `othello.Othello` board. Its cells hold `0`, `'*'`, `1` or `2`.
  - It is indexed the Python way: negative indices count from the end, and
    an index past the end raises `IndexError`.
  - Its `allPositions` caches, `getMoves`, `getLegalMoves`, the check-only
    `place`, `_resetBoard` and `generateBoards`.

The grid is a flat row-major sequence of 100 cells. Cell `(row, col)` is
`row * 10 + col`.

Code that updates state in place becomes a Dafny `class`: `Board`, the two
`Othello` games and the older `Othello` board. Their methods are proved
against value-level specifications:

- `OthelloRules` for the `'b'`/`'w'` board;
- the functions at the top of module `Othello` for the older board.

The properties that relate several operations are lemmas in `OthelloFacts`
and `OthelloMoves`. Examples: `getLegalMoves` lists exactly the moves of the
player's pieces, once each; a move that runs to its end paints exactly the
flipped cells; a move keeps the grid and the position lists in agreement.

The code's own behaviour is modelled, including where it departs from the
textbook rules of Othello:

- **Board `getMoves`:**
  - The leftward scan compares the previous cell with `'='` instead of
    `'-'`.
  - The north-east bound test joins its two halves with `and`.
- **Board `getFlips`:** past its first step, a scan stops neither at a space
  nor at the border. A run can therefore contain a space, and then
  `removePiece` raises `ValueError` during the move.
- **Older board `getMoves`:**
  - It reads row `-1` as row 9, so it can return a coordinate that is not a
    cell of the board.
  - It can raise `IndexError`.
  - It appends an empty cell that comes right after another empty cell.
- **Both `place` methods:**
  - The older board's `place` only checks the move and never writes the
    board.
  - The AI games' `place` ends after the legal-move branch. The
    "no legal moves" code after that return is never reached.

Python exceptions are values of `PyList.PyError` (`ValueError`,
`IndexError`, `TypeError`), carried by a `Result` or signalled by an `ok`
flag. `place`'s messages are modelled by the return code they carry
(`"valid move"` / `"invalid move"`).

## Model

| member | source | states |
|---|---|---|
| PyList.PyIndex | games/othello.py:122 | A Python index into a list of `n` elements is accepted exactly when `-n <= k < n`, and it then addresses `k` or `k + n`. |
| PyList.RemoveFirst | games/OthelloUtils.py:116-120 | `list.remove(x)` on a list holding `x` drops exactly one `x`. The list is one shorter, its multiset loses one `x`, and it gains nothing. |
| PyList.RemoveFirstDropsFirst | games/OthelloUtils.py:116-120 | `list.remove(x)` drops the first occurrence of `x` (the one `list.index` finds), and the elements before and after it keep their order. |
| PyList.DedupSameElements | games/OthelloUtils.py:494 | The comprehension that keeps each element where it first occurs keeps every element and adds none. |
| PyList.DedupNoDup | games/OthelloUtils.py:494 | After that comprehension no element occurs twice. |
| PyList.DedupFirstOccurrenceOrder | games/OthelloUtils.py:494 | The kept elements stay in the order of their first occurrences. |
| PyList.DedupOfNoDup | games/othello.py:231 | A list without repeats passes through the comprehension unchanged. |
| Grid.ValidPositionsExactly | games/OthelloUtils.py:87 | `validpositions` has 64 entries, and a coordinate is among them exactly when its row and column are both in 1..8. |
| Grid.ValidPositionsSorted | games/othello.py:24 | `_validpositions` lists the playable cells in strictly increasing row-major order. |
| OthelloRules.EmptyGrid | games/OthelloUtils.py:73-84 | A new board's grid has `'*'` on every border cell and `'-'` on every playable cell. |
| OthelloRules.MoveContinues | games/OthelloUtils.py:221-231 | A `getMoves` step that neither breaks nor appends stands on a playable cell, and the scan's outcome is that of the next step. |
| OthelloRules.MoveEnds | games/OthelloUtils.py:221-231 | A step that breaks ends the scan with no move. A step that appends ends it with that step. |
| OthelloRules.RayMoveStepLands | games/OthelloUtils.py:220-322 | A direction scan appends only a step `k` in 2..8 that is a playable `'-'` cell. The cell before it must be playable and hold neither the player nor that direction's empty mark (`'='` leftwards, `'-'` elsewhere). |
| OthelloRules.Landing | games/OthelloUtils.py:220-322 | One direction of `getMoves` appends at most one cell, and that cell is a playable empty cell. |
| OthelloRules.MovesAlong | games/OthelloUtils.py:216-324 | The scans of a list of directions append at most one cell per direction, each a playable empty cell. |
| OthelloRules.Moves | games/OthelloUtils.py:195-324 | `getMoves` returns at most eight cells, each a playable empty cell. |
| OthelloRules.Pieces | games/OthelloUtils.py:177-190 | `allPositions(player)` returns a list exactly when `player` is one of the board's two colours, and `None` otherwise. |
| OthelloRules.PiecesOnBoard | games/OthelloUtils.py:177-190 | On a well-formed board, the list `allPositions` returns names only playable cells. |
| OthelloRules.AllMovesUpToNext | games/OthelloUtils.py:488-492 | Collecting one more piece's moves appends them after those already collected. |
| OthelloRules.FlipBracketCloses | games/OthelloUtils.py:346-354 | A `getFlips` scan sets its flag at step `k` only where `k` is in 2..8, every earlier step is a playable cell, step `k` holds the player and step `k-1` holds the opponent. |
| OthelloRules.FlipRun | games/OthelloUtils.py:345-359 | One direction of `getFlips` adds the first steps of its ray, nearest first. They are all playable, there are at most 7, and they are closed by an opponent piece followed by the player's piece. |
| OthelloRules.FlipsAlong | games/OthelloUtils.py:345-472 | The runs of a list of directions contain only playable cells. |
| OthelloRules.Flips | games/OthelloUtils.py:327-473 | `getFlips` lists only playable cells. |
| OthelloRules.SetPositionValue | games/OthelloUtils.py:97-108 | `h_setPosition` writes the player on the cell and leaves every other cell alone. The position goes at the end of the player's colour list and the other colour's list is unchanged; for any other character neither list changes. Both colours are kept. |
| OthelloRules.RemovePieceValue | games/OthelloUtils.py:110-120 | `removePiece` raises `ValueError` exactly when the player is a colour whose list lacks the position. Otherwise it removes the first occurrence from that list, as `list.remove` does, and leaves the other colour's list, the grid and the colours alone. For a character that is neither colour the board is returned unchanged. |
| OthelloRules.FlipAll | games/AIOthello.py:132-134 | The flip loop keeps a 100-cell grid and the board's two colours. |
| OthelloFacts.FirstNeighbourBlocks | games/OthelloUtils.py:224-225 | A direction whose first neighbour is `'-'` or `'*'` adds no move. |
| OthelloFacts.FirstNeighbourNoFlips | games/OthelloUtils.py:346-349 | A `getFlips` direction whose first neighbour holds the player or `'-'` adds no flips. |
| OthelloFacts.TextbookMoveFrom | games/OthelloUtils.py:221-231 | From any step inside a run of opponent pieces, the scan goes on to the space that ends the run and appends it. |
| OthelloFacts.MoveCrossesPiece | games/OthelloUtils.py:221-231 | A step onto a playable cell holding a piece, of either colour, goes on to the next step. |
| OthelloFacts.MoveRecordsSpace | games/OthelloUtils.py:228-231 | A step onto a space, after a playable cell holding neither the player nor the empty mark, appends that space. |
| OthelloFacts.TextbookMoveFound | games/OthelloUtils.py:220-322 | Every textbook move is found. One or more opponent pieces next to the piece, followed by a space, make that direction append exactly the space. |
| OthelloFacts.MovesAlongPrefix | games/OthelloUtils.py:216-324 | Scanning one more direction appends that direction's landing. |
| OthelloFacts.MovesFirstFour | games/OthelloUtils.py:220-270 | The first four scans are north-east, east, north-west and south-east, in that order. |
| OthelloFacts.MovesLastFour | games/OthelloUtils.py:272-322 | The last four scans are north, west, south and south-west, in that order. |
| OthelloFacts.MovesInOrder | games/OthelloUtils.py:195-324 | `getMoves` is the concatenation of the eight directions' landings in the order NE, E, NW, SE, N, W, S, SW. |
| OthelloFacts.EmptyMarkAsymmetry | games/OthelloUtils.py:293 | Take the player's own piece followed by two spaces. The second space is appended if and only if the direction is west, because the west scan compares with `'='`. |
| OthelloFacts.AllMovesMembers | games/OthelloUtils.py:488-492 | A cell is among the concatenated moves exactly when it is a move of some listed piece. |
| OthelloFacts.LegalMovesExactly | games/OthelloUtils.py:476-496 | `getLegalMoves` has no repeats, a cell is in it exactly when `getMoves` finds it from one of the player's pieces, and every cell in it is a playable empty cell. |
| OthelloFacts.TextbookMoveIsLegal | games/OthelloUtils.py:476-496 | Every textbook move from one of the player's pieces is in `getLegalMoves`. |
| OthelloFacts.MovesAlongHas | games/OthelloUtils.py:216-324 | Any listed direction's landing is among the moves of the list. |
| OthelloFacts.TextbookBracketFrom | games/OthelloUtils.py:346-354 | From any step inside a run of opponent pieces closed by the player's piece, the scan sets its flag at the closing piece. |
| OthelloFacts.FlipCrossesOpponent | games/OthelloUtils.py:346-354 | A step onto a playable cell holding the opponent goes on to the next step. |
| OthelloFacts.FlipClosesOnPlayer | games/OthelloUtils.py:351-354 | A step onto the player's piece right after an opponent piece sets the flag there. |
| OthelloFacts.TextbookFlipRun | games/OthelloUtils.py:345-359 | A textbook bracket is flipped whole. The run is exactly the opponent pieces between the moved piece and the closing piece, nearest first. |
| OthelloFacts.FlipRunCrossesSpace | games/OthelloUtils.py:346-359 | After the first step, a scan does not stop at a space. Opponent, space, opponent, player gives a run of three whose middle cell is a space. |
| OthelloFacts.FlipsAlongDistinct | games/OthelloUtils.py:345-472 | The runs of distinct directions lie on their own rays and share no cell. |
| OthelloFacts.FlipsNoDup | games/OthelloUtils.py:327-473 | `getFlips` never lists a cell twice, and never lists the moved-to cell. |
| OthelloFacts.FlipAllExtendsPlayer | games/AIOthello.py:132-134 | When the flip loop runs to its end, the player's list gains the flipped cells, in order. |
| OthelloFacts.FlipAllShrinksOpponent | games/AIOthello.py:132-134 | When the flip loop runs to its end, the opponent's list loses exactly the flipped cells, as a multiset. |
| OthelloFacts.FlipAllPaints | games/AIOthello.py:132-134 | When the flip loop runs to its end, the grid shows the player on exactly the flipped cells and is unchanged elsewhere. |
| OthelloFacts.FlipAllSucceeds | games/AIOthello.py:132-134 | The flip loop runs to its end exactly when the flipped cells, with multiplicity, are among the opponent's listed positions. |
| OthelloMoves.TalliesAfterOneCell | games/OthelloUtils.py:97-120 | Suppose one cell changes and a colour's list gains or loses that cell to match. The list still names exactly that colour's cells. |
| OthelloMoves.OneCellKeepsConsistent | games/OthelloUtils.py:97-120 | A one-cell change to a colour, with both lists adjusted to match, keeps the grid and lists in agreement. |
| OthelloMoves.PlaceKeepsConsistent | games/OthelloUtils.py:97-108 | `h_setPosition` of a colour on an empty playable cell keeps the grid and lists in agreement. |
| OthelloMoves.TurnKeepsConsistent | games/AIOthello.py:133-134 | One turn of the flip loop on an opponent piece succeeds and keeps the grid and lists in agreement. |
| OthelloMoves.FlipAllNextTurn | games/AIOthello.py:132-134 | Turn `k` of the flip loop writes the cell, then raises or removes it from the opponent's list. |
| OthelloMoves.FlipAllStops | games/AIOthello.py:132-134 | Once a turn of the flip loop raises, no later cell is reached. |
| OthelloMoves.FlipAllKeepsConsistent | games/AIOthello.py:132-134 | A flip loop that runs to its end keeps the grid and lists in agreement. |
| OthelloMoves.MoveSucceedsExactly | games/AIOthello.py:120-134 | On a consistent board, a move to an empty cell runs to its end exactly when every cell `getFlips` lists holds an opponent piece. |
| OthelloMoves.MoveKeepsConsistent | games/AIOthello.py:120-134 | A move that runs to its end keeps the grid and lists in agreement. |
| OthelloMoves.MoveOutcome | games/AIOthello.py:120-134 | A move that runs to its end has these effects. The moved-to cell and the flipped cells show the player, and nothing else changes. The player's list gains the moved-to cell, then the flips. The opponent's list loses the flips. One more piece is on the board. |
| OthelloMoves.SpacesCountEmptyCells | games/OthelloUtils.py:192-193 | On a consistent board, `64 - (len(black) + len(white))` is the number of empty playable cells. |
| OthelloMoves.ListsCountCells | games/OthelloUtils.py:192-193 | A list that names exactly a colour's cells is as long as the number of such cells. |
| BoardText.NatToString | games/OthelloUtils.py:500-506 | `str(n)` of a count is non-empty, all decimal digits, with no leading zero. |
| BoardText.NatToStringValue | games/OthelloUtils.py:500-506 | The digits of `str(n)` denote `n`. |
| BoardText.DigitRun | games/OthelloUtils.py:500-506 | The digit run at the head of a string is all digits, and is followed by a non-digit or the end. |
| BoardText.ReadNatToString | games/OthelloUtils.py:500-506 | `str(n)` followed by a non-digit reads back as `n`. |
| BoardText.ReadNatAfter | games/OthelloUtils.py:500-506 | A count written by `str` reads back from wherever it stands, when a non-digit follows it. |
| BoardText.WinTextNamesWinner | games/OthelloUtils.py:500-503 | A win message starts with the colour holding more pieces, followed by `" wins.He/she has "`. |
| BoardText.DrawTextNamesNobody | games/OthelloUtils.py:504-506 | A draw message starts with `"Draw. Neither "` and does not carry the win text where a win message has it. |
| BoardText.WinOrLoseNamesWinner | games/OthelloUtils.py:498-506 | `win_or_lose` reports a win exactly when the counts differ. It names player two when white leads and player one when black leads; on a tie it is the draw text. |
| BoardText.WinOrLoseReportsCounts | games/OthelloUtils.py:500-503 | A win message carries the winner's count, then the loser's, both readable back from the text. |
| BoardText.HeaderNumbers | games/OthelloUtils.py:510-511 | The column header for `n` columns is `2n` characters. |
| BoardText.CellsText | games/OthelloUtils.py:516-517 | `n` cells drawn with their bars take `2n` characters. |
| BoardText.RowText | games/OthelloUtils.py:518 | Each row line is 20 characters. |
| BoardText.RowsText | games/OthelloUtils.py:515-518 | `n` row lines take `20n` characters. |
| BoardText.CellsTextAt | games/OthelloUtils.py:516-517 | Cell `c` of the row shows at offset `2c-1`, after a bar. |
| BoardText.RowsTextAt | games/OthelloUtils.py:515-518 | Row `r` stands at offset `20(r-1)` of the row lines. |
| BoardText.RenderRow | games/OthelloUtils.py:508-519 | The drawing is 179 characters, and row `r` starts at offset `20r-1`. |
| BoardText.RenderShowsCells | games/OthelloUtils.py:508-519 | `__str__` shows every playable cell `(r, c)` at offset `20r+2c`, after a bar. |
| BoardText.RenderCell | games/OthelloUtils.py:508-519 | One playable cell shows at its offset in the drawing, after a bar. |
| BoardText.RowTextCell | games/OthelloUtils.py:516-518 | A row's line shows its cell `c` at offset `2c+1`, after a bar. |
| BoardText.RenderLines | games/OthelloUtils.py:508-519 | The header line and every row line end with a newline; each row line starts with its number and ends with a bar and a newline. |
| OthelloUtils.Board.constructor | games/OthelloUtils.py:75-95 | `Board(p1, p2)`: the grid has a `'*'` border and `'-'` inside, both lists are empty, and the colours are `p1` and `p2`. |
| OthelloUtils.Board.SetUp | games/OthelloUtils.py:78-95 | `setUp` writes `'*'` on every border cell and leaves playable cells alone. It empties both lists, sets `validpositions` to the 64 playable cells, and records the two colours. |
| OthelloUtils.Board.FrameColumns | games/OthelloUtils.py:80-82 | The first and last column become `'*'`; every other cell is unchanged. |
| OthelloUtils.Board.FrameRows | games/OthelloUtils.py:83-84 | The first and last row become `'*'`; every other cell is unchanged. |
| OthelloUtils.Board.HSetPosition | games/OthelloUtils.py:97-108 | `h_setPosition` updates the board in place to `SetPositionValue` of the old board, and keeps it well formed. |
| OthelloUtils.Board.RemovePiece | games/OthelloUtils.py:110-120 | `removePiece` fails (ValueError) exactly where `RemovePieceValue` does, and then changes nothing. Otherwise the board becomes `RemovePieceValue` of the old board. |
| OthelloUtils.Board.AllPositions | games/OthelloUtils.py:177-190 | `allPositions(player)` returns the black list for player one and the white list for player two, and `None` for any other character. |
| OthelloUtils.Board.WinOrLose | games/OthelloUtils.py:498-506 | `win_or_lose` reports a win exactly when the list lengths differ. White's longer list names player two, black's names player one, and the text gives the winner's count and then the loser's, both readable back. Equal lengths give the draw text. |
| OthelloUtils.Board.GetNoOfSpaces | games/OthelloUtils.py:192-193 | On a board whose grid and lists agree, the result is the number of empty playable cells. |
| OthelloUtils.Board.MoveStep | games/OthelloUtils.py:221-231 | One loop body of a direction scan. Its verdict (break, append, go on) agrees with the scan specification from that step. |
| OthelloUtils.Board.ScanMove | games/OthelloUtils.py:220-231 | A direction loop appends exactly that direction's landing. |
| OthelloUtils.Board.GetMoves | games/OthelloUtils.py:195-324 | `getMoves` returns exactly `Moves` of the grid. |
| OthelloUtils.Board.FlipStep | games/OthelloUtils.py:346-354 | One loop body of a flip scan. Its verdict (break, flag, go on) agrees with the bracket specification from that step. |
| OthelloUtils.Board.FindBracket | games/OthelloUtils.py:346-354 | The flag is set exactly when the direction has a bracket, and `count` is its step. |
| OthelloUtils.Board.ScanFlipRun | games/OthelloUtils.py:345-359 | One direction of `getFlips` adds exactly `FlipRun`. |
| OthelloUtils.Board.GetFlips | games/OthelloUtils.py:327-473 | `getFlips` returns exactly `Flips` of the grid. |
| OthelloUtils.Board.GetLegalMoves | games/OthelloUtils.py:476-496 | `getLegalMoves` of a colour returns exactly `LegalMoves` of the board, the property `OthelloFacts.LegalMovesExactly` characterises. |
| OthelloUtils.Board.RowString | games/OthelloUtils.py:516-518 | Builds exactly row `i`'s line of the drawing. |
| OthelloUtils.Board.ToString | games/OthelloUtils.py:508-519 | `__str__` returns exactly `Render` of the grid, whose layout `BoardText.RenderShowsCells` and `BoardText.RenderLines` state. |
| OthelloUtils.HeaderLine | games/OthelloUtils.py:509-512 | The header line is two spaces, `" 1"` to `" 8"`, and a newline. |
| OthelloUtils.NewGameState | games/OthelloUtils.py:26-36 | `GameState(player, board)` has `turn` equal to the player and `next_moves` equal to that player's legal moves on the board. |
| AIOthello.GetOppPlayer | games/AIOthello.py:106-117 | `get_opp_player(player)` holds the colours other than `player`: `'w'` for `'b'`, `'b'` for `'w'`, and both for any other character. The copy at games/RandomAIOthello.py:107-118 is the same function. |
| AIOthello.OtherColour | games/AIOthello.py:77-78 | For a colour, `get_opp_player(player)[0]` is the one other colour. |
| AIOthello.FlipOppPlayerPositions | games/AIOthello.py:120-134 | The move updates the board in place to `MoveValue` of the old board. `ok` reports whether every `removePiece` found its cell. The copy at games/RandomAIOthello.py:130-144 is the same procedure. |
| AIOthello.Play | games/AIOthello.py:63-104 | `place` cases. With no legal moves it returns "valid move" and changes nothing. A move off the legal list returns "invalid move" and changes nothing. A legal move plays against `player_opp`, or the other colour when none is given, and then raises `ValueError` (a flip missing from the opponent's list), raises `TypeError` (`player_opp` not a colour), or returns "valid move". In the last case the turn passes to the opponent with their legal moves, and a consistent board stays consistent. The random game's `place` (games/RandomAIOthello.py:65-105) has the same cases; its player selection goes to `GameState`, which never reads it. |
| AIOthello.InitialCells | games/AIOthello.py:35-39 | The starting board has white on (4,4) and (5,5), black on (4,5) and (5,4), everything else empty, and each list names its colour's two pieces in placement order. |
| AIOthello.InitialConsistent | games/AIOthello.py:35-39 | The starting board's grid and lists agree. |
| AIOthello.OpeningWalkSouthWest | games/OthelloUtils.py:311-322 | From (4,5) in the opening, black's south-west scan passes (5,4) and the spaces beyond it without a move. |
| AIOthello.OpeningWalkNorthEast | games/OthelloUtils.py:220-231 | From (5,4) in the opening, black's north-east scan passes (4,5) and the spaces beyond it without a move. |
| AIOthello.OpeningBlockedFourFive | games/OthelloUtils.py:220-283 | From (4,5) in the opening, the NE, E, NW, SE and N scans stop at their first neighbour. |
| AIOthello.OpeningFoundFourFive | games/OthelloUtils.py:285-322 | From (4,5) in the opening, west lands on (4,3), south on (6,5), and south-west nowhere. |
| AIOthello.OpeningLandingsFourFive | games/OthelloUtils.py:195-324 | The eight landings from (4,5) in the opening. |
| AIOthello.OpeningBlockedFiveFour | games/OthelloUtils.py:246-322 | From (5,4) in the opening, the NW, SE, W, S and SW scans stop at their first neighbour. |
| AIOthello.OpeningFoundFiveFour | games/OthelloUtils.py:220-283 | From (5,4) in the opening, east lands on (5,6), north on (3,4), and north-east nowhere. |
| AIOthello.OpeningLandingsFiveFour | games/OthelloUtils.py:195-324 | The eight landings from (5,4) in the opening. |
| AIOthello.OpeningMovesFourFive | games/OthelloUtils.py:195-324 | `getMoves((4,5), 'b')` in the opening is `[(4,3), (6,5)]`. |
| AIOthello.OpeningMovesFiveFour | games/OthelloUtils.py:195-324 | `getMoves((5,4), 'b')` in the opening is `[(5,6), (3,4)]`. |
| AIOthello.OpeningLegalMoves | games/OthelloUtils.py:476-496 | On an opening layout, black's legal moves are the four textbook openings, in the order `[(4,3), (6,5), (5,6), (3,4)]`. |
| AIOthello.InitialLegalMoves | games/AIOthello.py:34-40 | In a new game, black to move has exactly the four textbook opening moves. |
| AIOthello.Othello.constructor | games/AIOthello.py:34-40 | `Othello()` makes a fresh board holding the starting position, with black to move and black's legal moves in the state. |
| AIOthello.Othello.Place | games/AIOthello.py:63-104 | `place` on the game. With no legal moves it returns SUCCESS and changes nothing. A position outside the legal moves returns ERROR and changes nothing. A legal position leaves the board as the move makes it. If `removePiece` failed it raises `ValueError`; if the opponent is not a colour it raises `TypeError`; otherwise it returns SUCCESS, the turn passes to the opponent and the game stays well formed. |
| RandomAIOthello.Othello.constructor | games/RandomAIOthello.py:35-42 | `Othello(player_selection)` starts the same position, with black to move, whatever the selection. |
| RandomAIOthello.Othello.Place | games/RandomAIOthello.py:65-105 | `place(position, player_selection, player_opp)` has the same results and effects as the AI game's `place`: SUCCESS with no legal moves, ERROR for an illegal position, and for a legal one the move's board with `ValueError`, `TypeError` or SUCCESS and the turn passed on. |
| Othello.Wrap | games/othello.py:122 | An in-range Python index into a row of 10 addresses the element `PyIndex` names. |
| Othello.Slot | games/othello.py:122 | `board[r][c]` addresses a cell of the grid, or raises. For in-grid coordinates it is the cell itself. |
| Othello.SlotIsPyIndex | games/othello.py:122 | `board[r][c]` raises `IndexError` exactly where Python rejects the row or the column, and otherwise addresses `PyIndex(r)`, `PyIndex(c)`. |
| Othello.Read | games/othello.py:122 | Reading `board[r][c]` fails only with `IndexError`, and on in-grid coordinates returns the cell. |
| Othello.ResetGrid | games/othello.py:243-245 | `_resetBoard`'s grid holds `*` on the border and `0` inside. |
| Othello.ValidatePlayer | games/othello.py:66-68 | `_validate_player` passes exactly for 1 and 2. |
| Othello.ValidatePosition | games/othello.py:70-72 | `_validate_position` passes exactly for the 64 playable cells. |
| Othello.WriteValue | games/othello.py:74-75 | `setPosition` succeeds exactly when both indices are in Python's range. It then writes the player on that one cell only. |
| Othello.WriteAll | games/othello.py:249-252 | A run of writes keeps a 100-cell grid. |
| Othello.WriteAllPaints | games/othello.py:249-252 | Writes to grid cells all succeed. Afterwards exactly the written cells hold the player; every other cell is unchanged. |
| Othello.GeneratedBoard | games/othello.py:247-252 | After `generateBoards`, a cell in the white list is white. Otherwise a cell in the black list is black. Every other cell is as `_resetBoard` left it. |
| Othello.ScanFindsExactly | games/othello.py:82-85 | The scan of `allPositions` returns, in row-major order, exactly the playable cells holding the player. |
| Othello.ScanNext | games/othello.py:82-85 | Each playable cell extends the scan by itself when it holds the player, and by nothing otherwise. |
| Othello.GeneratedPieces | games/othello.py:247-252 | After `generateBoards`, black's scan finds the black-list cells that are not in the white list, and white's scan finds the white-list cells. |
| Othello.StepVerdict | games/othello.py:118-128 | A step appends only at step 2 or later, on a cell reading 0 whose predecessor reads something other than the player. |
| Othello.ScanStep | games/othello.py:118-128 | A direction scan raises only `IndexError`. A step it appends is in 2..8 and satisfies the append condition. |
| Othello.RayMove | games/othello.py:118-128 | One direction appends at most one coordinate, and that coordinate reads 0. |
| Othello.PrependNil | games/othello.py:112 | Collecting starts from the empty list. |
| Othello.PrependAssoc | games/othello.py:127 | Appending the moves found so far, then the next ones, is appending them together. |
| Othello.MovesIn | games/othello.py:112-221 | The scans of a list of directions append at most one coordinate each, each reading 0. |
| Othello.MovesHoldZero | games/othello.py:104-221 | `getMoves` returns at most eight coordinates, each reading 0 through Python indexing. |
| Othello.VerdictNext | games/othello.py:122-125 | A step that reads neither 0 nor, at the first step, `'*'` goes on. |
| Othello.ScanPasses | games/othello.py:118-128 | A step that goes on leaves the outcome to the next step. |
| Othello.VerdictAfterPlayer | games/othello.py:125 | A 0 right after the player's own piece is not appended. |
| Othello.ScanAppends | games/othello.py:125-128 | A 0 after something other than the player is appended, and the scan ends. |
| Othello.FirstNeighbourStops | games/othello.py:122-124 | A first neighbour reading 0 or `'*'` gives no move. |
| Othello.CrossesOpponent | games/othello.py:118-128 | A step over an opponent piece goes on. |
| Othello.BracketFrom | games/othello.py:118-128 | From any step inside a run of opponent pieces, the scan appends the 0 that ends the run. |
| Othello.BracketFound | games/othello.py:118-128 | Every bracketed empty cell is found. Opponent pieces next to the piece, followed by a playable 0, make the direction append exactly that cell. |
| Othello.EmptyAfterEmptyLands | games/othello.py:125-128 | With no emptiness test on the predecessor, the player's piece then two 0s makes the direction append the second 0, right after an empty cell. |
| Othello.NorthEastRaises | games/othello.py:118-128 | From (8,2) with pieces up the diagonal, the `and` bound test lets the eighth step read column 10. The scan raises `IndexError`, and so does `getMoves`. |
| Othello.NorthEastWraps | games/othello.py:118-128 | From (3,2), row -1 reads as row 9 and row -2 as row 8. The scan appends `(-2, 7)`, which is not a cell of the board. |
| Othello.AllMovesMembers | games/othello.py:228-230 | Where no `getMoves` raises, a coordinate is among the concatenated moves exactly when it is a move of some listed piece. |
| Othello.LegalMovesExactly | games/othello.py:223-233 | `getLegalMoves` has no repeats, and contains exactly the moves of the player's listed pieces. |
| Othello.Othello.constructor | games/othello.py:40-45 | `Othello()` makes a framed grid of 0s with white on (4,4) and (5,5) and black on (4,5) and (5,4), and empty caches. |
| Othello.Othello.SetUp | games/othello.py:47-54 | `setUp` writes `'*'` on every border cell, leaves playable cells alone, and empties both caches. |
| Othello.Othello.FrameColumns | games/othello.py:48-50 | The first and last column become `'*'`; every other cell is unchanged. |
| Othello.Othello.FrameRows | games/othello.py:51-52 | The first and last row become `'*'`; every other cell is unchanged. |
| Othello.Othello.SetPosition | games/othello.py:74-75 | `setPosition` writes as `WriteValue` says, and on `IndexError` changes nothing. |
| Othello.Othello.ScanPositions | games/othello.py:82-87 | The nested loop collects exactly the playable cells holding the player, in row-major order. |
| Othello.Othello.AllPositions | games/othello.py:77-101 | `allPositions` raises `ValueError` for a non-player. Otherwise it returns that player's cache, filled by a scan only when it was empty, and leaves the other cache alone. |
| Othello.Othello.CheckStep | games/othello.py:118-128 | One loop body of a direction returns exactly the step's verdict. |
| Othello.Othello.ScanDirection | games/othello.py:118-128 | A direction loop returns exactly `RayMove`, including its `IndexError`. |
| Othello.Othello.GetMoves | games/othello.py:104-221 | `getMoves` returns exactly `Moves`: the eight scans in order, or the first `IndexError`. |
| Othello.Othello.GetLegalMoves | games/othello.py:223-233 | `getLegalMoves` raises `ValueError` for a non-player. Otherwise it refreshes that player's cache as `allPositions` does and returns exactly `LegalMoves` for it, or the first `IndexError`. |
| Othello.Othello.Place | games/othello.py:235-241 | `place` raises `ValueError` for a bad player or position. Otherwise it refreshes the player's cache as `allPositions` does, leaving the other cache alone. It then passes on a `getLegalMoves` exception, or returns "valid move" exactly when the position is among the legal moves of the board and the refreshed cache, and "invalid move" otherwise. The grid is never written. |
| Othello.Othello.ResetBoard | games/othello.py:243-245 | `_resetBoard` leaves a fresh grid equal to `ResetGrid` and empty caches. |
| Othello.Othello.GenerateBoards | games/othello.py:247-252 | `generateBoards` resets the board, then writes the black list and then the white list. It stops at the first `IndexError`, and `ok` reports whether both loops finished. |
| Othello.Othello.WritePositions | games/othello.py:249-252 | One loop of `generateBoards` leaves exactly the grid `WriteAll` describes. |

## Left out

- Printing, `logging`, `get_input`, `prompt`, `human_play`, `play`, `toString` and `main_loop` of both AI games. This is console I/O. The text `place` returns is modelled by the return code it carries.
- `GameState.SEF`, `setMinimaxMove`, `changeWeights`, the `minimax`, `weights` and `sef` fields, and `RandomAIOthello.minimax`. These are the minimax evaluation and its placeholder, which sit outside the board rules.
- `Board.getNoOfFlippedPieces`, `getNoOfCornerPieces`, `getNoOfEdgePieces`, `getNoOfCornerAdjacentPieces`, and the `edges`, `corners` and `corner_adj_positions` lists. They serve only the evaluation function above.
- The AI games' `__validate_position` and the `PLAYER_BLACK`/`PLAYER_WHITE` properties: nothing in the modelled code calls them.
- `othello.Othello.__str__` and `print_actualBoard`. They only draw the older board; the drawing of the 'b'/'w' board is modelled as `Board.ToString`.
- games/rec_othello.py and games/othellotest.py are not part of this model.
- OthelloUtils.Board.constructor: `gameboard` is a class attribute shared by every `Board`, and `setUp` rewrites only its border, so a second `Board` in one process inherits the first one's pieces. The model gives each `Board` a fresh grid, as the first one sees it.
- Othello.Othello.constructor: `_gameboard` is likewise a class attribute until `_resetBoard` gives the object its own grid. The model gives each object a fresh grid.
- OthelloUtils.NewGameState: when the player has no pieces, `getLegalMoves` returns the player's own position list, so the state's `next_moves` aliases it. The model copies the value.
- OthelloUtils.Board.GetLegalMoves: requires a colour of the board. For any other character `allPositions` returns `None` and `len(None)` raises `TypeError`; `Play` models that case as `Raised(TypeError)`.
- OthelloUtils.Board.Valid: the `validpositions` field is set by `setUp` but is not part of the invariant. Nothing in the modelled code writes it afterwards.
- AIOthello.GetOppPlayer: returns the set of other colours rather than a list, because Python does not fix the order of `list(set(...))`. `place` uses its first element only when the set has exactly one element (`OtherColour`).
- AIOthello.Othello.Place: a `player_opp` equal to the player, or not a colour, is passed through as the source does. The promise that the board stays consistent is stated only for a real opponent.
- RandomAIOthello.Othello.Place: the player selection is passed to `GameState` as its unused `computer` argument, so it appears only as a parameter.
- Othello.Othello.Place: `place` never writes the board (its `setPosition` call is commented out in the source), so no move is applied.
- Integer widths do not arise: every index and count stays within 0..100.
