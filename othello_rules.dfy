/** games/OthelloUtils.py: the board of the 'b'/'w' games. The grid holds
    '-' for an empty cell, '*' on the border and the colour character of a
    piece; each colour's pieces are also listed, in placement order, in
    `black_curr_pos` (player one) and `white_curr_pos` (player two). This
    file holds the value-level specification of the board's scans and
    updates, and what is proved about them; othello_utils.dfy holds the
    Board class that runs them. */
module OthelloRules {
  import opened PyList
  import opened Grid

  /** Every border cell holds '*'. */
  ghost predicate BorderIntact(g: seq<char>) {
    |g| == 100 && forall q: Coord | InGrid(q) && !InBoard(q) :: At(g, q) == '*'
  }

  /** The grid of a new Board: '*' on the border, '-' everywhere else. */
  function EmptyGrid(): (g: seq<char>)
    ensures BorderIntact(g)
    ensures forall q | InBoard(q) :: At(g, q) == '-'
  {
    seq(100, k requires 0 <= k < 100 =>
      if 1 <= k / 10 <= 8 && 1 <= k % 10 <= 8 then '-' else '*')
  }

  /** The state of a Board: its grid, its two position lists and its two
      colour characters (player one is black, player two is white). */
  datatype BoardValue = BoardValue(
    grid: seq<char>,
    black: seq<Coord>,
    white: seq<Coord>,
    playerOne: char,
    playerTwo: char)

  /** What every Board keeps true: the border is intact and the lists only
      name playable cells. */
  ghost predicate ValidValue(v: BoardValue) {
    BorderIntact(v.grid) &&
    (forall q <- v.black :: InBoard(q)) &&
    (forall q <- v.white :: InBoard(q))
  }

  /** `list` names every playable cell holding `c` once, and nothing else. */
  ghost predicate Tallies(g: seq<char>, list: seq<Coord>, c: char)
    requires |g| == 100
  {
    forall q :: multiset(list)[q] == if InBoard(q) && At(g, q) == c then 1 else 0
  }

  /** A board whose grid and lists agree: two distinct colours, every
      playable cell a space or a colour, and each colour's list naming
      exactly that colour's cells. */
  ghost predicate Consistent(v: BoardValue) {
    ValidValue(v) &&
    v.playerOne != v.playerTwo &&
    v.playerOne != '-' && v.playerOne != '*' && v.playerTwo != '-' && v.playerTwo != '*' &&
    (forall q | InBoard(q) :: At(v.grid, q) == '-' || At(v.grid, q) == v.playerOne || At(v.grid, q) == v.playerTwo) &&
    Tallies(v.grid, v.black, v.playerOne) &&
    Tallies(v.grid, v.white, v.playerTwo)
  }

  // ---------------------------------------------------------------------
  // getMoves

  /** The character the leftward scan of `getMoves` compares the previous
      cell with where every other direction compares it with '-'. */
  function EmptyMark(d: Dir): char {
    if d == W then '=' else '-'
  }

  /** What one step of a scan decides: end the scan, end it recording the
      step, or go on to the next step. */
  datatype Verdict = Stop | Record | Continue

  /** Step `i` of one direction of `getMoves` (the step before it, if any,
      was a playable cell): the bound test, the adjacent-space test, the
      border test, then the append test comparing the previous cell with
      the player and with the direction's empty mark. */
  function MoveVerdict(g: seq<char>, p: Coord, d: Dir, player: char, i: nat): Verdict
    requires BorderIntact(g) && InBoard(p) && 1 <= i
    requires i == 1 || InBoard(Step(p, d, i - 1))
  {
    if i > 8 || MoveScanOut(d, p, i) then Stop
    else
      StepAfter(p, d, i);
      var c := At(g, Step(p, d, i));
      var before := At(g, Step(p, d, i - 1));
      if i == 1 && (c == '-' || c == '*') then Stop
      else if c == '*' then Stop
      else if c == '-' && before != player && before != EmptyMark(d) then Record
      else Continue
  }

  /** One direction of `getMoves` from step `i` on: the step at which a
      move is appended, if any. */
  function RayMoveStep(g: seq<char>, p: Coord, d: Dir, player: char, i: nat): Option<nat>
    requires BorderIntact(g) && InBoard(p) && 1 <= i
    requires i == 1 || InBoard(Step(p, d, i - 1))
    decreases 9 - i
  {
    match MoveVerdict(g, p, d, player, i)
    case Stop => None
    case Record => Some(i)
    case Continue =>
      StepAfter(p, d, i);
      RayMoveStep(g, p, d, player, i + 1)
  }

  /** A `getMoves` scan may append step `k`: a playable empty cell at least
      two steps away whose predecessor is a playable cell holding neither
      the player nor the direction's empty mark. */
  predicate Lands(g: seq<char>, p: Coord, d: Dir, player: char, k: int)
    requires |g| == 100
  {
    2 <= k <= 8 && InBoard(Step(p, d, k)) && InBoard(Step(p, d, k - 1)) &&
    At(g, Step(p, d, k)) == '-' &&
    At(g, Step(p, d, k - 1)) != player && At(g, Step(p, d, k - 1)) != EmptyMark(d)
  }

  /** A step that goes on stands on a playable cell, and the scan is then
      that of the next step. */
  lemma MoveContinues(g: seq<char>, p: Coord, d: Dir, player: char, i: nat)
    requires BorderIntact(g) && InBoard(p) && 1 <= i
    requires i == 1 || InBoard(Step(p, d, i - 1))
    requires MoveVerdict(g, p, d, player, i) == Continue
    ensures InBoard(Step(p, d, i))
    ensures RayMoveStep(g, p, d, player, i) == RayMoveStep(g, p, d, player, i + 1)
  {
    StepAfter(p, d, i);
  }

  /** A step that does not go on ends the scan: with nothing appended where
      it stops, with that step where it records. */
  lemma MoveEnds(g: seq<char>, p: Coord, d: Dir, player: char, i: nat)
    requires BorderIntact(g) && InBoard(p) && 1 <= i
    requires i == 1 || InBoard(Step(p, d, i - 1))
    requires MoveVerdict(g, p, d, player, i) != Continue
    ensures RayMoveStep(g, p, d, player, i) ==
      if MoveVerdict(g, p, d, player, i) == Stop then None else Some(i)
  {
  }

  /** A scan of `getMoves` appends only a step where it may. */
  lemma {:induction false} RayMoveStepLands(g: seq<char>, p: Coord, d: Dir, player: char, i: nat)
    requires BorderIntact(g) && InBoard(p) && 1 <= i
    requires i == 1 || InBoard(Step(p, d, i - 1))
    ensures var r := RayMoveStep(g, p, d, player, i);
      r.Some? ==> i <= r.value && Lands(g, p, d, player, r.value)
    decreases 9 - i
  {
    if MoveVerdict(g, p, d, player, i) == Continue {
      StepAfter(p, d, i);
      RayMoveStepLands(g, p, d, player, i + 1);
    }
  }

  /** The move one direction of `getMoves` appends: none or one cell. */
  function Landing(g: seq<char>, p: Coord, d: Dir, player: char): (r: seq<Coord>)
    requires BorderIntact(g) && InBoard(p)
    ensures |r| <= 1 && forall q <- r :: InBoard(q) && At(g, q) == '-'
  {
    RayMoveStepLands(g, p, d, player, 1);
    match RayMoveStep(g, p, d, player, 1)
    case None => []
    case Some(k) => [Step(p, d, k)]
  }

  /** The moves the scans of `dirs` append, in that order. */
  function MovesAlong(g: seq<char>, p: Coord, player: char, dirs: seq<Dir>): (r: seq<Coord>)
    requires BorderIntact(g) && InBoard(p)
    ensures |r| <= |dirs|
    ensures forall q <- r :: InBoard(q) && At(g, q) == '-'
  {
    if dirs == [] then []
    else MovesAlong(g, p, player, dirs[..|dirs| - 1]) + Landing(g, p, dirs[|dirs| - 1], player)
  }

  /** `getMoves(position, player)`: at most one move per direction, each a
      playable empty cell. */
  function Moves(g: seq<char>, p: Coord, player: char): (r: seq<Coord>)
    requires BorderIntact(g) && InBoard(p)
    ensures |r| <= 8
    ensures forall q <- r :: InBoard(q) && At(g, q) == '-'
  {
    MovesAlong(g, p, player, MOVE_ORDER)
  }

  /** The moves of every listed piece, concatenated in list order. */
  function AllMoves(g: seq<char>, pieces: seq<Coord>, player: char): (r: seq<Coord>)
    requires BorderIntact(g) && forall q <- pieces :: InBoard(q)
  {
    if pieces == [] then []
    else AllMoves(g, pieces[..|pieces| - 1], player) + Moves(g, pieces[|pieces| - 1], player)
  }

  /** `allPositions(player)`: the list of the given colour, or None (Python's
      implicit return) for any other character. */
  function Pieces(v: BoardValue, player: char): (r: Option<seq<Coord>>)
    ensures r.Some? <==> player == v.playerOne || player == v.playerTwo
  {
    if player == v.playerOne then Some(v.black)
    else if player == v.playerTwo then Some(v.white)
    else None
  }

  /** Every listed piece of a well-formed board is a playable cell. */
  lemma PiecesOnBoard(v: BoardValue, player: char)
    requires ValidValue(v) && (player == v.playerOne || player == v.playerTwo)
    ensures forall q <- Pieces(v, player).value :: InBoard(q)
  {
  }

  /** The moves of the first `k` listed pieces. */
  function AllMovesUpTo(g: seq<char>, pieces: seq<Coord>, player: char, k: nat): seq<Coord>
    requires BorderIntact(g) && (forall q <- pieces :: InBoard(q)) && k <= |pieces|
  {
    assert forall q <- pieces[..k] :: q in pieces;
    AllMoves(g, pieces[..k], player)
  }

  /** One more piece adds its moves at the end. */
  lemma AllMovesUpToNext(g: seq<char>, pieces: seq<Coord>, player: char, k: nat)
    requires BorderIntact(g) && (forall q <- pieces :: InBoard(q)) && k < |pieces|
    ensures AllMovesUpTo(g, pieces, player, k + 1) ==
      AllMovesUpTo(g, pieces, player, k) + Moves(g, pieces[k], player)
  {
    assert pieces[..k + 1][..k] == pieces[..k];
  }

  /** `getLegalMoves(player)`: every piece's moves, concatenated, duplicates
      dropped; the (empty) position list itself when the colour has no piece. */
  function LegalMoves(v: BoardValue, player: char): seq<Coord>
    requires ValidValue(v) && (player == v.playerOne || player == v.playerTwo)
  {
    var pieces := Pieces(v, player).value;
    if |pieces| != 0 then Dedup(AllMoves(v.grid, pieces, player)) else pieces
  }

  // ---------------------------------------------------------------------
  // getFlips

  /** Step `i` of one direction of `getFlips`: the bound test, the test
      that the first step holds neither the player nor a space, then the
      flag test (the player right after the opponent). */
  function FlipVerdict(g: seq<char>, p: Coord, d: Dir, player: char, opp: char, i: nat): Verdict
    requires |g| == 100 && InBoard(p) && 1 <= i
  {
    if i > 8 || FlipScanOut(d, p, i) then Stop
    else
      FlipScanInGrid(p, d, i);
      var c := At(g, Step(p, d, i));
      if i == 1 && (c == player || c == '-') then Stop
      else if c == player && At(g, Step(p, d, i - 1)) == opp then Record
      else Continue
  }

  /** One direction of `getFlips` from step `i` on: the step `count` at which
      the scan sets its flag, if any. */
  function FlipBracket(g: seq<char>, p: Coord, d: Dir, player: char, opp: char, i: nat): Option<nat>
    requires |g| == 100 && InBoard(p) && 1 <= i
    decreases 9 - i
  {
    match FlipVerdict(g, p, d, player, opp, i)
    case Stop => None
    case Record => Some(i)
    case Continue => FlipBracket(g, p, d, player, opp, i + 1)
  }

  /** A `getFlips` scan may set its flag at step `k`: a bound-respecting
      step holding the player, reached over playable cells, the last of them
      holding the opponent. */
  predicate Closes(g: seq<char>, p: Coord, d: Dir, player: char, opp: char, k: int)
    requires |g| == 100
  {
    2 <= k <= 8 && InGrid(Step(p, d, k)) && InBoard(Step(p, d, k - 1)) &&
    (forall j :: 1 <= j < k ==> InBoard(Step(p, d, j))) &&
    At(g, Step(p, d, k)) == player && At(g, Step(p, d, k - 1)) == opp
  }

  /** A scan of `getFlips` sets its flag only where it may. */
  lemma {:induction false} FlipBracketCloses(g: seq<char>, p: Coord, d: Dir, player: char, opp: char, i: nat)
    requires |g| == 100 && InBoard(p) && 1 <= i
    ensures var r := FlipBracket(g, p, d, player, opp, i);
      r.Some? ==> i <= r.value && Closes(g, p, d, player, opp, r.value)
    decreases 9 - i
  {
    if i <= 8 && !FlipScanOut(d, p, i) {
      if FlipVerdict(g, p, d, player, opp, i) == Continue {
        FlipBracketCloses(g, p, d, player, opp, i + 1);
      } else {
        FlipScanInGrid(p, d, i);
        forall j | 1 <= j < i ensures InBoard(Step(p, d, j)) {
          FlipScanInterior(p, d, j, i);
        }
      }
    }
  }

  /** The cells one direction of `getFlips` adds: steps 1 .. count-1. */
  function FlipRun(g: seq<char>, p: Coord, d: Dir, player: char, opp: char): (r: seq<Coord>)
    requires |g| == 100 && InBoard(p)
    // a run is the ray's first |r| steps, all playable, closed by an
    // opponent piece and then a player piece
    ensures forall j :: 0 <= j < |r| ==> r[j] == Step(p, d, j + 1) && InBoard(r[j])
    ensures r != [] ==> |r| <= 7 && InBoard(Step(p, d, |r|)) && At(g, Step(p, d, |r|)) == opp
    ensures r != [] ==> InGrid(Step(p, d, |r| + 1)) && At(g, Step(p, d, |r| + 1)) == player
  {
    FlipBracketCloses(g, p, d, player, opp, 1);
    match FlipBracket(g, p, d, player, opp, 1)
    case None => []
    case Some(count) => Ray(p, d, 1, count)
  }

  /** The runs the scans of `dirs` add, in that order. */
  function FlipsAlong(g: seq<char>, p: Coord, player: char, opp: char, dirs: seq<Dir>): (r: seq<Coord>)
    requires |g| == 100 && InBoard(p)
    ensures forall q <- r :: InBoard(q)
  {
    if dirs == [] then []
    else FlipsAlong(g, p, player, opp, dirs[..|dirs| - 1]) + FlipRun(g, p, dirs[|dirs| - 1], player, opp)
  }

  /** `getFlips(player, opp_player, position_to_move)`: only playable cells. */
  function Flips(g: seq<char>, p: Coord, player: char, opp: char): (r: seq<Coord>)
    requires |g| == 100 && InBoard(p)
    ensures forall q <- r :: InBoard(q)
  {
    FlipsAlong(g, p, player, opp, FLIP_ORDER)
  }

  // ---------------------------------------------------------------------
  // h_setPosition, removePiece, flip_opp_player_positions

  /** `h_setPosition(player, position)`: writes the cell, then appends the
      position to the list of the player's colour (to neither list for any
      other character). */
  function SetPositionValue(v: BoardValue, player: char, pos: Coord): (r: BoardValue)
    requires |v.grid| == 100 && InBoard(pos)
    ensures |r.grid| == 100 && At(r.grid, pos) == player
    ensures forall q | InGrid(q) && q != pos :: At(r.grid, q) == At(v.grid, q)
    ensures Pieces(v, player).Some? ==> Pieces(r, player) == Some(Pieces(v, player).value + [pos])
    ensures Pieces(v, player).None? ==> r.black == v.black && r.white == v.white
    ensures player == v.playerOne ==> r.white == v.white
    ensures player != v.playerOne && player == v.playerTwo ==> r.black == v.black
    ensures r.playerOne == v.playerOne && r.playerTwo == v.playerTwo
  {
    var g := v.grid[Index(pos) := player];
    if player == v.playerOne then v.(grid := g, black := v.black + [pos])
    else if player == v.playerTwo then v.(grid := g, white := v.white + [pos])
    else v.(grid := g)
  }

  /** `removePiece(player, position)`: drops the position from the list of
      the player's colour, leaving the grid alone; None where `list.remove`
      raises ValueError because the position is not listed. */
  function RemovePieceValue(v: BoardValue, player: char, pos: Coord): (r: Option<BoardValue>)
    ensures r.None? <==> Pieces(v, player).Some? && pos !in Pieces(v, player).value
    ensures r.Some? ==> r.value.grid == v.grid
    ensures r.Some? ==> r.value.playerOne == v.playerOne && r.value.playerTwo == v.playerTwo
    ensures r.Some? && Pieces(v, player).Some? ==>
      multiset(Pieces(r.value, player).value) == multiset(Pieces(v, player).value) - multiset{pos}
    ensures r.Some? && player == v.playerOne ==>
      r.value.black == RemoveFirst(v.black, pos) && r.value.white == v.white
    ensures r.Some? && player != v.playerOne && player == v.playerTwo ==>
      r.value.white == RemoveFirst(v.white, pos) && r.value.black == v.black
    ensures Pieces(v, player).None? ==> r == Some(v)
  {
    if player == v.playerOne then
      if pos in v.black then Some(v.(black := RemoveFirst(v.black, pos))) else None
    else if player == v.playerTwo then
      if pos in v.white then Some(v.(white := RemoveFirst(v.white, pos))) else None
    else Some(v)
  }

  /** The board after an update, and whether it ran to its end (false where
      `removePiece` raised ValueError and stopped it). */
  datatype Applied = Applied(after: BoardValue, ok: bool)

  /** The loop of `flip_opp_player_positions`: for each listed cell in turn,
      `h_setPosition(player, cell)` then `removePiece(opp_player, cell)`;
      written here as the loop over all but the last cell, then the last. */
  function FlipAll(v: BoardValue, player: char, opp: char, flips: seq<Coord>): (r: Applied)
    requires |v.grid| == 100 && forall q <- flips :: InBoard(q)
    ensures |r.after.grid| == 100
    ensures r.after.playerOne == v.playerOne && r.after.playerTwo == v.playerTwo
    decreases |flips|
  {
    if flips == [] then Applied(v, true)
    else
      var done := FlipAll(v, player, opp, flips[..|flips| - 1]);
      if !done.ok then done
      else
        var f := flips[|flips| - 1];
        var v1 := SetPositionValue(done.after, player, f);
        match RemovePieceValue(v1, opp, f)
        case None => Applied(v1, false)
        case Some(v2) => Applied(v2, true)
  }

  /** `flip_opp_player_positions(player, opp_player, position)`: the flips
      are computed on the board before it changes, then the moved piece is
      placed and the flips applied. */
  function MoveValue(v: BoardValue, player: char, opp: char, pos: Coord): Applied
    requires |v.grid| == 100 && InBoard(pos)
  {
    FlipAll(SetPositionValue(v, player, pos), player, opp, Flips(v.grid, pos, player, opp))
  }
}
