/** games/othello.py: the older board, a 10 x 10 list of lists holding 0 for
    an empty cell, '*' on the border and 1 (black) or 2 (white) for a piece.
    Rows and columns are addressed with Python list indexing, so a negative
    index counts from the end and an index past the end raises IndexError.
    Each colour's pieces are cached in a list that `allPositions` fills by
    scanning the grid when it is empty. */
module Othello {
  import opened PyList
  import opened Grid

  const PLAYER_BLACK: int := 1
  const PLAYER_WHITE: int := 2

  /** The return codes of `place`. */
  const ERROR: string := "invalid move"
  const SUCCESS: string := "valid move"

  /** A cell: a number (0 for empty, else the player written there) or the
      border's "*". */
  datatype Square = Num(n: int) | Star

  /** A Python index into a list of 10, in range: negative indices count
      from the end. */
  function Wrap(k: int): (w: nat)
    requires -10 <= k < 10
    ensures w < 10 && PyIndex(k, 10) == Some(w)
  {
    if k < 0 then k + 10 else k
  }

  /** The flat index of the cell that `board[q.row][q.col]` addresses on the
      10 x 10 board, or None where either index raises IndexError. */
  function Slot(q: Coord): (k: Option<nat>)
    ensures k.Some? ==> k.value < 100
    ensures InGrid(q) ==> k == Some(Index(q))
  {
    if -10 <= q.row < 10 && -10 <= q.col < 10 then Some(Wrap(q.row) * 10 + Wrap(q.col)) else None
  }

  /** `board[q.row][q.col]` raises IndexError exactly where Python's
      indexing of a list of 10 rejects the row or the column, and otherwise
      addresses row `PyIndex(q.row)` and column `PyIndex(q.col)`. */
  lemma SlotIsPyIndex(q: Coord)
    ensures Slot(q).Some? <==> PyIndex(q.row, 10).Some? && PyIndex(q.col, 10).Some?
    ensures Slot(q).Some? ==> Slot(q).value == PyIndex(q.row, 10).value * 10 + PyIndex(q.col, 10).value
  {
  }

  /** `board[q.row][q.col]`. */
  function Read(g: seq<Square>, q: Coord): (r: Result<Square>)
    requires |g| == 100
    ensures r.Err? ==> r.error == IndexError
    ensures InGrid(q) ==> r == Ok(At(g, q))
  {
    match Slot(q)
    case None => Err(IndexError)
    case Some(k) => Ok(g[k])
  }

  /** The grid `_resetBoard` builds: 0 inside, "*" on the border. */
  function ResetGrid(): (g: seq<Square>)
    ensures |g| == 100
    ensures forall q | InGrid(q) :: At(g, q) == if InBoard(q) then Num(0) else Star
  {
    seq(100, k requires 0 <= k < 100 =>
      if 1 <= k / 10 <= 8 && 1 <= k % 10 <= 8 then Num(0) else Star)
  }

  // ---------------------------------------------------------------------
  // _validate_player, _validate_position

  /** `_validate_player(player)`: false where it raises ValueError. */
  function ValidatePlayer(player: int): (ok: bool)
    ensures ok <==> player == PLAYER_BLACK || player == PLAYER_WHITE
  {
    player in {PLAYER_WHITE, PLAYER_BLACK}
  }

  /** `_validate_position(position)`: false where it raises ValueError, the
      position not being among the 64 playable cells. */
  function ValidatePosition(position: Coord): (ok: bool)
    ensures ok <==> InBoard(position)
  {
    ValidPositionsExactly(position);
    position in ValidPositions()
  }

  // ---------------------------------------------------------------------
  // setPosition, generateBoards

  /** `board[position[0]][position[1]] = player`: None where an index
      raises IndexError. */
  function WriteValue(g: seq<Square>, player: int, position: Coord): (r: Option<seq<Square>>)
    requires |g| == 100
    ensures r.Some? <==> Slot(position).Some?
    ensures r.Some? ==> |r.value| == 100
    ensures r.Some? ==>
      forall k | 0 <= k < 100 :: r.value[k] == if Some(k) == Slot(position) then Num(player) else g[k]
  {
    match Slot(position)
    case None => None
    case Some(k) => Some(g[k := Num(player)])
  }

  /** A grid after a run of writes, and whether the run finished (false
      where a write raised and stopped it). */
  datatype Written = Written(grid: seq<Square>, ok: bool)

  /** `for i in range(len(positions)): setPosition(player, positions[i])`. */
  function WriteAll(g: seq<Square>, player: int, positions: seq<Coord>): (w: Written)
    requires |g| == 100
    ensures |w.grid| == 100
    decreases |positions|
  {
    if positions == [] then Written(g, true)
    else
      match WriteValue(g, player, positions[0])
      case None => Written(g, false)
      case Some(g1) => WriteAll(g1, player, positions[1..])
  }

  /** Writes to cells of the grid all succeed, and afterwards exactly the
      written cells hold the player. */
  lemma {:induction false} WriteAllPaints(g: seq<Square>, player: int, positions: seq<Coord>)
    requires |g| == 100 && forall q <- positions :: InGrid(q)
    ensures WriteAll(g, player, positions).ok
    ensures forall q | InGrid(q) ::
      At(WriteAll(g, player, positions).grid, q) == if q in positions then Num(player) else At(g, q)
    decreases |positions|
  {
    if positions != [] {
      var g1 := WriteValue(g, player, positions[0]).value;
      var rest := positions[1..];
      assert positions == [positions[0]] + rest;
      WriteAllPaints(g1, player, rest);
      assert WriteAll(g, player, positions) == WriteAll(g1, player, rest);
      forall q | InGrid(q) ensures At(g1, q) == if q == positions[0] then Num(player) else At(g, q) {
        if q != positions[0] {
          IndexInjective(q, positions[0]);
        }
      }
    }
  }

  /** `generateBoards(black_list, white_list)` on cells of the grid: the
      white pieces are written last, so a cell in both lists is white; every
      other cell is as `_resetBoard` left it. */
  lemma GeneratedBoard(blackList: seq<Coord>, whiteList: seq<Coord>)
    requires forall q <- blackList :: InGrid(q)
    requires forall q <- whiteList :: InGrid(q)
    ensures var b := WriteAll(ResetGrid(), PLAYER_BLACK, blackList);
      var w := WriteAll(b.grid, PLAYER_WHITE, whiteList);
      b.ok && w.ok &&
      forall q | InGrid(q) :: At(w.grid, q) ==
        if q in whiteList then Num(PLAYER_WHITE)
        else if q in blackList then Num(PLAYER_BLACK)
        else if InBoard(q) then Num(0) else Star
  {
    var b := WriteAll(ResetGrid(), PLAYER_BLACK, blackList);
    WriteAllPaints(ResetGrid(), PLAYER_BLACK, blackList);
    WriteAllPaints(b.grid, PLAYER_WHITE, whiteList);
  }

  // ---------------------------------------------------------------------
  // allPositions

  /** What `allPositions` returns for a cache: the cache itself, or, when
      it is empty, the playable cells holding the player in row-major
      order. */
  function Refreshed(cache: seq<Coord>, g: seq<Square>, player: int): seq<Coord>
    requires |g| == 100
  {
    if |cache| == 0 then Holding(g, ValidPositions(), Num(player)) else cache
  }

  /** The scan of `allPositions` finds every playable cell holding the
      player, in row-major order, and nothing else. */
  lemma ScanFindsExactly(g: seq<Square>, player: int)
    requires |g| == 100
    ensures RowMajor(Holding(g, ValidPositions(), Num(player)))
    ensures forall q :: q in Holding(g, ValidPositions(), Num(player)) <==> InBoard(q) && At(g, q) == Num(player)
  {
    ValidPositionsSorted();
    HoldingRowMajor(g, ValidPositions(), Num(player));
    forall q ensures q in Holding(g, ValidPositions(), Num(player)) <==> InBoard(q) && At(g, q) == Num(player) {
      ValidPositionsExactly(q);
      HoldingMembers(g, ValidPositions(), Num(player), q);
    }
  }

  /** The first `n` playable cells, in row-major order, that hold `c`. */
  function ScanPrefix(g: seq<Square>, n: nat, c: Square): seq<Coord>
    requires |g| == 100 && n <= 64
  {
    assert forall q <- ValidPositions()[..n] :: InGrid(q) by {
      forall q <- ValidPositions()[..n] ensures InGrid(q) {
        ValidPositionsExactly(q);
      }
    }
    Holding(g, ValidPositions()[..n], c)
  }

  /** One cell further in the scan of `allPositions`. */
  lemma ScanNext(g: seq<Square>, q: Coord, c: Square)
    requires |g| == 100 && InBoard(q)
    ensures PositionNumber(q) < 64
    ensures ScanPrefix(g, PositionNumber(q) + 1, c) ==
      ScanPrefix(g, PositionNumber(q), c) + if At(g, q) == c then [q] else []
  {
    var vp, n := ValidPositions(), PositionNumber(q);
    ValidPositionsAt(q);
    assert vp[..n + 1][..n] == vp[..n] && vp[..n + 1][n] == q;
  }

  /** After `generateBoards`, the scan for black finds the cells of the
      black list that the white list did not overwrite, and the scan for
      white the cells of the white list. */
  lemma GeneratedPieces(blackList: seq<Coord>, whiteList: seq<Coord>)
    requires forall q <- blackList :: InBoard(q)
    requires forall q <- whiteList :: InBoard(q)
    ensures var b := WriteAll(ResetGrid(), PLAYER_BLACK, blackList);
      var g := WriteAll(b.grid, PLAYER_WHITE, whiteList).grid;
      (forall q :: q in Holding(g, ValidPositions(), Num(PLAYER_BLACK)) <==> q in blackList && q !in whiteList) &&
      (forall q :: q in Holding(g, ValidPositions(), Num(PLAYER_WHITE)) <==> q in whiteList)
  {
    var b := WriteAll(ResetGrid(), PLAYER_BLACK, blackList);
    var g := WriteAll(b.grid, PLAYER_WHITE, whiteList).grid;
    GeneratedBoard(blackList, whiteList);
    ScanFindsExactly(g, PLAYER_BLACK);
    ScanFindsExactly(g, PLAYER_WHITE);
  }

  // ---------------------------------------------------------------------
  // getMoves

  /** Step `k` of the ray holds 0 and step `k - 1` reads as something else
      than the player. */
  predicate Lands(g: seq<Square>, p: Coord, d: Dir, player: int, k: int)
    requires |g| == 100
  {
    Read(g, Step(p, d, k)) == Ok(Num(0)) &&
    Read(g, Step(p, d, k - 1)).Ok? && Read(g, Step(p, d, k - 1)).value != Num(player)
  }

  /** What step `i` of one direction of `getMoves` does: the bound test
      ends the loop, a read raises IndexError, the first neighbour holding
      0 or "*" ends the loop, a cell holding 0 whose predecessor is not the
      player is appended (ending the loop), and anything else goes on to
      the next step. */
  datatype Verdict = Stop | Raise | Append | Next

  function StepVerdict(g: seq<Square>, p: Coord, d: Dir, player: int, i: nat): (v: Verdict)
    requires |g| == 100 && 1 <= i
    ensures v == Append ==> 2 <= i && Lands(g, p, d, player, i)
  {
    if MoveScanOut(d, p, i) then Stop
    else
      match Read(g, Step(p, d, i))
      case Err(_) => Raise
      case Ok(c) =>
        if i == 1 && (c == Num(0) || c == Star) then Stop
        else if c != Num(0) then Next
        else
          match Read(g, Step(p, d, i - 1))
          case Err(_) => Raise
          case Ok(before) => if before != Num(player) then Append else Next
  }

  /** Step `i` onwards of one direction of `getMoves` (`for i in range(1,
      9)`): the step at which a move is appended, None where the loop ends
      without one, or the IndexError a read raises. An appended cell reads
      0 and its predecessor on the ray reads something else than the
      player. */
  function ScanStep(g: seq<Square>, p: Coord, d: Dir, player: int, i: nat): (r: Result<Option<nat>>)
    requires |g| == 100 && 1 <= i
    ensures r.Err? ==> r.error == IndexError
    ensures r.Ok? && r.value.Some? ==>
      2 <= r.value.value <= 8 && i <= r.value.value && Lands(g, p, d, player, r.value.value)
    decreases 9 - i
  {
    if i > 8 then Ok(None)
    else
      match StepVerdict(g, p, d, player, i)
      case Stop => Ok(None)
      case Raise => Err(IndexError)
      case Append => Ok(Some(i))
      case Next => ScanStep(g, p, d, player, i + 1)
  }

  /** The move one direction appends, if any. */
  function RayMove(g: seq<Square>, p: Coord, d: Dir, player: int): (r: Result<seq<Coord>>)
    requires |g| == 100
    ensures r.Ok? ==> |r.value| <= 1 && forall q <- r.value :: Read(g, q) == Ok(Num(0))
  {
    match ScanStep(g, p, d, player, 1)
    case Err(e) => Err(e)
    case Ok(None) => Ok([])
    case Ok(Some(k)) => Ok([Step(p, d, k)])
  }

  /** `a + m` for a computed `m`, an exception passing through. */
  function Prepend(a: seq<Coord>, r: Result<seq<Coord>>): Result<seq<Coord>> {
    match r
    case Err(e) => Err(e)
    case Ok(m) => Ok(a + m)
  }

  lemma PrependNil(r: Result<seq<Coord>>)
    ensures Prepend([], r) == r
  {
    if r.Ok? {
      assert [] + r.value == r.value;
    }
  }

  lemma PrependAssoc(a: seq<Coord>, b: seq<Coord>, r: Result<seq<Coord>>)
    ensures Prepend(a, Prepend(b, r)) == Prepend(a + b, r)
  {
    if r.Ok? {
      assert a + (b + r.value) == a + b + r.value;
    }
  }

  /** The moves the scans of `dirs` append in turn, or the first exception
      one of them raises. */
  function MovesIn(g: seq<Square>, p: Coord, player: int, dirs: seq<Dir>): (r: Result<seq<Coord>>)
    requires |g| == 100
    ensures r.Ok? ==> |r.value| <= |dirs| && forall q <- r.value :: Read(g, q) == Ok(Num(0))
  {
    if dirs == [] then Ok([])
    else
      match RayMove(g, p, dirs[0], player)
      case Err(e) => Err(e)
      case Ok(l) => Prepend(l, MovesIn(g, p, player, dirs[1..]))
  }

  /** `getMoves(position, player)`. */
  function Moves(g: seq<Square>, p: Coord, player: int): Result<seq<Coord>>
    requires |g| == 100
  {
    MovesIn(g, p, player, MOVE_ORDER)
  }

  /** Every move `getMoves` returns is a cell holding 0 (read through
      Python's indexing), at most one per direction. */
  lemma MovesHoldZero(g: seq<Square>, p: Coord, player: int)
    requires |g| == 100
    ensures var r := Moves(g, p, player);
      r.Ok? ==> |r.value| <= 8 && forall q <- r.value :: Read(g, q) == Ok(Num(0))
  {
  }

  /** Step `i` reads neither 0 nor, at the first step, "*": the scan goes
      on to step `i + 1`. */
  lemma VerdictNext(g: seq<Square>, p: Coord, d: Dir, player: int, i: nat)
    requires |g| == 100 && 1 <= i <= 8 && !MoveScanOut(d, p, i)
    requires Read(g, Step(p, d, i)).Ok? && Read(g, Step(p, d, i)).value != Num(0)
    requires i == 1 ==> Read(g, Step(p, d, i)).value != Star
    ensures StepVerdict(g, p, d, player, i) == Next
  {
  }

  /** A step that goes on leaves the scan to the next step. */
  lemma ScanPasses(g: seq<Square>, p: Coord, d: Dir, player: int, i: nat)
    requires |g| == 100 && 1 <= i <= 8 && StepVerdict(g, p, d, player, i) == Next
    ensures ScanStep(g, p, d, player, i) == ScanStep(g, p, d, player, i + 1)
  {
  }

  /** Step `i` past the first reads 0 right after the player's own piece:
      the scan goes on. */
  lemma VerdictAfterPlayer(g: seq<Square>, p: Coord, d: Dir, player: int, i: nat)
    requires |g| == 100 && 2 <= i <= 8 && !MoveScanOut(d, p, i)
    requires Read(g, Step(p, d, i)) == Ok(Num(0)) && Read(g, Step(p, d, i - 1)) == Ok(Num(player))
    ensures StepVerdict(g, p, d, player, i) == Next
  {
  }

  /** Step `i` past the first reads 0 after something else than the
      player: the scan appends it. */
  lemma ScanAppends(g: seq<Square>, p: Coord, d: Dir, player: int, i: nat)
    requires |g| == 100 && 2 <= i <= 8 && !MoveScanOut(d, p, i)
    requires Read(g, Step(p, d, i)) == Ok(Num(0))
    requires Read(g, Step(p, d, i - 1)).Ok? && Read(g, Step(p, d, i - 1)).value != Num(player)
    ensures ScanStep(g, p, d, player, i) == Ok(Some(i))
  {
  }

  /** A direction whose first neighbour holds 0 or "*" adds nothing. */
  lemma FirstNeighbourStops(g: seq<Square>, p: Coord, d: Dir, player: int)
    requires |g| == 100 && InBoard(p)
    requires Read(g, Step(p, d, 1)) in {Ok(Num(0)), Ok(Star)}
    ensures RayMove(g, p, d, player) == Ok([])
  {
  }

  /** A scan passes over a playable cell holding a piece of the opponent. */
  lemma CrossesOpponent(g: seq<Square>, p: Coord, d: Dir, player: int, opp: int, i: nat)
    requires |g| == 100 && 1 <= i <= 8 && !MoveScanOut(d, p, i) && opp != 0
    requires InBoard(Step(p, d, i)) && At(g, Step(p, d, i)) == Num(opp)
    ensures ScanStep(g, p, d, player, i) == ScanStep(g, p, d, player, i + 1)
  {
    VerdictNext(g, p, d, player, i);
    ScanPasses(g, p, d, player, i);
  }

  /** The rest of a bracketing scan: from step `i` on, the scan crosses the
      run of `opp` pieces and appends the empty cell beyond them. */
  lemma {:induction false} BracketFrom(g: seq<Square>, p: Coord, d: Dir, player: int, opp: int, k: int, i: nat)
    requires |g| == 100 && InBoard(p) && 1 <= i <= k <= 8 && 2 <= k
    requires InBoard(Step(p, d, k)) && At(g, Step(p, d, k)) == Num(0)
    requires forall j :: 1 <= j < k ==> InBoard(Step(p, d, j)) && At(g, Step(p, d, j)) == Num(opp)
    requires opp != player && opp != 0
    ensures ScanStep(g, p, d, player, i) == Ok(Some(k))
    decreases k - i
  {
    InsideBounds(p, d, i, k);
    if i < k {
      CrossesOpponent(g, p, d, player, opp, i);
      BracketFrom(g, p, d, player, opp, k, i + 1);
    } else {
      assert InBoard(Step(p, d, k - 1)) && At(g, Step(p, d, k - 1)) == Num(opp);
      ScanAppends(g, p, d, player, k);
    }
  }

  /** Every bracketed empty cell is found: a run of opponent pieces next to
      the piece, followed by a playable cell holding 0, makes the scan of
      that direction append the cell. */
  lemma BracketFound(g: seq<Square>, p: Coord, d: Dir, player: int, opp: int, k: int)
    requires |g| == 100 && InBoard(p) && 2 <= k <= 8
    requires InBoard(Step(p, d, k)) && At(g, Step(p, d, k)) == Num(0)
    requires forall j :: 1 <= j < k ==> InBoard(Step(p, d, j)) && At(g, Step(p, d, j)) == Num(opp)
    requires opp != player && opp != 0
    ensures RayMove(g, p, d, player) == Ok([Step(p, d, k)])
  {
    BracketFrom(g, p, d, player, opp, k, 1);
  }

  /** There is no test of the predecessor for emptiness: after the player's
      own piece and an empty cell, the scan appends the next empty cell,
      which is preceded by an empty cell. */
  lemma EmptyAfterEmptyLands(g: seq<Square>, p: Coord, d: Dir, player: int)
    requires |g| == 100 && InBoard(p) && player != 0
    requires InBoard(Step(p, d, 3))
    requires At(g, Step(p, d, 1)) == Num(player)
    requires At(g, Step(p, d, 2)) == Num(0) && At(g, Step(p, d, 3)) == Num(0)
    ensures RayMove(g, p, d, player) == Ok([Step(p, d, 3)])
    ensures Read(g, Step(p, d, 2)) == Ok(Num(0))
  {
    InsideBounds(p, d, 1, 3);
    InsideBounds(p, d, 2, 3);
    InsideBounds(p, d, 3, 3);
    assert InBoard(Step(p, d, 1)) && InBoard(Step(p, d, 2));
    ScanAppends(g, p, d, player, 3);
    VerdictAfterPlayer(g, p, d, player, 2);
    ScanPasses(g, p, d, player, 2);
    VerdictNext(g, p, d, player, 1);
    ScanPasses(g, p, d, player, 1);
  }

  /** The north-east bound test joins its halves with `and` and later steps
      have no "*" stop: from (8, 2), with pieces on the diagonal up to the
      border, the eighth step reads column 10 and raises IndexError, and so
      does `getMoves`, whose first scan is the north-east one. */
  lemma NorthEastRaises(g: seq<Square>, player: int)
    requires |g| == 100
    requires forall j | 1 <= j <= 7 :: At(g, Step(Coord(8, 2), NE, j)) != Num(0)
    requires At(g, Coord(7, 3)) != Star
    ensures ScanStep(g, Coord(8, 2), NE, player, 1) == Err(IndexError)
    ensures Moves(g, Coord(8, 2), player) == Err(IndexError)
  {
    var p := Coord(8, 2);
    assert Slot(Step(p, NE, 8)).None?;
    assert ScanStep(g, p, NE, player, 8) == Err(IndexError);
    assert At(g, Step(p, NE, 7)) != Num(0) && At(g, Step(p, NE, 6)) != Num(0);
    assert ScanStep(g, p, NE, player, 6) == Err(IndexError);
    assert At(g, Step(p, NE, 5)) != Num(0) && At(g, Step(p, NE, 4)) != Num(0);
    assert ScanStep(g, p, NE, player, 4) == Err(IndexError);
    assert At(g, Step(p, NE, 3)) != Num(0) && At(g, Step(p, NE, 2)) != Num(0);
    assert ScanStep(g, p, NE, player, 2) == Err(IndexError);
    assert At(g, Step(p, NE, 1)) != Num(0);
    assert MOVE_ORDER[0] == NE;
  }

  /** Past the top border the north-east scan reads row -1 as row 9 and row
      -2 as row 8: from (3, 2), with pieces on (2, 3) and (1, 4) and an
      empty (8, 7), it appends the coordinate (-2, 7), which is not a cell
      of the board. */
  lemma NorthEastWraps(g: seq<Square>, player: int)
    requires |g| == 100
    requires At(g, Coord(2, 3)) !in {Num(0), Star} && At(g, Coord(1, 4)) != Num(0)
    requires At(g, Coord(0, 5)) == Star && At(g, Coord(9, 6)) == Star
    requires At(g, Coord(8, 7)) == Num(0)
    ensures RayMove(g, Coord(3, 2), NE, player) == Ok([Coord(-2, 7)])
    ensures !InGrid(Coord(-2, 7)) && Read(g, Coord(-2, 7)) == Ok(Num(0))
  {
    var p := Coord(3, 2);
    assert Slot(Coord(-2, 7)) == Some(87) && Slot(Coord(-1, 6)) == Some(96);
    assert ScanStep(g, p, NE, player, 5) == Ok(Some(5));
    assert ScanStep(g, p, NE, player, 3) == Ok(Some(5));
    assert ScanStep(g, p, NE, player, 1) == Ok(Some(5));
  }

  // ---------------------------------------------------------------------
  // getLegalMoves

  /** The moves of every listed piece, concatenated in list order, or the
      first exception a `getMoves` call raises. */
  function AllMoves(g: seq<Square>, pieces: seq<Coord>, player: int): Result<seq<Coord>>
    requires |g| == 100
  {
    if pieces == [] then Ok([])
    else
      match Moves(g, pieces[0], player)
      case Err(e) => Err(e)
      case Ok(m) => Prepend(m, AllMoves(g, pieces[1..], player))
  }

  /** The moves of `getLegalMoves` for the listed pieces: their moves
      concatenated, duplicates dropped keeping first occurrences. */
  function LegalMoves(g: seq<Square>, pieces: seq<Coord>, player: int): Result<seq<Coord>>
    requires |g| == 100
  {
    match AllMoves(g, pieces, player)
    case Err(e) => Err(e)
    case Ok(m) => Ok(Dedup(m))
  }

  /** Where no `getMoves` call raises, a cell is in the concatenation
      exactly when it is a move of one of the pieces. */
  lemma {:induction false} AllMovesMembers(g: seq<Square>, pieces: seq<Coord>, player: int, q: Coord)
    requires |g| == 100 && AllMoves(g, pieces, player).Ok?
    ensures forall j | 0 <= j < |pieces| :: Moves(g, pieces[j], player).Ok?
    ensures q in AllMoves(g, pieces, player).value <==>
      exists j :: 0 <= j < |pieces| && q in Moves(g, pieces[j], player).value
  {
    if pieces != [] {
      AllMovesMembers(g, pieces[1..], player, q);
      var m := Moves(g, pieces[0], player).value;
      assert AllMoves(g, pieces, player).value == m + AllMoves(g, pieces[1..], player).value;
      forall j | 1 <= j < |pieces| ensures pieces[j] == pieces[1..][j - 1] {
      }
      if q in AllMoves(g, pieces[1..], player).value {
        var j :| 0 <= j < |pieces[1..]| && q in Moves(g, pieces[1..][j], player).value;
        assert q in Moves(g, pieces[j + 1], player).value;
      }
    }
  }

  /** `getLegalMoves` lists every move of every piece, each once, and
      nothing else. */
  lemma LegalMovesExactly(g: seq<Square>, pieces: seq<Coord>, player: int, q: Coord)
    requires |g| == 100 && LegalMoves(g, pieces, player).Ok?
    ensures NoDup(LegalMoves(g, pieces, player).value)
    ensures forall j | 0 <= j < |pieces| :: Moves(g, pieces[j], player).Ok?
    ensures q in LegalMoves(g, pieces, player).value <==>
      exists j :: 0 <= j < |pieces| && q in Moves(g, pieces[j], player).value
  {
    var all := AllMoves(g, pieces, player).value;
    DedupNoDup(all);
    DedupSameElements(all, q);
    AllMovesMembers(g, pieces, player, q);
  }

  // ---------------------------------------------------------------------
  // The Othello class

  class Othello {
    /** The 10 x 10 grid, row-major. `_resetBoard` replaces it. */
    var gameboard: array<Square>
    var whiteCurrPos: seq<Coord>
    var blackCurrPos: seq<Coord>

    ghost predicate Valid()
      reads this
    {
      gameboard.Length == 100
    }

    /** `Othello()`: `setUp` frames a grid of 0s, then white goes on (4, 4)
        and (5, 5) and black on (4, 5) and (5, 4). */
    constructor ()
      ensures Valid() && fresh(gameboard)
      ensures forall q | InGrid(q) ::
        At(gameboard[..], q) == (
          if !InBoard(q) then Star
          else if q == Coord(4, 4) || q == Coord(5, 5) then Num(PLAYER_WHITE)
          else if q == Coord(4, 5) || q == Coord(5, 4) then Num(PLAYER_BLACK)
          else Num(0))
      ensures whiteCurrPos == [] && blackCurrPos == []
    {
      gameboard := new Square[100](_ => Num(0));
      whiteCurrPos, blackCurrPos := [], [];
      new;
      SetUp();
      gameboard[Index(Coord(4, 4))] := Num(PLAYER_WHITE);
      gameboard[Index(Coord(4, 5))] := Num(PLAYER_BLACK);
      gameboard[Index(Coord(5, 4))] := Num(PLAYER_BLACK);
      gameboard[Index(Coord(5, 5))] := Num(PLAYER_WHITE);
    }

    /** `setUp()`: writes "*" over the first and last column of every row,
        then over the first and last row, and empties both caches. */
    method SetUp()
      requires Valid()
      modifies this, gameboard
      ensures Valid() && gameboard == old(gameboard)
      ensures forall q | InGrid(q) ::
        gameboard[Index(q)] == if InBoard(q) then old(gameboard[Index(q)]) else Star
      ensures whiteCurrPos == [] && blackCurrPos == []
    {
      FrameColumns();
      FrameRows();
      whiteCurrPos := [];
      blackCurrPos := [];
    }

    /** `value[0] = "*"` and `value[-1] = "*"` for every row `value`. */
    method FrameColumns()
      requires Valid()
      modifies gameboard
      ensures forall q | InGrid(q) ::
        gameboard[Index(q)] == if q.col == 0 || q.col == 9 then Star else old(gameboard[Index(q)])
    {
      for row := 0 to 10
        invariant forall q | InGrid(q) ::
          gameboard[Index(q)] == if (q.col == 0 || q.col == 9) && q.row < row then Star else old(gameboard[Index(q)])
      {
        forall q | InGrid(q) && q != Coord(row, 0) && q != Coord(row, 9)
          ensures Index(q) != Index(Coord(row, 0)) && Index(q) != Index(Coord(row, 9))
        {
          IndexInjective(q, Coord(row, 0));
          IndexInjective(q, Coord(row, 9));
        }
        gameboard[Index(Coord(row, 0))] := Star;
        gameboard[Index(Coord(row, 9))] := Star;
      }
    }

    /** The first and the last row replaced by rows of "*". */
    method FrameRows()
      requires Valid()
      modifies gameboard
      ensures forall q | InGrid(q) ::
        gameboard[Index(q)] == if q.row == 0 || q.row == 9 then Star else old(gameboard[Index(q)])
    {
      for col := 0 to 10
        invariant forall q | InGrid(q) ::
          gameboard[Index(q)] == if (q.row == 0 || q.row == 9) && q.col < col then Star else old(gameboard[Index(q)])
      {
        forall q | InGrid(q) && q != Coord(0, col) && q != Coord(9, col)
          ensures Index(q) != Index(Coord(0, col)) && Index(q) != Index(Coord(9, col))
        {
          IndexInjective(q, Coord(0, col));
          IndexInjective(q, Coord(9, col));
        }
        gameboard[Index(Coord(0, col))] := Star;
        gameboard[Index(Coord(9, col))] := Star;
      }
    }

    /** `setPosition(player, position)`; `ok` is false where an index
        raises IndexError, and then nothing has changed. */
    method SetPosition(player: int, position: Coord) returns (ok: bool)
      requires Valid()
      modifies gameboard
      ensures ok == WriteValue(old(gameboard[..]), player, position).Some?
      ensures gameboard[..] == if ok then WriteValue(old(gameboard[..]), player, position).value else old(gameboard[..])
    {
      var k := Slot(position);
      if k.None? {
        return false;
      }
      gameboard[k.value] := Num(player);
      ok := true;
    }

    /** The nested loop of `allPositions`: the playable cells holding the
        player, row by row. */
    method ScanPositions(player: int) returns (results: seq<Coord>)
      requires Valid()
      ensures results == Holding(gameboard[..], ValidPositions(), Num(player))
    {
      ghost var g := gameboard[..];
      results := [];
      for idx := 1 to 9
        invariant results == ScanPrefix(g, (idx - 1) * 8, Num(player))
      {
        for col := 1 to 9
          invariant results == ScanPrefix(g, (idx - 1) * 8 + (col - 1), Num(player))
        {
          ScanNext(g, Coord(idx, col), Num(player));
          if gameboard[Index(Coord(idx, col))] == Num(player) {
            results := results + [Coord(idx, col)];
          }
        }
      }
      assert ValidPositions()[..64] == ValidPositions();
    }

    /** `allPositions(player)`: ValueError for a player other than 1 or 2;
        otherwise the player's cache, filled by scanning the grid when it
        is empty. */
    method AllPositions(player: int) returns (r: Result<seq<Coord>>)
      requires Valid()
      modifies this`whiteCurrPos, this`blackCurrPos
      ensures !ValidatePlayer(player) ==>
        r == Err(ValueError) && whiteCurrPos == old(whiteCurrPos) && blackCurrPos == old(blackCurrPos)
      ensures player == PLAYER_WHITE ==>
        whiteCurrPos == Refreshed(old(whiteCurrPos), gameboard[..], player) &&
        blackCurrPos == old(blackCurrPos) && r == Ok(whiteCurrPos)
      ensures player == PLAYER_BLACK ==>
        blackCurrPos == Refreshed(old(blackCurrPos), gameboard[..], player) &&
        whiteCurrPos == old(whiteCurrPos) && r == Ok(blackCurrPos)
    {
      if !ValidatePlayer(player) {
        return Err(ValueError);
      }
      if player == PLAYER_WHITE {
        if |whiteCurrPos| == 0 {
          whiteCurrPos := ScanPositions(player);
        }
        r := Ok(whiteCurrPos);
      } else {
        if |blackCurrPos| == 0 {
          blackCurrPos := ScanPositions(player);
        }
        r := Ok(blackCurrPos);
      }
    }

    /** The body of one step of a direction loop of `getMoves`. */
    method CheckStep(position: Coord, d: Dir, player: int, i: nat) returns (v: Verdict)
      requires Valid() && 1 <= i
      ensures v == StepVerdict(gameboard[..], position, d, player, i)
    {
      if MoveScanOut(d, position, i) {
        return Stop;
      }
      var k := Slot(Step(position, d, i));
      if k.None? {
        return Raise;
      }
      var c := gameboard[k.value];
      if i == 1 && (c == Num(0) || c == Star) {
        return Stop;
      }
      if c != Num(0) {
        return Next;
      }
      var kb := Slot(Step(position, d, i - 1));
      if kb.None? {
        return Raise;
      }
      v := if gameboard[kb.value] != Num(player) then Append else Next;
    }

    /** One direction of `getMoves`. */
    method ScanDirection(position: Coord, d: Dir, player: int) returns (r: Result<seq<Coord>>)
      requires Valid()
      ensures r == RayMove(gameboard[..], position, d, player)
    {
      ghost var g := gameboard[..];
      r := Ok([]);
      for i := 1 to 9
        invariant ScanStep(g, position, d, player, i) == ScanStep(g, position, d, player, 1)
      {
        var v := CheckStep(position, d, player, i);
        if v == Stop {
          break;
        } else if v == Raise {
          return Err(IndexError);
        } else if v == Append {
          return Ok([Step(position, d, i)]);
        }
      }
    }

    /** `getMoves(position, player)`: the scans of the eight directions in
        turn, appending to one list. */
    method GetMoves(position: Coord, player: int) returns (r: Result<seq<Coord>>)
      requires Valid()
      ensures r == Moves(gameboard[..], position, player)
    {
      ghost var g := gameboard[..];
      var moves := [];
      assert MOVE_ORDER[0..] == MOVE_ORDER;
      PrependNil(Moves(g, position, player));
      for k := 0 to |MOVE_ORDER|
        invariant Moves(g, position, player) == Prepend(moves, MovesIn(g, position, player, MOVE_ORDER[k..]))
      {
        assert MOVE_ORDER[k..][0] == MOVE_ORDER[k] && MOVE_ORDER[k..][1..] == MOVE_ORDER[k + 1..];
        var m := ScanDirection(position, MOVE_ORDER[k], player);
        if m.Err? {
          return Err(m.error);
        }
        PrependAssoc(moves, m.value, MovesIn(g, position, player, MOVE_ORDER[k + 1..]));
        moves := moves + m.value;
      }
      assert MOVE_ORDER[|MOVE_ORDER|..] == [] && moves + [] == moves;
      r := Ok(moves);
    }

    /** `getLegalMoves(player)`: ValueError for a player other than 1 or 2;
        otherwise the moves of every piece `allPositions` lists, or the
        first IndexError a `getMoves` call raises. */
    method GetLegalMoves(player: int) returns (r: Result<seq<Coord>>)
      requires Valid()
      modifies this`whiteCurrPos, this`blackCurrPos
      ensures !ValidatePlayer(player) ==>
        r == Err(ValueError) && whiteCurrPos == old(whiteCurrPos) && blackCurrPos == old(blackCurrPos)
      ensures player == PLAYER_WHITE ==>
        whiteCurrPos == Refreshed(old(whiteCurrPos), gameboard[..], player) && blackCurrPos == old(blackCurrPos) &&
        r == LegalMoves(gameboard[..], whiteCurrPos, player)
      ensures player == PLAYER_BLACK ==>
        blackCurrPos == Refreshed(old(blackCurrPos), gameboard[..], player) && whiteCurrPos == old(whiteCurrPos) &&
        r == LegalMoves(gameboard[..], blackCurrPos, player)
    {
      if !ValidatePlayer(player) {
        return Err(ValueError);
      }
      var query := AllPositions(player);
      var pieces := query.value;
      ghost var g := gameboard[..];
      var all := [];
      assert pieces[0..] == pieces;
      PrependNil(AllMoves(g, pieces, player));
      ghost var white, black := whiteCurrPos, blackCurrPos;
      for k := 0 to |pieces|
        invariant AllMoves(g, pieces, player) == Prepend(all, AllMoves(g, pieces[k..], player))
        invariant whiteCurrPos == white && blackCurrPos == black
      {
        assert pieces[k..][0] == pieces[k] && pieces[k..][1..] == pieces[k + 1..];
        var m := GetMoves(pieces[k], player);
        if m.Err? {
          assert AllMoves(g, pieces[k..], player) == Err(m.error);
          return Err(m.error);
        }
        PrependAssoc(all, m.value, AllMoves(g, pieces[k + 1..], player));
        all := all + m.value;
      }
      assert pieces[|pieces|..] == [] && all + [] == all;
      r := Ok(Dedup(all));
    }

    /** `place(player, position_to_move)`: ValueError for an invalid player
        or an off-board position; otherwise ERROR where the position is
        not a legal move and SUCCESS where it is. The board is never
        written. */
    method Place(player: int, positionToMove: Coord) returns (r: Result<string>)
      requires Valid()
      modifies this`whiteCurrPos, this`blackCurrPos
      ensures !ValidatePlayer(player) || !ValidatePosition(positionToMove) ==>
        r == Err(ValueError) && whiteCurrPos == old(whiteCurrPos) && blackCurrPos == old(blackCurrPos)
      ensures ValidatePlayer(player) && ValidatePosition(positionToMove) && player == PLAYER_WHITE ==>
        whiteCurrPos == Refreshed(old(whiteCurrPos), gameboard[..], player) && blackCurrPos == old(blackCurrPos)
      ensures ValidatePlayer(player) && ValidatePosition(positionToMove) && player == PLAYER_BLACK ==>
        blackCurrPos == Refreshed(old(blackCurrPos), gameboard[..], player) && whiteCurrPos == old(whiteCurrPos)
      ensures ValidatePlayer(player) && ValidatePosition(positionToMove) ==>
        var pieces := Refreshed(if player == PLAYER_WHITE then old(whiteCurrPos) else old(blackCurrPos), gameboard[..], player);
        var legal := LegalMoves(gameboard[..], pieces, player);
        (legal.Err? ==> r == Err(legal.error)) &&
        (legal.Ok? ==> r == Ok(if positionToMove in legal.value then SUCCESS else ERROR))
    {
      if !ValidatePlayer(player) || !ValidatePosition(positionToMove) {
        return Err(ValueError);
      }
      var legal := GetLegalMoves(player);
      if legal.Err? {
        return Err(legal.error);
      }
      if positionToMove !in legal.value {
        return Ok(ERROR);
      }
      r := Ok(SUCCESS);
    }

    /** `_resetBoard()`: a fresh grid of 0s, framed by `setUp`. */
    method ResetBoard()
      modifies this
      ensures Valid() && fresh(gameboard)
      ensures gameboard[..] == ResetGrid()
      ensures whiteCurrPos == [] && blackCurrPos == []
    {
      gameboard := new Square[100](_ => Num(0));
      SetUp();
      forall k | 0 <= k < 100 ensures gameboard[k] == ResetGrid()[k] {
        assert Index(Coord(k / 10, k % 10)) == k;
      }
      assert gameboard[..] == ResetGrid();
    }

    /** `generateBoards(black_list, white_list)`: resets the board, writes
        black on every cell of the black list, then white on every cell of
        the white list; `ok` is false where a write raised IndexError and
        stopped it. */
    method GenerateBoards(blackList: seq<Coord>, whiteList: seq<Coord>) returns (ok: bool)
      modifies this
      ensures Valid() && fresh(gameboard)
      ensures whiteCurrPos == [] && blackCurrPos == []
      ensures var b := WriteAll(ResetGrid(), PLAYER_BLACK, blackList);
        var w := WriteAll(b.grid, PLAYER_WHITE, whiteList);
        ok == (b.ok && w.ok) && gameboard[..] == if b.ok then w.grid else b.grid
    {
      ResetBoard();
      ok := WritePositions(PLAYER_BLACK, blackList);
      if !ok {
        return;
      }
      ok := WritePositions(PLAYER_WHITE, whiteList);
    }

    /** One loop of `generateBoards`: `setPosition(player, p)` for each
        listed position in turn. */
    method WritePositions(player: int, positions: seq<Coord>) returns (ok: bool)
      requires Valid()
      modifies gameboard
      ensures ok == WriteAll(old(gameboard[..]), player, positions).ok
      ensures gameboard[..] == WriteAll(old(gameboard[..]), player, positions).grid
    {
      for i := 0 to |positions|
        invariant WriteAll(old(gameboard[..]), player, positions) == WriteAll(gameboard[..], player, positions[i..])
      {
        assert positions[i..][1..] == positions[i + 1..];
        ok := SetPosition(player, positions[i]);
        if !ok {
          return;
        }
      }
      assert positions[|positions|..] == [];
      ok := true;
    }
  }
}
