/** What the scans and updates of games/OthelloUtils.py guarantee, and
    where they part from the textbook rules of Othello. */
module OthelloFacts {
  import opened PyList
  import opened Grid
  import opened OthelloRules

  // ---------------------------------------------------------------------
  // getMoves

  /** A direction whose first neighbour is a space or the border adds no
      move. */
  lemma FirstNeighbourBlocks(g: seq<char>, p: Coord, d: Dir, player: char)
    requires BorderIntact(g) && InBoard(p)
    requires InGrid(Step(p, d, 1)) && At(g, Step(p, d, 1)) in {'-', '*'}
    ensures Landing(g, p, d, player) == []
  {
    StepAfter(p, d, 1);
  }

  /** A direction whose first neighbour holds the player or `'-'` adds no
      flips. */
  lemma FirstNeighbourNoFlips(g: seq<char>, p: Coord, d: Dir, player: char, opp: char)
    requires |g| == 100 && InBoard(p)
    requires !FlipScanOut(d, p, 1) && InGrid(Step(p, d, 1)) && At(g, Step(p, d, 1)) in {player, '-'}
    ensures FlipRun(g, p, d, player, opp) == []
  {
    assert FlipVerdict(g, p, d, player, opp, 1) == Stop;
  }

  /** The rest of a textbook move scan: from step `i` on, the scan crosses
      the opponent pieces and appends the space beyond them. */
  lemma {:induction false} TextbookMoveFrom(g: seq<char>, p: Coord, d: Dir, player: char, opp: char, k: int, i: nat)
    requires BorderIntact(g) && InBoard(p) && 1 <= i <= k <= 8 && 2 <= k
    requires InBoard(Step(p, d, k)) && At(g, Step(p, d, k)) == '-'
    requires forall j :: 1 <= j < k ==> InBoard(Step(p, d, j)) && At(g, Step(p, d, j)) == opp
    requires opp != player && opp != '-' && opp != '*' && opp != '='
    requires i == 1 || InBoard(Step(p, d, i - 1))
    ensures RayMoveStep(g, p, d, player, i) == Some(k)
    decreases k - i
  {
    InsideBounds(p, d, i, k);
    if i < k {
      MoveCrossesPiece(g, p, d, player, i);
      TextbookMoveFrom(g, p, d, player, opp, k, i + 1);
    } else {
      MoveRecordsSpace(g, p, d, player, k);
    }
  }

  /** A step onto a playable cell holding a piece other than the player's
      goes on to the next step. */
  lemma MoveCrossesPiece(g: seq<char>, p: Coord, d: Dir, player: char, i: nat)
    requires BorderIntact(g) && InBoard(p) && 1 <= i <= 8 && !MoveScanOut(d, p, i)
    requires i == 1 || InBoard(Step(p, d, i - 1))
    requires InBoard(Step(p, d, i)) && At(g, Step(p, d, i)) !in {'-', '*'}
    ensures RayMoveStep(g, p, d, player, i) == RayMoveStep(g, p, d, player, i + 1)
  {
    assert MoveVerdict(g, p, d, player, i) == Continue;
    MoveContinues(g, p, d, player, i);
  }

  /** A step onto a space after a playable cell holding neither the player
      nor the direction's empty mark records that step. */
  lemma MoveRecordsSpace(g: seq<char>, p: Coord, d: Dir, player: char, i: nat)
    requires BorderIntact(g) && InBoard(p) && 2 <= i <= 8 && !MoveScanOut(d, p, i)
    requires InBoard(Step(p, d, i - 1)) && At(g, Step(p, d, i - 1)) !in {player, EmptyMark(d)}
    requires InBoard(Step(p, d, i)) && At(g, Step(p, d, i)) == '-'
    ensures RayMoveStep(g, p, d, player, i) == Some(i)
  {
    assert MoveVerdict(g, p, d, player, i) == Record;
  }

  /** Every textbook move is found: a run of one or more opponent pieces
      next to the piece, followed by a space, makes the scan of that
      direction append the space. */
  lemma TextbookMoveFound(g: seq<char>, p: Coord, d: Dir, player: char, opp: char, k: int)
    requires BorderIntact(g) && InBoard(p) && 2 <= k <= 8
    requires InBoard(Step(p, d, k)) && At(g, Step(p, d, k)) == '-'
    requires forall j :: 1 <= j < k ==> InBoard(Step(p, d, j)) && At(g, Step(p, d, j)) == opp
    requires opp != player && opp != '-' && opp != '*' && opp != '='
    ensures Landing(g, p, d, player) == [Step(p, d, k)]
  {
    TextbookMoveFrom(g, p, d, player, opp, k, 1);
  }

  /** One more direction of a prefix of `dirs`. */
  lemma MovesAlongPrefix(g: seq<char>, p: Coord, player: char, dirs: seq<Dir>, k: nat)
    requires BorderIntact(g) && InBoard(p) && k < |dirs|
    ensures MovesAlong(g, p, player, dirs[..k + 1]) ==
      MovesAlong(g, p, player, dirs[..k]) + Landing(g, p, dirs[k], player)
  {
    assert dirs[..k + 1][..k] == dirs[..k];
  }

  /** The first four scans of `getMoves`: NE, E, NW, SE. */
  lemma MovesFirstFour(g: seq<char>, p: Coord, player: char)
    requires BorderIntact(g) && InBoard(p)
    ensures MovesAlong(g, p, player, MOVE_ORDER[..4]) ==
      Landing(g, p, NE, player) + Landing(g, p, E, player) + Landing(g, p, NW, player) +
      Landing(g, p, SE, player)
  {
    assert MOVE_ORDER[0] == NE && MOVE_ORDER[1] == E && MOVE_ORDER[2] == NW && MOVE_ORDER[3] == SE;
    assert MovesAlong(g, p, player, MOVE_ORDER[..0]) == [];
    MovesAlongPrefix(g, p, player, MOVE_ORDER, 0);
    assert [] + Landing(g, p, NE, player) == Landing(g, p, NE, player);
    MovesAlongPrefix(g, p, player, MOVE_ORDER, 1);
    MovesAlongPrefix(g, p, player, MOVE_ORDER, 2);
    MovesAlongPrefix(g, p, player, MOVE_ORDER, 3);
  }

  /** The last four scans of `getMoves`: N, W, S, SW. */
  lemma MovesLastFour(g: seq<char>, p: Coord, player: char)
    requires BorderIntact(g) && InBoard(p)
    ensures MovesAlong(g, p, player, MOVE_ORDER[..8]) ==
      MovesAlong(g, p, player, MOVE_ORDER[..4]) + Landing(g, p, N, player) + Landing(g, p, W, player) +
      Landing(g, p, S, player) + Landing(g, p, SW, player)
  {
    assert MOVE_ORDER[4] == N && MOVE_ORDER[5] == W && MOVE_ORDER[6] == S && MOVE_ORDER[7] == SW;
    MovesAlongPrefix(g, p, player, MOVE_ORDER, 4);
    MovesAlongPrefix(g, p, player, MOVE_ORDER, 5);
    MovesAlongPrefix(g, p, player, MOVE_ORDER, 6);
    MovesAlongPrefix(g, p, player, MOVE_ORDER, 7);
  }

  /** `getMoves` appends the landings of the eight directions in the order
      NE, E, NW, SE, N, W, S, SW. */
  lemma MovesInOrder(g: seq<char>, p: Coord, player: char)
    requires BorderIntact(g) && InBoard(p)
    ensures Moves(g, p, player) ==
      Landing(g, p, NE, player) + Landing(g, p, E, player) + Landing(g, p, NW, player) +
      Landing(g, p, SE, player) + Landing(g, p, N, player) + Landing(g, p, W, player) +
      Landing(g, p, S, player) + Landing(g, p, SW, player)
  {
    MovesFirstFour(g, p, player);
    MovesLastFour(g, p, player);
    assert MOVE_ORDER[..8] == MOVE_ORDER;
  }

  /** The leftward scan compares the previous cell with '=' where the other
      seven compare it with '-': after the player's own piece and two
      spaces, only the leftward scan appends the second space. */
  lemma EmptyMarkAsymmetry(g: seq<char>, p: Coord, d: Dir, player: char)
    requires BorderIntact(g) && InBoard(p) && InBoard(Step(p, d, 3))
    requires InBoard(Step(p, d, 1)) && InBoard(Step(p, d, 2))
    requires At(g, Step(p, d, 1)) == player && player != '-' && player != '*'
    requires At(g, Step(p, d, 2)) == '-' && At(g, Step(p, d, 3)) == '-'
    ensures RayMoveStep(g, p, d, player, 1) == Some(3) <==> d == W
  {
    InsideBounds(p, d, 3, 3);
    InsideBounds(p, d, 2, 3);
    InsideBounds(p, d, 1, 3);
    StepAfter(p, d, 1);
    assert RayMoveStep(g, p, d, player, 1) == RayMoveStep(g, p, d, player, 2);
    assert RayMoveStep(g, p, d, player, 2) == RayMoveStep(g, p, d, player, 3);
    if d != W {
      assert RayMoveStep(g, p, d, player, 3) == RayMoveStep(g, p, d, player, 4);
      RayMoveStepLands(g, p, d, player, 4);
    }
  }

  // ---------------------------------------------------------------------
  // getLegalMoves

  /** A cell is among the concatenated moves exactly when it is a move of
      one of the pieces. */
  lemma {:induction false} AllMovesMembers(g: seq<char>, pieces: seq<Coord>, player: char, q: Coord)
    requires BorderIntact(g) && forall x <- pieces :: InBoard(x)
    ensures q in AllMoves(g, pieces, player) <==> exists x :: x in pieces && q in Moves(g, x, player)
  {
    if pieces != [] {
      var init := pieces[..|pieces| - 1];
      var last := pieces[|pieces| - 1];
      assert pieces == init + [last];
      AllMovesMembers(g, init, player, q);
      if q in Moves(g, last, player) {
        assert last in pieces;
      }
      if x :| x in pieces && q in Moves(g, x, player) {
        if x != last {
          assert x in init;
        }
      }
    }
  }

  /** `getLegalMoves` lists, once each, exactly the moves `getMoves` finds
      from the player's pieces, and each is a playable empty cell. */
  lemma LegalMovesExactly(v: BoardValue, player: char, q: Coord)
    requires ValidValue(v) && (player == v.playerOne || player == v.playerTwo)
    ensures NoDup(LegalMoves(v, player))
    ensures q in LegalMoves(v, player) <==>
      exists x :: x in Pieces(v, player).value && q in Moves(v.grid, x, player)
    ensures q in LegalMoves(v, player) ==> InBoard(q) && At(v.grid, q) == '-'
  {
    var pieces := Pieces(v, player).value;
    if |pieces| != 0 {
      var all := AllMoves(v.grid, pieces, player);
      DedupNoDup(all);
      DedupSameElements(all, q);
      AllMovesMembers(v.grid, pieces, player, q);
    }
  }

  /** Every textbook move of the player is a legal move. */
  lemma TextbookMoveIsLegal(v: BoardValue, player: char, opp: char, x: Coord, d: Dir, k: int)
    requires ValidValue(v) && (player == v.playerOne || player == v.playerTwo)
    requires x in Pieces(v, player).value && 2 <= k <= 8
    requires InBoard(Step(x, d, k)) && At(v.grid, Step(x, d, k)) == '-'
    requires forall j :: 1 <= j < k ==> InBoard(Step(x, d, j)) && At(v.grid, Step(x, d, j)) == opp
    requires opp != player && opp != '-' && opp != '*' && opp != '='
    ensures Step(x, d, k) in LegalMoves(v, player)
  {
    TextbookMoveFound(v.grid, x, d, player, opp, k);
    MovesAlongHas(v.grid, x, player, MOVE_ORDER, d);
    LegalMovesExactly(v, player, Step(x, d, k));
  }

  /** The moves of a direction listed in `dirs` are among those of `dirs`. */
  lemma {:induction false} MovesAlongHas(g: seq<char>, p: Coord, player: char, dirs: seq<Dir>, d: Dir)
    requires BorderIntact(g) && InBoard(p) && d in dirs
    ensures forall q <- Landing(g, p, d, player) :: q in MovesAlong(g, p, player, dirs)
  {
    var init := dirs[..|dirs| - 1];
    if dirs[|dirs| - 1] != d {
      assert dirs == init + [dirs[|dirs| - 1]];
      MovesAlongHas(g, p, player, init, d);
    }
  }

  // ---------------------------------------------------------------------
  // getFlips

  /** The rest of a textbook flip scan: from step `i` on, the scan crosses
      the opponent pieces and sets its flag at the player's piece. */
  lemma {:induction false} TextbookBracketFrom(g: seq<char>, p: Coord, d: Dir, player: char, opp: char, k: int, i: nat)
    requires |g| == 100 && InBoard(p) && 1 <= i <= k <= 8 && 2 <= k
    requires InBoard(Step(p, d, k)) && At(g, Step(p, d, k)) == player
    requires forall j :: 1 <= j < k ==> InBoard(Step(p, d, j)) && At(g, Step(p, d, j)) == opp
    requires opp != player && opp != '-'
    ensures FlipBracket(g, p, d, player, opp, i) == Some(k)
    decreases k - i
  {
    InsideBounds(p, d, i, k);
    if i < k {
      FlipCrossesOpponent(g, p, d, player, opp, i);
      TextbookBracketFrom(g, p, d, player, opp, k, i + 1);
    } else {
      FlipClosesOnPlayer(g, p, d, player, opp, k);
    }
  }

  /** A step onto a playable cell holding the opponent goes on to the next
      step. */
  lemma FlipCrossesOpponent(g: seq<char>, p: Coord, d: Dir, player: char, opp: char, i: nat)
    requires |g| == 100 && InBoard(p) && 1 <= i <= 8 && !FlipScanOut(d, p, i)
    requires InBoard(Step(p, d, i)) && At(g, Step(p, d, i)) == opp
    requires opp != player && opp != '-'
    ensures FlipBracket(g, p, d, player, opp, i) == FlipBracket(g, p, d, player, opp, i + 1)
  {
    assert FlipVerdict(g, p, d, player, opp, i) == Continue;
  }

  /** A step onto the player's piece right after an opponent piece sets
      the flag. */
  lemma FlipClosesOnPlayer(g: seq<char>, p: Coord, d: Dir, player: char, opp: char, i: nat)
    requires |g| == 100 && InBoard(p) && 2 <= i <= 8 && !FlipScanOut(d, p, i)
    requires InBoard(Step(p, d, i - 1)) && At(g, Step(p, d, i - 1)) == opp
    requires InGrid(Step(p, d, i)) && At(g, Step(p, d, i)) == player
    ensures FlipBracket(g, p, d, player, opp, i) == Some(i)
  {
    assert FlipVerdict(g, p, d, player, opp, i) == Record;
  }

  /** A textbook bracket is flipped whole: one or more opponent pieces next
      to the moved piece, closed by a piece of the player, make that
      direction's run exactly the opponent pieces, nearest first. */
  lemma TextbookFlipRun(g: seq<char>, p: Coord, d: Dir, player: char, opp: char, k: int)
    requires |g| == 100 && InBoard(p) && 2 <= k <= 8
    requires InBoard(Step(p, d, k)) && At(g, Step(p, d, k)) == player
    requires forall j :: 1 <= j < k ==> InBoard(Step(p, d, j)) && At(g, Step(p, d, j)) == opp
    requires opp != player && opp != '-'
    ensures FlipRun(g, p, d, player, opp) == Ray(p, d, 1, k)
  {
    TextbookBracketFrom(g, p, d, player, opp, k, 1);
  }

  /** Past its first step the flip scan stops neither at a space nor at
      the border: opponent, space, opponent, player makes a run of three
      cells whose middle one is a space. */
  lemma FlipRunCrossesSpace(g: seq<char>, p: Coord, d: Dir, player: char, opp: char)
    requires |g| == 100 && InBoard(p) && InBoard(Step(p, d, 4))
    requires forall j :: 1 <= j <= 3 ==> InBoard(Step(p, d, j))
    requires At(g, Step(p, d, 1)) == opp && At(g, Step(p, d, 2)) == '-'
    requires At(g, Step(p, d, 3)) == opp && At(g, Step(p, d, 4)) == player
    requires opp != player && opp != '-' && player != '-'
    ensures FlipRun(g, p, d, player, opp) == Ray(p, d, 1, 4)
    ensures At(g, FlipRun(g, p, d, player, opp)[1]) == '-'
  {
    InsideBounds(p, d, 1, 4);
    InsideBounds(p, d, 2, 4);
    InsideBounds(p, d, 3, 4);
    InsideBounds(p, d, 4, 4);
    FlipScanInGrid(p, d, 1);
    assert FlipBracket(g, p, d, player, opp, 1) == FlipBracket(g, p, d, player, opp, 2);
    assert FlipBracket(g, p, d, player, opp, 2) == FlipBracket(g, p, d, player, opp, 3);
    assert FlipBracket(g, p, d, player, opp, 3) == FlipBracket(g, p, d, player, opp, 4);
  }

  /** Every cell of `s` lies on the ray of one of `dirs`. */
  ghost predicate OnRays(p: Coord, dirs: seq<Dir>, s: seq<Coord>) {
    forall q <- s :: exists d <- dirs :: OnRay(p, d, q)
  }

  /** The runs of distinct directions lie on those directions' rays and
      share no cell. */
  lemma {:induction false} FlipsAlongDistinct(g: seq<char>, p: Coord, player: char, opp: char, dirs: seq<Dir>)
    requires |g| == 100 && InBoard(p) && NoDup(dirs)
    ensures OnRays(p, dirs, FlipsAlong(g, p, player, opp, dirs))
    ensures NoDup(FlipsAlong(g, p, player, opp, dirs))
  {
    if dirs != [] {
      var init := dirs[..|dirs| - 1];
      var d := dirs[|dirs| - 1];
      assert dirs == init + [d];
      FlipsAlongDistinct(g, p, player, opp, init);
      var a := FlipsAlong(g, p, player, opp, init);
      var b := FlipRun(g, p, d, player, opp);
      forall q <- b ensures OnRay(p, d, q) {
        var j :| 0 <= j < |b| && b[j] == q;
        StepOnRay(p, d, j + 1);
      }
      forall q <- a ensures exists d' <- dirs :: OnRay(p, d', q) {
        var d' :| d' in init && OnRay(p, d', q);
        assert d' in dirs;
      }
      forall i, j | 0 <= i < |a| && 0 <= j < |b| ensures a[i] != b[j] {
        assert a[i] in a;
        var d' :| d' in init && OnRay(p, d', a[i]);
        if a[i] == b[j] {
          RaysDisjoint(p, d', d, a[i]);
        }
      }
      forall i, j | 0 <= i < j < |b| ensures b[i] != b[j] {
        StepsDistinct(p, d, i + 1, j + 1);
      }
      NoDupConcat(a, b);
    }
  }

  /** `getFlips` never lists a cell twice, nor the moved-to cell. */
  lemma FlipsNoDup(g: seq<char>, p: Coord, player: char, opp: char)
    requires |g| == 100 && InBoard(p)
    ensures NoDup(Flips(g, p, player, opp))
    ensures p !in Flips(g, p, player, opp)
  {
    FlipsAlongDistinct(g, p, player, opp, FLIP_ORDER);
  }

  // ---------------------------------------------------------------------
  // h_setPosition, removePiece, flip_opp_player_positions

  /** When it runs to its end, the player's list gains the cells in order. */
  lemma {:induction false} FlipAllExtendsPlayer(v: BoardValue, player: char, opp: char, flips: seq<Coord>)
    requires |v.grid| == 100 && forall q <- flips :: InBoard(q)
    requires player != opp
    requires player == v.playerOne || player == v.playerTwo
    requires opp == v.playerOne || opp == v.playerTwo
    requires FlipAll(v, player, opp, flips).ok
    ensures Pieces(FlipAll(v, player, opp, flips).after, player).value == Pieces(v, player).value + flips
    decreases |flips|
  {
    if flips != [] {
      var init, f := flips[..|flips| - 1], flips[|flips| - 1];
      FlipAllExtendsPlayer(v, player, opp, init);
      var mid := FlipAll(v, player, opp, init).after;
      var v1 := SetPositionValue(mid, player, f);
      assert Pieces(v1, opp) == Pieces(mid, opp);
      AppendLast(Pieces(v, player).value, flips);
    }
  }

  /** When it runs to its end, the opponent's list loses the cells. */
  lemma {:induction false} FlipAllShrinksOpponent(v: BoardValue, player: char, opp: char, flips: seq<Coord>)
    requires |v.grid| == 100 && forall q <- flips :: InBoard(q)
    requires player != opp
    requires player == v.playerOne || player == v.playerTwo
    requires opp == v.playerOne || opp == v.playerTwo
    requires FlipAll(v, player, opp, flips).ok
    ensures multiset(Pieces(FlipAll(v, player, opp, flips).after, opp).value) ==
      multiset(Pieces(v, opp).value) - multiset(flips)
    decreases |flips|
  {
    if flips != [] {
      var init, f := flips[..|flips| - 1], flips[|flips| - 1];
      FlipAllShrinksOpponent(v, player, opp, init);
      var mid := FlipAll(v, player, opp, init).after;
      var v1 := SetPositionValue(mid, player, f);
      assert Pieces(v1, opp) == Pieces(mid, opp);
      var v2 := RemovePieceValue(v1, opp, f).value;
      assert FlipAll(v, player, opp, flips).after == v2;
      MultisetLast(flips);
      MultisetMinusMinus(multiset(Pieces(v, opp).value), multiset(init), f);
    }
  }

  /** When it runs to its end, the grid shows the player on exactly those
      cells and is otherwise unchanged. */
  lemma {:induction false} FlipAllPaints(v: BoardValue, player: char, opp: char, flips: seq<Coord>)
    requires |v.grid| == 100 && forall q <- flips :: InBoard(q)
    requires player != opp
    requires player == v.playerOne || player == v.playerTwo
    requires opp == v.playerOne || opp == v.playerTwo
    requires FlipAll(v, player, opp, flips).ok
    ensures forall q | InGrid(q) ::
      At(FlipAll(v, player, opp, flips).after.grid, q) == if q in flips then player else At(v.grid, q)
    decreases |flips|
  {
    if flips != [] {
      var init, f := flips[..|flips| - 1], flips[|flips| - 1];
      FlipAllPaints(v, player, opp, init);
      var mid := FlipAll(v, player, opp, init).after;
      var v1 := SetPositionValue(mid, player, f);
      assert Pieces(v1, opp) == Pieces(mid, opp);
      AppendLast([], flips);
      forall q | InGrid(q) ensures q in flips <==> q in init || q == f {
        assert q in flips <==> q in init + [f];
      }
    }
  }

  /** The loop of `flip_opp_player_positions` runs to its end exactly when
      the flipped cells are (with multiplicity) among the opponent's listed
      positions. */
  lemma {:induction false} FlipAllSucceeds(v: BoardValue, player: char, opp: char, flips: seq<Coord>)
    requires |v.grid| == 100 && forall q <- flips :: InBoard(q)
    requires player != opp
    requires player == v.playerOne || player == v.playerTwo
    requires opp == v.playerOne || opp == v.playerTwo
    ensures FlipAll(v, player, opp, flips).ok <==> multiset(flips) <= multiset(Pieces(v, opp).value)
    decreases |flips|
  {
    if flips != [] {
      var init, f := flips[..|flips| - 1], flips[|flips| - 1];
      FlipAllSucceeds(v, player, opp, init);
      MultisetLast(flips);
      var m := multiset(Pieces(v, opp).value);
      MultisetAddOne(multiset(init), f, m);
      if FlipAll(v, player, opp, init).ok {
        FlipAllShrinksOpponent(v, player, opp, init);
        var mid := FlipAll(v, player, opp, init).after;
        var v1 := SetPositionValue(mid, player, f);
        assert Pieces(v1, opp) == Pieces(mid, opp);
      }
    }
  }
}
