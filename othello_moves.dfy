/** What a move of games/OthelloUtils.py (`flip_opp_player_positions`, as
    both AI games use it) does to a board whose grid and lists agree: when
    it runs to its end, and that it then keeps them agreeing. */
module OthelloMoves {
  import opened PyList
  import opened Grid
  import opened OthelloRules
  import opened OthelloFacts

  /** The two colours of the board, in either order. */
  predicate Opponents(v: BoardValue, player: char, opp: char) {
    (player == v.playerOne && opp == v.playerTwo) || (player == v.playerTwo && opp == v.playerOne)
  }

  /** A change of one cell keeps a colour's list naming exactly that
      colour's cells when the list gains or loses that cell accordingly. */
  lemma TalliesAfterOneCell(g: seq<char>, list: seq<Coord>, c: char, g2: seq<char>, list2: seq<Coord>, pos: Coord)
    requires |g| == 100 && |g2| == 100 && InBoard(pos)
    requires Tallies(g, list, c)
    requires forall q | InGrid(q) && q != pos :: At(g2, q) == At(g, q)
    requires multiset(list2)[pos] == if At(g2, pos) == c then 1 else 0
    requires forall q | q != pos :: multiset(list2)[q] == multiset(list)[q]
    ensures Tallies(g2, list2, c)
  {
    forall q ensures multiset(list2)[q] == if InBoard(q) && At(g2, q) == c then 1 else 0 {
      if q != pos {
        assert multiset(list)[q] == if InBoard(q) && At(g, q) == c then 1 else 0;
      }
    }
  }

  /** A board that differs from a consistent one in a single playable
      cell, now holding a colour, is consistent when each list gains or
      loses that cell accordingly and names only playable cells. */
  lemma OneCellKeepsConsistent(v: BoardValue, r: BoardValue, pos: Coord)
    requires Consistent(v) && InBoard(pos) && |r.grid| == 100
    requires r.playerOne == v.playerOne && r.playerTwo == v.playerTwo
    requires forall q | InGrid(q) && q != pos :: At(r.grid, q) == At(v.grid, q)
    requires At(r.grid, pos) == r.playerOne || At(r.grid, pos) == r.playerTwo
    requires (forall q <- r.black :: InBoard(q)) && (forall q <- r.white :: InBoard(q))
    requires multiset(r.black)[pos] == (if At(r.grid, pos) == r.playerOne then 1 else 0)
    requires multiset(r.white)[pos] == (if At(r.grid, pos) == r.playerTwo then 1 else 0)
    requires forall q | q != pos :: multiset(r.black)[q] == multiset(v.black)[q]
    requires forall q | q != pos :: multiset(r.white)[q] == multiset(v.white)[q]
    ensures Consistent(r)
  {
    TalliesAfterOneCell(v.grid, v.black, v.playerOne, r.grid, r.black, pos);
    TalliesAfterOneCell(v.grid, v.white, v.playerTwo, r.grid, r.white, pos);
  }

  /** `h_setPosition` on an empty cell keeps the board consistent. */
  lemma PlaceKeepsConsistent(v: BoardValue, player: char, pos: Coord)
    requires Consistent(v) && InBoard(pos) && At(v.grid, pos) == '-'
    requires player == v.playerOne || player == v.playerTwo
    ensures Consistent(SetPositionValue(v, player, pos))
  {
    OneCellKeepsConsistent(v, SetPositionValue(v, player, pos), pos);
  }

  /** One turn of the loop of `flip_opp_player_positions` on an opponent's
      piece: the removal finds the cell and the board stays consistent. */
  lemma TurnKeepsConsistent(v: BoardValue, player: char, opp: char, f: Coord)
    requires Consistent(v) && Opponents(v, player, opp)
    requires InBoard(f) && At(v.grid, f) == opp
    ensures var r := RemovePieceValue(SetPositionValue(v, player, f), opp, f);
      r.Some? && Consistent(r.value)
  {
    var v1 := SetPositionValue(v, player, f);
    assert Pieces(v1, opp) == Pieces(v, opp);
    assert multiset(Pieces(v, opp).value)[f] == 1;
    var r := RemovePieceValue(v1, opp, f).value;
    OneCellKeepsConsistent(v, r, f);
  }

  /** Turn `k` of the loop of `flip_opp_player_positions`, reached when the
      turns before it ran through. */
  lemma FlipAllNextTurn(v: BoardValue, player: char, opp: char, flips: seq<Coord>, k: nat)
    requires |v.grid| == 100 && forall q <- flips :: InBoard(q)
    requires k < |flips| && FlipAll(v, player, opp, flips[..k]).ok
    ensures var v1 := SetPositionValue(FlipAll(v, player, opp, flips[..k]).after, player, flips[k]);
      FlipAll(v, player, opp, flips[..k + 1]) ==
        if RemovePieceValue(v1, opp, flips[k]).None? then Applied(v1, false)
        else Applied(RemovePieceValue(v1, opp, flips[k]).value, true)
  {
    assert flips[..k + 1][..k] == flips[..k];
  }

  /** Once a turn of the loop of `flip_opp_player_positions` raises, the
      later cells are never reached. */
  lemma {:induction false} FlipAllStops(v: BoardValue, player: char, opp: char, flips: seq<Coord>, k: nat)
    requires |v.grid| == 100 && forall q <- flips :: InBoard(q)
    requires k <= |flips| && !FlipAll(v, player, opp, flips[..k]).ok
    ensures FlipAll(v, player, opp, flips) == FlipAll(v, player, opp, flips[..k])
    decreases |flips|
  {
    if k < |flips| {
      var init := flips[..|flips| - 1];
      assert init[..k] == flips[..k];
      FlipAllStops(v, player, opp, init, k);
    } else {
      assert flips[..k] == flips;
    }
  }

  /** The loop of `flip_opp_player_positions`, when it runs to its end,
      keeps the board consistent. */
  lemma {:induction false} FlipAllKeepsConsistent(v: BoardValue, player: char, opp: char, flips: seq<Coord>)
    requires Consistent(v) && Opponents(v, player, opp)
    requires forall q <- flips :: InBoard(q)
    requires FlipAll(v, player, opp, flips).ok
    ensures Consistent(FlipAll(v, player, opp, flips).after)
    decreases |flips|
  {
    if flips != [] {
      var init, f := flips[..|flips| - 1], flips[|flips| - 1];
      FlipAllKeepsConsistent(v, player, opp, init);
      var mid := FlipAll(v, player, opp, init).after;
      var v1 := SetPositionValue(mid, player, f);
      assert Pieces(v1, opp) == Pieces(mid, opp);
      assert multiset(Pieces(mid, opp).value)[f] > 0;
      TurnKeepsConsistent(mid, player, opp, f);
    }
  }

  /** On a consistent board, a move to an empty cell runs to its end exactly
      when every cell `getFlips` lists holds an opponent's piece. */
  lemma MoveSucceedsExactly(v: BoardValue, player: char, opp: char, pos: Coord)
    requires Consistent(v) && Opponents(v, player, opp)
    requires InBoard(pos) && At(v.grid, pos) == '-'
    ensures MoveValue(v, player, opp, pos).ok <==>
      forall q <- Flips(v.grid, pos, player, opp) :: At(v.grid, q) == opp
  {
    var v1 := SetPositionValue(v, player, pos);
    var flips := Flips(v.grid, pos, player, opp);
    assert Pieces(v1, opp) == Pieces(v, opp);
    FlipAllSucceeds(v1, player, opp, flips);
    FlipsNoDup(v.grid, pos, player, opp);
    var m := multiset(Pieces(v, opp).value);
    NoDupSubMultiset(flips, m);
    forall q <- flips ensures q in m <==> At(v.grid, q) == opp {
    }
  }

  /** A move that runs to its end keeps the board consistent. */
  lemma MoveKeepsConsistent(v: BoardValue, player: char, opp: char, pos: Coord)
    requires Consistent(v) && Opponents(v, player, opp)
    requires InBoard(pos) && At(v.grid, pos) == '-'
    requires MoveValue(v, player, opp, pos).ok
    ensures Consistent(MoveValue(v, player, opp, pos).after)
  {
    PlaceKeepsConsistent(v, player, pos);
    FlipAllKeepsConsistent(SetPositionValue(v, player, pos), player, opp, Flips(v.grid, pos, player, opp));
  }

  /** A move that runs to its end puts the player's colour on the moved-to
      cell and on every listed cell and changes no other cell; the player's
      list gains the moved-to cell and then the listed cells, the opponent's
      loses the listed cells, and one piece more is on the board. */
  lemma MoveOutcome(v: BoardValue, player: char, opp: char, pos: Coord)
    requires Consistent(v) && Opponents(v, player, opp)
    requires InBoard(pos) && At(v.grid, pos) == '-'
    requires MoveValue(v, player, opp, pos).ok
    ensures var after, flips := MoveValue(v, player, opp, pos).after, Flips(v.grid, pos, player, opp);
      forall q | InGrid(q) ::
        At(after.grid, q) == if q == pos || q in flips then player else At(v.grid, q)
    ensures var after, flips := MoveValue(v, player, opp, pos).after, Flips(v.grid, pos, player, opp);
      Pieces(after, player).value == Pieces(v, player).value + [pos] + flips &&
      multiset(Pieces(after, opp).value) == multiset(Pieces(v, opp).value) - multiset(flips)
    ensures var after := MoveValue(v, player, opp, pos).after;
      |after.black| + |after.white| == |v.black| + |v.white| + 1
  {
    var v1 := SetPositionValue(v, player, pos);
    var flips := Flips(v.grid, pos, player, opp);
    var after := MoveValue(v, player, opp, pos).after;
    assert Pieces(v1, opp) == Pieces(v, opp);
    FlipAllPaints(v1, player, opp, flips);
    FlipAllExtendsPlayer(v1, player, opp, flips);
    FlipAllShrinksOpponent(v1, player, opp, flips);
    FlipAllSucceeds(v1, player, opp, flips);
    MultisetSubCard(multiset(Pieces(v, opp).value), multiset(flips));
    assert |Pieces(after, opp).value| == |Pieces(v, opp).value| - |flips|;
  }

  /** `get_no_of_spaces()` counts the empty playable cells of a consistent
      board. */
  lemma SpacesCountEmptyCells(v: BoardValue)
    ensures Consistent(v) ==> 64 - (|v.black| + |v.white|) == |Holding(v.grid, ValidPositions(), '-')|
  {
    if Consistent(v) {
      var vp := ValidPositions();
      forall q <- vp ensures InGrid(q) {
        ValidPositionsExactly(q);
      }
      ListsCountCells(v, v.black, v.playerOne);
      ListsCountCells(v, v.white, v.playerTwo);
      HoldingPartition(v.grid, vp, '-', v.playerOne, v.playerTwo);
    }
  }

  /** A colour's list is as long as the row-major list of that colour's cells. */
  lemma ListsCountCells(v: BoardValue, list: seq<Coord>, c: char)
    requires Consistent(v) && Tallies(v.grid, list, c)
    ensures |list| == |Holding(v.grid, ValidPositions(), c)|
  {
    var vp := ValidPositions();
    forall q <- vp ensures InGrid(q) {
      ValidPositionsExactly(q);
    }
    var h := Holding(v.grid, vp, c);
    ValidPositionsSorted();
    HoldingRowMajor(v.grid, vp, c);
    RowMajorNoDup(h);
    forall q ensures multiset(h)[q] == multiset(list)[q] {
      NoDupCounts(h, q);
      HoldingMembers(v.grid, vp, c, q);
      ValidPositionsExactly(q);
    }
    assert multiset(h) == multiset(list);
    assert |multiset(h)| == |multiset(list)|;
  }
}
