/** Geometry of the padded Othello grid shared by every board of the program:
    a 10 x 10 grid whose rows and columns 1..8 are the playable board and
    whose rows and columns 0 and 9 are the border, the eight scan directions,
    and the per-direction bound tests the scans apply. */
module Grid {
  import opened PyList

  datatype Coord = Coord(row: int, col: int)

  predicate InGrid(q: Coord) {
    0 <= q.row <= 9 && 0 <= q.col <= 9
  }

  predicate InBoard(q: Coord) {
    1 <= q.row <= 8 && 1 <= q.col <= 8
  }

  /** The grid is kept row-major in a flat sequence of 100 cells. */
  function Index(q: Coord): (k: nat)
    requires InGrid(q)
    ensures k < 100
  {
    q.row * 10 + q.col
  }

  function At<T>(g: seq<T>, q: Coord): T
    requires |g| == 100 && InGrid(q)
  {
    g[Index(q)]
  }

  lemma IndexInjective(p: Coord, q: Coord)
    requires InGrid(p) && InGrid(q) && p != q
    ensures Index(p) != Index(q)
  {
  }

  /** `[(row, col) for row in range(1, 9) for col in range(1, 9)]` */
  function ValidPositions(): seq<Coord>
  {
    seq(64, k requires 0 <= k < 64 => Coord(k / 8 + 1, k % 8 + 1))
  }

  /** Where a playable cell stands in ValidPositions. */
  function PositionNumber(q: Coord): nat
    requires InBoard(q)
  {
    (q.row - 1) * 8 + (q.col - 1)
  }

  lemma ValidPositionsAt(q: Coord)
    requires InBoard(q)
    ensures PositionNumber(q) < 64 && ValidPositions()[PositionNumber(q)] == q
  {
  }

  /** ValidPositions lists exactly the 64 cells of rows and columns 1..8. */
  lemma ValidPositionsExactly(q: Coord)
    ensures |ValidPositions()| == 64
    ensures q in ValidPositions() <==> InBoard(q)
  {
    if InBoard(q) {
      ValidPositionsAt(q);
    }
  }

  /** ValidPositions is in row-major order, hence without duplicates. */
  lemma ValidPositionsRowMajor(i: int, j: int)
    requires 0 <= i < j < 64
    ensures InBoard(ValidPositions()[i]) && InBoard(ValidPositions()[j])
    ensures Index(ValidPositions()[i]) < Index(ValidPositions()[j])
  {
    var vp := ValidPositions();
    assert vp[i] == Coord(i / 8 + 1, i % 8 + 1);
    assert vp[j] == Coord(j / 8 + 1, j % 8 + 1);
  }

  lemma ValidPositionsSorted()
    ensures RowMajor(ValidPositions())
  {
    forall i, j | 0 <= i < j < |ValidPositions()|
      ensures Index(ValidPositions()[i]) < Index(ValidPositions()[j])
    {
      ValidPositionsRowMajor(i, j);
    }
  }

  /** `s` lists cells of the grid in strictly increasing row-major order. */
  predicate RowMajor(s: seq<Coord>) {
    (forall q <- s :: InGrid(q)) &&
    forall i, j :: 0 <= i < j < |s| ==> Index(s[i]) < Index(s[j])
  }

  lemma RowMajorNoDup(s: seq<Coord>)
    requires RowMajor(s)
    ensures NoDup(s)
  {
  }

  /** The cells of `s`, in order, whose content in `g` is `c`. */
  function Holding<T(==)>(g: seq<T>, s: seq<Coord>, c: T): (h: seq<Coord>)
    requires |g| == 100 && forall q <- s :: InGrid(q)
    ensures forall q <- h :: q in s
  {
    if s == [] then []
    else
      var q := s[|s| - 1];
      Holding(g, s[..|s| - 1], c) + (if At(g, q) == c then [q] else [])
  }

  lemma {:induction false} HoldingMembers<T>(g: seq<T>, s: seq<Coord>, c: T, q: Coord)
    requires |g| == 100 && forall x <- s :: InGrid(x)
    ensures q in Holding(g, s, c) <==> q in s && At(g, q) == c
  {
    if s != [] {
      assert s == s[..|s| - 1] + [s[|s| - 1]];
      HoldingMembers(g, s[..|s| - 1], c, q);
    }
  }

  /** Holding keeps the order of `s`: it is a subsequence of `s`, so a
      sequence in strictly increasing row-major order stays so. */
  lemma {:induction false} HoldingRowMajor<T>(g: seq<T>, s: seq<Coord>, c: T)
    requires |g| == 100 && RowMajor(s)
    ensures RowMajor(Holding(g, s, c))
  {
    if s != [] {
      var init := s[..|s| - 1];
      var q := s[|s| - 1];
      HoldingRowMajor(g, init, c);
      var h0 := Holding(g, init, c);
      var h := Holding(g, s, c);
      forall i, j | 0 <= i < j < |h| ensures Index(h[i]) < Index(h[j]) {
        assert h == h0 + (if At(g, q) == c then [q] else []);
        if j == |h0| {
          assert h[i] == h0[i] && h0[i] in init;
          var k :| 0 <= k < |init| && init[k] == h0[i];
          assert s[k] == h0[i] && h[j] == s[|s| - 1];
        } else {
          assert h[i] == h0[i] && h[j] == h0[j];
        }
      }
    }
  }

  /** Cells holding one of three distinct values split `s` three ways. */
  lemma {:induction false} HoldingPartition<T>(g: seq<T>, s: seq<Coord>, a: T, b: T, c: T)
    requires |g| == 100 && forall q <- s :: InGrid(q)
    requires a != b && b != c && a != c
    requires forall q <- s :: At(g, q) == a || At(g, q) == b || At(g, q) == c
    ensures |Holding(g, s, a)| + |Holding(g, s, b)| + |Holding(g, s, c)| == |s|
  {
    if s != [] {
      assert s[|s| - 1] in s;
      HoldingPartition(g, s[..|s| - 1], a, b, c);
    }
  }

  /** The eight scan directions. */
  datatype Dir = NW | N | NE | E | SE | S | SW | W

  /** The cell `i` steps from `p` in direction `d`. */
  function Step(p: Coord, d: Dir, i: int): Coord {
    match d
    case NW => Coord(p.row - i, p.col - i)
    case N => Coord(p.row - i, p.col)
    case NE => Coord(p.row - i, p.col + i)
    case E => Coord(p.row, p.col + i)
    case SE => Coord(p.row + i, p.col + i)
    case S => Coord(p.row + i, p.col)
    case SW => Coord(p.row + i, p.col - i)
    case W => Coord(p.row, p.col - i)
  }

  /** The order in which both `getMoves` scan the directions. */
  const MOVE_ORDER: seq<Dir> := [NE, E, NW, SE, N, W, S, SW]

  /** The order in which `getFlips` scans the directions. */
  const FLIP_ORDER: seq<Dir> := [NW, N, NE, E, SE, S, SW, W]

  /** Steps `from .. to-1` of the ray from `p` in direction `d`, nearest first. */
  function Ray(p: Coord, d: Dir, from: int, to: int): (r: seq<Coord>)
    requires from <= to
    ensures |r| == to - from
    ensures forall j :: 0 <= j < |r| ==> r[j] == Step(p, d, from + j)
  {
    seq(to - from, j => Step(p, d, from + j))
  }

  lemma RayExtend(p: Coord, d: Dir, from: int, to: int)
    requires from <= to
    ensures Ray(p, d, from, to + 1) == Ray(p, d, from, to) + [Step(p, d, to)]
  {
  }

  /** The bound test that ends a `getMoves` scan at step `i`, per direction as
      the two `getMoves` write it. The north-east test joins its two halves
      with `and`, so it stops only once both bounds are passed. */
  predicate MoveScanOut(d: Dir, p: Coord, i: int) {
    match d
    case NE => p.col + i > 8 && p.row - i < 0
    case E => p.col + i > 8
    case NW => p.col - i < 0 || p.row - i < 0
    case SE => p.col + i > 8 || p.row + i > 8
    case N => p.row - i < 0
    case W => p.col - i < 0
    case S => p.row + i > 8
    case SW => p.col - i < 0 || p.row + i > 8
  }

  /** The bound test that ends a `getFlips` scan at step `i`, per direction. */
  predicate FlipScanOut(d: Dir, p: Coord, i: int) {
    match d
    case NW => p.row - i < 0 || p.col - i < 0
    case N => p.row - i < 0
    case NE => p.row - i < 0 || p.col + i > 8
    case E => p.col + i > 8
    case SE => p.row + i > 8 || p.col + i > 8
    case S => p.row + i > 8
    case SW => p.row + i > 8 || p.col - i < 0
    case W => p.col - i < 0
  }

  /** A `getFlips` step that passes its bound test lies in the grid, and so
      does the step before it. */
  lemma FlipScanInGrid(p: Coord, d: Dir, i: int)
    requires InBoard(p) && 1 <= i && !FlipScanOut(d, p, i)
    ensures InGrid(Step(p, d, i)) && InGrid(Step(p, d, i - 1))
  {
  }

  /** Every step strictly before one that passes the `getFlips` bound test is
      a playable cell. */
  lemma FlipScanInterior(p: Coord, d: Dir, k: int, i: int)
    requires InBoard(p) && 1 <= k < i && !FlipScanOut(d, p, i)
    ensures InBoard(Step(p, d, k))
  {
  }

  /** A step on the far side of a playable cell in the same direction
      passes every bound test before it. */
  lemma InsideBounds(p: Coord, d: Dir, j: int, k: int)
    requires InBoard(p) && 1 <= j <= k && InBoard(Step(p, d, k))
    ensures !MoveScanOut(d, p, j) && !FlipScanOut(d, p, j)
  {
  }

  /** One step beyond a playable cell (or beyond the playable start) stays
      inside the grid. */
  lemma StepAfter(p: Coord, d: Dir, i: int)
    requires InBoard(p) && 1 <= i && (i == 1 || InBoard(Step(p, d, i - 1)))
    ensures InGrid(Step(p, d, i)) && InGrid(Step(p, d, i - 1))
  {
  }

  /** Eight steps from a playable cell leave the playable board. */
  lemma NoEighthStep(p: Coord, d: Dir)
    requires InBoard(p)
    ensures !InBoard(Step(p, d, 8))
  {
  }

  /** Distinct steps along one ray are distinct cells. */
  lemma StepsDistinct(p: Coord, d: Dir, i: int, j: int)
    requires i != j
    ensures Step(p, d, i) != Step(p, d, j)
  {
  }

  /** `q` lies on the ray from `p` in direction `d`, beyond `p`. */
  predicate OnRay(p: Coord, d: Dir, q: Coord) {
    var dr, dc := q.row - p.row, q.col - p.col;
    match d
    case NW => dr < 0 && dc == dr
    case N => dr < 0 && dc == 0
    case NE => dr < 0 && dc == -dr
    case E => dr == 0 && dc > 0
    case SE => dr > 0 && dc == dr
    case S => dr > 0 && dc == 0
    case SW => dr > 0 && dc == -dr
    case W => dr == 0 && dc < 0
  }

  lemma StepOnRay(p: Coord, d: Dir, j: int)
    requires 1 <= j
    ensures OnRay(p, d, Step(p, d, j))
  {
  }

  /** The eight rays from one cell share no cell. */
  lemma RaysDisjoint(p: Coord, d1: Dir, d2: Dir, q: Coord)
    requires OnRay(p, d1, q) && OnRay(p, d2, q)
    ensures d1 == d2
  {
  }
}
