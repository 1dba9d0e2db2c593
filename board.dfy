/**
 * The bounded Life grid as a value: an r-by-r board of flags indexed
 * `board[x][y]`, the bounds-checked lookup, the fixed eight-slot Moore
 * neighborhood, and the in-place sweep that `step` performs.
 */
module LifeBoard {
  import opened LifeCell

  type Board = seq<seq<bool>>

  /** r columns of r flags each. */
  predicate Square(b: Board, r: nat) {
    |b| == r && forall x :: 0 <= x < r ==> |b[x]| == r
  }

  predicate InGrid(r: nat, x: int, y: int) {
    0 <= x < r && 0 <= y < r
  }

  /** The lookup `getCell` performs, on flags: a cell on the board, nothing off it. */
  function At(b: Board, r: nat, x: int, y: int): (s: Slot)
    requires Square(b, r)
    ensures s.Occupied? <==> InGrid(r, x, y)
    ensures s.Occupied? ==> s.active == b[x][y]
  {
    if InGrid(r, x, y) then Occupied(b[x][y]) else Empty
  }

  /** Relative positions of the neighbor slots: ul, u, ur, ml, mr, bl, b, br. */
  const Offsets: seq<(int, int)> := [(-1, -1), (0, -1), (1, -1), (-1, 0), (1, 0), (-1, 1), (0, 1), (1, 1)]

  /** The neighbor list built for the cell at (x, y), in wiring order. */
  function Neighborhood(b: Board, r: nat, x: int, y: int): (ns: seq<Slot>)
    requires Square(b, r)
    ensures |ns| == |Offsets| == 8
  {
    seq(8, k requires 0 <= k < 8 => At(b, r, x + Offsets[k].0, y + Offsets[k].1))
  }

  /** Every offset has its opposite at the mirrored slot, and no offset is (0, 0). */
  lemma OffsetsOpposite(k: nat) returns (dx: int, dy: int)
    requires k < 8
    ensures Offsets[k] == (dx, dy) && Offsets[7 - k] == (-dx, -dy)
    ensures (dx, dy) != (0, 0)
  {
    dx, dy := Offsets[k].0, Offsets[k].1;
  }

  /** Number of slots that hold a cell at all, active or not. */
  function Present(slots: seq<Slot>): (n: nat)
    ensures n <= |slots|
  {
    if slots == [] then 0
    else Present(slots[..|slots| - 1]) + (if slots[|slots| - 1] != Empty then 1 else 0)
  }

  function Bit(p: bool): nat {
    if p then 1 else 0
  }

  lemma PresentOfEight(s: seq<Slot>)
    requires |s| == 8
    ensures Present(s) == Bit(s[0] != Empty) + Bit(s[1] != Empty) + Bit(s[2] != Empty) + Bit(s[3] != Empty)
                          + Bit(s[4] != Empty) + Bit(s[5] != Empty) + Bit(s[6] != Empty) + Bit(s[7] != Empty)
  {
    assert s[..0] == [] && s[..8] == s;
    forall k | 0 <= k < 8
      ensures Present(s[..k + 1]) == Present(s[..k]) + Bit(s[k] != Empty)
    {
      assert s[..k + 1][..k] == s[..k];
    }
  }

  lemma LiveOfEight(s: seq<Slot>)
    requires |s| == 8
    ensures Live(s) == Bit(s[0] == Occupied(true)) + Bit(s[1] == Occupied(true)) + Bit(s[2] == Occupied(true))
                       + Bit(s[3] == Occupied(true)) + Bit(s[4] == Occupied(true)) + Bit(s[5] == Occupied(true))
                       + Bit(s[6] == Occupied(true)) + Bit(s[7] == Occupied(true))
  {
    assert s[..0] == [] && s[..8] == s;
    forall k | 0 <= k < 8
      ensures Live(s[..k + 1]) == Live(s[..k]) + Bit(s[k] == Occupied(true))
    {
      assert s[..k + 1] == s[..k] + [s[k]];
      LiveSnoc(s[..k], s[k]);
    }
  }

  predicate Corner(r: nat, x: int, y: int) {
    (x == 0 || x == r - 1) && (y == 0 || y == r - 1)
  }

  predicate Edge(r: nat, x: int, y: int) {
    x == 0 || x == r - 1 || y == 0 || y == r - 1
  }

  /**
   * How many of a cell's eight slots hold a cell: three at a corner, five on
   * the rest of the border, eight inside (for a board at least two wide).
   */
  lemma PresentNeighbors(b: Board, r: nat, x: int, y: int)
    requires Square(b, r) && r >= 2 && InGrid(r, x, y)
    ensures Present(Neighborhood(b, r, x, y)) == if Corner(r, x, y) then 3 else if Edge(r, x, y) then 5 else 8
  {
    PresentOfEight(Neighborhood(b, r, x, y));
  }

  /** One cell takes its next state from the board as it is now ... */
  function UpdateCell(b: Board, r: nat, x: int, y: int): (b': Board)
    requires Square(b, r) && InGrid(r, x, y)
    ensures Square(b', r)
    ensures b'[x][y] == NextState(b[x][y], Live(Neighborhood(b, r, x, y)))
  {
    b[x := b[x][y := NextState(b[x][y], Live(Neighborhood(b, r, x, y)))]]
  }

  /** ... and every other cell keeps its flag. */
  lemma UpdateCellElsewhere(b: Board, r: nat, x: int, y: int, i: int, j: int)
    requires Square(b, r) && InGrid(r, x, y) && InGrid(r, i, j) && (i, j) != (x, y)
    ensures UpdateCell(b, r, x, y)[i][j] == b[i][j]
  {
  }

  lemma MulAtLeast(d: int, r: nat)
    requires d >= 1
    ensures d * r >= r
  {
    assert d * r == (d - 1) * r + r;
  }

  lemma DivBelow(k: nat, r: nat)
    requires k < r * r
    ensures 0 <= k / r < r && 0 <= k % r < r && (k / r) * r + k % r == k
  {
    if k / r >= r {
      MulAtLeast(k / r - r + 1, r);
    }
  }

  lemma DivModUnique(i: int, r: nat, q: int, m: int)
    requires r > 0 && 0 <= m < r && i == q * r + m
    ensures i / r == q && i % r == m
  {
    var q', m' := i / r, i % r;
    assert i == q' * r + m';
    var d := q - q';
    assert d * r == q * r - q' * r;
    assert d * r == m' - m;
    if d >= 1 {
      MulAtLeast(d, r);
    } else if d <= -1 {
      MulAtLeast(-d, r);
    }
  }

  /** The board once `step` has finished columns 0 .. x - 1 (its outer loop runs over x). */
  function Columns(b: Board, r: nat, x: nat): (b': Board)
    requires Square(b, r) && x <= r
    ensures Square(b', r)
    decreases x, 0
  {
    if x == 0 then b else Cells(b, r, x - 1, r)
  }

  /**
   * The board once `step` has also visited the first y cells of column x.
   * Each visit rewrites one cell in place, so a later cell counts the
   * already-updated flags of the neighbors visited before it.
   */
  function Cells(b: Board, r: nat, x: nat, y: nat): (b': Board)
    requires Square(b, r) && x < r && y <= r
    ensures Square(b', r)
    decreases x, y + 1
  {
    if y == 0 then Columns(b, r, x) else UpdateCell(Cells(b, r, x, y - 1), r, x, y - 1)
  }

  /** One full `step`: every cell visited once. */
  function Generation(b: Board, r: nat): (b': Board)
    requires Square(b, r)
    ensures Square(b', r)
  {
    Columns(b, r, r)
  }

  /** The flag a cell takes at its turn in the sweep. */
  function Visited(b: Board, r: nat, i: nat, j: nat): bool
    requires Square(b, r) && InGrid(r, i, j)
  {
    NextState(b[i][j], Live(Neighborhood(Cells(b, r, i, j), r, i, j)))
  }

  /**
   * The sweep visits each cell exactly once and in x-major order: a cell
   * not yet reached keeps its original flag; one already passed holds the
   * B3/S23 successor counted on the board as the sweep had left it at that
   * cell's turn, and is never touched again.
   */
  lemma {:induction false} ColumnsCell(b: Board, r: nat, x: nat, i: int, j: int)
    requires Square(b, r) && x <= r && InGrid(r, i, j)
    ensures Columns(b, r, x)[i][j] == if i < x then Visited(b, r, i, j) else b[i][j]
    decreases x, 0
  {
    if x > 0 {
      CellsCell(b, r, x - 1, r, i, j);
    }
  }

  lemma {:induction false} CellsCell(b: Board, r: nat, x: nat, y: nat, i: int, j: int)
    requires Square(b, r) && x < r && y <= r && InGrid(r, i, j)
    ensures Cells(b, r, x, y)[i][j] == if i < x || (i == x && j < y) then Visited(b, r, i, j) else b[i][j]
    decreases x, y + 1
  {
    if y == 0 {
      ColumnsCell(b, r, x, i, j);
      assert Cells(b, r, x, y) == Columns(b, r, x);
    } else {
      var prev := Cells(b, r, x, y - 1);
      CellsCell(b, r, x, y - 1, i, j);
      if (i, j) == (x, y - 1) {
        assert prev == Cells(b, r, i, j);
        assert prev[i][j] == b[i][j];
        assert Cells(b, r, x, y)[i][j] == NextState(b[i][j], Live(Neighborhood(prev, r, i, j))) == Visited(b, r, i, j);
      } else {
        UpdateCellElsewhere(prev, r, x, y - 1, i, j);
      }
    }
  }

  /** The position the neighbor-wiring loop handles at step i: column i mod r, row i div r. */
  function WiringPosition(r: nat, i: nat): (p: (int, int))
    requires i < r * r
    ensures InGrid(r, p.0, p.1)
  {
    DivBelow(i, r);
    (i - (i / r) * r, i / r)
  }

  /** Every cell is reached by the wiring loop, at step y * r + x ... */
  lemma WiringPositionOnto(r: nat, x: int, y: int)
    requires InGrid(r, x, y)
    ensures y * r + x < r * r && WiringPosition(r, y * r + x) == (x, y)
  {
    assert y * r + x < (y + 1) * r;
    if y + 1 < r {
      MulAtLeast(r - y - 1, r);
      assert (y + 1) * r + (r - y - 1) * r == r * r;
    }
    DivModUnique(y * r + x, r, y, x);
  }

  /** The step of the wiring loop that handles (x, y). */
  lemma WiringStepOf(r: nat, x: int, y: int) returns (k: nat)
    requires InGrid(r, x, y)
    ensures k < r * r && WiringPosition(r, k) == (x, y)
  {
    WiringPositionOnto(r, x, y);
    k := y * r + x;
  }

  /** ... and by no other step. */
  lemma WiringPositionInjective(r: nat, i: nat, i': nat)
    requires i < r * r && i' < r * r && i != i'
    ensures WiringPosition(r, i) != WiringPosition(r, i')
  {
    DivBelow(i, r);
    DivBelow(i', r);
  }

  /**
   * The textbook synchronous update of Conway's Life, which `step` does not
   * perform: every cell's next flag computed from the same snapshot of the
   * current board.
   */
  function Synchronous(b: Board, r: nat): (b': Board)
    requires Square(b, r)
    ensures Square(b', r)
    ensures forall x, y :: InGrid(r, x, y) ==> b'[x][y] == NextState(b[x][y], Live(Neighborhood(b, r, x, y)))
  {
    seq(r, x requires 0 <= x < r => seq(r, y requires 0 <= y < r => NextState(b[x][y], Live(Neighborhood(b, r, x, y)))))
  }

  /** A horizontal blinker on a 3-by-3 board: the middle row is active. */
  const Blinker: Board := [[false, true, false], [false, true, false], [false, true, false]]

  /** The blinker once its column 0 has been swept: (0, 1) has died. */
  const BlinkerColumnZeroSwept: Board := Blinker[0 := [false, false, false]]

  /** (0, 0) sees two active neighbors and stays inactive. */
  lemma BlinkerVisit00()
    ensures Square(Blinker, 3) && Cells(Blinker, 3, 0, 1) == Blinker
  {
    var b := Blinker;
    assert Square(b, 3);
    LiveOfEight(Neighborhood(b, 3, 0, 0));
    assert Live(Neighborhood(b, 3, 0, 0)) == 2;
    assert b[0][0 := false] == b[0];
    assert Cells(b, 3, 0, 1) == UpdateCell(b, 3, 0, 0);
  }

  /** (0, 1) sees one active neighbor and dies. */
  lemma BlinkerVisit01()
    ensures Square(Blinker, 3) && Cells(Blinker, 3, 0, 2) == BlinkerColumnZeroSwept
  {
    var b := Blinker;
    BlinkerVisit00();
    LiveOfEight(Neighborhood(b, 3, 0, 1));
    assert Live(Neighborhood(b, 3, 0, 1)) == 1;
    assert b[0][1 := false] == BlinkerColumnZeroSwept[0];
    assert Cells(b, 3, 0, 2) == UpdateCell(b, 3, 0, 1);
  }

  /** (0, 2) sees one active neighbor and stays inactive. */
  lemma BlinkerVisit02()
    ensures Square(Blinker, 3) && Columns(Blinker, 3, 1) == BlinkerColumnZeroSwept
  {
    var b, b' := Blinker, BlinkerColumnZeroSwept;
    BlinkerVisit01();
    assert Square(b', 3);
    LiveOfEight(Neighborhood(b', 3, 0, 2));
    assert Live(Neighborhood(b', 3, 0, 2)) == 1;
    assert b'[0][2 := false] == b'[0];
    assert Cells(b, 3, 0, 3) == UpdateCell(b', 3, 0, 2);
  }

  /**
   * The in-place sweep is not the synchronous update: on the blinker, cell
   * (0, 1) dies before (1, 0) is visited, so (1, 0) sees two active neighbors
   * instead of three and is not born.
   */
  lemma SweepIsOrderDependent()
    ensures Square(Blinker, 3)
    ensures Synchronous(Blinker, 3)[1][0]
    ensures !Generation(Blinker, 3)[1][0]
  {
    var b, b' := Blinker, BlinkerColumnZeroSwept;
    BlinkerVisit02();
    assert Square(b', 3);
    assert Cells(b, 3, 1, 0) == b';
    LiveOfEight(Neighborhood(b, 3, 1, 0));
    LiveOfEight(Neighborhood(b', 3, 1, 0));
    assert Live(Neighborhood(b, 3, 1, 0)) == 3;
    assert Live(Neighborhood(b', 3, 1, 0)) == 2;
    ColumnsCell(b, 3, 3, 1, 0);
  }
}
