/**
 * The bounded Life grid of the first prototype: an r-by-r array of cells
 * indexed `cells[x][y]`, a bounds-checked lookup with no wrap-around, the
 * wiring of each cell's eight neighbor slots, and the sweep that steps every
 * cell in place.
 */
module LifeGrid {
  import opened LifeCell
  import opened LifeBoard

  /** Size of the canvas the cells are laid out on. */
  const ViewWidth: real := 1000.0
  const ViewHeight: real := 1000.0

  /** Two r-by-r boards are equal when they agree cell by cell. */
  lemma SquareExt(a: Board, b: Board, r: nat)
    requires Square(a, r) && Square(b, r)
    requires forall x, y :: InGrid(r, x, y) ==> a[x][y] == b[x][y]
    ensures a == b
  {
    forall x | 0 <= x < r
      ensures a[x] == b[x]
    {
      assert forall y :: 0 <= y < r ==> InGrid(r, x, y);
    }
  }

  class Grid {
    const r: nat
    const cells: seq<seq<Cell>>
    /** Every cell of the grid, and where each one sits. */
    ghost const Repr: set<Cell>
    ghost const Index: map<Cell, (int, int)>

    /** r columns of r distinct cells. */
    ghost predicate Shaped() {
      && |cells| == r
      && (forall x :: 0 <= x < r ==> |cells[x]| == r)
      && (forall x, y :: InGrid(r, x, y) ==>
            cells[x][y] in Repr && cells[x][y] in Index && Index[cells[x][y]] == (x, y))
    }

    /** The `getCell` lookup: the cell at (x, y), or nothing when a coordinate is off the grid. */
    function Get(x: int, y: int): (c: Cell?)
      ensures Shaped() ==> c == if InGrid(r, x, y) then cells[x][y] else null
    {
      if 0 <= x < |cells| then
        var row := cells[x];
        if 0 <= y < |row| then row[y] else null
      else null
    }

    /** The neighbor list the wiring loop gives the cell at (x, y): ul, u, ur, ml, mr, bl, b, br. */
    function NeighborCells(x: int, y: int): (ns: seq<Cell?>)
      ensures |ns| == 8
    {
      seq(8, k requires 0 <= k < 8 => Get(x + Offsets[k].0, y + Offsets[k].1))
    }

    /** The same list, slot by slot as the wiring loop writes it. */
    lemma NeighborList(x: int, y: int)
      ensures NeighborCells(x, y) ==
        [Get(x - 1, y - 1), Get(x, y - 1), Get(x + 1, y - 1),
         Get(x - 1, y), Get(x + 1, y),
         Get(x - 1, y + 1), Get(x, y + 1), Get(x + 1, y + 1)]
    {
    }

    /** Slot k of the list holds the cell at offset k from (x, y), or nothing off the grid. */
    lemma NeighborCellsAt(x: int, y: int, k: int)
      requires 0 <= k < 8
      ensures NeighborCells(x, y)[k] == Get(x + Offsets[k].0, y + Offsets[k].1)
    {
    }

    /** Every cell holds the neighbor list of its position. */
    ghost predicate Wired()
      requires Shaped()
      reads Repr`neighbors
    {
      forall x, y {:trigger cells[x][y].neighbors} :: InGrid(r, x, y) ==> cells[x][y].neighbors == NeighborCells(x, y)
    }

    /** The flags of the first n cells of column x, top to bottom. */
    ghost function ColumnFlags(x: int, n: nat): (col: seq<bool>)
      requires Shaped() && 0 <= x < r && n <= r
      reads Repr`active
      ensures |col| == n
      ensures forall y :: 0 <= y < n ==> col[y] == cells[x][y].active
    {
      if n == 0 then [] else ColumnFlags(x, n - 1) + [cells[x][n - 1].active]
    }

    /** The flags of the first n columns. */
    ghost function ColumnsFlags(n: nat): (b: seq<seq<bool>>)
      requires Shaped() && n <= r
      reads Repr`active
      ensures |b| == n
      ensures forall x :: 0 <= x < n ==> b[x] == ColumnFlags(x, r)
    {
      if n == 0 then [] else ColumnsFlags(n - 1) + [ColumnFlags(n - 1, r)]
    }

    /** The flags of all cells, as a board. */
    ghost function Board(): (b: Board)
      requires Shaped()
      reads Repr`active
      ensures Square(b, r)
    {
      ColumnsFlags(r)
    }

    /** The board holds each cell's flag at that cell's position. */
    lemma BoardFlags()
      requires Shaped()
      ensures forall x, y :: InGrid(r, x, y) ==> Board()[x][y] == cells[x][y].active
    {
    }

    /** The cells' flags are, position by position, those of board b. */
    ghost predicate Shows(b: Board)
      requires Shaped() && Square(b, r)
      reads Repr`active
    {
      forall x, y :: InGrid(r, x, y) ==> cells[x][y].active == b[x][y]
    }

    /** The grid shows exactly one board: its own. */
    lemma ShowsBoard(b: Board)
      requires Shaped() && Square(b, r)
      ensures Shows(b) <==> Board() == b
    {
      BoardFlags();
      if Shows(b) {
        SquareExt(Board(), b, r);
      }
    }

    /**
     * The construction loops: column by column, r fresh cells per column,
     * each laid out at its pixel position and given its initial flag. The
     * initial flag is random in the program; here it is the parameter.
     */
    constructor (r: nat, initial: (int, int) -> bool)
      ensures this.r == r && Shaped() && fresh(Repr)
      ensures forall x, y :: InGrid(r, x, y) ==> cells[x][y].active == initial(x, y) && cells[x][y].neighbors == []
    {
      var rows: seq<seq<Cell>> := [];
      ghost var repr: set<Cell> := {};
      ghost var index: map<Cell, (int, int)> := map[];
      var i := 0;
      while i < r
        invariant 0 <= i <= r && |rows| == i
        invariant forall x :: 0 <= x < i ==> |rows[x]| == r
        invariant fresh(repr)
        invariant forall x, y :: 0 <= x < i && 0 <= y < r ==>
          && rows[x][y] in repr && rows[x][y] in index && index[rows[x][y]] == (x, y)
          && rows[x][y].active == initial(x, y) && rows[x][y].neighbors == []
      {
        var row: seq<Cell> := [];
        var j := 0;
        while j < r
          invariant 0 <= j <= r && |row| == j
          invariant fresh(repr)
          invariant forall x, y :: 0 <= x < i && 0 <= y < r ==>
            && rows[x][y] in repr && rows[x][y] in index && index[rows[x][y]] == (x, y)
            && rows[x][y].active == initial(x, y) && rows[x][y].neighbors == []
          invariant forall y :: 0 <= y < j ==>
            && row[y] in repr && row[y] in index && index[row[y]] == (i, y)
            && row[y].active == initial(i, y) && row[y].neighbors == []
        {
          var width := ViewWidth / (r as real);
          var height := ViewHeight / (r as real);
          var cell := new Cell((i as real) * width, (j as real) * height, width, height, initial(i, j));
          row := row + [cell];
          repr := repr + {cell};
          index := index[cell := (i, j)];
          j := j + 1;
        }
        rows := rows + [row];
        i := i + 1;
      }
      this.r := r;
      cells := rows;
      Repr := repr;
      Index := index;
    }

    /**
     * The neighbor-wiring loop: step i handles column i mod r of row
     * i div r and hands that cell its eight-slot list. Afterwards every cell
     * is wired; no flag changes.
     */
    method WireNeighbors()
      requires Shaped()
      modifies Repr`neighbors
      ensures Wired()
    {
      var i := 0;
      while i < r * r
        invariant 0 <= i <= r * r
        invariant forall k :: 0 <= k < i ==>
          var p := WiringPosition(r, k); cells[p.0][p.1].neighbors == NeighborCells(p.0, p.1)
      {
        var x := i - (i / r) * r;
        var y := i / r;
        assert (x, y) == WiringPosition(r, i);
        var self := Get(x, y);
        var ul := Get(x - 1, y - 1);
        var u := Get(x, y - 1);
        var ur := Get(x + 1, y - 1);
        var ml := Get(x - 1, y);
        var mr := Get(x + 1, y);
        var bl := Get(x - 1, y + 1);
        var b := Get(x, y + 1);
        var br := Get(x + 1, y + 1);
        var neighbors := [ul, u, ur, ml, mr, bl, b, br];
        self.SetNeighbors(neighbors);
        NeighborList(x, y);
        assert cells[x][y].neighbors == NeighborCells(x, y);
        forall k | 0 <= k < i + 1
          ensures var p := WiringPosition(r, k); cells[p.0][p.1].neighbors == NeighborCells(p.0, p.1)
        {
          if k < i {
            WiringPositionInjective(r, k, i);
            var p := WiringPosition(r, k);
            assert Index[cells[p.0][p.1]] != Index[self];
          }
        }
        i := i + 1;
      }
      WiredAfterAllSteps();
    }

    /** Once the wiring loop has handled every step, every cell is wired. */
    lemma WiredAfterAllSteps()
      requires Shaped()
      requires forall k :: 0 <= k < r * r ==>
        var p := WiringPosition(r, k); cells[p.0][p.1].neighbors == NeighborCells(p.0, p.1)
      ensures Wired()
    {
      forall x, y | InGrid(r, x, y)
        ensures cells[x][y].neighbors == NeighborCells(x, y)
      {
        var k := WiringStepOf(r, x, y);
      }
    }

    /** Once wired, a cell's list shows the rule exactly the neighborhood of its position on the board. */
    lemma NeighborSlots(b: Board, x: int, y: int)
      requires Shaped() && Wired() && InGrid(r, x, y) && Square(b, r) && Shows(b)
      ensures Slots(cells[x][y].neighbors) == Neighborhood(b, r, x, y)
    {
      var ns := cells[x][y].neighbors;
      forall k | 0 <= k < 8
        ensures Slots(ns)[k] == Neighborhood(b, r, x, y)[k]
      {
      }
    }

    /**
     * A wired cell has three neighbors at a corner, five on the rest of the
     * border and eight inside; the other slots are `undefined`.
     */
    lemma NeighborCount(x: int, y: int)
      requires Shaped() && Wired() && InGrid(r, x, y) && r >= 2
      ensures |cells[x][y].neighbors| == 8
      ensures Present(Slots(cells[x][y].neighbors)) == if Corner(r, x, y) then 3 else if Edge(r, x, y) then 5 else 8
    {
      ShowsBoard(Board());
      NeighborSlots(Board(), x, y);
      PresentNeighbors(Board(), r, x, y);
    }

    /**
     * Neighborhood is symmetric: when slot k of a cell holds another cell,
     * slot 7 - k of that cell holds the first one, and no cell is its own
     * neighbor.
     */
    lemma NeighborSymmetric(x: int, y: int, k: int)
      requires Shaped() && Wired() && InGrid(r, x, y) && 0 <= k < 8
      requires cells[x][y].neighbors[k] != null
      ensures var n := cells[x][y].neighbors[k];
        n in Repr && n != cells[x][y] && n.neighbors[7 - k] == cells[x][y]
    {
      var dx, dy := OffsetsOpposite(k);
      NeighborCellsAt(x, y, k);
      var n := cells[x + dx][y + dy];
      MirrorSlot(x, y, k, dx, dy, cells[x][y].neighbors, n.neighbors);
    }

    /** The list wired at offset (dx, dy) from (x, y) holds the cell at (x, y) in its mirrored slot. */
    lemma MirrorSlot(x: int, y: int, k: int, dx: int, dy: int, here: seq<Cell?>, there: seq<Cell?>)
      requires Shaped() && InGrid(r, x, y) && InGrid(r, x + dx, y + dy) && 0 <= k < 8
      requires Offsets[7 - k] == (-dx, -dy) && (dx, dy) != (0, 0)
      requires there == NeighborCells(x + dx, y + dy)
      ensures cells[x + dx][y + dy] != cells[x][y] && there[7 - k] == cells[x][y]
    {
      NeighborCellsAt(x + dx, y + dy, 7 - k);
      assert Index[cells[x + dx][y + dy]] != Index[cells[x][y]];
    }

    /**
     * One visit of the sweep: the cell at (x, y) steps in place. The grid
     * then shows the board with that one cell's update, counted on the board
     * as it stood just before; the wiring is untouched.
     */
    method StepCell(ghost b: Board, x: int, y: int)
      requires Shaped() && Wired() && InGrid(r, x, y) && Square(b, r) && Shows(b)
      modifies {cells[x][y]}`active
      ensures Wired()
      ensures Shows(UpdateCell(b, r, x, y))
    {
      var self := cells[x][y];
      NeighborSlots(b, x, y);
      self.Step();
      var next := UpdateCell(b, r, x, y);
      forall i, j | InGrid(r, i, j)
        ensures cells[i][j].active == next[i][j]
      {
        if (i, j) != (x, y) {
          assert Index[cells[i][j]] != Index[cells[x][y]];
          UpdateCellElsewhere(b, r, x, y, i, j);
        }
      }
    }

    /** The inner loop of `step`: every cell of column x, top to bottom, steps in place. */
    method StepColumn(ghost b: Board, x: nat)
      requires Shaped() && Wired() && Square(b, r) && x < r
      requires Shows(Columns(b, r, x))
      modifies Repr`active
      ensures Wired()
      ensures Shows(Columns(b, r, x + 1))
    {
      var y := 0;
      while y < r
        invariant 0 <= y <= r
        invariant Wired()
        invariant Shows(Cells(b, r, x, y))
      {
        StepCell(Cells(b, r, x, y), x, y);
        y := y + 1;
      }
    }

    /**
     * `step` of the grid: the nested loops visit every cell once, column by
     * column, and step it in place, so the new board is the in-place sweep
     * of the old one (not a snapshot update). The wiring is untouched.
     */
    method Step()
      requires Shaped() && Wired()
      modifies Repr`active
      ensures Wired()
      ensures Board() == Generation(old(Board()), r)
    {
      ghost var b := Board();
      ShowsBoard(b);
      var x := 0;
      while x < r
        invariant 0 <= x <= r
        invariant Wired()
        invariant Shows(Columns(b, r, x))
      {
        StepColumn(b, x);
        x := x + 1;
      }
      ShowsBoard(Generation(b, r));
    }
  }
}
