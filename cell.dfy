/**
 * One cell of the bounded Life grid: its own `active` flag and a list of
 * neighbor slots, each holding another cell or nothing (`undefined` in the
 * grid wiring for positions off the board).
 */
module LifeCell {

  /** What a neighbor slot holds, as far as the Life rule can see it. */
  datatype Slot = Empty | Occupied(active: bool)

  /** Number of slots that hold an active cell; empty slots count nothing. */
  function Live(slots: seq<Slot>): (n: nat)
    ensures n <= |slots|
  {
    if slots == [] then 0
    else Live(slots[..|slots| - 1]) + (if slots[|slots| - 1] == Occupied(true) then 1 else 0)
  }

  function Min(a: nat, b: nat): nat {
    if a <= b then a else b
  }

  /**
   * Conway's rule B3/S23 as `nextState` in `step` writes it: an active cell
   * survives with two or three active neighbors, an inactive cell is born
   * with exactly three.
   */
  function NextState(active: bool, count: nat): (next: bool)
    ensures next <==> count == 3 || (active && count == 2)
    ensures active ==> (next <==> count in {2, 3})
    ensures !active ==> (next <==> count == 3)
  {
    if active then
      count == 2 || count == 3
    else
      count == 3
  }

  /** Counting one more slot at the end adds one exactly when it holds an active cell. */
  lemma LiveSnoc(slots: seq<Slot>, s: Slot)
    ensures Live(slots + [s]) == Live(slots) + (if s == Occupied(true) then 1 else 0)
  {
    assert (slots + [s])[..|slots|] == slots;
  }

  /** The count of a concatenation is the sum of the counts. */
  lemma {:induction false} LiveAppend(a: seq<Slot>, b: seq<Slot>)
    ensures Live(a + b) == Live(a) + Live(b)
    decreases |b|
  {
    if b == [] {
      assert a + b == a;
    } else {
      var front := b[..|b| - 1];
      assert a + b == (a + front) + [b[|b| - 1]];
      assert b == front + [b[|b| - 1]];
      LiveAppend(a, front);
      LiveSnoc(a + front, b[|b| - 1]);
      LiveSnoc(front, b[|b| - 1]);
    }
  }

  /** A prefix never holds more active cells than the whole list. */
  lemma LivePrefix(slots: seq<Slot>, i: nat)
    requires i <= |slots|
    ensures Live(slots[..i]) <= Live(slots)
  {
    assert slots == slots[..i] + slots[i..];
    LiveAppend(slots[..i], slots[i..]);
  }

  /**
   * Putting one more slot anywhere in the list adds one to the count exactly
   * when that slot holds an active cell: a missing neighbor (an `undefined`
   * slot) or an inactive one contributes nothing.
   */
  lemma LiveInsert(slots: seq<Slot>, i: nat, s: Slot)
    requires i <= |slots|
    ensures Live(slots[..i] + [s] + slots[i..]) == Live(slots) + (if s == Occupied(true) then 1 else 0)
  {
    var front, back := slots[..i], slots[i..];
    var bit := if s == Occupied(true) then 1 else 0;
    calc {
      Live(front + [s] + back);
      { LiveAppend(front + [s], back); }
      Live(front + [s]) + Live(back);
      { LiveSnoc(front, s); }
      Live(front) + bit + Live(back);
      { LiveAppend(front, back); }
      Live(front + back) + bit;
      { assert front + back == slots; }
      Live(slots) + bit;
    }
  }

  /**
   * Stopping the count once it passes four gives the same next state as the
   * full count: the rule only distinguishes 2, 3 and "anything else".
   */
  lemma CappedCountAgrees(active: bool, count: nat)
    ensures NextState(active, Min(count, 5)) == NextState(active, count)
  {
  }

  /** What the rule sees of a neighbor list: each slot's cell flag, or nothing. */
  ghost function Slots(ns: seq<Cell?>): (s: seq<Slot>)
    reads set c | c in ns && c != null
    ensures |s| == |ns|
    ensures forall i :: 0 <= i < |ns| ==>
      s[i] == (if ns[i] == null then Empty else Occupied(ns[i].active))
  {
    if ns == [] then []
    else Slots(ns[..|ns| - 1]) + [if ns[|ns| - 1] == null then Empty else Occupied(ns[|ns| - 1].active)]
  }

  class Cell {
    var active: bool
    var neighbors: seq<Cell?>
    /** Screen geometry copied from the constructor's options; never used by the rule. */
    var x: real
    var y: real
    var width: real
    var height: real

    /** The constructor copies its options; the random initial flag is a parameter. */
    constructor (x: real, y: real, width: real, height: real, active: bool)
      ensures this.x == x && this.y == y && this.width == width && this.height == height
      ensures this.active == active && neighbors == []
    {
      this.x, this.y, this.width, this.height := x, y, width, height;
      this.active := active;
      neighbors := [];
    }

    /** Replaces the whole neighbor list with the given one. */
    method SetNeighbors(cells: seq<Cell?>)
      modifies this`neighbors
      ensures neighbors == cells
    {
      neighbors := cells;
    }

    /**
     * The counting loop of `step`: walks the neighbor list, skips missing
     * slots and stops as soon as the count exceeds four.
     */
    method CountActiveNeighbors() returns (count: nat)
      ensures count == Min(Live(Slots(neighbors)), 5)
    {
      ghost var slots := Slots(neighbors);
      count := 0;
      var i := 0;
      while i < |neighbors|
        invariant 0 <= i <= |neighbors|
        invariant count == Live(slots[..i]) && count <= 5
      {
        var cell := neighbors[i];
        if count > 4 {
          LivePrefix(slots, i);
          break;
        }
        assert slots[..i + 1] == slots[..i] + [slots[i]];
        LiveSnoc(slots[..i], slots[i]);
        if cell != null && cell.active {
          count := count + 1;
        }
        i := i + 1;
      }
      assert i == |neighbors| ==> slots[..i] == slots;
    }

    /**
     * One Life step of this cell: only its own `active` flag changes, and it
     * becomes the B3/S23 successor of its old value under the full count of
     * active neighbors as they were before the call.
     */
    method Step()
      modifies this`active
      ensures active == NextState(old(active), Live(old(Slots(neighbors))))
    {
      var activeNeighbors := CountActiveNeighbors();
      CappedCountAgrees(active, Live(Slots(neighbors)));
      var next := NextState(active, activeNeighbors);
      if active != next {
        active := NextState(active, activeNeighbors);
      }
    }
  }
}
