/**
 * The streaming world of the second prototype: a map from block ids to
 * blocks that `generate` fills, block by block, over the visibleRadius-square
 * window anchored at the world's position, creating a block only when its id
 * is missing and never removing one; the ticker that regenerates when the
 * input position moves; and the arrow keys that move it.
 */
module StreamingWorld {
  import opened BlockKey

  /** Side of a block, in pixels. */
  const BlockSize: int := 64

  /** The ids of column px of a window: rows y .. y + n - 1. */
  function ColumnKeys(px: int, y: int, n: nat): set<string>
  {
    if n == 0 then {} else ColumnKeys(px, y, n - 1) + {BlockId(px, y + n - 1)}
  }

  /** The ids of the first m columns of the r-by-r window anchored at (x, y). */
  function WindowKeys(x: int, y: int, r: nat, m: nat): set<string>
  {
    if m == 0 then {} else WindowKeys(x, y, r, m - 1) + ColumnKeys(x + m - 1, y, r)
  }

  /** The ids of the whole window [x, x + r) by [y, y + r). */
  function Window(x: int, y: int, r: nat): set<string> {
    WindowKeys(x, y, r, r)
  }

  /** Adding one row to a column, or one column to a window, adds its ids. */
  lemma ColumnKeysNext(px: int, y: int, n: nat)
    ensures ColumnKeys(px, y, n + 1) == ColumnKeys(px, y, n) + {BlockId(px, y + n)}
  {
    assert px + 0 == px && y + (n + 1) - 1 == y + n;
  }

  lemma WindowKeysNext(x: int, y: int, r: nat, m: nat)
    ensures WindowKeys(x, y, r, m + 1) == WindowKeys(x, y, r, m) + ColumnKeys(x + m, y, r)
  {
    assert x + (m + 1) - 1 == x + m;
  }

  /**
   * Growing a union one part at a time; stated over any element type so
   * that the ids' string structure stays out of the set reasoning.
   */
  lemma UnionStep<T>(held: set<T>, start: set<T>, done: set<T>, next: set<T>)
    ensures held == start + done ==> held + next == start + (done + next)
  { }

  /** Each part of a union is held by it. */
  lemma UnionHolds<T>(held: set<T>, start: set<T>, added: set<T>)
    ensures held == start + added ==> added <= held
  { }

  /** A map whose keys are those added to none has as many entries as were added. */
  lemma FromEmpty<K, V>(m: map<K, V>, added: set<K>)
    requires m.Keys == {} + added
    ensures m.Keys == added && |m| == |added|
  {
    assert {} + added == added;
  }

  /** A map that only gained keys it already had, and kept its entries, is the same map. */
  lemma NothingNew<K, V>(now: map<K, V>, before: map<K, V>, added: set<K>)
    requires now.Keys == before.Keys + added
    requires forall k :: k in before ==> k in now && now[k] == before[k]
    ensures added <= before.Keys ==> now == before
  {
    if added <= before.Keys {
      assert now.Keys == before.Keys;
    }
  }

  /** Every id of a column names a position of that column. */
  lemma {:induction false} ColumnKeysNamed(px: int, y: int, n: nat, key: string)
    requires key in ColumnKeys(px, y, n)
    ensures ParseBlockId(key).Some?
    ensures var p := ParseBlockId(key).value; p.0 == px && y <= p.1 < y + n
  {
    if key == BlockId(px, y + n - 1) {
      BlockIdRoundTrip(px, y + n - 1);
    } else {
      ColumnKeysNamed(px, y, n - 1, key);
    }
  }

  /** A column of n positions has n distinct ids. */
  lemma {:induction false} ColumnKeysSize(px: int, y: int, n: nat)
    ensures |ColumnKeys(px, y, n)| == n
  {
    if n > 0 {
      ColumnKeysSize(px, y, n - 1);
      var key := BlockId(px, y + n - 1);
      if key in ColumnKeys(px, y, n - 1) {
        ColumnKeysNamed(px, y, n - 1, key);
        BlockIdRoundTrip(px, y + n - 1);
      }
    }
  }

  /** Every id of the window names a position of the window. */
  lemma {:induction false} WindowKeysNamed(x: int, y: int, r: nat, m: nat, key: string)
    requires key in WindowKeys(x, y, r, m)
    ensures ParseBlockId(key).Some?
    ensures var p := ParseBlockId(key).value; x <= p.0 < x + m && y <= p.1 < y + r
  {
    if key in ColumnKeys(x + m - 1, y, r) {
      ColumnKeysNamed(x + m - 1, y, r, key);
    } else {
      WindowKeysNamed(x, y, r, m - 1, key);
    }
  }

  /** The window holds the id of each of its positions ... */
  lemma {:induction false} WindowCovers(x: int, y: int, r: nat, m: nat, px: int, py: int)
    requires x <= px < x + m && y <= py < y + r
    ensures BlockId(px, py) in WindowKeys(x, y, r, m)
  {
    if px < x + m - 1 {
      WindowCovers(x, y, r, m - 1, px, py);
    } else {
      ColumnCovers(px, y, r, py);
    }
  }

  lemma {:induction false} ColumnCovers(px: int, y: int, n: nat, py: int)
    requires y <= py < y + n
    ensures BlockId(px, py) in ColumnKeys(px, y, n)
  {
    if py < y + n - 1 {
      ColumnCovers(px, y, n - 1, py);
    }
  }

  /** The last column of a window shares no id with the columns before it. */
  lemma ColumnApart(x: int, y: int, r: nat, m: nat)
    requires m > 0
    ensures WindowKeys(x, y, r, m - 1) * ColumnKeys(x + m - 1, y, r) == {}
  {
    var left, column := WindowKeys(x, y, r, m - 1), ColumnKeys(x + m - 1, y, r);
    forall key | key in left
      ensures key !in column
    {
      WindowKeysNamed(x, y, r, m - 1, key);
      if key in column {
        ColumnKeysNamed(x + m - 1, y, r, key);
      }
    }
  }

  /** ... and, ids being injective, exactly r * r of them. */
  lemma {:induction false} WindowKeysSize(x: int, y: int, r: nat, m: nat)
    ensures |WindowKeys(x, y, r, m)| == m * r
  {
    if m > 0 {
      WindowKeysSize(x, y, r, m - 1);
      ColumnKeysSize(x + m - 1, y, r);
      ColumnApart(x, y, r, m);
      assert (m - 1) * r + r == m * r;
    }
  }

  /**
   * One `generate` adds to the map exactly the window ids it did not hold,
   * so it grows by at most r * r entries.
   */
  lemma WindowGrowth(held: set<string>, x: int, y: int, r: nat)
    ensures |held + Window(x, y, r)| == |held| + |Window(x, y, r) - held|
    ensures |held + Window(x, y, r)| <= |held| + r * r
  {
    var w := Window(x, y, r);
    assert held + w == held + (w - held);
    assert held * (w - held) == {};
    WindowKeysSize(x, y, r, r);
  }

  /**
   * `Math.floor(Math.random() * 20) === 1`, given the floored draw: one of
   * the twenty equally likely draws makes a mine.
   */
  predicate IsMine(draw: int) {
    draw == 1
  }

  class Block {
    const id: string
    /** Drawn once, when the block is made; nothing ever assigns it again. */
    const mine: bool
    var x: int
    var y: int
    const width: int
    const height: int

    /** Copies its options; `draw` is the random draw the `mine` initialiser makes. */
    constructor (id: string, x: int, y: int, width: int, height: int, draw: int)
      ensures this.id == id && this.x == x && this.y == y
      ensures this.width == width && this.height == height
      ensures mine == IsMine(draw)
    {
      this.id := id;
      this.x, this.y := x, y;
      this.width, this.height := width, height;
      mine := IsMine(draw);
    }

    method UpdatePos(x: int, y: int)
      modifies this`x, this`y
      ensures this.x == x && this.y == y
    {
      this.x := x;
      this.y := y;
    }
  }

  class World {
    var blocks: map<string, Block>
    const visibleRadius: nat
    var x: int
    var y: int

    constructor (x: int, y: int)
      ensures blocks == map[] && visibleRadius == 3
      ensures this.x == x && this.y == y
      ensures Valid()
    {
      blocks := map[];
      visibleRadius := 3;
      this.x := x;
      this.y := y;
    }

    /** Each block sits under its own id, and that id names where it was last placed. */
    ghost predicate Valid()
      reads this, blocks.Values
    {
      forall k {:trigger blocks[k].id} :: k in blocks ==> blocks[k].id == k && BlockId(blocks[k].x, blocks[k].y) == k
    }

    /** Every entry of `before` is still in the map, holding the same block. */
    ghost predicate Keeps(before: map<string, Block>)
      reads this
    {
      forall k :: k in before ==> k in blocks && blocks[k] == before[k]
    }

    /** A block `generate` made: its `mine` flag from the draw at its position, and the block size. */
    ghost predicate Made(block: Block, draws: (int, int) -> int)
      reads block
    {
      block.mine == IsMine(draws(block.x, block.y)) && block.width == BlockSize && block.height == BlockSize
    }

    /** The block at (px, py) is stored under that position's id and sits there. */
    ghost predicate Placed(px: int, py: int)
      reads this, blocks.Values
    {
      BlockId(px, py) in blocks && blocks[BlockId(px, py)].x == px && blocks[BlockId(px, py)].y == py
    }

    /** Every position of the r-by-r window anchored at (x0, y0) has its block, in place. */
    ghost predicate WindowPlaced(x0: int, y0: int, r: nat)
      reads this, blocks.Values
    {
      forall px, py :: x0 <= px < x0 + r && y0 <= py < y0 + r ==> Placed(px, py)
    }

    /** In a valid world every block of a held window sits at its own position. */
    lemma HeldWindowPlaced(x0: int, y0: int, r: nat)
      requires Valid() && Window(x0, y0, r) <= blocks.Keys
      ensures WindowPlaced(x0, y0, r)
    {
      forall px, py | x0 <= px < x0 + r && y0 <= py < y0 + r
        ensures Placed(px, py)
      {
        WindowCovers(x0, y0, r, r, px, py);
        var block := blocks[BlockId(px, py)];
        assert block.id == BlockId(px, py);
        BlockIdInjective(block.x, block.y, px, py);
      }
    }

    /**
     * One step of `generate`'s loops: look the id of (posX, posY) up, create
     * the block only when it is missing (its `mine` flag from `draw`, its
     * pixel position from the block size), then move it to (posX, posY).
     */
    method Visit(posX: int, posY: int, draw: int)
      requires Valid()
      modifies this`blocks, blocks.Values
      ensures Valid() && Placed(posX, posY)
      ensures blocks.Keys == old(blocks.Keys) + {BlockId(posX, posY)}
      ensures Keeps(old(blocks)) && unchanged(old(blocks).Values)
      ensures BlockId(posX, posY) in old(blocks) ==> blocks == old(blocks)
      ensures BlockId(posX, posY) !in old(blocks) ==>
        var block := blocks[BlockId(posX, posY)];
        fresh(block) && block.mine == IsMine(draw) && block.width == BlockSize && block.height == BlockSize
    {
      var blockId := BlockId(posX, posY);
      var block: Block;
      if blockId in blocks {
        block := blocks[blockId];
        assert block.id == blockId;
        BlockIdInjective(block.x, block.y, posX, posY);
      } else {
        block := new Block(blockId, posX * BlockSize, posY * BlockSize, BlockSize, BlockSize, draw);
        blocks := blocks[blockId := block];
      }
      block.UpdatePos(posX, posY);
    }

    /**
     * The inner loop of `generate`: visit the positions of column px of the
     * window, top to bottom.
     */
    method VisitColumn(px: int, draws: (int, int) -> int)
      requires Valid()
      modifies this`blocks, blocks.Values
      ensures Valid()
      ensures blocks.Keys == old(blocks.Keys) + ColumnKeys(px, y, visibleRadius)
      ensures Keeps(old(blocks)) && unchanged(old(blocks).Values)
      ensures forall k :: k in blocks && k !in old(blocks) ==> fresh(blocks[k]) && Made(blocks[k], draws)
      ensures ColumnKeys(px, y, visibleRadius) <= old(blocks.Keys) ==> blocks == old(blocks)
    {
      ghost var before := blocks;
      var dy := 0;
      while dy < visibleRadius
        invariant 0 <= dy <= visibleRadius
        invariant Valid()
        invariant blocks.Keys == before.Keys + ColumnKeys(px, y, dy)
        invariant Keeps(before) && unchanged(before.Values)
        invariant forall k :: k in blocks && k !in before ==> fresh(blocks[k]) && Made(blocks[k], draws)
      {
        ghost var held := blocks.Keys;
        Visit(px, y + dy, draws(px, y + dy));
        ColumnKeysNext(px, y, dy);
        UnionStep(held, before.Keys, ColumnKeys(px, y, dy), {BlockId(px, y + dy)});
        dy := dy + 1;
      }
      NothingNew(blocks, before, ColumnKeys(px, y, visibleRadius));
    }

    /**
     * `generate`: visit every position of the window anchored at (x, y), in
     * x-major order. The random draw for a new block's `mine` flag is
     * `draws` at that block's position.
     */
    method Generate(draws: (int, int) -> int)
      requires Valid()
      modifies this`blocks, blocks.Values
      ensures Valid()
      ensures blocks.Keys == old(blocks.Keys) + Window(x, y, visibleRadius)
      ensures Keeps(old(blocks)) && unchanged(old(blocks).Values)
      ensures forall k :: k in blocks && k !in old(blocks) ==> fresh(blocks[k]) && Made(blocks[k], draws)
      ensures WindowPlaced(x, y, visibleRadius)
      ensures Window(x, y, visibleRadius) <= old(blocks.Keys) ==> blocks == old(blocks)
    {
      ghost var before := blocks;
      var dx := 0;
      while dx < visibleRadius
        invariant 0 <= dx <= visibleRadius
        invariant Valid()
        invariant blocks.Keys == before.Keys + WindowKeys(x, y, visibleRadius, dx)
        invariant Keeps(before) && unchanged(before.Values)
        invariant forall k :: k in blocks && k !in before ==> fresh(blocks[k]) && Made(blocks[k], draws)
      {
        ghost var held := blocks.Keys;
        VisitColumn(x + dx, draws);
        WindowKeysNext(x, y, visibleRadius, dx);
        UnionStep(held, before.Keys, WindowKeys(x, y, visibleRadius, dx), ColumnKeys(x + dx, y, visibleRadius));
        dx := dx + 1;
      }
      NothingNew(blocks, before, Window(x, y, visibleRadius));
      UnionHolds(blocks.Keys, before.Keys, Window(x, y, visibleRadius));
      HeldWindowPlaced(x, y, visibleRadius);
    }

    /**
     * The ticker: when the input position differs from the world's, the
     * world moves there and regenerates; otherwise nothing changes.
     */
    method Tick(inputX: int, inputY: int, draws: (int, int) -> int)
      requires Valid()
      modifies this`x, this`y, this`blocks, blocks.Values
      ensures Valid()
      ensures x == inputX && y == inputY
      ensures old(x) == inputX && old(y) == inputY ==> blocks == old(blocks) && unchanged(old(blocks).Values)
      ensures old(x) != inputX || old(y) != inputY ==>
        blocks.Keys == old(blocks.Keys) + Window(inputX, inputY, visibleRadius) && WindowPlaced(inputX, inputY, visibleRadius)
      ensures Keeps(old(blocks)) && unchanged(old(blocks).Values)
      ensures forall k :: k in blocks && k !in old(blocks) ==> fresh(blocks[k]) && Made(blocks[k], draws)
    {
      if x != inputX || y != inputY {
        x := inputX;
        y := inputY;
        Generate(draws);
      }
    }
  }

  /** The start of the program: a world at (0, 0) and its first `generate`. */
  method Start(draws: (int, int) -> int) returns (world: World)
    ensures fresh(world) && world.Valid()
    ensures world.x == 0 && world.y == 0
    ensures world.visibleRadius == 3
    ensures world.blocks.Keys == Window(0, 0, world.visibleRadius)
    ensures |world.blocks| == world.visibleRadius * world.visibleRadius
    ensures forall k :: k in world.blocks ==> fresh(world.blocks[k]) && world.Made(world.blocks[k], draws)
    ensures world.WindowPlaced(0, 0, world.visibleRadius)
  {
    world := new World(0, 0);
    world.Generate(draws);
    WindowKeysSize(0, 0, world.visibleRadius, world.visibleRadius);
    FromEmpty(world.blocks, Window(0, 0, world.visibleRadius));
  }

  /** The arrow keys that move the input position; every other key leaves it. */
  function KeyDelta(key: string): (d: (int, int))
    ensures key in {"ArrowRight", "ArrowLeft", "ArrowUp", "ArrowDown"} <==> d != (0, 0)
    ensures (d.0 == 0 || d.1 == 0) && -1 <= d.0 <= 1 && -1 <= d.1 <= 1
    ensures d.0 == 1 <==> key == "ArrowRight"
    ensures d.0 == -1 <==> key == "ArrowLeft"
    ensures d.1 == -1 <==> key == "ArrowUp"
    ensures d.1 == 1 <==> key == "ArrowDown"
  {
    var dx := (if key == "ArrowRight" then 1 else 0) - (if key == "ArrowLeft" then 1 else 0);
    var dy := (if key == "ArrowDown" then 1 else 0) - (if key == "ArrowUp" then 1 else 0);
    (dx, dy)
  }

  /** The input position the keydown listener updates. */
  class Input {
    var x: int
    var y: int

    constructor ()
      ensures x == 0 && y == 0
    {
      x, y := 0, 0;
    }

    /** The listener's four independent tests, one per arrow key. */
    method KeyDown(key: string)
      modifies this
      ensures (x, y) == (old(x) + KeyDelta(key).0, old(y) + KeyDelta(key).1)
    {
      if key == "ArrowRight" {
        x := x + 1;
      }
      if key == "ArrowLeft" {
        x := x - 1;
      }
      if key == "ArrowUp" {
        y := y - 1;
      }
      if key == "ArrowDown" {
        y := y + 1;
      }
    }
  }
}
