/** The cell grid that `makeCarpet()` paints: one row per pick, one column per
    thread. Every row first advances both blocks with `next()`, then lays the
    `picks()` of the block each threading entry selects side by side. A cell holds
    the index into the two-colour palette that the source paints it with. */
module Weaving {
  import opened Draws
  import opened Stripes
  import opened Blocks

  /** The threading of `makeCarpet()`: which of the two blocks drives each group of eight threads. */
  const Threading: seq<int> :=
    [1, 1, 1, 1, 2, 1, 2, 1, 2, 1, 2,
     1, 1, 2, 2, 1, 1, 2, 2, 1, 1, 2, 2,
     1, 1, 1, 1, 2, 2, 2, 2, 1, 1, 1, 1, 2, 2, 2, 2, 1, 1, 1, 1]

  /** The threading holds 43 entries, each 1 or 2, so `makeCarpet()` paints a grid
      344 cells a side. */
  lemma ThreadingGrid()
    ensures |Threading| == 43 && |Threading| * 8 == 344
    ensures forall k :: 0 <= k < |Threading| ==> Threading[k] == 1 || Threading[k] == 2
  {
  }

  /** Entry 1 selects the first block; any other entry the second. */
  function Select(entry: int, block1: Stripe, block2: Stripe): (b: Stripe)
    ensures b == block1 || b == block2
    ensures entry == 1 ==> b == block1
    ensures block1 != block2 ==> (b == block1 <==> entry == 1)
  {
    if entry == 1 then block1 else block2
  }

  /** One row: the masks of the selected blocks, concatenated in threading order.
      With equally wide blocks it holds `threading.size * blockWidth` cells. */
  function Row(threading: seq<int>, block1: Stripe, block2: Stripe): (cells: seq<int>)
    requires InCell(block1) && InCell(block2)
    ensures block1.blockWidth == block2.blockWidth ==>
      |cells| == |threading| * block1.blockWidth
    decreases |threading|
  {
    if threading == [] then []
    else Mask(Select(threading[0], block1, block2)) + Row(threading[1..], block1, block2)
  }

  /** Cell `k * blockWidth + t` of a row is thread `t` of the block entry `k` selects. */
  lemma {:induction false} RowAt(threading: seq<int>, block1: Stripe, block2: Stripe, k: int, t: int)
    requires InCell(block1) && InCell(block2) && block1.blockWidth == block2.blockWidth
    requires 0 <= k < |threading| && 0 <= t < block1.blockWidth
    ensures 0 <= k * block1.blockWidth + t < |threading| * block1.blockWidth
    ensures Row(threading, block1, block2)[k * block1.blockWidth + t]
            == Mask(Select(threading[k], block1, block2))[t]
    decreases k
  {
    var width := block1.blockWidth;
    var head := Mask(Select(threading[0], block1, block2));
    var rest := Row(threading[1..], block1, block2);
    assert Row(threading, block1, block2) == head + rest;
    if k > 0 {
      RowAt(threading[1..], block1, block2, k - 1, t);
      var i := (k - 1) * width + t;
      assert k * width + t == width + i;
      assert (head + rest)[width + i] == rest[i];
      assert threading[1..][k - 1] == threading[k];
    }
  }

  /** Both blocks of `makeCarpet()` and the next unread draw. */
  datatype Loom = Loom(block1: Stripe, block2: Stripe, next: nat)

  /** One row's worth of `next()`: first block one, then block two, from one stream of draws. */
  function Weft(loom: Loom, draws: nat -> real): (woven: Loom)
    ensures SameParameters(loom.block1, woven.block1) && SameParameters(loom.block2, woven.block2)
    ensures loom.next + 2 <= woven.next <= loom.next + 6
  {
    var step1 := NextState(loom.block1, draws, loom.next);
    var step2 := NextState(loom.block2, draws, step1.next);
    Loom(step1.stripe, step2.stripe, step2.next)
  }

  /** The two blocks after `rows` rows, both starting as `Block()`. */
  function Advance(rows: nat, draws: nat -> real, at: nat): (loom: Loom)
    ensures SameParameters(DefaultStripe, loom.block1) && SameParameters(DefaultStripe, loom.block2)
    ensures at + 2 * rows <= loom.next <= at + 6 * rows
    decreases rows
  {
    if rows == 0 then Loom(DefaultStripe, DefaultStripe, at)
    else Weft(Advance(rows - 1, draws, at), draws)
  }

  /** A valid block with the parameters of `Block()`. */
  predicate DefaultValid(s: Stripe)
  {
    Valid(s) && SameParameters(DefaultStripe, s)
  }

  /** One row keeps both blocks valid and reads two to six draws. */
  lemma WeftValid(loom: Loom, draws: nat -> real)
    requires DefaultValid(loom.block1) && DefaultValid(loom.block2)
    ensures var woven := Weft(loom, draws);
      DefaultValid(woven.block1) && DefaultValid(woven.block2) &&
      loom.next + 2 <= woven.next <= loom.next + 6
  {
    var step1 := NextState(loom.block1, draws, loom.next);
    NextStateValid(loom.block1, draws, loom.next);
    NextStateValid(loom.block2, draws, step1.next);
  }

  /** Both blocks stay valid, eight threads wide, and consume two to six draws per row. */
  lemma {:induction false} AdvanceValid(rows: nat, draws: nat -> real, at: nat)
    ensures var loom := Advance(rows, draws, at);
      DefaultValid(loom.block1) && DefaultValid(loom.block2) &&
      at + 2 * rows <= loom.next <= at + 6 * rows
    decreases rows
  {
    if rows > 0 {
      AdvanceValid(rows - 1, draws, at);
      WeftValid(Advance(rows - 1, draws, at), draws);
    }
  }

  /** The row painted after one more `next()` of both blocks. */
  function RowAfter(threading: seq<int>, loom: Loom, draws: nat -> real): (cells: seq<int>)
    requires DefaultValid(loom.block1) && DefaultValid(loom.block2)
    ensures |cells| == |threading| * DefaultStripe.blockWidth
  {
    WeftValid(loom, draws);
    var woven := Weft(loom, draws);
    Row(threading, woven.block1, woven.block2)
  }

  /** Row `row` of the carpet (counting from 0): the row built from the blocks
      after `row + 1` steps. */
  function Woven(threading: seq<int>, draws: nat -> real, at: nat, row: nat): (cells: seq<int>)
    ensures |cells| == |threading| * DefaultStripe.blockWidth
  {
    AdvanceValid(row, draws, at);
    RowAfter(threading, Advance(row, draws, at), draws)
  }

  /** `makeCarpet()` without the bitmap: a square grid of `threading.size * 8` cells a
      side, where cell (row, column) holds the palette index the source paints there. */
  method MakeCarpet(threading: seq<int>, rng: DrawStream) returns (cells: array2<int>)
    modifies rng
    ensures fresh(cells)
    ensures cells.Length0 == |threading| * 8 && cells.Length1 == |threading| * 8
    ensures forall row, column :: 0 <= row < cells.Length0 && 0 <= column < cells.Length1 ==>
      cells[row, column] == Woven(threading, rng.source, old(rng.position), row)[column]
    ensures rng.position == Advance(cells.Length0, rng.source, old(rng.position)).next
  {
    var block1 := new Block();
    var block2 := new Block();
    var threadCount := |threading| * 8;
    var pickCount := threadCount;
    cells := new int[pickCount, threadCount];
    ghost var start := rng.position;

    for row := 0 to pickCount
      modifies rng, cells
      invariant Loom(block1.Snapshot(), block2.Snapshot(), rng.position) == Advance(row, rng.source, start)
      invariant forall i, j :: 0 <= i < row && 0 <= j < threadCount ==>
        cells[i, j] == Woven(threading, rng.source, start, i)[j]
    {
      AdvanceValid(row, rng.source, start);
      block1, block2 := WeaveRow(threading, block1, block2, rng, cells, row);
    }
  }

  /** The body of the outer loop of `makeCarpet()`: advance both blocks, then paint row `row`. */
  method WeaveRow(threading: seq<int>, block1: Block, block2: Block, rng: DrawStream,
                  cells: array2<int>, row: nat)
    returns (next1: Block, next2: Block)
    requires DefaultValid(block1.Snapshot()) && DefaultValid(block2.Snapshot())
    requires row < cells.Length0 && cells.Length1 == |threading| * 8
    modifies rng, cells
    ensures fresh(next1) && fresh(next2)
    ensures Loom(next1.Snapshot(), next2.Snapshot(), rng.position)
            == Weft(Loom(block1.Snapshot(), block2.Snapshot(), old(rng.position)), rng.source)
    ensures DefaultValid(next1.Snapshot()) && DefaultValid(next2.Snapshot())
    ensures forall j :: 0 <= j < cells.Length1 ==>
      cells[row, j] == RowAfter(threading, Loom(block1.Snapshot(), block2.Snapshot(), old(rng.position)), rng.source)[j]
    ensures forall i, j :: 0 <= i < cells.Length0 && i != row && 0 <= j < cells.Length1 ==>
      cells[i, j] == old(cells[i, j])
  {
    WeftValid(Loom(block1.Snapshot(), block2.Snapshot(), rng.position), rng.source);
    next1 := block1.Next(rng);
    next2 := block2.Next(rng);
    PaintRow(threading, next1, next2, cells, row);
    assert RowAfter(threading, Loom(block1.Snapshot(), block2.Snapshot(), old(rng.position)), rng.source)
           == Row(threading, next1.Snapshot(), next2.Snapshot());
  }

  /** The two inner loops of `makeCarpet()`: paint row `row` from the picks of the
      blocks the threading selects, thread `t` of entry `k` in column `k * 8 + t`. */
  method PaintRow(threading: seq<int>, block1: Block, block2: Block, cells: array2<int>, row: nat)
    requires DefaultValid(block1.Snapshot()) && DefaultValid(block2.Snapshot())
    requires row < cells.Length0 && cells.Length1 == |threading| * 8
    modifies cells
    ensures forall j :: 0 <= j < cells.Length1 ==>
      cells[row, j] == Row(threading, block1.Snapshot(), block2.Snapshot())[j]
    ensures forall i, j :: 0 <= i < cells.Length0 && i != row && 0 <= j < cells.Length1 ==>
      cells[i, j] == old(cells[i, j])
  {
    ghost var woven := Row(threading, block1.Snapshot(), block2.Snapshot());
    for blockCount := 0 to |threading|
      invariant forall i, j :: 0 <= i < cells.Length0 && i != row && 0 <= j < cells.Length1 ==>
        cells[i, j] == old(cells[i, j])
      invariant forall j :: 0 <= j < blockCount * 8 ==> cells[row, j] == woven[j]
    {
      var block := if threading[blockCount] == 1 then block1 else block2;
      var interlacing := block.Picks();
      for thread := 0 to block.blockWidth
        invariant forall i, j :: 0 <= i < cells.Length0 && i != row && 0 <= j < cells.Length1 ==>
          cells[i, j] == old(cells[i, j])
        invariant forall j :: 0 <= j < blockCount * 8 + thread ==> cells[row, j] == woven[j]
      {
        var x := thread + blockCount * block.blockWidth;
        RowAt(threading, block1.Snapshot(), block2.Snapshot(), blockCount, thread);
        cells[row, x] := interlacing[thread];
      }
    }
  }
}
