/** The two shared value arrays while blocks advance independently: what each cell of each array
    holds, and why one cell update of the kernel keeps it that way. Both dependency-driven kernels
    rest on this module. */
module StencilBuffers {
  import opened StencilGrid

  /** How far a block has got: it has finished t iterations and, in iteration t, has written the
      cells before (x, y), row by row. */
  datatype Work = Work(t: nat, x: int, y: int)

  function Start(g: Grid, b: Block, t: nat): Work {
    Work(t, g.Left(b), g.Top(b))
  }

  /** The loop nest of iteration t is over. */
  predicate Finished(g: Grid, b: Block, w: Work) {
    w.y == g.Top(b) + g.bs
  }

  predicate InRange(g: Grid, b: Block, w: Work) {
    g.InBlock(b, w.x, w.y) || (Finished(g, b, w) && w.x == g.Left(b))
  }

  /** The next position of the loop nest. */
  function Advance(g: Grid, b: Block, w: Work): Work {
    if w.x + 1 < g.Left(b) + g.bs then w.(x := w.x + 1) else w.(x := g.Left(b), y := w.y + 1)
  }

  predicate Wrote(w: Work, x: int, y: int) {
    y < w.y || (y == w.y && x < w.x)
  }

  /** The map says something about every block. */
  ghost predicate Covers<T>(g: Grid, m: map<Block, T>) {
    forall b | g.IsBlock(b) :: b in m
  }

  type Buffers = Two<seq<real>>

  predicate Sized(g: Grid, bufs: Buffers) {
    |bufs.even| == |g.init| && |bufs.odd| == |g.init|
  }

  /** What the two arrays hold at a cell whose block has got to w. */
  predicate CellOk(g: Grid, bufs: Buffers, w: Work, x: int, y: int)
    requires g.Valid() && Sized(g, bufs) && g.InGrid(x, y)
  {
    && bufs.Get(Odd(w.t))[g.Index(x, y)] == g.Ref(w.t, x, y)
    && bufs.Get(!Odd(w.t))[g.Index(x, y)] ==
         if Wrote(w, x, y) then g.Ref(w.t + 1, x, y)
         else if w.t == 0 then g.Ref(0, x, y)
         else g.Ref(w.t - 1, x, y)
  }

  predicate BorderCellOk(g: Grid, bufs: Buffers, x: int, y: int)
    requires g.Valid() && Sized(g, bufs) && g.InGrid(x, y)
  {
    bufs.even[g.Index(x, y)] == g.init[g.Index(x, y)] && bufs.odd[g.Index(x, y)] == g.init[g.Index(x, y)]
  }

  ghost predicate BorderOk(g: Grid, bufs: Buffers)
    requires g.Valid() && Sized(g, bufs)
  {
    forall x, y {:trigger BorderCellOk(g, bufs, x, y)} | g.InGrid(x, y) && !g.Interior(x, y) ::
      BorderCellOk(g, bufs, x, y)
  }

  ghost predicate BlockOk(g: Grid, bufs: Buffers, b: Block, w: Work)
    requires g.Valid() && Sized(g, bufs)
  {
    forall x, y {:trigger CellOk(g, bufs, w, x, y)} | g.InBlock(b, x, y) && g.InGrid(x, y) ::
      CellOk(g, bufs, w, x, y)
  }

  /** Every block's finished iterates are the sequential ones. */
  ghost predicate BuffersOk(g: Grid, bufs: Buffers, work: map<Block, Work>)
    requires g.Valid() && Covers(g, work)
  {
    && Sized(g, bufs)
    && BorderOk(g, bufs)
    && forall b {:trigger BlockOk(g, bufs, b, work[b])} | g.IsBlock(b) :: BlockOk(g, bufs, b, work[b])
  }

  /** The array that iteration t reads still shows iterate t everywhere in b. */
  predicate Shows(g: Grid, b: Block, w: Work, t: nat) {
    || w.t == t
    || (w.t == t + 1 && w == Start(g, b, w.t))
    || (w.t + 1 == t && Finished(g, b, w))
  }

  /** The array that iteration t reads holds iterate t at (x, y). */
  predicate Holds(g: Grid, bufs: Buffers, t: nat, x: int, y: int)
    requires g.Valid() && Sized(g, bufs)
  {
    g.InGrid(x, y) && bufs.Get(Odd(t))[g.Index(x, y)] == g.Ref(t, x, y)
  }

  lemma ShowsCell(g: Grid, bufs: Buffers, b: Block, w: Work, t: nat, x: int, y: int)
    requires g.Valid() && Sized(g, bufs) && g.IsBlock(b) && BlockOk(g, bufs, b, w)
    requires Shows(g, b, w, t) && g.InBlock(b, x, y)
    ensures Holds(g, bufs, t, x, y)
  {
    BlockIsInterior(g, b, x, y);
    assert CellOk(g, bufs, w, x, y);
  }

  /** All blocks around b, where they exist, still show iterate t. */
  ghost predicate NeighborsShow(g: Grid, work: map<Block, Work>, b: Block, t: nat)
    requires Covers(g, work)
  {
    forall i: Dir | g.IsBlock(Nbr(b, i)) :: Shows(g, Nbr(b, i), work[Nbr(b, i)], t)
  }

  lemma BorderShows(g: Grid, bufs: Buffers, t: nat, x: int, y: int)
    requires g.Valid() && Sized(g, bufs) && BorderOk(g, bufs) && g.InGrid(x, y) && !g.Interior(x, y)
    ensures Holds(g, bufs, t, x, y)
  {
    assert BorderCellOk(g, bufs, x, y);
  }

  /** What the kernel reads one step away from a cell of b is iterate t. */
  lemma ReadsCell(g: Grid, bufs: Buffers, work: map<Block, Work>, b: Block, i: Dir, x: int, y: int)
    requires g.Valid() && Covers(g, work) && BuffersOk(g, bufs, work)
    requires g.IsBlock(b) && g.InBlock(b, x, y) && NeighborsShow(g, work, b, work[b].t)
    ensures Holds(g, bufs, work[b].t, x + Dx(i), y + Dy(i))
  {
    CellNeighbor(g, b, x, y, i);
    var x', y' := x + Dx(i), y + Dy(i);
    assert BlockOk(g, bufs, b, work[b]);
    if !g.Interior(x', y') {
      BorderShows(g, bufs, work[b].t, x', y');
    } else if g.InBlock(b, x', y') {
      ShowsCell(g, bufs, b, work[b], work[b].t, x', y');
    } else {
      assert BlockOk(g, bufs, Nbr(b, i), work[Nbr(b, i)]);
      ShowsCell(g, bufs, Nbr(b, i), work[Nbr(b, i)], work[b].t, x', y');
    }
  }

  /** The five cells that the kernel reads hold iterate t. */
  predicate ReadsHold(g: Grid, bufs: Buffers, t: nat, x: int, y: int)
    requires g.Valid() && Sized(g, bufs)
  {
    && Holds(g, bufs, t, x, y)
    && Holds(g, bufs, t, x - 1, y) && Holds(g, bufs, t, x + 1, y)
    && Holds(g, bufs, t, x, y - 1) && Holds(g, bufs, t, x, y + 1)
  }

  lemma PointFromReads(g: Grid, bufs: Buffers, t: nat, x: int, y: int)
    requires g.Valid() && Sized(g, bufs) && g.Interior(x, y) && ReadsHold(g, bufs, t, x, y)
    ensures g.Point(bufs.Get(Odd(t)), x, y) == g.Ref(t + 1, x, y)
  {
  }

  lemma ReadsOwn(g: Grid, bufs: Buffers, work: map<Block, Work>, b: Block, x: int, y: int)
    requires g.Valid() && Covers(g, work) && BuffersOk(g, bufs, work) && g.IsBlock(b) && g.InBlock(b, x, y)
    ensures Holds(g, bufs, work[b].t, x, y)
  {
    assert BlockOk(g, bufs, b, work[b]);
    ShowsCell(g, bufs, b, work[b], work[b].t, x, y);
  }

  lemma ReadsSide(g: Grid, bufs: Buffers, work: map<Block, Work>, b: Block, i: Dir, x: int, y: int, x': int, y': int)
    requires g.Valid() && Covers(g, work) && BuffersOk(g, bufs, work)
    requires g.IsBlock(b) && g.InBlock(b, x, y) && NeighborsShow(g, work, b, work[b].t)
    requires x' == x + Dx(i) && y' == y + Dy(i)
    ensures Holds(g, bufs, work[b].t, x', y')
  {
    ReadsCell(g, bufs, work, b, i, x, y);
  }

  lemma KernelReads(g: Grid, bufs: Buffers, work: map<Block, Work>, b: Block, x: int, y: int)
    requires g.Valid() && Covers(g, work) && BuffersOk(g, bufs, work)
    requires g.IsBlock(b) && g.InBlock(b, x, y) && NeighborsShow(g, work, b, work[b].t)
    ensures ReadsHold(g, bufs, work[b].t, x, y)
  {
    ReadsOwn(g, bufs, work, b, x, y);
    ReadsSide(g, bufs, work, b, 0, x, y, x - 1, y);
    ReadsSide(g, bufs, work, b, 1, x, y, x + 1, y);
    ReadsSide(g, bufs, work, b, 2, x, y, x, y - 1);
    ReadsSide(g, bufs, work, b, 3, x, y, x, y + 1);
  }

  /** The value the kernel computes at (x, y) in iteration t is iterate t + 1. */
  lemma PointIsIterate(g: Grid, bufs: Buffers, work: map<Block, Work>, b: Block, x: int, y: int)
    requires g.Valid() && Covers(g, work) && BuffersOk(g, bufs, work)
    requires g.IsBlock(b) && g.InBlock(b, x, y) && NeighborsShow(g, work, b, work[b].t)
    ensures g.Interior(x, y)
    ensures g.Point(bufs.Get(Odd(work[b].t)), x, y) == g.Ref(work[b].t + 1, x, y)
  {
    BlockIsInterior(g, b, x, y);
    KernelReads(g, bufs, work, b, x, y);
    PointFromReads(g, bufs, work[b].t, x, y);
  }

  /** One assignment of the loop nest at (x, y), with the arrays that a ULT currently calls old and new. */
  function KernelWrite(g: Grid, bufs: Buffers, flipped: bool, x: int, y: int): Buffers
    requires g.Valid() && Sized(g, bufs) && g.Interior(x, y)
  {
    bufs.Put(!flipped, bufs.Get(!flipped)[g.Index(x, y) := g.Point(bufs.Get(flipped), x, y)])
  }

  /** One assignment of the kernel: block b writes the cell it has got to. */
  function WriteCell(g: Grid, bufs: Buffers, w: Work): Buffers
    requires g.Valid() && Sized(g, bufs) && g.Interior(w.x, w.y)
  {
    KernelWrite(g, bufs, Odd(w.t), w.x, w.y)
  }

  /** No other cell changes. */
  lemma WriteFrame(g: Grid, bufs: Buffers, w: Work, x: int, y: int)
    requires g.Valid() && Sized(g, bufs) && g.Interior(w.x, w.y) && g.InGrid(x, y) && (x, y) != (w.x, w.y)
    ensures Sized(g, WriteCell(g, bufs, w))
    ensures WriteCell(g, bufs, w).even[g.Index(x, y)] == bufs.even[g.Index(x, y)]
    ensures WriteCell(g, bufs, w).odd[g.Index(x, y)] == bufs.odd[g.Index(x, y)]
  {
    if g.Index(x, y) == g.Index(w.x, w.y) {
      IndexInjective(g, x, y, w.x, w.y);
    }
  }

  /** The cell just written holds the next iterate. */
  lemma WrittenCell(g: Grid, bufs: Buffers, b: Block, w: Work)
    requires g.Valid() && Sized(g, bufs) && g.IsBlock(b) && g.InBlock(b, w.x, w.y) && g.Interior(w.x, w.y)
    requires CellOk(g, bufs, w, w.x, w.y)
    requires g.Point(bufs.Get(Odd(w.t)), w.x, w.y) == g.Ref(w.t + 1, w.x, w.y)
    ensures Sized(g, WriteCell(g, bufs, w))
    ensures CellOk(g, WriteCell(g, bufs, w), Advance(g, b, w), w.x, w.y)
  {
  }

  lemma SameCellOk(g: Grid, bufs: Buffers, bufs': Buffers, w: Work, w': Work, x: int, y: int)
    requires g.Valid() && Sized(g, bufs) && Sized(g, bufs') && g.InGrid(x, y)
    requires w'.t == w.t && Wrote(w', x, y) == Wrote(w, x, y)
    requires bufs'.even[g.Index(x, y)] == bufs.even[g.Index(x, y)]
    requires bufs'.odd[g.Index(x, y)] == bufs.odd[g.Index(x, y)]
    requires CellOk(g, bufs, w, x, y)
    ensures CellOk(g, bufs', w', x, y)
  {
  }

  lemma SameWrote(g: Grid, b: Block, w: Work, x: int, y: int)
    requires g.InBlock(b, w.x, w.y) && g.InBlock(b, x, y) && (x, y) != (w.x, w.y)
    ensures Wrote(Advance(g, b, w), x, y) == Wrote(w, x, y)
  {
  }

  /** The other cells of the block keep what they hold. */
  lemma UnwrittenCell(g: Grid, bufs: Buffers, b: Block, w: Work, x: int, y: int)
    requires g.Valid() && Sized(g, bufs) && g.IsBlock(b) && g.InBlock(b, w.x, w.y) && g.Interior(w.x, w.y)
    requires g.InBlock(b, x, y) && g.Interior(x, y) && (x, y) != (w.x, w.y)
    requires CellOk(g, bufs, w, x, y)
    ensures Sized(g, WriteCell(g, bufs, w))
    ensures CellOk(g, WriteCell(g, bufs, w), Advance(g, b, w), x, y)
  {
    SameWrote(g, b, w, x, y);
    WriteFrame(g, bufs, w, x, y);
    SameCellOk(g, bufs, WriteCell(g, bufs, w), w, Advance(g, b, w), x, y);
  }

  lemma OwnBlockKeeps(g: Grid, bufs: Buffers, b: Block, w: Work)
    requires g.Valid() && Sized(g, bufs) && g.IsBlock(b) && g.InBlock(b, w.x, w.y) && g.Interior(w.x, w.y)
    requires BlockOk(g, bufs, b, w)
    requires g.Point(bufs.Get(Odd(w.t)), w.x, w.y) == g.Ref(w.t + 1, w.x, w.y)
    ensures Sized(g, WriteCell(g, bufs, w))
    ensures BlockOk(g, WriteCell(g, bufs, w), b, Advance(g, b, w))
  {
    forall x, y | g.InBlock(b, x, y)
      ensures g.InGrid(x, y) && CellOk(g, WriteCell(g, bufs, w), Advance(g, b, w), x, y)
    {
      BlockIsInterior(g, b, x, y);
      assert CellOk(g, bufs, w, x, y);
      if (x, y) == (w.x, w.y) {
        WrittenCell(g, bufs, b, w);
      } else {
        UnwrittenCell(g, bufs, b, w, x, y);
      }
    }
  }

  lemma OtherBlockKeeps(g: Grid, bufs: Buffers, b: Block, w: Work, n: Block, v: Work)
    requires g.Valid() && Sized(g, bufs) && g.IsBlock(b) && g.InBlock(b, w.x, w.y) && g.Interior(w.x, w.y)
    requires g.IsBlock(n) && n != b && BlockOk(g, bufs, n, v)
    ensures Sized(g, WriteCell(g, bufs, w))
    ensures BlockOk(g, WriteCell(g, bufs, w), n, v)
  {
    forall x, y | g.InBlock(n, x, y)
      ensures g.InGrid(x, y) && CellOk(g, WriteCell(g, bufs, w), v, x, y)
    {
      BlockIsInterior(g, n, x, y);
      assert CellOk(g, bufs, v, x, y);
      if (x, y) == (w.x, w.y) {
        BlocksDisjoint(g, b, n, x, y);
      }
      WriteFrame(g, bufs, w, x, y);
    }
  }

  lemma BorderKeeps(g: Grid, bufs: Buffers, w: Work)
    requires g.Valid() && Sized(g, bufs) && g.Interior(w.x, w.y) && BorderOk(g, bufs)
    ensures Sized(g, WriteCell(g, bufs, w))
    ensures BorderOk(g, WriteCell(g, bufs, w))
  {
    forall x, y | g.InGrid(x, y) && !g.Interior(x, y)
      ensures BorderCellOk(g, WriteCell(g, bufs, w), x, y)
    {
      assert BorderCellOk(g, bufs, x, y);
      WriteFrame(g, bufs, w, x, y);
    }
  }

  /** One cell update by a block whose neighbours still show its iterate keeps both arrays right. */
  lemma WriteKeepsBuffers(g: Grid, bufs: Buffers, work: map<Block, Work>, b: Block)
    requires g.Valid() && Covers(g, work) && BuffersOk(g, bufs, work)
    requires g.IsBlock(b) && g.InBlock(b, work[b].x, work[b].y) && NeighborsShow(g, work, b, work[b].t)
    ensures g.Interior(work[b].x, work[b].y)
    ensures BuffersOk(g, WriteCell(g, bufs, work[b]), work[b := Advance(g, b, work[b])])
  {
    var w := work[b];
    PointIsIterate(g, bufs, work, b, w.x, w.y);
    BorderKeeps(g, bufs, w);
    forall n | g.IsBlock(n)
      ensures BlockOk(g, WriteCell(g, bufs, w), n, work[b := Advance(g, b, w)][n])
    {
      assert BlockOk(g, bufs, n, work[n]);
      if n == b {
        OwnBlockKeeps(g, bufs, b, w);
      } else {
        OtherBlockKeeps(g, bufs, b, w, n, work[n]);
      }
    }
  }

  /** Swapping the two arrays at the end of an iteration: what was being written is now read. */
  lemma SwapKeepsBuffers(g: Grid, bufs: Buffers, work: map<Block, Work>, b: Block)
    requires g.Valid() && Covers(g, work) && BuffersOk(g, bufs, work)
    requires g.IsBlock(b) && Finished(g, b, work[b])
    ensures BuffersOk(g, bufs, work[b := Start(g, b, work[b].t + 1)])
  {
    var w' := Start(g, b, work[b].t + 1);
    assert BlockOk(g, bufs, b, work[b]);
    forall x, y | g.InBlock(b, x, y)
      ensures g.InGrid(x, y) && CellOk(g, bufs, w', x, y)
    {
      BlockIsInterior(g, b, x, y);
      assert CellOk(g, bufs, work[b], x, y);
    }
    forall n | g.IsBlock(n)
      ensures BlockOk(g, bufs, n, work[b := w'][n])
    {
      assert BlockOk(g, bufs, n, work[n]);
    }
  }

  /** Once every block has finished all iterations, the array that main ends up calling values_old
      holds the sequential answer. */
  lemma AllFinished(g: Grid, bufs: Buffers, work: map<Block, Work>, x: int, y: int)
    requires g.Valid() && Covers(g, work) && BuffersOk(g, bufs, work)
    requires forall b | g.IsBlock(b) :: work[b].t == g.iters
    requires g.InGrid(x, y)
    ensures bufs.Get(Odd(g.iters))[g.Index(x, y)] == g.Ref(g.iters, x, y)
  {
    if g.Interior(x, y) {
      var b := BlockOf(g, x, y);
      assert BlockOk(g, bufs, b, work[b]);
      BlockIsInterior(g, b, x, y);
      assert CellOk(g, bufs, work[b], x, y);
    } else {
      assert BorderCellOk(g, bufs, x, y);
    }
  }

  /** Both arrays start out as copies of the initial values. */
  lemma InitialBuffers(g: Grid, work: map<Block, Work>)
    requires g.Valid() && Covers(g, work) && forall b | g.IsBlock(b) :: work[b] == Start(g, b, 0)
    ensures BuffersOk(g, Two(g.init, g.init), work)
  {
    var bufs := Two(g.init, g.init);
    forall b | g.IsBlock(b)
      ensures BlockOk(g, bufs, b, work[b])
    {
      forall x, y | g.InBlock(b, x, y)
        ensures g.InGrid(x, y) && CellOk(g, bufs, work[b], x, y)
      {
        BlockIsInterior(g, b, x, y);
      }
    }
    forall x, y | g.InGrid(x, y) && !g.Interior(x, y)
      ensures BorderCellOk(g, bufs, x, y)
    {
    }
  }

  // ----- how much loop work is left

  /** Cells of the current iteration that b has not written yet. */
  function CellsLeft(g: Grid, b: Block, w: Work): (n: nat)
    requires InRange(g, b, w)
  {
    var rows := g.Top(b) + g.bs - w.y;
    if rows == 0 then 0 else Times(rows, g.bs) - (w.x - g.Left(b))
  }

  lemma AdvanceMakesProgress(g: Grid, b: Block, w: Work)
    requires g.InBlock(b, w.x, w.y)
    ensures InRange(g, b, Advance(g, b, w))
    ensures CellsLeft(g, b, Advance(g, b, w)) == CellsLeft(g, b, w) - 1
  {
    var rows := g.Top(b) + g.bs - w.y;
    assert Times(rows, g.bs) == Times(rows - 1, g.bs) + g.bs;
    assert rows == 1 ==> Times(rows - 1, g.bs) == 0;
  }

  lemma CellsLeftBound(g: Grid, b: Block, w: Work)
    requires InRange(g, b, w)
    ensures CellsLeft(g, b, w) <= Times(g.bs, g.bs)
    ensures w == Start(g, b, w.t) ==> CellsLeft(g, b, w) == Times(g.bs, g.bs)
  {
    TimesMono(g.Top(b) + g.bs - w.y, g.bs, g.bs);
  }

  // ----- adding up over all blocks

  function SumRow(g: Grid, m: map<Block, nat>, y: nat, n: nat): nat
    requires Covers(g, m) && y < g.nby && n <= g.nbx
  {
    if n == 0 then 0 else assert g.IsBlock(Block(n - 1, y)); SumRow(g, m, y, n - 1) + m[Block(n - 1, y)]
  }

  function SumRows(g: Grid, m: map<Block, nat>, n: nat): nat
    requires Covers(g, m) && n <= g.nby
  {
    if n == 0 then 0 else SumRows(g, m, n - 1) + SumRow(g, m, n - 1, g.nbx)
  }

  function Sum(g: Grid, m: map<Block, nat>): nat
    requires Covers(g, m)
  {
    SumRows(g, m, g.nby)
  }

  ghost predicate NoneGrows(g: Grid, m: map<Block, nat>, m': map<Block, nat>)
    requires Covers(g, m) && Covers(g, m')
  {
    forall b | g.IsBlock(b) :: m'[b] <= m[b]
  }

  lemma {:induction false} RowDecreases(g: Grid, m: map<Block, nat>, m': map<Block, nat>, y: nat, n: nat, b: Block)
    requires Covers(g, m) && Covers(g, m') && NoneGrows(g, m, m') && g.IsBlock(b) && m'[b] < m[b]
    requires y < g.nby && n <= g.nbx
    ensures SumRow(g, m', y, n) <= SumRow(g, m, y, n)
    ensures b.y == y && b.x < n ==> SumRow(g, m', y, n) < SumRow(g, m, y, n)
  {
    if n > 0 {
      assert g.IsBlock(Block(n - 1, y));
      RowDecreases(g, m, m', y, n - 1, b);
    }
  }

  lemma {:induction false} RowsDecrease(g: Grid, m: map<Block, nat>, m': map<Block, nat>, n: nat, b: Block)
    requires Covers(g, m) && Covers(g, m') && NoneGrows(g, m, m') && g.IsBlock(b) && m'[b] < m[b]
    requires n <= g.nby
    ensures SumRows(g, m', n) <= SumRows(g, m, n)
    ensures b.y < n ==> SumRows(g, m', n) < SumRows(g, m, n)
  {
    if n > 0 {
      RowsDecrease(g, m, m', n - 1, b);
      RowDecreases(g, m, m', n - 1, g.nbx, b);
    }
  }

  /** The sum shrinks when one block's share shrinks and no other grows. */
  lemma SumDecreases(g: Grid, m: map<Block, nat>, m': map<Block, nat>, b: Block)
    requires Covers(g, m) && Covers(g, m') && NoneGrows(g, m, m') && g.IsBlock(b) && m'[b] < m[b]
    ensures Sum(g, m') < Sum(g, m)
  {
    RowsDecrease(g, m, m', g.nby, b);
  }
}
