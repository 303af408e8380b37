/** The divide-and-conquer tiling of one stencil iteration. Children run in parallel, so besides the
    recursion itself this proves that the order in which leaf cells are written does not matter. */
module StencilDivConq {
  import opened StencilGrid
  import Seq = StencilSequential

  /** The blocks [x0, x1) x [y0, y1). */
  datatype Region = Region(x0: nat, y0: nat, x1: nat, y1: nat) {
    predicate Valid() { x0 <= x1 && y0 <= y1 }

    predicate IsLeaf() { x1 - x0 == 1 && y1 - y0 == 1 }

    predicate Empty() { x1 == x0 || y1 == y0 }

    predicate Has(b: Block) { x0 <= b.x < x1 && y0 <= b.y < y1 }

    /** Child xdiv + 2 * ydiv. */
    function Child(xdiv: nat, ydiv: nat): Region
      requires Valid() && xdiv < 2 && ydiv < 2
    {
      var xm, ym := x0 + (x1 - x0) / 2, y0 + (y1 - y0) / 2;
      Region(if xdiv == 0 then x0 else xm, if ydiv == 0 then y0 else ym,
             if xdiv == 0 then xm else x1, if ydiv == 0 then ym else y1)
    }

    function Size(): nat
      requires Valid()
    {
      (x1 - x0) + (y1 - y0)
    }
  }

  /** A child that is created is smaller than its parent. */
  lemma ChildIsSmaller(r: Region, xdiv: nat, ydiv: nat)
    requires r.Valid() && !r.IsLeaf() && xdiv < 2 && ydiv < 2 && !r.Child(xdiv, ydiv).Empty()
    ensures r.Child(xdiv, ydiv).Valid() && r.Child(xdiv, ydiv).Size() < r.Size()
  {
  }

  /** The leaves that the recursion reaches from r. Empty children are not created. */
  function Leaves(r: Region): seq<Block>
    requires r.Valid()
    decreases r.Size(), 1
  {
    if r.IsLeaf() then [Block(r.x0, r.y0)]
    else ChildLeaves(r, 0, 0) + ChildLeaves(r, 1, 0) + ChildLeaves(r, 0, 1) + ChildLeaves(r, 1, 1)
  }

  function ChildLeaves(r: Region, xdiv: nat, ydiv: nat): seq<Block>
    requires r.Valid() && !r.IsLeaf() && xdiv < 2 && ydiv < 2
    decreases r.Size(), 0
  {
    if r.Child(xdiv, ydiv).Empty() then []
    else ChildIsSmaller(r, xdiv, ydiv); Leaves(r.Child(xdiv, ydiv))
  }

  /** Each block of a region is a leaf exactly once, and nothing else is a leaf. */
  lemma {:induction false} LeavesCoverOnce(r: Region, b: Block)
    requires r.Valid()
    ensures multiset(Leaves(r))[b] == if r.Has(b) then 1 else 0
    decreases r.Size(), 1
  {
    if !r.IsLeaf() {
      ChildCoversOnce(r, 0, 0, b);
      ChildCoversOnce(r, 1, 0, b);
      ChildCoversOnce(r, 0, 1, b);
      ChildCoversOnce(r, 1, 1, b);
    }
  }

  lemma {:induction false} ChildCoversOnce(r: Region, xdiv: nat, ydiv: nat, b: Block)
    requires r.Valid() && !r.IsLeaf() && xdiv < 2 && ydiv < 2
    ensures multiset(ChildLeaves(r, xdiv, ydiv))[b] == if r.Child(xdiv, ydiv).Has(b) then 1 else 0
    decreases r.Size(), 0
  {
    if !r.Child(xdiv, ydiv).Empty() {
      ChildIsSmaller(r, xdiv, ydiv);
      LeavesCoverOnce(r.Child(xdiv, ydiv), b);
    }
  }

  // ----- writing cells in any order

  datatype Cell = Cell(x: int, y: int)

  /** The writes of all leaves, interleaved in any way, are some sequence of cells. Every write computes
      its value from the array old, which nobody changes. */
  function WriteCells(g: Grid, old': seq<real>, new': seq<real>, cells: seq<Cell>): (after: seq<real>)
    requires g.Valid() && |old'| == |g.init| && |new'| == |g.init|
    requires forall c | c in cells :: g.Interior(c.x, c.y)
    ensures |after| == |g.init|
  {
    if cells == [] then new'
    else
      var c := cells[|cells| - 1];
      assert c in cells && g.Interior(c.x, c.y);
      WriteCells(g, old', new', cells[..|cells| - 1])[g.Index(c.x, c.y) := g.Point(old', c.x, c.y)]
  }

  lemma {:induction false} WriteCellsAt(g: Grid, old': seq<real>, new': seq<real>, cells: seq<Cell>, x: int, y: int)
    requires g.Valid() && |old'| == |g.init| && |new'| == |g.init|
    requires forall c | c in cells :: g.Interior(c.x, c.y)
    requires g.InGrid(x, y)
    ensures WriteCells(g, old', new', cells)[g.Index(x, y)] ==
            if Cell(x, y) in cells then g.Point(old', x, y) else new'[g.Index(x, y)]
  {
    if cells != [] {
      var n := |cells| - 1;
      var c := cells[n];
      WriteCellsAt(g, old', new', cells[..n], x, y);
      assert cells == cells[..n] + [c];
      if g.Index(x, y) == g.Index(c.x, c.y) {
        IndexInjective(g, x, y, c.x, c.y);
      }
    }
  }

  /** A sequence of writes that contains exactly the cells of the leaves of the whole grid. */
  ghost predicate Interleaves(g: Grid, cells: seq<Cell>) {
    forall c :: c in cells <==>
      exists b :: b in Leaves(Region(0, 0, g.nbx, g.nby)) && g.InBlock(b, c.x, c.y)
  }

  lemma LeafCellsAreInterior(g: Grid, cells: seq<Cell>, c: Cell)
    requires Interleaves(g, cells)
    ensures c in cells <==> g.Interior(c.x, c.y)
  {
    var whole := Region(0, 0, g.nbx, g.nby);
    if c in cells {
      var b :| b in Leaves(whole) && g.InBlock(b, c.x, c.y);
      LeavesCoverOnce(whole, b);
      BlockIsInterior(g, b, c.x, c.y);
    }
    if g.Interior(c.x, c.y) {
      var b := BlockOf(g, c.x, c.y);
      LeavesCoverOnce(whole, b);
      assert b in Leaves(whole);
    }
  }

  /** Leaves write disjoint places: no two of them ever touch the same element of the array. */
  lemma LeavesDisjoint(g: Grid, b: Block, b': Block, x: int, y: int, x': int, y': int)
    requires g.Valid() && g.IsBlock(b) && g.IsBlock(b') && b != b'
    requires g.InBlock(b, x, y) && g.InBlock(b', x', y')
    ensures g.InGrid(x, y) && g.InGrid(x', y') && g.Index(x, y) != g.Index(x', y')
  {
    BlockIsInterior(g, b, x, y);
    BlockIsInterior(g, b', x', y');
    if g.Index(x, y) == g.Index(x', y') {
      IndexInjective(g, x, y, x', y');
      BlocksDisjoint(g, b, b', x, y);
    }
  }

  /** Any execution order of the leaves, down to single cell writes, is one sequential iteration. */
  lemma AnyOrderIsOneIteration(g: Grid, old': seq<real>, new': seq<real>, cells: seq<Cell>, t: nat)
    requires g.Valid() && |old'| == |g.init| && |new'| == |g.init|
    requires Seq.ShowsAll(g, old', t) && Seq.BorderFixed(g, new')
    requires Interleaves(g, cells) && forall c | c in cells :: g.Interior(c.x, c.y)
    ensures Seq.ShowsAll(g, WriteCells(g, old', new', cells), t + 1)
    ensures Seq.BorderFixed(g, old')
  {
    forall x, y | g.InGrid(x, y)
      ensures WriteCells(g, old', new', cells)[g.Index(x, y)] == g.Ref(t + 1, x, y)
    {
      LeafCellsAreInterior(g, cells, Cell(x, y));
      WriteCellsAt(g, old', new', cells, x, y);
      if g.Interior(x, y) {
        Seq.PointOfIterate(g, old', t, x, y);
      }
    }
  }

  // ----- the recursive function, run in the order in which it creates its children

  ghost function Box(x0: int, x1: int, y0: int, y1: int): iset<Cell> {
    iset c: Cell | x0 <= c.x < x1 && y0 <= c.y < y1
  }

  lemma BoxSplits(x0: int, xm: int, x1: int, y0: int, ym: int, y1: int)
    requires x0 <= xm <= x1 && y0 <= ym <= y1
    ensures ((Box(x0, xm, y0, ym) + Box(xm, x1, y0, ym)) + Box(x0, xm, ym, y1)) + Box(xm, x1, ym, y1)
            == Box(x0, x1, y0, y1)
  {
  }

  /** The cells of a region. */
  ghost function CellsOf(g: Grid, r: Region): iset<Cell> {
    Box(Times(r.x0, g.bs), Times(r.x1, g.bs), Times(r.y0, g.bs), Times(r.y1, g.bs))
  }

  /** Child n of the argument array. */
  function Nth(r: Region, n: nat): Region
    requires r.Valid() && n < 4
  {
    if n == 0 then r.Child(0, 0) else if n == 1 then r.Child(1, 0)
    else if n == 2 then r.Child(0, 1) else r.Child(1, 1)
  }

  /** The cells of the first n children. */
  ghost function ChildCells(g: Grid, r: Region, n: nat): iset<Cell>
    requires r.Valid() && n <= 4
  {
    (((if n > 0 then CellsOf(g, Nth(r, 0)) else iset{})
      + (if n > 1 then CellsOf(g, Nth(r, 1)) else iset{}))
      + (if n > 2 then CellsOf(g, Nth(r, 2)) else iset{}))
      + (if n > 3 then CellsOf(g, Nth(r, 3)) else iset{})
  }

  lemma NextChild(g: Grid, r: Region, n: nat)
    requires r.Valid() && n < 4
    ensures ChildCells(g, r, n) + CellsOf(g, Nth(r, n)) == ChildCells(g, r, n + 1)
  {
  }

  lemma ChildrenCover(g: Grid, r: Region)
    requires r.Valid()
    ensures ChildCells(g, r, 4) == CellsOf(g, r)
  {
    var xm, ym := r.Child(0, 0).x1, r.Child(0, 0).y1;
    TimesMono(r.x0, xm, g.bs);
    TimesMono(xm, r.x1, g.bs);
    TimesMono(r.y0, ym, g.bs);
    TimesMono(ym, r.y1, g.bs);
    BoxSplits(Times(r.x0, g.bs), Times(xm, g.bs), Times(r.x1, g.bs),
              Times(r.y0, g.bs), Times(ym, g.bs), Times(r.y1, g.bs));
  }

  /** after is before with the updates of exactly the given cells. */
  ghost predicate Wrote(g: Grid, old': seq<real>, before: seq<real>, after: seq<real>, cells: iset<Cell>)
    requires g.Valid() && |old'| == |g.init| && |before| == |g.init| && |after| == |g.init|
  {
    && (forall c | c in cells :: g.Interior(c.x, c.y) && after[g.Index(c.x, c.y)] == g.Point(old', c.x, c.y))
    && (forall x, y | g.InGrid(x, y) && Cell(x, y) !in cells :: after[g.Index(x, y)] == before[g.Index(x, y)])
  }

  lemma WroteBoth(g: Grid, old': seq<real>, s0: seq<real>, s1: seq<real>, s2: seq<real>,
                  one: iset<Cell>, two: iset<Cell>)
    requires g.Valid() && |old'| == |s0| == |s1| == |s2| == |g.init|
    requires Wrote(g, old', s0, s1, one) && Wrote(g, old', s1, s2, two)
    ensures Wrote(g, old', s0, s2, one + two)
  {
    forall c | c in one + two
      ensures g.Interior(c.x, c.y) && s2[g.Index(c.x, c.y)] == g.Point(old', c.x, c.y)
    {
      if c !in two {
        assert Cell(c.x, c.y) !in two;
      }
    }
  }

  lemma WroteOne(g: Grid, old': seq<real>, s: seq<real>, x: int, y: int)
    requires g.Valid() && |old'| == |s| == |g.init| && g.Interior(x, y)
    ensures Wrote(g, old', s, s[g.Index(x, y) := g.Point(old', x, y)], iset{Cell(x, y)})
  {
    forall x', y' | g.InGrid(x', y') && g.Index(x', y') == g.Index(x, y)
      ensures x' == x && y' == y
    {
      IndexInjective(g, x', y', x, y);
    }
  }

  /** The cells of r that a loop nest has visited before (x, y). */
  ghost function Visited(g: Grid, r: Region, x: int, y: int): iset<Cell> {
    iset c: Cell | c in CellsOf(g, r) && (c.y < y || (c.y == y && c.x < x))
  }

  lemma NextVisited(g: Grid, r: Region, x: int, y: int)
    requires Cell(x, y) in CellsOf(g, r)
    ensures Visited(g, r, x, y) + iset{Cell(x, y)} == Visited(g, r, x + 1, y)
  {
  }

  lemma LeafStep(g: Grid, r: Region, was: seq<real>, before: seq<real>, now: seq<real>, x: int, y: int)
    requires g.Valid() && |was| == |before| == |now| == |g.init| && g.Interior(x, y) && Cell(x, y) in CellsOf(g, r)
    requires Wrote(g, was, before, now, Visited(g, r, x, y))
    ensures Wrote(g, was, before, now[g.Index(x, y) := g.Point(was, x, y)], Visited(g, r, x + 1, y))
  {
    var after := now[g.Index(x, y) := g.Point(was, x, y)];
    WroteOne(g, was, now, x, y);
    WroteBoth(g, was, before, now, after, Visited(g, r, x, y), iset{Cell(x, y)});
    NextVisited(g, r, x, y);
  }

  /** thread: it writes the update of every cell of its region and leaves everything else alone. */
  method Thread(g: Grid, valuesOld: array<real>, valuesNew: array<real>, r: Region)
    requires g.Valid() && r.Valid() && r.x1 <= g.nbx && r.y1 <= g.nby
    requires valuesOld != valuesNew && valuesOld.Length == |g.init| && valuesNew.Length == |g.init|
    modifies valuesNew
    ensures Wrote(g, valuesOld[..], old(valuesNew[..]), valuesNew[..], CellsOf(g, r))
    decreases r.Size()
  {
    ghost var before := valuesNew[..];
    ghost var was := valuesOld[..];
    if r.x1 - r.x0 == 1 && r.y1 - r.y0 == 1 {
      Leaf(g, valuesOld, valuesNew, r);
    } else {
      for ydiv := 0 to 2
        invariant valuesOld[..] == was
        invariant Wrote(g, was, before, valuesNew[..], ChildCells(g, r, 2 * ydiv))
      {
        for xdiv := 0 to 2
          invariant valuesOld[..] == was
          invariant Wrote(g, was, before, valuesNew[..], ChildCells(g, r, 2 * ydiv + xdiv))
        {
          var child := r.Child(xdiv, ydiv);
          assert child == Nth(r, 2 * ydiv + xdiv);
          ghost var now := valuesNew[..];
          if child.x1 - child.x0 != 0 && child.y1 - child.y0 != 0 {
            ChildIsSmaller(r, xdiv, ydiv);
            Thread(g, valuesOld, valuesNew, child);
          } else {
            assert CellsOf(g, child) == iset{};
          }
          WroteBoth(g, was, before, now, valuesNew[..], ChildCells(g, r, 2 * ydiv + xdiv), CellsOf(g, child));
          NextChild(g, r, 2 * ydiv + xdiv);
        }
      }
      ChildrenCover(g, r);
    }
  }

  method Leaf(g: Grid, valuesOld: array<real>, valuesNew: array<real>, r: Region)
    requires g.Valid() && r.Valid() && r.x1 <= g.nbx && r.y1 <= g.nby
    requires valuesOld != valuesNew && valuesOld.Length == |g.init| && valuesNew.Length == |g.init|
    modifies valuesNew
    ensures Wrote(g, valuesOld[..], old(valuesNew[..]), valuesNew[..], CellsOf(g, r))
  {
    ghost var before := valuesNew[..];
    ghost var was := valuesOld[..];
    var x0: int, x1: int := Times(r.x0, g.bs), Times(r.x1, g.bs);
    var y0: int, y1: int := Times(r.y0, g.bs), Times(r.y1, g.bs);
    TimesMono(r.x0, r.x1, g.bs);
    TimesMono(r.y0, r.y1, g.bs);
    TimesMono(r.x1, g.nbx, g.bs);
    TimesMono(r.y1, g.nby, g.bs);
    TimesMono(0, r.x0, g.bs);
    TimesMono(0, r.y0, g.bs);
    for y := y0 to y1
      invariant valuesOld[..] == was
      invariant Wrote(g, was, before, valuesNew[..], Visited(g, r, x0, y))
    {
      for x := x0 to x1
        invariant valuesOld[..] == was
        invariant Wrote(g, was, before, valuesNew[..], Visited(g, r, x, y))
      {
        ghost var now := valuesNew[..];
        LeafStep(g, r, was, before, now, x, y);
        var v := g.f(valuesOld[g.Index(x, y)], valuesOld[g.Index(x + 1, y)], valuesOld[g.Index(x - 1, y)],
                     valuesOld[g.Index(x, y + 1)], valuesOld[g.Index(x, y - 1)]);
        assert v == g.Point(was, x, y);
        valuesNew[g.Index(x, y)] := v;
        assert valuesNew[..] == now[g.Index(x, y) := v];
      }
      assert Visited(g, r, x1, y) == Visited(g, r, x0, y + 1);
    }
    assert Visited(g, r, x0, y1) == CellsOf(g, r);
  }

  /** The whole program: after every iteration of main's loop the array shows the next iterate. */
  method Run(g: Grid) returns (values: array<real>)
    requires g.Valid()
    ensures values.Length == |g.init| && Seq.ShowsAll(g, values[..], g.iters)
  {
    values := new real[|g.init|](i requires 0 <= i < |g.init| => g.init[i]);
    var other := new real[|g.init|](i requires 0 <= i < |g.init| => g.init[i]);
    assert values[..] == g.init && other[..] == g.init;
    for t := 0 to g.iters
      invariant fresh(values) && fresh(other) && values != other
      invariant values.Length == |g.init| && other.Length == |g.init|
      invariant Seq.ShowsAll(g, values[..], t)
      invariant Seq.BorderFixed(g, other[..])
    {
      ghost var before := other[..];
      ghost var was := values[..];
      Thread(g, values, other, Region(0, 0, g.nbx, g.nby));
      assert values[..] == was;
      WholeIsOneIteration(g, was, before, other[..], t);
      values, other := other, values;
    }
  }

  lemma WholeIsOneIteration(g: Grid, old': seq<real>, before: seq<real>, after: seq<real>, t: nat)
    requires g.Valid() && |old'| == |before| == |after| == |g.init|
    requires Seq.ShowsAll(g, old', t) && Seq.BorderFixed(g, before)
    requires Wrote(g, old', before, after, CellsOf(g, Region(0, 0, g.nbx, g.nby)))
    ensures Seq.ShowsAll(g, after, t + 1) && Seq.BorderFixed(g, old')
  {
    var whole := CellsOf(g, Region(0, 0, g.nbx, g.nby));
    forall x, y | g.InGrid(x, y)
      ensures after[g.Index(x, y)] == g.Ref(t + 1, x, y)
    {
      assert Cell(x, y) in whole <==> g.Interior(x, y);
      if g.Interior(x, y) {
        var c := Cell(x, y);
        assert after[g.Index(c.x, c.y)] == g.Point(old', c.x, c.y);
        Seq.PointOfIterate(g, old', t, x, y);
      }
    }
  }
}
