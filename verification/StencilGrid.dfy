/** The grid of the stencil examples: its cells, its blocks, its flattened memory layout, and the
    sequential answer that every parallel version must reproduce. */
module StencilGrid {

  datatype Block = Block(x: int, y: int)

  /** The product n * d, which is 0 for a negative n. Written as a sum, because all that the proofs
      below need of it is that the strips [n * d, (n + 1) * d) lie side by side. */
  function Times(n: int, d: nat): nat {
    if n <= 0 then 0 else Times(n - 1, d) + d
  }

  lemma {:induction false} TimesIsProduct(n: nat, d: nat)
    ensures Times(n, d) == n * d
  {
    if n > 0 {
      TimesIsProduct(n - 1, d);
    }
  }

  lemma {:induction false} TimesMono(n: int, m: int, d: nat)
    requires n <= m
    ensures Times(n, d) <= Times(m, d)
    decreases m - n
  {
    if n < m {
      TimesMono(n, m - 1, d);
    }
  }

  /** The five-point update, old(x, y) first and then its right, left, lower and upper neighbours.
      It stays arbitrary, so no result depends on how floating-point numbers are rounded. */
  type Update = (real, real, real, real, real) -> real

  /** What all ULTs share: the arguments of the program, the initial values and the update. */
  datatype Grid = Grid(nbx: nat, nby: nat, bs: nat, iters: nat, init: seq<real>, f: Update) {

    function W(): nat { Times(nbx, bs) }

    function H(): nat { Times(nby, bs) }

    predicate Valid() {
      |init| == Times(H() + 2, W() + 2)
    }

    /** The cells that are stored: the interior and a border of width one. */
    predicate InGrid(x: int, y: int) {
      -1 <= x <= W() && -1 <= y <= H()
    }

    predicate Interior(x: int, y: int) {
      0 <= x < W() && 0 <= y < H()
    }

    /** The INDEX macro. */
    function Index(x: int, y: int): (k: nat)
      requires Valid() && InGrid(x, y)
      ensures k < |init|
    {
      TimesMono(y + 2, H() + 2, W() + 2);
      x + 1 + Times(y + 1, W() + 2)
    }

    /** The value of a cell after t sequential iterations. Border cells never change. */
    function Ref(t: nat, x: int, y: int): real
      requires Valid() && InGrid(x, y)
    {
      if t == 0 || !Interior(x, y) then init[Index(x, y)]
      else f(Ref(t - 1, x, y), Ref(t - 1, x + 1, y), Ref(t - 1, x - 1, y),
             Ref(t - 1, x, y + 1), Ref(t - 1, x, y - 1))
    }

    predicate IsBlock(b: Block) {
      0 <= b.x < nbx && 0 <= b.y < nby
    }

    function Left(b: Block): int { Times(b.x, bs) }

    function Top(b: Block): int { Times(b.y, bs) }

    predicate InBlock(b: Block, x: int, y: int) {
      Left(b) <= x < Left(b) + bs && Top(b) <= y < Top(b) + bs
    }

    /** One evaluation of the update from the flattened buffer old. */
    function Point(old': seq<real>, x: int, y: int): real
      requires Valid() && Interior(x, y) && |old'| == |init|
    {
      f(old'[Index(x, y)], old'[Index(x + 1, y)], old'[Index(x - 1, y)],
        old'[Index(x, y + 1)], old'[Index(x, y - 1)])
    }
  }

  /** INDEX never maps two cells to the same place. */
  lemma IndexInjective(g: Grid, x: int, y: int, x': int, y': int)
    requires g.Valid() && g.InGrid(x, y) && g.InGrid(x', y')
    requires g.Index(x, y) == g.Index(x', y')
    ensures x == x' && y == y'
  {
    SameStrip(y + 1, y' + 1, g.W() + 2, g.Index(x, y));
  }

  lemma SameStrip(i: nat, j: nat, d: nat, x: int)
    requires Times(i, d) <= x < Times(i, d) + d && Times(j, d) <= x < Times(j, d) + d
    ensures i == j
  {
    if i < j {
      TimesMono(i + 1, j, d);
    } else if j < i {
      TimesMono(j + 1, i, d);
    }
  }

  /** Cells of a block are interior cells. */
  lemma BlockIsInterior(g: Grid, b: Block, x: int, y: int)
    requires g.IsBlock(b) && g.InBlock(b, x, y)
    ensures g.Interior(x, y)
  {
    TimesMono(b.x + 1, g.nbx, g.bs);
    TimesMono(b.y + 1, g.nby, g.bs);
  }

  /** The strip that x lies in. */
  function StripOf(x: nat, n: nat, d: nat): (i: nat)
    requires x < Times(n, d)
    ensures i < n && Times(i, d) <= x < Times(i, d) + d
  {
    if Times(n - 1, d) <= x then n - 1 else StripOf(x, n - 1, d)
  }

  /** Blocks cover the interior. */
  function BlockOf(g: Grid, x: int, y: int): (b: Block)
    requires g.Interior(x, y)
    ensures g.IsBlock(b) && g.InBlock(b, x, y)
  {
    Block(StripOf(x, g.nbx, g.bs), StripOf(y, g.nby, g.bs))
  }

  /** Blocks do not overlap. */
  lemma BlocksDisjoint(g: Grid, b: Block, b': Block, x: int, y: int)
    requires g.IsBlock(b) && g.IsBlock(b') && g.InBlock(b, x, y) && g.InBlock(b', x, y)
    ensures b == b'
  {
    SameStrip(b.x, b'.x, g.bs, x);
    SameStrip(b.y, b'.y, g.bs, y);
  }

  /** Two objects that alternate from one iteration to the next. */
  datatype Two<T> = Two(even: T, odd: T) {
    function Get(p: bool): T { if p then odd else even }

    function Put(p: bool, v: T): Two<T> { if p then Two(even, v) else Two(v, odd) }
  }

  /** Which of two alternating objects is old in iteration t: t % 2 == 1, written without division. */
  predicate Odd(t: nat) {
    t > 0 && !Odd(t - 1)
  }

  lemma {:induction false} OddIsRemainder(t: nat)
    ensures Odd(t) <==> t % 2 == 1
  {
    if t > 0 {
      OddIsRemainder(t - 1);
    }
  }

  /** All blocks. */
  function Blocks(g: Grid): (r: set<Block>)
    ensures forall b :: b in r <==> g.IsBlock(b)
  {
    set x, y | 0 <= x < g.nbx && 0 <= y < g.nby :: Block(x, y)
  }

  // ----- the four neighbours, in the order of dirX and dirY

  type Dir = i: int | 0 <= i < 4

  function Dx(i: Dir): int { if i == 0 then -1 else if i == 1 then 1 else 0 }

  function Dy(i: Dir): int { if i == 2 then -1 else if i == 3 then 1 else 0 }

  function Nbr(b: Block, i: Dir): Block { Block(b.x + Dx(i), b.y + Dy(i)) }

  /** The direction back from a neighbour. */
  function Opp(i: Dir): Dir { if i == 0 then 1 else if i == 1 then 0 else if i == 2 then 3 else 2 }

  /** One step along one axis stays in the strip, gets to the next one, or leaves the strips. */
  lemma StripNeighbor(n: nat, d: nat, k: int, x: int, e: int)
    requires 0 <= k < n && Times(k, d) <= x < Times(k, d) + d && (e == -1 || e == 1)
    ensures -1 <= x + e <= Times(n, d)
    ensures 0 <= x + e < Times(n, d) ==>
              || Times(k, d) <= x + e < Times(k, d) + d
              || (0 <= k + e < n && Times(k + e, d) <= x + e < Times(k + e, d) + d)
  {
    TimesMono(k + 1, n, d);
    assert Times(k + 1, d) == Times(k, d) + d;
    assert k > 0 ==> Times(k, d) == Times(k - 1, d) + d;
  }

  /** The direction back leads back. */
  lemma NbrBack(b: Block, i: Dir)
    ensures Nbr(Nbr(b, i), Opp(i)) == b && Opp(Opp(i)) == i
  {
  }

  /** The update returns what it is given for the neighbour in direction i and ignores the rest. */
  ghost predicate Copies(f: Update, i: Dir) {
    forall c, right, left, lower, upper ::
      f(c, right, left, lower, upper) ==
      if i == 0 then left else if i == 1 then right else if i == 2 then upper else lower
  }

  lemma OneDrift(g: Grid, i: Dir, t: nat, x: int, y: int)
    requires g.Valid() && Copies(g.f, i) && g.Interior(x, y) && t > 0
    ensures g.InGrid(x + Dx(i), y + Dy(i)) && g.Ref(t, x, y) == g.Ref(t - 1, x + Dx(i), y + Dy(i))
  {
  }

  /** The cell t steps from (x, y) in direction i. */
  function Far(i: Dir, t: nat, x: int, y: int): (int, int) {
    if t == 0 then (x, y) else Far(i, t - 1, x + Dx(i), y + Dy(i))
  }

  /** Whoever is outside stays outside. */
  lemma NoWayBack(g: Grid, i: Dir, t: nat, x: int, y: int)
    requires g.InGrid(x, y) && !g.Interior(x, y) && t > 0
    requires g.Interior(x - Dx(i), y - Dy(i))
    ensures !g.InGrid(Far(i, t, x, y).0, Far(i, t, x, y).1)
  {
    FarIs(i, t, x, y);
  }

  lemma {:induction false} FarIs(i: Dir, t: nat, x: int, y: int)
    ensures Far(i, t, x, y) == if i == 0 then (x - t, y) else if i == 1 then (x + t, y)
                               else if i == 2 then (x, y - t) else (x, y + t)
  {
    if t > 0 {
      FarIs(i, t - 1, x + Dx(i), y + Dy(i));
    }
  }

  /** Every argument of the update comes from the neighbour it is named after: when one of them is copied,
      values drift over the grid in its direction, one cell an iteration, until the border is reached. */
  lemma {:induction false} ValuesDrift(g: Grid, i: Dir, t: nat, x: int, y: int)
    requires g.Valid() && Copies(g.f, i) && g.Interior(x, y)
    requires g.InGrid(Far(i, t, x, y).0, Far(i, t, x, y).1)
    ensures g.Ref(t, x, y) == g.init[g.Index(Far(i, t, x, y).0, Far(i, t, x, y).1)]
  {
    if t > 0 {
      var x', y' := x + Dx(i), y + Dy(i);
      OneDrift(g, i, t, x, y);
      if g.Interior(x', y') {
        ValuesDrift(g, i, t - 1, x', y');
      } else if t > 1 {
        NoWayBack(g, i, t - 1, x', y');
      }
    }
  }

  /** And when the cell itself is copied, nothing ever changes. */
  lemma {:induction false} ValuesStay(g: Grid, t: nat, x: int, y: int)
    requires g.Valid() && g.InGrid(x, y)
    requires forall c, right, left, lower, upper :: g.f(c, right, left, lower, upper) == c
    ensures g.Ref(t, x, y) == g.init[g.Index(x, y)]
  {
    if t > 0 && g.Interior(x, y) {
      ValuesStay(g, t - 1, x, y);
    }
  }

  lemma HorizontalNeighbor(g: Grid, b: Block, x: int, y: int, e: int)
    requires g.IsBlock(b) && g.InBlock(b, x, y) && (e == -1 || e == 1)
    ensures g.InGrid(x + e, y)
    ensures g.Interior(x + e, y) ==>
              g.InBlock(b, x + e, y) || (g.IsBlock(Block(b.x + e, b.y)) && g.InBlock(Block(b.x + e, b.y), x + e, y))
  {
    BlockIsInterior(g, b, x, y);
    StripNeighbor(g.nbx, g.bs, b.x, x, e);
  }

  lemma VerticalNeighbor(g: Grid, b: Block, x: int, y: int, e: int)
    requires g.IsBlock(b) && g.InBlock(b, x, y) && (e == -1 || e == 1)
    ensures g.InGrid(x, y + e)
    ensures g.Interior(x, y + e) ==>
              g.InBlock(b, x, y + e) || (g.IsBlock(Block(b.x, b.y + e)) && g.InBlock(Block(b.x, b.y + e), x, y + e))
  {
    BlockIsInterior(g, b, x, y);
    StripNeighbor(g.nby, g.bs, b.y, y, e);
  }

  /** One step from a cell of b lands in b, in the neighbour in that direction, or on the border. */
  lemma CellNeighbor(g: Grid, b: Block, x: int, y: int, i: Dir)
    requires g.IsBlock(b) && g.InBlock(b, x, y)
    ensures g.InGrid(x + Dx(i), y + Dy(i))
    ensures g.Interior(x + Dx(i), y + Dy(i)) ==>
              || g.InBlock(b, x + Dx(i), y + Dy(i))
              || (g.IsBlock(Nbr(b, i)) && g.InBlock(Nbr(b, i), x + Dx(i), y + Dy(i)))
  {
    var n := Nbr(b, i);
    if i < 2 {
      assert n == Block(b.x + Dx(i), b.y) && Dy(i) == 0;
      HorizontalNeighbor(g, b, x, y, Dx(i));
    } else {
      assert n == Block(b.x, b.y + Dy(i)) && Dx(i) == 0;
      VerticalNeighbor(g, b, x, y, Dy(i));
    }
  }
}
