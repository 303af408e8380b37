/** The stencil whose blocks synchronise with their neighbours through progress flags: a ULT that finds
    a neighbour behind yields and looks again. A step is one load or store of a flag, one cell update,
    or local code. */
module StencilYield {
  import opened StencilGrid
  import opened StencilBuffers
  import opened Traces

  /** Where a ULT is in kernel: at the loop head, about to load the flag of neighbour i (4 when all have
      been checked), in the loop nest, about to publish its progress, or about to swap its arrays. */
  datatype Pc = Head | Check(i: nat) | Compute | Publish | Swap

  datatype Ult = Ult(work: Work, flipped: bool, pc: Pc)

  type Ults = map<Block, Ult>

  type Flags = map<Block, nat>

  datatype State = State(bufs: Buffers, ults: Ults, flags: Flags)

  ghost predicate Shaped(g: Grid, ults: Ults, flags: Flags) {
    && (forall b :: b in ults <==> g.IsBlock(b))
    && (forall b :: b in flags <==> g.IsBlock(b))
  }

  ghost predicate Typed(g: Grid, s: State) {
    g.Valid() && Sized(g, s.bufs) && Shaped(g, s.ults, s.flags)
  }

  ghost predicate Init(g: Grid, s: State) {
    && g.Valid() && s.bufs == Two(g.init, g.init)
    && Shaped(g, s.ults, s.flags)
    && (forall b | g.IsBlock(b) :: s.ults[b] == Ult(Start(g, b, 0), false, Head) && s.flags[b] == 0)
  }

  ghost predicate StepHead(g: Grid, s: State, s': State, b: Block)
    requires Typed(g, s) && g.IsBlock(b)
  {
    var u := s.ults[b];
    && u.pc == Head && u.work.t < g.iters
    && s' == s.(ults := s.ults[b := u.(pc := Check(0))])
  }

  /** The flag of neighbour i lags behind. */
  predicate Blocked(g: Grid, u: Ult, flags: Flags, b: Block) {
    && u.pc.Check? && u.pc.i < 4
    && Nbr(b, u.pc.i) in flags && flags[Nbr(b, u.pc.i)] < u.work.t
  }

  ghost predicate StepCheck(g: Grid, s: State, s': State, b: Block)
    requires Typed(g, s) && g.IsBlock(b)
  {
    var u := s.ults[b];
    && u.pc.Check? && u.pc.i <= 4 && !Blocked(g, u, s.flags, b)
    && s' == s.(ults := s.ults[b := u.(pc := if u.pc.i == 4 then Compute else Check(u.pc.i + 1))])
  }

  /** The flag lags behind, so the ULT yields and tries again. */
  ghost predicate StepYield(g: Grid, s: State, s': State, b: Block)
    requires Typed(g, s) && g.IsBlock(b)
  {
    Blocked(g, s.ults[b], s.flags, b) && s' == s
  }

  ghost predicate StepCompute(g: Grid, s: State, s': State, b: Block)
    requires Typed(g, s) && g.IsBlock(b)
  {
    var u := s.ults[b];
    && u.pc == Compute && InRange(g, b, u.work)
    && if Finished(g, b, u.work) then
         s' == s.(ults := s.ults[b := u.(pc := Publish)])
       else
         BlockIsInterior(g, b, u.work.x, u.work.y);
         s' == s.(bufs := KernelWrite(g, s.bufs, u.flipped, u.work.x, u.work.y),
                  ults := s.ults[b := u.(work := Advance(g, b, u.work))])
  }

  ghost predicate StepPublish(g: Grid, s: State, s': State, b: Block)
    requires Typed(g, s) && g.IsBlock(b)
  {
    var u := s.ults[b];
    && u.pc == Publish
    && s' == s.(ults := s.ults[b := u.(pc := Swap)], flags := s.flags[b := u.work.t + 1])
  }

  ghost predicate StepSwap(g: Grid, s: State, s': State, b: Block)
    requires Typed(g, s) && g.IsBlock(b)
  {
    var u := s.ults[b];
    && u.pc == Swap
    && s' == s.(ults := s.ults[b := Ult(Start(g, b, u.work.t + 1), !u.flipped, Head)])
  }

  /** A step that gets its ULT further. */
  ghost predicate StepOf(g: Grid, s: State, s': State, b: Block) {
    && Typed(g, s) && g.IsBlock(b)
    && (|| StepHead(g, s, s', b) || StepCheck(g, s, s', b) || StepCompute(g, s, s', b)
        || StepPublish(g, s, s', b) || StepSwap(g, s, s', b))
  }

  ghost predicate YieldOf(g: Grid, s: State, s': State, b: Block) {
    Typed(g, s) && g.IsBlock(b) && StepYield(g, s, s', b)
  }

  ghost predicate Next(g: Grid, s: State, s': State) {
    exists b :: StepOf(g, s, s', b) || YieldOf(g, s, s', b)
  }

  ghost predicate Run(g: Grid, run: Trace<State>) {
    match run
    case Begin(s) => Init(g, s)
    case Then(prefix, s) => Run(g, prefix) && Next(g, prefix.s, s)
  }

  // ----- the invariant

  predicate UltOk(g: Grid, b: Block, u: Ult, flag: nat) {
    && u.work.t <= g.iters
    && u.flipped == Odd(u.work.t)
    && InRange(g, b, u.work)
    && (u.pc != Head ==> u.work.t < g.iters)
    && (u.pc.Head? || u.pc.Check? ==> u.work == Start(g, b, u.work.t))
    && (u.pc.Check? ==> u.pc.i <= 4)
    && (u.pc.Publish? || u.pc.Swap? ==> Finished(g, b, u.work))
    && flag == if u.pc == Swap then u.work.t + 1 else u.work.t
  }

  /** In this iteration, the ULT has seen that neighbour i is far enough. */
  predicate Passed(u: Ult, i: Dir) {
    u.pc.Compute? || u.pc.Publish? || u.pc.Swap? || (u.pc.Check? && i < u.pc.i)
  }

  predicate Ahead(u: Ult, flag: nat, i: Dir) {
    u.work.t <= flag + 1 && (Passed(u, i) ==> u.work.t <= flag)
  }

  /** No block is more than one iteration ahead of what its neighbour has published. */
  ghost predicate AheadOk(g: Grid, ults: Ults, flags: Flags)
    requires Shaped(g, ults, flags)
  {
    forall b, i: Dir {:trigger Ahead(ults[b], flags[Nbr(b, i)], i)} | g.IsBlock(b) && g.IsBlock(Nbr(b, i)) ::
      Ahead(ults[b], flags[Nbr(b, i)], i)
  }

  function WorkOf(ults: Ults): map<Block, Work> {
    map b | b in ults :: ults[b].work
  }

  ghost predicate SyncOk(g: Grid, ults: Ults, flags: Flags) {
    && Shaped(g, ults, flags)
    && (forall b {:trigger UltOk(g, b, ults[b], flags[b])} | g.IsBlock(b) :: UltOk(g, b, ults[b], flags[b]))
    && AheadOk(g, ults, flags)
  }

  ghost predicate Inv(g: Grid, s: State) {
    && Typed(g, s)
    && SyncOk(g, s.ults, s.flags)
    && BuffersOk(g, s.bufs, WorkOf(s.ults))
  }

  lemma PairClose(g: Grid, b: Block, u: Ult, uf: nat, i: Dir, n: Block, v: Ult, vf: nat, j: Dir)
    requires UltOk(g, b, u, uf) && UltOk(g, n, v, vf) && Ahead(u, vf, i) && Ahead(v, uf, j)
    ensures uf <= vf + 1 && vf <= uf + 1
    ensures u.pc == Compute ==> Shows(g, n, v.work, u.work.t)
  {
  }

  lemma NeighborClose(g: Grid, ults: Ults, flags: Flags, b: Block, i: Dir)
    requires SyncOk(g, ults, flags) && g.IsBlock(b) && g.IsBlock(Nbr(b, i))
    ensures flags[b] <= flags[Nbr(b, i)] + 1 && flags[Nbr(b, i)] <= flags[b] + 1
    ensures ults[b].pc == Compute ==> Shows(g, Nbr(b, i), ults[Nbr(b, i)].work, ults[b].work.t)
  {
    var n := Nbr(b, i);
    NbrBack(b, i);
    assert UltOk(g, b, ults[b], flags[b]) && UltOk(g, n, ults[n], flags[n]);
    assert Ahead(ults[b], flags[n], i) && Ahead(ults[n], flags[Nbr(n, Opp(i))], Opp(i));
    PairClose(g, b, ults[b], flags[b], i, n, ults[n], flags[n], Opp(i));
  }

  // ----- every step keeps the invariant

  lemma OneUltChanged(g: Grid, ults: Ults, flags: Flags, b: Block, u': Ult, flag': nat)
    requires SyncOk(g, ults, flags) && g.IsBlock(b) && UltOk(g, b, u', flag') && flags[b] <= flag'
    requires forall i: Dir {:trigger Nbr(b, i)} | g.IsBlock(Nbr(b, i)) :: Ahead(u', flags[Nbr(b, i)], i)
    ensures SyncOk(g, ults[b := u'], flags[b := flag'])
  {
    var ults', flags' := ults[b := u'], flags[b := flag'];
    assert Shaped(g, ults', flags');
    forall n | g.IsBlock(n)
      ensures UltOk(g, n, ults'[n], flags'[n])
    {
      assert UltOk(g, n, ults[n], flags[n]);
    }
    forall n, i: Dir | g.IsBlock(n) && g.IsBlock(Nbr(n, i))
      ensures Ahead(ults'[n], flags'[Nbr(n, i)], i)
    {
      assert Ahead(ults[n], flags[Nbr(n, i)], i);
    }
    assert SyncOk(g, ults', flags');
  }

  lemma OnlyOneMoves(g: Grid, s: State, s': State, b: Block)
    requires Typed(g, s) && StepOf(g, s, s', b)
    ensures b in s'.ults && s'.ults == s.ults[b := s'.ults[b]]
    ensures b in s'.flags && s'.flags == s.flags[b := s'.flags[b]]
  {
  }

  lemma LocalStep(g: Grid, s: State, s': State, b: Block)
    requires Typed(g, s) && SyncOk(g, s.ults, s.flags) && StepOf(g, s, s', b)
    ensures b in s'.ults && b in s'.flags && UltOk(g, b, s'.ults[b], s'.flags[b]) && s.flags[b] <= s'.flags[b]
    ensures forall i: Dir {:trigger Nbr(b, i)} | g.IsBlock(Nbr(b, i)) :: Ahead(s'.ults[b], s.flags[Nbr(b, i)], i)
  {
    var u := s.ults[b];
    assert UltOk(g, b, u, s.flags[b]);
    if StepCompute(g, s, s', b) && !Finished(g, b, u.work) {
      AdvanceMakesProgress(g, b, u.work);
    }
    forall i: Dir | g.IsBlock(Nbr(b, i))
      ensures Ahead(s'.ults[b], s.flags[Nbr(b, i)], i)
    {
      assert Ahead(u, s.flags[Nbr(b, i)], i);
    }
  }

  lemma MovedSync(g: Grid, s: State, s': State, b: Block)
    requires SyncOk(g, s.ults, s.flags) && g.IsBlock(b) && b in s'.ults && b in s'.flags
    requires s'.ults == s.ults[b := s'.ults[b]] && s'.flags == s.flags[b := s'.flags[b]]
    requires UltOk(g, b, s'.ults[b], s'.flags[b]) && s.flags[b] <= s'.flags[b]
    requires forall i: Dir {:trigger Nbr(b, i)} | g.IsBlock(Nbr(b, i)) :: Ahead(s'.ults[b], s.flags[Nbr(b, i)], i)
    ensures SyncOk(g, s'.ults, s'.flags)
  {
    OneUltChanged(g, s.ults, s.flags, b, s'.ults[b], s'.flags[b]);
  }

  lemma StepKeepsSync(g: Grid, s: State, s': State, b: Block)
    requires Typed(g, s) && SyncOk(g, s.ults, s.flags) && StepOf(g, s, s', b)
    ensures SyncOk(g, s'.ults, s'.flags)
  {
    OnlyOneMoves(g, s, s', b);
    LocalStep(g, s, s', b);
    MovedSync(g, s, s', b);
  }

  /** No cell is overwritten while a neighbour still needs it. */
  lemma NeighborsStillShow(g: Grid, s: State, b: Block)
    requires Inv(g, s) && g.IsBlock(b) && s.ults[b].pc == Compute
    ensures NeighborsShow(g, WorkOf(s.ults), b, s.ults[b].work.t)
  {
    forall i: Dir | g.IsBlock(Nbr(b, i))
      ensures Shows(g, Nbr(b, i), s.ults[Nbr(b, i)].work, s.ults[b].work.t)
    {
      NeighborClose(g, s.ults, s.flags, b, i);
    }
  }

  lemma ComputeKeepsBuffers(g: Grid, s: State, s': State, b: Block)
    requires Inv(g, s) && g.IsBlock(b) && StepCompute(g, s, s', b)
    ensures Typed(g, s') && BuffersOk(g, s'.bufs, WorkOf(s'.ults))
  {
    var u := s.ults[b];
    assert UltOk(g, b, u, s.flags[b]);
    if Finished(g, b, u.work) {
      assert WorkOf(s'.ults) == WorkOf(s.ults);
    } else {
      NeighborsStillShow(g, s, b);
      WriteKeepsBuffers(g, s.bufs, WorkOf(s.ults), b);
      assert WorkOf(s'.ults) == WorkOf(s.ults)[b := Advance(g, b, u.work)];
    }
  }

  lemma SwapKeeps(g: Grid, s: State, s': State, b: Block)
    requires Inv(g, s) && g.IsBlock(b) && StepSwap(g, s, s', b)
    ensures Typed(g, s') && BuffersOk(g, s'.bufs, WorkOf(s'.ults))
  {
    assert UltOk(g, b, s.ults[b], s.flags[b]);
    SwapKeepsBuffers(g, s.bufs, WorkOf(s.ults), b);
    assert WorkOf(s'.ults) == WorkOf(s.ults)[b := Start(g, b, s.ults[b].work.t + 1)];
  }

  lemma OtherKeepsBuffers(g: Grid, s: State, s': State, b: Block)
    requires Inv(g, s) && g.IsBlock(b)
    requires StepHead(g, s, s', b) || StepCheck(g, s, s', b) || StepPublish(g, s, s', b)
    ensures Typed(g, s') && BuffersOk(g, s'.bufs, WorkOf(s'.ults))
  {
    assert UltOk(g, b, s.ults[b], s.flags[b]);
    assert WorkOf(s'.ults) == WorkOf(s.ults);
  }

  lemma StepKeepsBuffers(g: Grid, s: State, s': State, b: Block)
    requires Inv(g, s) && StepOf(g, s, s', b)
    ensures Typed(g, s') && BuffersOk(g, s'.bufs, WorkOf(s'.ults))
  {
    if StepCompute(g, s, s', b) {
      ComputeKeepsBuffers(g, s, s', b);
    } else if StepSwap(g, s, s', b) {
      SwapKeeps(g, s, s', b);
    } else {
      OtherKeepsBuffers(g, s, s', b);
    }
  }

  lemma StepKeeps(g: Grid, s: State, s': State, b: Block)
    requires Inv(g, s) && StepOf(g, s, s', b)
    ensures Inv(g, s')
  {
    StepKeepsSync(g, s, s', b);
    StepKeepsBuffers(g, s, s', b);
  }

  lemma InitInv(g: Grid, s: State)
    requires Init(g, s)
    ensures Inv(g, s)
  {
    assert BuffersOk(g, s.bufs, WorkOf(s.ults)) by { InitialBuffers(g, WorkOf(s.ults)); }
    assert SyncOk(g, s.ults, s.flags) by {
      assert forall b | g.IsBlock(b) :: UltOk(g, b, Ult(Start(g, b, 0), false, Head), 0);
      assert AheadOk(g, s.ults, s.flags);
    }
  }

  lemma {:induction false} RunInv(g: Grid, run: Trace<State>)
    requires Run(g, run)
    ensures Inv(g, run.s)
  {
    match run
    case Begin(s) => InitInv(g, s);
    case Then(prefix, s) =>
      RunInv(g, prefix);
      var b :| StepOf(g, prefix.s, s, b) || YieldOf(g, prefix.s, s, b);
      if StepOf(g, prefix.s, s, b) {
        StepKeeps(g, prefix.s, s, b);
      }
  }

  // ----- the main results

  predicate Done(g: Grid, u: Ult) {
    u.pc == Head && u.work.t == g.iters
  }

  ghost predicate AllDone(g: Grid, s: State)
    requires Typed(g, s)
  {
    forall b | g.IsBlock(b) :: Done(g, s.ults[b])
  }

  /** Every interleaving computes the sequential answer. */
  lemma EveryInterleavingIsSequential(g: Grid, run: Trace<State>, x: int, y: int)
    requires Run(g, run) && g.InGrid(x, y)
    ensures Typed(g, run.s)
    ensures AllDone(g, run.s) ==> run.s.bufs.Get(g.iters % 2 == 1)[g.Index(x, y)] == g.Ref(g.iters, x, y)
  {
    RunInv(g, run);
    if AllDone(g, run.s) {
      OddIsRemainder(g.iters);
      AllFinished(g, run.s.bufs, WorkOf(run.s.ults), x, y);
    }
  }

  /** No cell is overwritten while a block still needs it: as long as a block computes an iteration, the
      five cells that each of its updates reads all show the previous iterate. */
  lemma NothingOverwrittenEarly(g: Grid, run: Trace<State>, b: Block, x: int, y: int)
    requires Run(g, run) && Typed(g, run.s) && g.IsBlock(b) && g.InBlock(b, x, y)
    requires run.s.ults[b].pc == Compute
    ensures ReadsHold(g, run.s.bufs, run.s.ults[b].work.t, x, y)
  {
    RunInv(g, run);
    NeighborsStillShow(g, run.s, b);
    KernelReads(g, run.s.bufs, WorkOf(run.s.ults), b, x, y);
  }

  /** In every reachable state, the flag of a block is the number of iterations whose cells it has
      written, and the flags of neighbours differ by at most one. */
  lemma FlagsClose(g: Grid, run: Trace<State>, b: Block, i: Dir)
    requires Run(g, run) && g.IsBlock(b)
    ensures Typed(g, run.s)
    ensures var u := run.s.ults[b];
            run.s.flags[b] == if u.pc == Swap then u.work.t + 1 else u.work.t
    ensures g.IsBlock(Nbr(b, i)) ==>
              && run.s.flags[b] <= run.s.flags[Nbr(b, i)] + 1
              && run.s.flags[Nbr(b, i)] <= run.s.flags[b] + 1
  {
    RunInv(g, run);
    assert UltOk(g, b, run.s.ults[b], run.s.flags[b]);
    if g.IsBlock(Nbr(b, i)) {
      NeighborClose(g, run.s.ults, run.s.flags, b, i);
    }
  }

  lemma FreeSteps(g: Grid, s: State, b: Block) returns (s': State)
    requires Inv(g, s) && g.IsBlock(b) && !Done(g, s.ults[b]) && !Blocked(g, s.ults[b], s.flags, b)
    ensures StepOf(g, s, s', b)
  {
    var u := s.ults[b];
    assert UltOk(g, b, u, s.flags[b]);
    match u.pc
    case Head =>
      s' := s.(ults := s.ults[b := u.(pc := Check(0))]);
      assert StepHead(g, s, s', b);
    case Check(i) =>
      s' := s.(ults := s.ults[b := u.(pc := if i == 4 then Compute else Check(i + 1))]);
      assert StepCheck(g, s, s', b);
    case Compute =>
      if Finished(g, b, u.work) {
        s' := s.(ults := s.ults[b := u.(pc := Publish)]);
      } else {
        BlockIsInterior(g, b, u.work.x, u.work.y);
        s' := s.(bufs := KernelWrite(g, s.bufs, u.flipped, u.work.x, u.work.y),
                 ults := s.ults[b := u.(work := Advance(g, b, u.work))]);
      }
      assert StepCompute(g, s, s', b);
    case Publish =>
      s' := s.(ults := s.ults[b := u.(pc := Swap)], flags := s.flags[b := u.work.t + 1]);
      assert StepPublish(g, s, s', b);
    case Swap =>
      s' := s.(ults := s.ults[b := Ult(Start(g, b, u.work.t + 1), !u.flipped, Head)]);
      assert StepSwap(g, s, s', b);
  }

  /** A blocked ULT waits for a neighbour that is behind it; following the waits down leads to an
      unfinished block that is not blocked. */
  lemma {:induction false} SomebodyIsFree(g: Grid, s: State, b: Block) returns (c: Block)
    requires Inv(g, s) && g.IsBlock(b) && !Done(g, s.ults[b])
    ensures g.IsBlock(c) && !Done(g, s.ults[c]) && !Blocked(g, s.ults[c], s.flags, c)
    decreases s.ults[b].work.t
  {
    if !Blocked(g, s.ults[b], s.flags, b) {
      return b;
    }
    var n := Nbr(b, s.ults[b].pc.i);
    assert UltOk(g, b, s.ults[b], s.flags[b]) && UltOk(g, n, s.ults[n], s.flags[n]);
    c := SomebodyIsFree(g, s, n);
  }

  /** Some unfinished block can always proceed, not only yield. */
  lemma NeverStuck(g: Grid, run: Trace<State>)
    requires Run(g, run)
    ensures Typed(g, run.s)
    ensures AllDone(g, run.s) || exists b, s' :: StepOf(g, run.s, s', b)
  {
    RunInv(g, run);
    if !AllDone(g, run.s) {
      var b :| g.IsBlock(b) && !Done(g, run.s.ults[b]);
      var c := SomebodyIsFree(g, run.s, b);
      var s' := FreeSteps(g, run.s, c);
    }
  }

  // ----- termination

  function Rank(g: Grid, b: Block, u: Ult): nat {
    var cells := Times(g.bs, g.bs);
    var perIteration := cells + 9;
    var rest := Times(g.iters - u.work.t - 1, perIteration);
    match u.pc
    case Head => Times(g.iters - u.work.t, perIteration)
    case Check(i) => rest + cells + (if i <= 4 then 8 - i else 0)
    case Compute => rest + (if InRange(g, b, u.work) then CellsLeft(g, b, u.work) else 0) + 3
    case Publish => rest + 2
    case Swap => rest + 1
  }

  function Ranks(g: Grid, ults: Ults): map<Block, nat> {
    map b | b in ults :: Rank(g, b, ults[b])
  }

  ghost function StepsLeft(g: Grid, s: State): nat {
    if Covers(g, Ranks(g, s.ults)) then Sum(g, Ranks(g, s.ults)) else 0
  }

  lemma OwnRankDrops(g: Grid, s: State, s': State, b: Block)
    requires Inv(g, s) && StepOf(g, s, s', b) && b in s'.ults
    ensures Rank(g, b, s'.ults[b]) < Rank(g, b, s.ults[b])
  {
    var u := s.ults[b];
    assert UltOk(g, b, u, s.flags[b]);
    CellsLeftBound(g, b, u.work);
    if StepCompute(g, s, s', b) && !Finished(g, b, u.work) {
      AdvanceMakesProgress(g, b, u.work);
    }
  }

  lemma OthersRest(g: Grid, s: State, s': State, b: Block)
    requires Typed(g, s') && StepOf(g, s, s', b)
    ensures forall n | g.IsBlock(n) && n != b :: Ranks(g, s'.ults)[n] == Ranks(g, s.ults)[n]
  {
    assert forall n | g.IsBlock(n) && n != b :: s'.ults[n] == s.ults[n];
  }

  /** Every step that is not a yield brings the end closer; a yield changes nothing. */
  lemma StepsLeftDrops(g: Grid, run: Trace<State>, s': State, b: Block)
    requires Run(g, run) && (StepOf(g, run.s, s', b) || YieldOf(g, run.s, s', b))
    ensures if StepOf(g, run.s, s', b) then StepsLeft(g, s') < StepsLeft(g, run.s) else s' == run.s
  {
    var s := run.s;
    RunInv(g, run);
    if StepOf(g, s, s', b) {
      assert Typed(g, s') by { StepKeeps(g, s, s', b); }
      OwnRankDrops(g, s, s', b);
      OthersRest(g, s, s', b);
      SumDecreases(g, Ranks(g, s.ults), Ranks(g, s'.ults), b);
    }
  }

  function IterationsLeft(g: Grid, flags: Flags): map<Block, nat> {
    map b | b in flags :: if flags[b] <= g.iters then g.iters - flags[b] else 0
  }

  lemma PublishCounts(g: Grid, s: State, s': State, b: Block)
    requires Inv(g, s) && Typed(g, s') && g.IsBlock(b) && StepPublish(g, s, s', b)
    ensures Covers(g, IterationsLeft(g, s.flags)) && Covers(g, IterationsLeft(g, s'.flags))
    ensures Sum(g, IterationsLeft(g, s'.flags)) < Sum(g, IterationsLeft(g, s.flags))
  {
    var left, left' := IterationsLeft(g, s.flags), IterationsLeft(g, s'.flags);
    assert left'[b] < left[b] by {
      assert UltOk(g, b, s.ults[b], s.flags[b]);
    }
    assert forall n | g.IsBlock(n) && n != b :: left'[n] == left[n];
    SumDecreases(g, left, left', b);
  }

  /** The number of iterations that remain over all blocks falls with each block completion, that is
      with each store to a flag, and no other step changes it. */
  lemma CompletionsCount(g: Grid, run: Trace<State>, s': State, b: Block)
    requires Run(g, run) && StepOf(g, run.s, s', b)
    ensures Covers(g, IterationsLeft(g, run.s.flags)) && Covers(g, IterationsLeft(g, s'.flags))
    ensures if StepPublish(g, run.s, s', b)
            then Sum(g, IterationsLeft(g, s'.flags)) < Sum(g, IterationsLeft(g, run.s.flags))
            else s'.flags == run.s.flags
  {
    RunInv(g, run);
    assert Typed(g, s') by { StepKeeps(g, run.s, s', b); }
    if StepPublish(g, run.s, s', b) {
      PublishCounts(g, run.s, s', b);
    }
  }

  /** Whatever has happened so far, the run can be completed until all ULTs have returned. */
  lemma {:induction false} RunsFinish(g: Grid, run: Trace<State>) returns (run': Trace<State>)
    requires Run(g, run)
    ensures Run(g, run') && Typed(g, run'.s) && AllDone(g, run'.s) && run'.First() == run.First()
    decreases StepsLeft(g, run.s)
  {
    NeverStuck(g, run);
    if AllDone(g, run.s) {
      return run;
    }
    var b, s' :| StepOf(g, run.s, s', b);
    assert Next(g, run.s, s');
    StepsLeftDrops(g, run, s', b);
    run' := RunsFinish(g, Then(run, s'));
  }

  lemma Starts(g: Grid) returns (s: State)
    requires g.Valid()
    ensures Init(g, s)
  {
    s := State(Two(g.init, g.init),
               map b | b in Blocks(g) :: Ult(Start(g, b, 0), false, Head),
               map b | b in Blocks(g) :: 0);
  }

  /** For every grid there is a complete run, and it ends with the sequential answer. */
  lemma CompleteRunExists(g: Grid) returns (run: Trace<State>)
    requires g.Valid()
    ensures Run(g, run) && Typed(g, run.s) && AllDone(g, run.s)
    ensures forall x, y | g.InGrid(x, y) ::
              run.s.bufs.Get(g.iters % 2 == 1)[g.Index(x, y)] == g.Ref(g.iters, x, y)
  {
    var s := Starts(g);
    run := RunsFinish(g, Begin(s));
    forall x, y | g.InGrid(x, y)
      ensures run.s.bufs.Get(g.iters % 2 == 1)[g.Index(x, y)] == g.Ref(g.iters, x, y)
    {
      EveryInterleavingIsSequential(g, run, x, y);
    }
  }
}
