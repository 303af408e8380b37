/** The stencil whose blocks synchronise with their neighbours through two alternating futures. Each
    block is one ULT; a step is one critical section of a future, one cell update, or local code. */
module StencilFutures {
  import opened StencilGrid
  import opened StencilBuffers
  import opened Futures
  import opened Traces

  /** kernel passes NULL as the value of every future. */
  datatype Null = Null

  type F = FutureState<Null, Block>

  /** Where a ULT is in kernel: at the loop head, calling ABT_future_wait, asleep inside it, calling
      ABT_future_reset, in the loop nest, or about to signal neighbour i (4 when all are signalled). */
  datatype Pc = Head | Wait | Suspended | Reset | Compute | Signal(i: nat)

  /** flipped says which of the two futures, and which of the two arrays, the ULT calls old. */
  datatype Ult = Ult(work: Work, flipped: bool, pc: Pc)

  type Ults = map<Block, Ult>

  type FutureMap = map<Block, Two<F>>

  datatype State = State(bufs: Buffers, ults: Ults, futures: FutureMap)

  // ----- the program

  function B2N(c: bool): nat { if c then 1 else 0 }

  /** num_neighbors in main, from direction i on. */
  function NeighborsFrom(g: Grid, b: Block, i: nat): nat
    requires i <= 4
    decreases 4 - i
  {
    if i == 4 then 0 else B2N(g.IsBlock(Nbr(b, i))) + NeighborsFrom(g, b, i + 1)
  }

  function Compartments(g: Grid, b: Block): nat {
    NeighborsFrom(g, b, 0)
  }

  ghost predicate Init(g: Grid, s: State) {
    && s.bufs == Two(g.init, g.init)
    && (forall b :: b in s.ults <==> g.IsBlock(b))
    && (forall b :: b in s.futures <==> g.IsBlock(b))
    && (forall b | g.IsBlock(b) :: s.ults[b] == Ult(Start(g, b, 0), false, Head))
    && (forall b | g.IsBlock(b) ::
          s.futures[b] == Two(Create(Compartments(g, b)), Create(Compartments(g, b))))
  }

  /** Resumed waiters go on with the statement after ABT_future_wait. */
  function Wake(ults: Ults, woken: seq<Block>): Ults {
    map b | b in ults :: if b in woken then ults[b].(pc := Reset) else ults[b]
  }

  /** Every block, and nothing else, has a ULT and two futures. */
  ghost predicate Shaped(g: Grid, ults: Ults, futures: FutureMap) {
    && (forall b :: b in ults <==> g.IsBlock(b))
    && (forall b :: b in futures <==> g.IsBlock(b))
  }

  ghost predicate Typed(g: Grid, s: State) {
    g.Valid() && Sized(g, s.bufs) && Shaped(g, s.ults, s.futures)
  }

  /** The loop head: leave the loop, or enter iteration t. The first iteration does not wait. */
  ghost predicate StepHead(g: Grid, s: State, s': State, b: Block)
    requires Typed(g, s) && g.IsBlock(b)
  {
    var u := s.ults[b];
    && u.pc == Head && u.work.t < g.iters
    && s' == s.(ults := s.ults[b := u.(pc := if u.work.t != 0 then Wait else Compute)])
  }

  ghost predicate StepWait(g: Grid, s: State, s': State, b: Block)
    requires Typed(g, s) && g.IsBlock(b)
  {
    var u := s.ults[b];
    && u.pc == Wait
    && var (f, suspended) := s.futures[b].Get(u.flipped).Wait(b);
    s' == s.(ults := s.ults[b := u.(pc := if suspended then Suspended else Reset)],
             futures := s.futures[b := s.futures[b].Put(u.flipped, f)])
  }

  ghost predicate StepReset(g: Grid, s: State, s': State, b: Block)
    requires Typed(g, s) && g.IsBlock(b)
  {
    var u := s.ults[b];
    && u.pc == Reset
    && s' == s.(ults := s.ults[b := u.(pc := Compute)],
                futures := s.futures[b := s.futures[b].Put(u.flipped, s.futures[b].Get(u.flipped).Reset())])
  }

  /** One assignment of the loop nest, or its end. */
  ghost predicate StepCompute(g: Grid, s: State, s': State, b: Block)
    requires Typed(g, s) && g.IsBlock(b)
  {
    var u := s.ults[b];
    && u.pc == Compute && InRange(g, b, u.work)
    && if Finished(g, b, u.work) then
         s' == s.(ults := s.ults[b := u.(pc := Signal(0))])
       else
         BlockIsInterior(g, b, u.work.x, u.work.y);
         s' == s.(bufs := KernelWrite(g, s.bufs, u.flipped, u.work.x, u.work.y),
                  ults := s.ults[b := u.(work := Advance(g, b, u.work))])
  }

  /** One turn of the signalling loop. A failing ABT_future_set is ignored, as in the source. */
  ghost predicate StepSignal(g: Grid, s: State, s': State, b: Block)
    requires Typed(g, s) && g.IsBlock(b)
  {
    var u := s.ults[b];
    && u.pc.Signal? && u.pc.i < 4
    && var n := Nbr(b, u.pc.i);
    var ults := s.ults[b := u.(pc := Signal(u.pc.i + 1))];
    if g.IsBlock(n) then
      var (f, code, woken) := s.futures[n].Get(!u.flipped).Set(Null);
      s' == s.(ults := Wake(ults, woken), futures := s.futures[n := s.futures[n].Put(!u.flipped, f)])
    else
      s' == s.(ults := ults)
  }

  /** Swap the arrays and the futures, and go back to the loop head. */
  ghost predicate StepSwap(g: Grid, s: State, s': State, b: Block)
    requires Typed(g, s) && g.IsBlock(b)
  {
    var u := s.ults[b];
    && u.pc == Signal(4)
    && s' == s.(ults := s.ults[b := Ult(Start(g, b, u.work.t + 1), !u.flipped, Head)])
  }

  ghost predicate StepOf(g: Grid, s: State, s': State, b: Block) {
    && Typed(g, s) && g.IsBlock(b)
    && (|| StepHead(g, s, s', b) || StepWait(g, s, s', b) || StepReset(g, s, s', b)
        || StepCompute(g, s, s', b) || StepSignal(g, s, s', b) || StepSwap(g, s, s', b))
  }

  ghost predicate Next(g: Grid, s: State, s': State) {
    exists b :: StepOf(g, s, s', b)
  }

  ghost predicate Run(g: Grid, run: Trace<State>) {
    match run
    case Begin(s) => g.Valid() && Init(g, s)
    case Then(prefix, s) => Run(g, prefix) && Next(g, prefix.s, s)
  }

  // ----- the invariant

  /** Iterations whose signal b has sent in direction i. */
  function Sent(u: Ult, i: Dir): nat {
    u.work.t + B2N(u.pc.Signal? && i < u.pc.i)
  }

  predicate BeforeLoop(pc: Pc) { pc.Head? || pc.Wait? || pc.Suspended? || pc.Reset? }

  /** How often b has reset a future. */
  function Resets(u: Ult): nat {
    if u.work.t == 0 then 0
    else if BeforeLoop(u.pc) then u.work.t - 1
    else u.work.t
  }

  /** The neighbour in direction i exists and has signalled at least k iterations to b. */
  predicate HasSent(g: Grid, ults: Ults, b: Block, i: Dir, k: nat)
    requires Covers(g, ults)
  {
    g.IsBlock(Nbr(b, i)) && Sent(ults[Nbr(b, i)], Opp(i)) >= k
  }

  function SentFrom(g: Grid, ults: Ults, b: Block, k: nat, i: nat): nat
    requires i <= 4 && Covers(g, ults)
    decreases 4 - i
  {
    if i == 4 then 0 else B2N(HasSent(g, ults, b, i, k)) + SentFrom(g, ults, b, k, i + 1)
  }

  /** How many neighbours have signalled at least k iterations to b. */
  function CountSent(g: Grid, ults: Ults, b: Block, k: nat): nat
    requires Covers(g, ults)
  {
    SentFrom(g, ults, b, k, 0)
  }

  predicate UltOk(g: Grid, b: Block, u: Ult) {
    && u.work.t <= g.iters
    && u.flipped == Odd(u.work.t)
    && InRange(g, b, u.work)
    && (u.pc != Head ==> u.work.t < g.iters)
    && (BeforeLoop(u.pc) ==> u.work == Start(g, b, u.work.t))
    && (u.pc.Wait? || u.pc.Suspended? || u.pc.Reset? ==> u.work.t > 0)
    && (u.pc.Signal? ==> u.pc.i <= 4 && Finished(g, b, u.work))
  }

  /** No block has consumed a signal that was not sent. */
  ghost predicate SignalsOk(g: Grid, ults: Ults)
    requires Covers(g, ults)
  {
    forall b, i: Dir {:trigger Sent(ults[Nbr(b, i)], Opp(i))} | g.IsBlock(b) && g.IsBlock(Nbr(b, i)) ::
      Resets(ults[b]) <= Sent(ults[Nbr(b, i)], Opp(i))
  }

  /** The future a block waits on next holds near values, one per neighbour that has signalled the
      iteration the block needs next; the other one holds far values, one per neighbour that is already
      one iteration further. Only the block itself ever sleeps on them. */
  predicate FuturesFit(b: Block, u: Ult, fs: Two<F>, num: nat, near: nat, far: nat) {
    var nearer, farther := fs.Get(!Odd(Resets(u))), fs.Get(Odd(Resets(u)));
    && nearer.num == num && farther.num == num
    && |nearer.values| == near && |farther.values| == far
    && farther.waiters == []
    && nearer.waiters == (if u.pc == Suspended then [b] else [])
    && (u.pc == Suspended ==> near < num)
    && (u.pc == Reset ==> near >= num)
  }

  predicate FutureOk(g: Grid, ults: Ults, fs: Two<F>, b: Block)
    requires Covers(g, ults) && g.IsBlock(b)
  {
    FuturesFit(b, ults[b], fs, Compartments(g, b),
               CountSent(g, ults, b, Resets(ults[b]) + 1), CountSent(g, ults, b, Resets(ults[b]) + 2))
  }

  function WorkOf(ults: Ults): map<Block, Work> {
    map b | b in ults :: ults[b].work
  }

  /** Everything but the contents of the arrays. */
  ghost predicate SyncOk(g: Grid, ults: Ults, futures: FutureMap) {
    && Shaped(g, ults, futures)
    && (forall b {:trigger UltOk(g, b, ults[b])} | g.IsBlock(b) :: UltOk(g, b, ults[b]))
    && SignalsOk(g, ults)
    && (forall b {:trigger FutureOk(g, ults, futures[b], b)} | g.IsBlock(b) :: FutureOk(g, ults, futures[b], b))
  }

  ghost predicate Inv(g: Grid, s: State) {
    && Typed(g, s)
    && SyncOk(g, s.ults, s.futures)
    && BuffersOk(g, s.bufs, WorkOf(s.ults))
  }

  // ----- consequences of the invariant

  /** Two neighbours that consume no signal before it is sent stay close together. */
  lemma PairClose(g: Grid, b: Block, u: Ult, i: Dir, n: Block, v: Ult, j: Dir)
    requires UltOk(g, b, u) && UltOk(g, n, v)
    requires Resets(u) <= Sent(v, j) && Resets(v) <= Sent(u, i)
    ensures Sent(v, j) <= Resets(u) + 2
    ensures u.pc == Compute ==> Shows(g, n, v.work, u.work.t)
    ensures u.pc.Signal? && u.pc.i == i ==> Resets(v) <= u.work.t <= Resets(v) + 1
  {
  }

  lemma NeighborClose(g: Grid, ults: Ults, futures: FutureMap, b: Block, i: Dir)
    requires SyncOk(g, ults, futures) && g.IsBlock(b) && g.IsBlock(Nbr(b, i))
    ensures var u, v := ults[b], ults[Nbr(b, i)];
            && Resets(u) <= Sent(v, Opp(i)) <= Resets(u) + 2
            && (u.pc == Compute ==> Shows(g, Nbr(b, i), v.work, u.work.t))
            && (u.pc.Signal? && u.pc.i == i ==> Resets(v) <= u.work.t <= Resets(v) + 1)
  {
    var n := Nbr(b, i);
    NbrBack(b, i);
    assert UltOk(g, b, ults[b]) && UltOk(g, n, ults[n]);
    assert Resets(ults[b]) <= Sent(ults[n], Opp(i));
    assert Resets(ults[n]) <= Sent(ults[Nbr(n, Opp(i))], Opp(Opp(i)));
    PairClose(g, b, ults[b], i, n, ults[n], Opp(i));
  }

  // ----- counting the neighbours that have signalled

  ghost predicate SameSent(g: Grid, ults: Ults, ults': Ults)
    requires Covers(g, ults) && Covers(g, ults')
  {
    forall b, i: Dir {:trigger Sent(ults'[b], i)} | g.IsBlock(b) :: Sent(ults'[b], i) == Sent(ults[b], i)
  }

  lemma SameFrom(g: Grid, ults: Ults, ults': Ults, b: Block, k: nat, i: nat)
    requires Covers(g, ults) && Covers(g, ults')
    requires i <= 4 && forall j: Dir | i <= j :: HasSent(g, ults', b, j, k) == HasSent(g, ults, b, j, k)
    ensures SentFrom(g, ults', b, k, i) == SentFrom(g, ults, b, k, i)
    decreases 4 - i
  {
    if i < 4 {
      var d: Dir := i;
      assert HasSent(g, ults', b, d, k) == HasSent(g, ults, b, d, k);
      SameFrom(g, ults, ults', b, k, i + 1);
    }
  }

  lemma SameCounts(g: Grid, ults: Ults, ults': Ults, b: Block, k: nat)
    requires Covers(g, ults) && Covers(g, ults')
    requires SameSent(g, ults, ults') && g.IsBlock(b)
    ensures CountSent(g, ults', b, k) == CountSent(g, ults, b, k)
  {
    forall i: Dir
      ensures HasSent(g, ults', b, i, k) == HasSent(g, ults, b, i, k)
    {
    }
    SameFrom(g, ults, ults', b, k, 0);
  }

  lemma OneMoreFrom(g: Grid, ults: Ults, ults': Ults, b: Block, k: nat, d: Dir, i: nat)
    requires Covers(g, ults) && Covers(g, ults')
    requires i <= 4 && forall j: Dir | j != d :: HasSent(g, ults', b, j, k) == HasSent(g, ults, b, j, k)
    requires HasSent(g, ults', b, d, k) && !HasSent(g, ults, b, d, k)
    ensures SentFrom(g, ults', b, k, i) == SentFrom(g, ults, b, k, i) + B2N(i <= d)
    decreases 4 - i
  {
    if i < 4 {
      var e: Dir := i;
      assert e != d ==> HasSent(g, ults', b, e, k) == HasSent(g, ults, b, e, k);
      OneMoreFrom(g, ults, ults', b, k, d, i + 1);
    }
  }

  lemma FullFrom(g: Grid, ults: Ults, b: Block, k: nat, i: nat)
    requires i <= 4 && Covers(g, ults)
    ensures SentFrom(g, ults, b, k, i) <= NeighborsFrom(g, b, i)
    ensures SentFrom(g, ults, b, k, i) == NeighborsFrom(g, b, i) <==>
            forall j: Dir | i <= j && g.IsBlock(Nbr(b, j)) :: HasSent(g, ults, b, j, k)
    decreases 4 - i
  {
    if i < 4 {
      var d: Dir := i;
      assert HasSent(g, ults, b, d, k) ==> g.IsBlock(Nbr(b, d));
      FullFrom(g, ults, b, k, i + 1);
    }
  }

  /** As many signals as compartments means a signal from every neighbour. */
  lemma CountFull(g: Grid, ults: Ults, b: Block, k: nat)
    requires Covers(g, ults) && g.IsBlock(b)
    ensures CountSent(g, ults, b, k) <= Compartments(g, b)
    ensures CountSent(g, ults, b, k) == Compartments(g, b) <==>
            forall i: Dir | g.IsBlock(Nbr(b, i)) :: HasSent(g, ults, b, i, k)
  {
    FullFrom(g, ults, b, k, 0);
  }

  lemma CountNone(g: Grid, ults: Ults, b: Block, k: nat, i: nat)
    requires i <= 4 && Covers(g, ults)
    requires forall i: Dir :: !HasSent(g, ults, b, i, k)
    ensures SentFrom(g, ults, b, k, i) == 0
    decreases 4 - i
  {
    if i < 4 {
      var d: Dir := i;
      assert !HasSent(g, ults, b, d, k);
      CountNone(g, ults, b, k, i + 1);
    }
  }

  // ----- steps that neither send nor consume a signal

  /** A step of b alone that sends and consumes nothing. */
  ghost predicate Quiet(g: Grid, u: Ult, fs: Two<F>, b: Block, u': Ult, fs': Two<F>)
  {
    && UltOk(g, b, u')
    && Resets(u') == Resets(u)
    && (forall i: Dir :: Sent(u', i) == Sent(u, i))
    && forall num, near, far | FuturesFit(b, u, fs, num, near, far) ::
         FuturesFit(b, u', fs', num, near, far)
  }

  /** A block matches its futures as long as its counts, its resets and its way of waiting stay. */
  lemma FutureTransfer(g: Grid, ults: Ults, ults': Ults, fs: Two<F>, n: Block)
    requires Covers(g, ults) && Covers(g, ults') && g.IsBlock(n) && FutureOk(g, ults, fs, n)
    requires Resets(ults'[n]) == Resets(ults[n])
    requires ults'[n].pc.Suspended? == ults[n].pc.Suspended? && ults'[n].pc.Reset? == ults[n].pc.Reset?
    requires CountSent(g, ults', n, Resets(ults[n]) + 1) == CountSent(g, ults, n, Resets(ults[n]) + 1)
    requires CountSent(g, ults', n, Resets(ults[n]) + 2) == CountSent(g, ults, n, Resets(ults[n]) + 2)
    ensures FutureOk(g, ults', fs, n)
  {
  }

  lemma QuietFuture(g: Grid, ults: Ults, ults': Ults, fs: Two<F>, fs': Two<F>, n: Block)
    requires Covers(g, ults) && Covers(g, ults')
    requires SameSent(g, ults, ults') && g.IsBlock(n)
    requires Resets(ults'[n]) == Resets(ults[n])
    requires FutureOk(g, ults, fs, n)
    requires forall num, near, far | FuturesFit(n, ults[n], fs, num, near, far) ::
               FuturesFit(n, ults'[n], fs', num, near, far)
    ensures FutureOk(g, ults', fs', n)
  {
    SameCounts(g, ults, ults', n, Resets(ults[n]) + 1);
    SameCounts(g, ults, ults', n, Resets(ults[n]) + 2);
  }

  lemma SameSignalsOk(g: Grid, ults: Ults, ults': Ults)
    requires Covers(g, ults) && Covers(g, ults')
    requires SameSent(g, ults, ults') && SignalsOk(g, ults)
    requires forall b | g.IsBlock(b) :: Resets(ults'[b]) == Resets(ults[b])
    ensures SignalsOk(g, ults')
  {
  }

  /** The blocks that a step does not touch stay as they are when their counts do. */
  lemma OthersKeep(g: Grid, ults: Ults, futures: FutureMap, ults': Ults,
                   touched: set<Block>)
    requires SyncOk(g, ults, futures) && Covers(g, ults')
    requires SameSent(g, ults, ults')
    requires forall n | g.IsBlock(n) && n !in touched :: ults'[n] == ults[n]
    ensures forall n {:trigger UltOk(g, n, ults'[n])} {:trigger FutureOk(g, ults', futures[n], n)}
              | g.IsBlock(n) && n !in touched :: UltOk(g, n, ults'[n]) && FutureOk(g, ults', futures[n], n)
  {
    forall n | g.IsBlock(n) && n !in touched
      ensures UltOk(g, n, ults'[n]) && FutureOk(g, ults', futures[n], n)
    {
      assert UltOk(g, n, ults[n]) && FutureOk(g, ults, futures[n], n);
      SameCounts(g, ults, ults', n, Resets(ults[n]) + 1);
      SameCounts(g, ults, ults', n, Resets(ults[n]) + 2);
      FutureTransfer(g, ults, ults', futures[n], n);
    }
  }

  /** The futures of n were replaced. */
  lemma OneFutureChanged(g: Grid, ults: Ults, futures: FutureMap, n: Block, fs': Two<F>)
    requires Shaped(g, ults, futures) && SignalsOk(g, ults) && g.IsBlock(n)
    requires forall m {:trigger UltOk(g, m, ults[m])} | g.IsBlock(m) :: UltOk(g, m, ults[m])
    requires forall m {:trigger FutureOk(g, ults, futures[m], m)} | g.IsBlock(m) && m != n ::
               FutureOk(g, ults, futures[m], m)
    requires FutureOk(g, ults, fs', n)
    ensures SyncOk(g, ults, futures[n := fs'])
  {
    var futures' := futures[n := fs'];
    forall m | g.IsBlock(m)
      ensures FutureOk(g, ults, futures'[m], m)
    {
      if m != n {
        assert futures'[m] == futures[m];
        assert FutureOk(g, ults, futures[m], m);
      }
    }
    assert Shaped(g, ults, futures');
    assert SyncOk(g, ults, futures');
  }

  lemma OneUltChanged(g: Grid, ults: Ults, futures: FutureMap, b: Block, u': Ult, fs': Two<F>)
    requires SyncOk(g, ults, futures) && g.IsBlock(b) && UltOk(g, b, u')
    requires SameSent(g, ults, ults[b := u']) && SignalsOk(g, ults[b := u'])
    requires FutureOk(g, ults[b := u'], fs', b)
    ensures SyncOk(g, ults[b := u'], futures[b := fs'])
  {
    var ults' := ults[b := u'];
    OthersKeep(g, ults, futures, ults', {b});
    forall n | g.IsBlock(n)
      ensures UltOk(g, n, ults'[n])
    {
      assert n != b ==> UltOk(g, n, ults'[n]);
    }
    OneFutureChanged(g, ults', futures, b, fs');
  }

  lemma QuietStep(g: Grid, ults: Ults, futures: FutureMap, b: Block, u': Ult, fs': Two<F>)
    requires SyncOk(g, ults, futures) && g.IsBlock(b) && Quiet(g, ults[b], futures[b], b, u', fs')
    ensures SyncOk(g, ults[b := u'], futures[b := fs'])
  {
    var ults' := ults[b := u'];
    assert SignalsOk(g, ults') by { SameSignalsOk(g, ults, ults'); }
    assert FutureOk(g, ults', fs', b) by {
      assert FutureOk(g, ults, futures[b], b);
      QuietFuture(g, ults, ults', futures[b], fs', b);
    }
    OneUltChanged(g, ults, futures, b, u', fs');
  }

  lemma HeadKeeps(g: Grid, s: State, s': State, b: Block)
    requires Inv(g, s) && g.IsBlock(b) && StepHead(g, s, s', b)
    ensures SyncOk(g, s'.ults, s'.futures) && WorkOf(s'.ults) == WorkOf(s.ults)
  {
    assert UltOk(g, b, s.ults[b]);
    QuietStep(g, s.ults, s.futures, b, s'.ults[b], s.futures[b]);
    assert s.futures[b := s.futures[b]] == s.futures;
  }

  lemma WaitKeeps(g: Grid, s: State, s': State, b: Block)
    requires Inv(g, s) && g.IsBlock(b) && StepWait(g, s, s', b)
    ensures SyncOk(g, s'.ults, s'.futures) && WorkOf(s'.ults) == WorkOf(s.ults)
  {
    assert UltOk(g, b, s.ults[b]);
    QuietStep(g, s.ults, s.futures, b, s'.ults[b], s'.futures[b]);
  }

  /** What the loop nest does to its own ULT. */
  function Computed(g: Grid, b: Block, u: Ult): Ult {
    if Finished(g, b, u.work) then u.(pc := Signal(0)) else u.(work := Advance(g, b, u.work))
  }

  lemma ComputeQuiet(g: Grid, u: Ult, fs: Two<F>, b: Block)
    requires UltOk(g, b, u) && u.pc == Compute
    ensures Quiet(g, u, fs, b, Computed(g, b, u), fs)
  {
    if !Finished(g, b, u.work) {
      AdvanceMakesProgress(g, b, u.work);
    }
  }

  lemma ComputeKeeps(g: Grid, s: State, s': State, b: Block)
    requires Inv(g, s) && g.IsBlock(b) && StepCompute(g, s, s', b)
    ensures SyncOk(g, s'.ults, s'.futures)
  {
    assert UltOk(g, b, s.ults[b]);
    ComputeQuiet(g, s.ults[b], s.futures[b], b);
    QuietStep(g, s.ults, s.futures, b, Computed(g, b, s.ults[b]), s.futures[b]);
    assert s.futures[b := s.futures[b]] == s.futures;
  }

  lemma SwapKeeps(g: Grid, s: State, s': State, b: Block)
    requires Inv(g, s) && g.IsBlock(b) && StepSwap(g, s, s', b)
    ensures SyncOk(g, s'.ults, s'.futures)
  {
    assert UltOk(g, b, s.ults[b]);
    QuietStep(g, s.ults, s.futures, b, s'.ults[b], s.futures[b]);
    assert s.futures[b := s.futures[b]] == s.futures;
  }

  // ----- consuming a signal

  /** A reset hits a future that is full, that nobody waits on, and that holds no signal of a later
      iteration: every one of its values was sent in the iteration that b has been waiting for. */
  lemma ResetIsSafe(g: Grid, ults: Ults, futures: FutureMap, b: Block)
    requires SyncOk(g, ults, futures) && g.IsBlock(b) && ults[b].pc == Reset
    ensures futures[b].Get(ults[b].flipped).Ready() && futures[b].Get(ults[b].flipped).waiters == []
    ensures forall i: Dir | g.IsBlock(Nbr(b, i)) ::
              ults[b].work.t <= Sent(ults[Nbr(b, i)], Opp(i)) <= ults[b].work.t + 1
    ensures CountSent(g, ults, b, ults[b].work.t + 2) == 0
  {
    assert UltOk(g, b, ults[b]) && FutureOk(g, ults, futures[b], b);
    var t := ults[b].work.t;
    CountFull(g, ults, b, t);
    forall i: Dir | g.IsBlock(Nbr(b, i))
      ensures t <= Sent(ults[Nbr(b, i)], Opp(i)) <= t + 1
    {
      assert HasSent(g, ults, b, i, t);
      NeighborClose(g, ults, futures, b, i);
    }
    var k := t + 2;
    assert forall i: Dir :: !HasSent(g, ults, b, i, k);
    CountNone(g, ults, b, k, 0);
  }

  lemma ResetFits(b: Block, u: Ult, fs: Two<F>, num: nat, near: nat, far: nat)
    requires FuturesFit(b, u, fs, num, near, far)
    requires u.pc == Reset && u.work.t > 0 && u.flipped == Odd(u.work.t)
    ensures FuturesFit(b, u.(pc := Compute), fs.Put(u.flipped, fs.Get(u.flipped).Reset()), num, far, 0)
  {
  }

  lemma ResetCounts(g: Grid, ults: Ults, futures: FutureMap, b: Block)
    requires SyncOk(g, ults, futures) && g.IsBlock(b) && ults[b].pc == Reset
    ensures var ults', t := ults[b := ults[b].(pc := Compute)], ults[b].work.t;
            && CountSent(g, ults', b, t + 1) == CountSent(g, ults, b, t + 1)
            && CountSent(g, ults', b, t + 2) == 0
  {
    var ults', t := ults[b := ults[b].(pc := Compute)], ults[b].work.t;
    ResetIsSafe(g, ults, futures, b);
    assert SameSent(g, ults, ults');
    SameCounts(g, ults, ults', b, t + 1);
    SameCounts(g, ults, ults', b, t + 2);
  }

  lemma ResetFuture(g: Grid, ults: Ults, futures: FutureMap, b: Block)
    requires SyncOk(g, ults, futures) && g.IsBlock(b) && ults[b].pc == Reset
    ensures var p, ults' := ults[b].flipped, ults[b := ults[b].(pc := Compute)];
            FutureOk(g, ults', futures[b].Put(p, futures[b].Get(p).Reset()), b)
  {
    var u := ults[b];
    var near, far := CountSent(g, ults, b, u.work.t), CountSent(g, ults, b, u.work.t + 1);
    assert UltOk(g, b, u);
    assert FuturesFit(b, u, futures[b], Compartments(g, b), near, far) by {
      assert FutureOk(g, ults, futures[b], b);
    }
    ResetCounts(g, ults, futures, b);
    ResetFits(b, u, futures[b], Compartments(g, b), near, far);
  }

  lemma ResetSignals(g: Grid, ults: Ults, futures: FutureMap, b: Block)
    requires SyncOk(g, ults, futures) && g.IsBlock(b) && ults[b].pc == Reset
    ensures SignalsOk(g, ults[b := ults[b].(pc := Compute)])
  {
    var ults' := ults[b := ults[b].(pc := Compute)];
    ResetIsSafe(g, ults, futures, b);
    assert UltOk(g, b, ults[b]);
    forall n, i: Dir | g.IsBlock(n) && g.IsBlock(Nbr(n, i))
      ensures Resets(ults'[n]) <= Sent(ults'[Nbr(n, i)], Opp(i))
    {
      assert Resets(ults[n]) <= Sent(ults[Nbr(n, i)], Opp(i));
    }
  }

  lemma ResetSync(g: Grid, ults: Ults, futures: FutureMap, b: Block)
    requires SyncOk(g, ults, futures) && g.IsBlock(b) && ults[b].pc == Reset
    ensures var p := ults[b].flipped;
            SyncOk(g, ults[b := ults[b].(pc := Compute)], futures[b := futures[b].Put(p, futures[b].Get(p).Reset())])
  {
    var u' := ults[b].(pc := Compute);
    var fs' := futures[b].Put(ults[b].flipped, futures[b].Get(ults[b].flipped).Reset());
    assert SignalsOk(g, ults[b := u']) by { ResetSignals(g, ults, futures, b); }
    assert FutureOk(g, ults[b := u'], fs', b) by { ResetFuture(g, ults, futures, b); }
    assert UltOk(g, b, u') by { assert UltOk(g, b, ults[b]); }
    OneUltChanged(g, ults, futures, b, u', fs');
  }

  lemma ResetKeeps(g: Grid, s: State, s': State, b: Block)
    requires Inv(g, s) && g.IsBlock(b) && StepReset(g, s, s', b)
    ensures SyncOk(g, s'.ults, s'.futures) && WorkOf(s'.ults) == WorkOf(s.ults)
  {
    ResetSync(g, s.ults, s.futures, b);
  }

  // ----- sending a signal

  lemma CountBelow(g: Grid, ults: Ults, b: Block, i: Dir, k: nat)
    requires Covers(g, ults) && g.IsBlock(b)
    requires g.IsBlock(Nbr(b, i)) && !HasSent(g, ults, b, i, k)
    ensures CountSent(g, ults, b, k) < Compartments(g, b)
  {
    CountFull(g, ults, b, k);
  }

  /** The next signal of b in direction i arrives in a future of its neighbour n that counts it and
      that is not full: the one n waits on next, or the other one. */
  predicate SignalDue(g: Grid, ults: Ults, b: Block, i: Dir)
    requires Covers(g, ults) && g.IsBlock(b) && g.IsBlock(Nbr(b, i))
  {
    var n, t := Nbr(b, i), ults[b].work.t;
    && Resets(ults[n]) <= t <= Resets(ults[n]) + 1
    && CountSent(g, ults, n, t + 1) < Compartments(g, n)
  }

  lemma SignalIsDue(g: Grid, ults: Ults, futures: FutureMap, b: Block)
    requires SyncOk(g, ults, futures) && g.IsBlock(b) && ults[b].pc.Signal? && ults[b].pc.i < 4
    requires g.IsBlock(Nbr(b, ults[b].pc.i))
    ensures SignalDue(g, ults, b, ults[b].pc.i)
  {
    var i: Dir := ults[b].pc.i;
    var n := Nbr(b, i);
    NbrBack(b, i);
    NeighborClose(g, ults, futures, b, i);
    CountBelow(g, ults, n, Opp(i), ults[b].work.t + 1);
  }

  /** The effect of a due signal on the futures of the receiver v at n. */
  lemma SetFits(n: Block, v: Ult, fs: Two<F>, num: nat, near: nat, far: nat, t: nat)
    requires FuturesFit(n, v, fs, num, near, far)
    requires Resets(v) <= t <= Resets(v) + 1 && (if t == Resets(v) then near else far) < num
    ensures var (f, code, woken) := fs.Get(!Odd(t)).Set(Null);
            && code == Success
            && woken == (if v.pc == Suspended && t == Resets(v) && near + 1 == num then [n] else [])
            && FuturesFit(n, if n in woken then v.(pc := Reset) else v, fs.Put(!Odd(t), f), num,
                          if t == Resets(v) then near + 1 else near, if t == Resets(v) then far else far + 1)
  {
  }

  function AfterSet(fs: Two<F>, p: bool): Two<F> { fs.Put(p, fs.Get(p).Set(Null).0) }

  function WokenBy(fs: Two<F>, p: bool): seq<Block> { fs.Get(p).Set(Null).2 }

  function Resumed(v: Ult, woken: bool): Ult { if woken then v.(pc := Reset) else v }

  lemma SetFutures(g: Grid, ults: Ults, fs: Two<F>, n: Block, t: nat)
    requires Covers(g, ults) && g.IsBlock(n) && FutureOk(g, ults, fs, n)
    requires Resets(ults[n]) <= t <= Resets(ults[n]) + 1 && CountSent(g, ults, n, t + 1) < Compartments(g, n)
    ensures fs.Get(!Odd(t)).Set(Null).1 == Success
    ensures WokenBy(fs, !Odd(t)) == [] || (WokenBy(fs, !Odd(t)) == [n] && ults[n].pc == Suspended)
    ensures FuturesFit(n, Resumed(ults[n], n in WokenBy(fs, !Odd(t))), AfterSet(fs, !Odd(t)), Compartments(g, n),
                       CountSent(g, ults, n, Resets(ults[n]) + 1) + B2N(t == Resets(ults[n])),
                       CountSent(g, ults, n, Resets(ults[n]) + 2) + B2N(t != Resets(ults[n])))
  {
    SetFits(n, ults[n], fs, Compartments(g, n), CountSent(g, ults, n, Resets(ults[n]) + 1),
            CountSent(g, ults, n, Resets(ults[n]) + 2), t);
  }

  /** No ABT_future_set of the kernel ever finds its future ready, and the only ULT it can wake up is
      the block that owns the future. */
  lemma SetSucceeds(g: Grid, ults: Ults, futures: FutureMap, b: Block)
    requires SyncOk(g, ults, futures) && g.IsBlock(b) && ults[b].pc.Signal? && ults[b].pc.i < 4
    requires g.IsBlock(Nbr(b, ults[b].pc.i))
    ensures var n := Nbr(b, ults[b].pc.i);
            var (f, code, woken) := futures[n].Get(!ults[b].flipped).Set(Null);
            && code == Success
            && (woken == [] || (woken == [n] && ults[n].pc == Suspended))
  {
    var n := Nbr(b, ults[b].pc.i);
    assert UltOk(g, b, ults[b]);
    SignalIsDue(g, ults, futures, b);
    assert FutureOk(g, ults, futures[n], n);
    SetFutures(g, ults, futures[n], n, ults[b].work.t);
  }

  /** The counts after b has sent the signal of iteration t in direction i: one more for its
      neighbour there, at t + 1, and no change anywhere else. */
  lemma SignalCounts(g: Grid, ults: Ults, ults': Ults, b: Block, i: Dir, m: Block, k: nat)
    requires Covers(g, ults) && Covers(g, ults')
    requires g.IsBlock(b) && g.IsBlock(m)
    requires forall n | g.IsBlock(n) && n != b :: forall j: Dir :: Sent(ults'[n], j) == Sent(ults[n], j)
    requires forall j: Dir | j != i :: Sent(ults'[b], j) == Sent(ults[b], j)
    requires Sent(ults'[b], i) == Sent(ults[b], i) + 1
    ensures CountSent(g, ults', m, k) ==
            CountSent(g, ults, m, k) + B2N(m == Nbr(b, i) && k == Sent(ults[b], i) + 1)
  {
    forall j: Dir | !(Nbr(m, j) == b && Opp(j) == i)
      ensures HasSent(g, ults', m, j, k) == HasSent(g, ults, m, j, k)
    {
    }
    NbrBack(b, i);
    if m == Nbr(b, i) && k == Sent(ults[b], i) + 1 {
      forall j: Dir | j != Opp(i)
        ensures Nbr(m, j) != b
      {
      }
      OneMoreFrom(g, ults, ults', m, k, Opp(i), 0);
    } else {
      forall j: Dir
        ensures HasSent(g, ults', m, j, k) == HasSent(g, ults, m, j, k)
      {
        NbrBack(m, j);
      }
      SameFrom(g, ults, ults', m, k, 0);
    }
  }

  lemma WakeAtMostOne(ults: Ults, n: Block)
    requires n in ults
    ensures Wake(ults, []) == ults && Wake(ults, [n]) == ults[n := ults[n].(pc := Reset)]
  {
  }

  /** b has sent its signal in direction i and woken up at most the block there. */
  ghost predicate Signalled(g: Grid, ults: Ults, ults': Ults, b: Block)
    requires Covers(g, ults) && g.IsBlock(b)
  {
    var u := ults[b];
    var n := Nbr(b, if u.pc.Signal? && u.pc.i < 4 then u.pc.i else 0);
    && u.pc.Signal? && u.pc.i < 4
    && (forall m :: m in ults' <==> m in ults)
    && ults'[b] == u.(pc := Signal(u.pc.i + 1))
    && (forall m | g.IsBlock(m) && m != b && m != n :: ults'[m] == ults[m])
    && (g.IsBlock(n) ==> ults'[n] == ults[n] || (ults[n].pc == Suspended && ults'[n] == ults[n].(pc := Reset)))
  }

  lemma SignalledSent(g: Grid, ults: Ults, ults': Ults, b: Block, m: Block, k: nat)
    requires Covers(g, ults) && g.IsBlock(b) && Signalled(g, ults, ults', b) && g.IsBlock(m)
    ensures CountSent(g, ults', m, k) ==
            CountSent(g, ults, m, k) + B2N(m == Nbr(b, ults[b].pc.i) && k == ults[b].work.t + 1)
    ensures Resets(ults'[m]) == Resets(ults[m])
  {
    SignalCounts(g, ults, ults', b, ults[b].pc.i, m, k);
  }

  lemma SignalledSignals(g: Grid, ults: Ults, ults': Ults, b: Block)
    requires Covers(g, ults) && g.IsBlock(b) && Signalled(g, ults, ults', b)
    requires SignalsOk(g, ults)
    ensures SignalsOk(g, ults')
  {
    forall n, i: Dir | g.IsBlock(n) && g.IsBlock(Nbr(n, i))
      ensures Resets(ults'[n]) <= Sent(ults'[Nbr(n, i)], Opp(i))
    {
      assert Resets(ults[n]) <= Sent(ults[Nbr(n, i)], Opp(i));
    }
  }

  lemma SignalledUlt(g: Grid, ults: Ults, ults': Ults, b: Block, m: Block)
    requires Covers(g, ults) && g.IsBlock(b) && Signalled(g, ults, ults', b)
    requires g.IsBlock(m) && UltOk(g, m, ults[m])
    ensures UltOk(g, m, ults'[m])
  {
  }

  /** Every block but the receiver keeps matching its futures. */
  lemma SignalledOther(g: Grid, ults: Ults, ults': Ults, fs: Two<F>, b: Block, m: Block)
    requires Covers(g, ults) && g.IsBlock(b) && Signalled(g, ults, ults', b)
    requires g.IsBlock(m) && m != Nbr(b, ults[b].pc.i) && FutureOk(g, ults, fs, m)
    ensures FutureOk(g, ults', fs, m)
  {
    SignalledSent(g, ults, ults', b, m, Resets(ults[m]) + 1);
    SignalledSent(g, ults, ults', b, m, Resets(ults[m]) + 2);
    FutureTransfer(g, ults, ults', fs, m);
  }

  lemma SignalledOthers(g: Grid, ults: Ults, futures: FutureMap, ults': Ults, b: Block)
    requires SyncOk(g, ults, futures) && g.IsBlock(b) && Signalled(g, ults, ults', b)
    ensures forall m {:trigger FutureOk(g, ults', futures[m], m)} | g.IsBlock(m) && m != Nbr(b, ults[b].pc.i) ::
              FutureOk(g, ults', futures[m], m)
    ensures forall m {:trigger UltOk(g, m, ults'[m])} | g.IsBlock(m) :: UltOk(g, m, ults'[m])
  {
    forall m | g.IsBlock(m)
      ensures UltOk(g, m, ults'[m])
    {
      assert UltOk(g, m, ults[m]);
      SignalledUlt(g, ults, ults', b, m);
    }
    forall m | g.IsBlock(m) && m != Nbr(b, ults[b].pc.i)
      ensures FutureOk(g, ults', futures[m], m)
    {
      assert FutureOk(g, ults, futures[m], m);
      SignalledOther(g, ults, ults', futures[m], b, m);
    }
  }

  lemma ReceiverFits(g: Grid, ults: Ults, ults': Ults, fs: Two<F>, b: Block, n: Block)
    requires Covers(g, ults) && g.IsBlock(b) && Signalled(g, ults, ults', b)
    requires n == Nbr(b, ults[b].pc.i) && g.IsBlock(n)
    requires FuturesFit(n, ults'[n], fs, Compartments(g, n),
                        CountSent(g, ults, n, Resets(ults[n]) + 1) + B2N(ults[b].work.t == Resets(ults[n])),
                        CountSent(g, ults, n, Resets(ults[n]) + 2) + B2N(ults[b].work.t != Resets(ults[n])))
    requires Resets(ults[n]) <= ults[b].work.t <= Resets(ults[n]) + 1
    ensures FutureOk(g, ults', fs, n)
  {
    SignalledSent(g, ults, ults', b, n, Resets(ults[n]) + 1);
    SignalledSent(g, ults, ults', b, n, Resets(ults[n]) + 2);
  }

  /** The receiver keeps matching its futures, one of which has one value more. */
  lemma SignalledReceiver(g: Grid, ults: Ults, ults': Ults, fs: Two<F>, b: Block, n: Block)
    requires Covers(g, ults) && g.IsBlock(b) && Signalled(g, ults, ults', b)
    requires n == Nbr(b, ults[b].pc.i) && g.IsBlock(n) && FutureOk(g, ults, fs, n)
    requires SignalDue(g, ults, b, ults[b].pc.i)
    requires ults'[n] == Resumed(ults[n], n in WokenBy(fs, !Odd(ults[b].work.t)))
    ensures FutureOk(g, ults', AfterSet(fs, !Odd(ults[b].work.t)), n)
  {
    var fs' := AfterSet(fs, !Odd(ults[b].work.t));
    assert FuturesFit(n, Resumed(ults[n], n in WokenBy(fs, !Odd(ults[b].work.t))), fs', Compartments(g, n),
                      CountSent(g, ults, n, Resets(ults[n]) + 1) + B2N(ults[b].work.t == Resets(ults[n])),
                      CountSent(g, ults, n, Resets(ults[n]) + 2) + B2N(ults[b].work.t != Resets(ults[n]))) by {
      SetFutures(g, ults, fs, n, ults[b].work.t);
    }
    ReceiverFits(g, ults, ults', fs', b, n);
  }

  /** The ULTs after b has sent its next signal. */
  function SignalUlts(ults: Ults, futures: FutureMap, b: Block): Ults
    requires b in ults && ults[b].pc.Signal? && ults[b].pc.i < 4 && Nbr(b, ults[b].pc.i) in futures
  {
    var u := ults[b];
    Wake(ults[b := u.(pc := Signal(u.pc.i + 1))], futures[Nbr(b, u.pc.i)].Get(!u.flipped).Set(Null).2)
  }

  lemma SignalWakes(g: Grid, ults: Ults, futures: FutureMap, b: Block)
    requires SyncOk(g, ults, futures) && g.IsBlock(b) && ults[b].pc.Signal? && ults[b].pc.i < 4
    requires g.IsBlock(Nbr(b, ults[b].pc.i))
    ensures var n, ults' := Nbr(b, ults[b].pc.i), SignalUlts(ults, futures, b);
            && Signalled(g, ults, ults', b)
            && ults'[n] == Resumed(ults[n], n in WokenBy(futures[n], !ults[b].flipped))
  {
    SetSucceeds(g, ults, futures, b);
    WakeAtMostOne(ults[b := ults[b].(pc := Signal(ults[b].pc.i + 1))], Nbr(b, ults[b].pc.i));
  }

  lemma SignalArrived(g: Grid, ults: Ults, futures: FutureMap, ults': Ults, b: Block, n: Block, fs': Two<F>)
    requires SyncOk(g, ults, futures) && g.IsBlock(b) && Signalled(g, ults, ults', b)
    requires n == Nbr(b, ults[b].pc.i) && g.IsBlock(n) && FutureOk(g, ults', fs', n)
    ensures SyncOk(g, ults', futures[n := fs'])
  {
    SignalledSignals(g, ults, ults', b);
    SignalledOthers(g, ults, futures, ults', b);
    OneFutureChanged(g, ults', futures, n, fs');
  }

  lemma SignalSync(g: Grid, ults: Ults, futures: FutureMap, b: Block)
    requires SyncOk(g, ults, futures) && g.IsBlock(b) && ults[b].pc.Signal? && ults[b].pc.i < 4
    requires g.IsBlock(Nbr(b, ults[b].pc.i))
    ensures var n, p := Nbr(b, ults[b].pc.i), !ults[b].flipped;
            var ults' := SignalUlts(ults, futures, b);
            && SyncOk(g, ults', futures[n := futures[n].Put(p, futures[n].Get(p).Set(Null).0)])
            && Signalled(g, ults, ults', b)
  {
    var n, p := Nbr(b, ults[b].pc.i), !ults[b].flipped;
    var ults' := SignalUlts(ults, futures, b);
    var fs' := AfterSet(futures[n], p);
    SignalWakes(g, ults, futures, b);
    assert FutureOk(g, ults', fs', n) by {
      assert UltOk(g, b, ults[b]) && FutureOk(g, ults, futures[n], n);
      SignalIsDue(g, ults, futures, b);
      SignalledReceiver(g, ults, ults', futures[n], b, n);
    }
    SignalArrived(g, ults, futures, ults', b, n, fs');
  }

  /** A ULT at the border of the grid skips the neighbour that does not exist. */
  lemma SkipSync(g: Grid, ults: Ults, futures: FutureMap, b: Block)
    requires SyncOk(g, ults, futures) && g.IsBlock(b) && ults[b].pc.Signal? && ults[b].pc.i < 4
    requires !g.IsBlock(Nbr(b, ults[b].pc.i))
    ensures SyncOk(g, ults[b := ults[b].(pc := Signal(ults[b].pc.i + 1))], futures)
  {
    var ults' := ults[b := ults[b].(pc := Signal(ults[b].pc.i + 1))];
    assert Signalled(g, ults, ults', b);
    SignalledSignals(g, ults, ults', b);
    SignalledOthers(g, ults, futures, ults', b);
    assert Shaped(g, ults', futures);
    assert SyncOk(g, ults', futures);
  }

  /** The neighbour exists and gets the signal. */
  lemma SignalKeepsInside(g: Grid, s: State, s': State, b: Block)
    requires Inv(g, s) && g.IsBlock(b) && StepSignal(g, s, s', b) && g.IsBlock(Nbr(b, s.ults[b].pc.i))
    ensures SyncOk(g, s'.ults, s'.futures) && WorkOf(s'.ults) == WorkOf(s.ults)
  {
    SignalSync(g, s.ults, s.futures, b);
    assert s'.ults == SignalUlts(s.ults, s.futures, b);
    SameWork(g, s.ults, s'.ults, b);
  }

  lemma SignalKeeps(g: Grid, s: State, s': State, b: Block)
    requires Inv(g, s) && g.IsBlock(b) && StepSignal(g, s, s', b)
    ensures SyncOk(g, s'.ults, s'.futures) && WorkOf(s'.ults) == WorkOf(s.ults)
  {
    if g.IsBlock(Nbr(b, s.ults[b].pc.i)) {
      SignalKeepsInside(g, s, s', b);
    } else {
      SkipSync(g, s.ults, s.futures, b);
      assert WorkOf(s'.ults) == WorkOf(s.ults);
    }
  }

  lemma SameWork(g: Grid, ults: Ults, ults': Ults, b: Block)
    requires (forall b :: b in ults <==> g.IsBlock(b)) && g.IsBlock(b) && Signalled(g, ults, ults', b)
    ensures WorkOf(ults') == WorkOf(ults)
  {
  }

  // ----- every run

  lemma ComputeBuffers(g: Grid, s: State, s': State, b: Block)
    requires Inv(g, s) && g.IsBlock(b) && StepCompute(g, s, s', b)
    ensures Sized(g, s'.bufs) && BuffersOk(g, s'.bufs, WorkOf(s'.ults))
  {
    var u := s.ults[b];
    assert UltOk(g, b, u);
    if Finished(g, b, u.work) {
      assert WorkOf(s'.ults) == WorkOf(s.ults);
    } else {
      NeighborsStillShow(g, s, b);
      WriteKeepsBuffers(g, s.bufs, WorkOf(s.ults), b);
      assert WorkOf(s'.ults) == WorkOf(s.ults)[b := Advance(g, b, u.work)];
    }
  }

  /** While b computes iteration t, its neighbours still show iterate t: none of them has overwritten
      a cell that b needs. */
  lemma NeighborsStillShow(g: Grid, s: State, b: Block)
    requires Inv(g, s) && g.IsBlock(b) && s.ults[b].pc == Compute
    ensures NeighborsShow(g, WorkOf(s.ults), b, s.ults[b].work.t)
  {
    forall i: Dir | g.IsBlock(Nbr(b, i))
      ensures Shows(g, Nbr(b, i), s.ults[Nbr(b, i)].work, s.ults[b].work.t)
    {
      NeighborClose(g, s.ults, s.futures, b, i);
    }
  }

  lemma SwapBuffers(g: Grid, s: State, s': State, b: Block)
    requires Inv(g, s) && g.IsBlock(b) && StepSwap(g, s, s', b)
    ensures BuffersOk(g, s'.bufs, WorkOf(s'.ults))
  {
    assert UltOk(g, b, s.ults[b]);
    SwapKeepsBuffers(g, s.bufs, WorkOf(s.ults), b);
    assert WorkOf(s'.ults) == WorkOf(s.ults)[b := Start(g, b, s.ults[b].work.t + 1)];
  }

  lemma StepKeeps(g: Grid, s: State, s': State, b: Block)
    requires Inv(g, s) && StepOf(g, s, s', b)
    ensures Inv(g, s')
  {
    if StepHead(g, s, s', b) {
      HeadKeeps(g, s, s', b);
    } else if StepWait(g, s, s', b) {
      WaitKeeps(g, s, s', b);
    } else if StepReset(g, s, s', b) {
      ResetKeeps(g, s, s', b);
    } else if StepSignal(g, s, s', b) {
      SignalKeeps(g, s, s', b);
    } else if StepCompute(g, s, s', b) {
      ComputeKeeps(g, s, s', b);
      ComputeBuffers(g, s, s', b);
    } else {
      SwapKeeps(g, s, s', b);
      SwapBuffers(g, s, s', b);
    }
  }

  lemma InitFuture(g: Grid, ults: Ults, b: Block)
    requires Covers(g, ults) && g.IsBlock(b)
    requires forall n | g.IsBlock(n) :: ults[n] == Ult(Start(g, n, 0), false, Head)
    ensures FutureOk(g, ults, Two(Create(Compartments(g, b)), Create(Compartments(g, b))), b)
  {
    var one, two := 1, 2;
    assert forall i: Dir :: !HasSent(g, ults, b, i, one);
    assert forall i: Dir :: !HasSent(g, ults, b, i, two);
    CountNone(g, ults, b, one, 0);
    CountNone(g, ults, b, two, 0);
  }

  lemma InitUlt(g: Grid, b: Block)
    requires g.IsBlock(b)
    ensures UltOk(g, b, Ult(Start(g, b, 0), false, Head))
  {
  }

  lemma InitSync(g: Grid, ults: Ults, futures: FutureMap)
    requires Shaped(g, ults, futures) && Covers(g, ults)
    requires forall b | g.IsBlock(b) :: ults[b] == Ult(Start(g, b, 0), false, Head)
    requires forall b | g.IsBlock(b) ::
               futures[b] == Two(Create(Compartments(g, b)), Create(Compartments(g, b)))
    ensures SyncOk(g, ults, futures)
  {
    forall b | g.IsBlock(b)
      ensures UltOk(g, b, ults[b]) && FutureOk(g, ults, futures[b], b)
    {
      InitUlt(g, b);
      InitFuture(g, ults, b);
    }
    assert SignalsOk(g, ults) by {
      forall b, i: Dir | g.IsBlock(b) && g.IsBlock(Nbr(b, i))
        ensures Resets(ults[b]) <= Sent(ults[Nbr(b, i)], Opp(i))
      {
      }
    }
  }

  lemma InitInv(g: Grid, s: State)
    requires g.Valid() && Init(g, s)
    ensures Inv(g, s)
  {
    InitSync(g, s.ults, s.futures);
    InitialBuffers(g, WorkOf(s.ults));
  }

  /** The invariant holds in every reachable state. */
  lemma {:induction false} RunInv(g: Grid, run: Trace<State>)
    requires Run(g, run)
    ensures Inv(g, run.s)
  {
    match run
    case Begin(s) => InitInv(g, s);
    case Then(prefix, s) =>
      RunInv(g, prefix);
      var b :| StepOf(g, prefix.s, s, b);
      StepKeeps(g, prefix.s, s, b);
  }

  // ----- the main results

  /** The ULT has returned from kernel. */
  predicate Done(g: Grid, u: Ult) {
    u.pc == Head && u.work.t == g.iters
  }

  ghost predicate AllDone(g: Grid, s: State)
    requires Typed(g, s)
  {
    forall b | g.IsBlock(b) :: Done(g, s.ults[b])
  }

  /** Every interleaving computes the sequential answer: whatever order the ULTs ran in, once all of
      them have returned, the array that main calls values_old after its last swap holds, at every
      cell, the value after all sequential iterations. */
  lemma EveryInterleavingIsSequential(g: Grid, run: Trace<State>, x: int, y: int)
    requires Run(g, run) && g.InGrid(x, y)
    ensures Typed(g, run.s)
    ensures AllDone(g, run.s) ==> run.s.bufs.Get(g.iters % 2 == 1)[g.Index(x, y)] == g.Ref(g.iters, x, y)
  {
    RunInv(g, run);
    if AllDone(g, run.s) {
      OddIsRemainder(g.iters);
      AllFinished(g, run.s.bufs, WorkOf(run.s.ults), x, y);
    }
  }

  /** In every reachable state, everything a block has finished is sequential: the array that it calls
      old shows iterate t on all its cells. */
  lemma FinishedIterates(g: Grid, run: Trace<State>, b: Block, x: int, y: int)
    requires Run(g, run) && g.IsBlock(b) && g.InBlock(b, x, y)
    ensures var s := run.s;
            && Typed(g, s) && g.InGrid(x, y)
            && s.bufs.Get(s.ults[b].flipped)[g.Index(x, y)] == g.Ref(s.ults[b].work.t, x, y)
  {
    RunInv(g, run);
    var s := run.s;
    assert UltOk(g, b, s.ults[b]);
    BlockIsInterior(g, b, x, y);
    assert BlockOk(g, s.bufs, b, WorkOf(s.ults)[b]);
    assert CellOk(g, s.bufs, s.ults[b].work, x, y);
  }

  /** No cell is overwritten while a block still needs it: as long as a block computes an iteration, the
      five cells that each of its updates reads all show the previous iterate. */
  lemma NothingOverwrittenEarly(g: Grid, run: Trace<State>, b: Block, x: int, y: int)
    requires Run(g, run) && Typed(g, run.s) && g.IsBlock(b) && g.InBlock(b, x, y)
    requires run.s.ults[b].pc == Compute
    ensures ReadsHold(g, run.s.bufs, run.s.ults[b].work.t, x, y)
  {
    RunInv(g, run);
    NeighborsStillShow(g, run.s, b);
    KernelReads(g, run.s.bufs, WorkOf(run.s.ults), b, x, y);
  }

  /** What a block relies on when it uses its futures. */
  ghost predicate LosesNothing(g: Grid, s: State, b: Block)
    requires Typed(g, s) && g.IsBlock(b)
  {
    var u, fs := s.ults[b], s.futures[b];
    var r := Resets(u);
    // The counter of the future b waits on next is the number of neighbours that have signalled the
    // iteration it needs; that of the other one, the number that are one iteration further.
    && |fs.Get(!Odd(r)).values| == CountSent(g, s.ults, b, r + 1)
    && |fs.Get(Odd(r)).values| == CountSent(g, s.ults, b, r + 2)
    // If b sleeps, it sleeps on the future it needs, and that one is not full.
    && (u.pc == Suspended ==> fs.Get(u.flipped).waiters == [b] && !fs.Get(u.flipped).Ready())
  }

  /** A set by b succeeds; a reset by b finds its future full, without waiters, and without a signal of
      a later iteration. */
  ghost predicate CallsSafely(g: Grid, s: State, b: Block)
    requires Typed(g, s) && g.IsBlock(b)
  {
    var u, fs := s.ults[b], s.futures[b];
    && (u.pc.Signal? && u.pc.i < 4 && g.IsBlock(Nbr(b, u.pc.i)) ==>
          s.futures[Nbr(b, u.pc.i)].Get(!u.flipped).Set(Null).1 == Success)
    && (u.pc == Reset ==>
          && fs.Get(u.flipped).Ready() && fs.Get(u.flipped).waiters == []
          && CountSent(g, s.ults, b, u.work.t + 2) == 0)
  }

  /** The two alternating futures lose nothing, in any reachable state. */
  lemma FuturesLoseNothing(g: Grid, run: Trace<State>, b: Block)
    requires Run(g, run) && g.IsBlock(b)
    ensures Typed(g, run.s) && LosesNothing(g, run.s, b) && CallsSafely(g, run.s, b)
  {
    RunInv(g, run);
    InvLosesNothing(g, run.s, b);
    InvCallsSafely(g, run.s, b);
  }

  lemma InvLosesNothing(g: Grid, s: State, b: Block)
    requires Inv(g, s) && g.IsBlock(b)
    ensures LosesNothing(g, s, b)
  {
    var u := s.ults[b];
    assert UltOk(g, b, u);
    assert u.pc == Suspended ==> u.flipped == !Odd(Resets(u));
    assert FutureOk(g, s.ults, s.futures[b], b);
  }

  lemma InvCallsSafely(g: Grid, s: State, b: Block)
    requires Inv(g, s) && g.IsBlock(b)
    ensures CallsSafely(g, s, b)
  {
    var u := s.ults[b];
    if u.pc.Signal? && u.pc.i < 4 && g.IsBlock(Nbr(b, u.pc.i)) {
      SetSucceeds(g, s.ults, s.futures, b);
    } else if u.pc == Reset {
      ResetIsSafe(g, s.ults, s.futures, b);
    }
  }

  /** A ULT that can take a step. */
  predicate Runnable(g: Grid, u: Ult) {
    !Done(g, u) && u.pc != Suspended
  }

  lemma RunnableSteps(g: Grid, s: State, b: Block) returns (s': State)
    requires Inv(g, s) && g.IsBlock(b) && Runnable(g, s.ults[b])
    ensures StepOf(g, s, s', b)
  {
    var u := s.ults[b];
    assert UltOk(g, b, u);
    match u.pc
    case Head => s' := s.(ults := s.ults[b := u.(pc := if u.work.t != 0 then Wait else Compute)]);
      assert StepHead(g, s, s', b);
    case Wait =>
      var (f, suspended) := s.futures[b].Get(u.flipped).Wait(b);
      s' := s.(ults := s.ults[b := u.(pc := if suspended then Suspended else Reset)],
               futures := s.futures[b := s.futures[b].Put(u.flipped, f)]);
      assert StepWait(g, s, s', b);
    case Reset =>
      s' := s.(ults := s.ults[b := u.(pc := Compute)],
               futures := s.futures[b := s.futures[b].Put(u.flipped, s.futures[b].Get(u.flipped).Reset())]);
      assert StepReset(g, s, s', b);
    case Compute =>
      if Finished(g, b, u.work) {
        s' := s.(ults := s.ults[b := u.(pc := Signal(0))]);
      } else {
        BlockIsInterior(g, b, u.work.x, u.work.y);
        s' := s.(bufs := KernelWrite(g, s.bufs, u.flipped, u.work.x, u.work.y),
                 ults := s.ults[b := u.(work := Advance(g, b, u.work))]);
      }
      assert StepCompute(g, s, s', b);
    case Signal(i) =>
      if i == 4 {
        s' := s.(ults := s.ults[b := Ult(Start(g, b, u.work.t + 1), !u.flipped, Head)]);
        assert StepSwap(g, s, s', b);
      } else {
        var n := Nbr(b, i);
        if g.IsBlock(n) {
          var f := s.futures[n].Get(!u.flipped).Set(Null).0;
          s' := s.(ults := SignalUlts(s.ults, s.futures, b),
                   futures := s.futures[n := s.futures[n].Put(!u.flipped, f)]);
        } else {
          s' := s.(ults := s.ults[b := u.(pc := Signal(i + 1))]);
        }
        assert StepSignal(g, s, s', b);
      }
  }

  /** A suspended block waits for a neighbour that is behind it; following the waits down leads to a
      block that can run. */
  lemma {:induction false} SomebodyRuns(g: Grid, s: State, b: Block) returns (c: Block)
    requires Inv(g, s) && g.IsBlock(b) && !Done(g, s.ults[b])
    ensures g.IsBlock(c) && Runnable(g, s.ults[c])
    decreases s.ults[b].work.t
  {
    if s.ults[b].pc != Suspended {
      return b;
    }
    assert UltOk(g, b, s.ults[b]) && FutureOk(g, s.ults, s.futures[b], b);
    var t := s.ults[b].work.t;
    CountFull(g, s.ults, b, t);
    var i: Dir :| g.IsBlock(Nbr(b, i)) && !HasSent(g, s.ults, b, i, t);
    var n := Nbr(b, i);
    assert Sent(s.ults[n], Opp(i)) < t;
    assert UltOk(g, n, s.ults[n]);
    c := SomebodyRuns(g, s, n);
  }

  /** No run gets stuck before all ULTs have returned. */
  lemma NeverStuck(g: Grid, run: Trace<State>)
    requires Run(g, run)
    ensures Typed(g, run.s)
    ensures AllDone(g, run.s) || exists s' :: Next(g, run.s, s')
  {
    RunInv(g, run);
    var s := run.s;
    if !AllDone(g, s) {
      var b :| g.IsBlock(b) && !Done(g, s.ults[b]);
      var c := SomebodyRuns(g, s, b);
      var s' := RunnableSteps(g, s, c);
      assert Next(g, s, s');
    }
  }

  // ----- termination

  /** A bound on the steps a ULT still has to take. */
  function Rank(g: Grid, b: Block, u: Ult): nat {
    var cells := Times(g.bs, g.bs);
    var perIteration := cells + 10;
    var rest := Times(g.iters - u.work.t - 1, perIteration);
    match u.pc
    case Head => Times(g.iters - u.work.t, perIteration)
    case Wait => rest + cells + 9
    case Suspended => rest + cells + 8
    case Reset => rest + cells + 7
    case Compute => rest + (if InRange(g, b, u.work) then CellsLeft(g, b, u.work) else 0) + 6
    case Signal(i) => rest + (if i <= 4 then 5 - i else 0)
  }

  function Ranks(g: Grid, ults: Ults): map<Block, nat> {
    map b | b in ults :: Rank(g, b, ults[b])
  }

  lemma OwnRankDrops(g: Grid, s: State, s': State, b: Block)
    requires Inv(g, s) && StepOf(g, s, s', b) && b in s'.ults
    ensures Rank(g, b, s'.ults[b]) < Rank(g, b, s.ults[b])
  {
    var u := s.ults[b];
    assert UltOk(g, b, u);
    CellsLeftBound(g, b, u.work);
    if StepCompute(g, s, s', b) && !Finished(g, b, u.work) {
      AdvanceMakesProgress(g, b, u.work);
    } else if StepSignal(g, s, s', b) {
      SignalRank(g, s, s', b);
    }
  }

  lemma SignalRank(g: Grid, s: State, s': State, b: Block)
    requires Inv(g, s) && g.IsBlock(b) && StepSignal(g, s, s', b)
    ensures forall n | g.IsBlock(n) && n != b :: n in s'.ults && Rank(g, n, s'.ults[n]) <= Rank(g, n, s.ults[n])
    ensures b in s'.ults && s'.ults[b] == s.ults[b].(pc := Signal(s.ults[b].pc.i + 1))
  {
    if g.IsBlock(Nbr(b, s.ults[b].pc.i)) {
      SignalSync(g, s.ults, s.futures, b);
    }
    assert Signalled(g, s.ults, s'.ults, b);
  }

  /** A bound on the steps that all ULTs together still have to take. */
  ghost function StepsLeft(g: Grid, s: State): nat {
    if Covers(g, Ranks(g, s.ults)) then Sum(g, Ranks(g, s.ults)) else 0
  }

  lemma StepsLeftDrops(g: Grid, s: State, s': State, b: Block)
    requires Inv(g, s) && StepOf(g, s, s', b)
    ensures StepsLeft(g, s') < StepsLeft(g, s)
  {
    StepKeeps(g, s, s', b);
    OwnRankDrops(g, s, s', b);
    if StepSignal(g, s, s', b) {
      SignalRank(g, s, s', b);
    }
    assert forall n | g.IsBlock(n) && n != b :: Rank(g, n, s'.ults[n]) <= Rank(g, n, s.ults[n]);
    SumDecreases(g, Ranks(g, s.ults), Ranks(g, s'.ults), b);
  }

  /** Every run is finite: its length is bounded by a number known at its start. */
  lemma {:induction false} RunsTerminate(g: Grid, run: Trace<State>)
    requires Run(g, run)
    ensures run.Steps() + StepsLeft(g, run.s) <= StepsLeft(g, run.First())
  {
    match run
    case Begin(s) =>
    case Then(prefix, s) =>
      RunsTerminate(g, prefix);
      RunInv(g, prefix);
      var b :| StepOf(g, prefix.s, s, b);
      StepsLeftDrops(g, prefix.s, s, b);
  }

  /** Whatever has happened so far, the run can be completed until all ULTs have returned. */
  lemma {:induction false} RunsFinish(g: Grid, run: Trace<State>) returns (run': Trace<State>)
    requires Run(g, run)
    ensures Run(g, run') && Typed(g, run'.s) && AllDone(g, run'.s) && run'.First() == run.First()
    decreases StepsLeft(g, run.s)
  {
    NeverStuck(g, run);
    if AllDone(g, run.s) {
      return run;
    }
    var s' :| Next(g, run.s, s');
    var b :| StepOf(g, run.s, s', b);
    RunInv(g, run);
    StepsLeftDrops(g, run.s, s', b);
    run' := RunsFinish(g, Then(run, s'));
  }

  lemma Starts(g: Grid) returns (s: State)
    requires g.Valid()
    ensures Init(g, s)
  {
    s := State(Two(g.init, g.init),
               map b | b in Blocks(g) :: Ult(Start(g, b, 0), false, Head),
               map b | b in Blocks(g) :: Two(Create(Compartments(g, b)), Create(Compartments(g, b))));
  }

  /** For every grid there is a complete run, and it ends with the sequential answer. */
  lemma CompleteRunExists(g: Grid) returns (run: Trace<State>)
    requires g.Valid()
    ensures Run(g, run) && Typed(g, run.s) && AllDone(g, run.s)
    ensures forall x, y | g.InGrid(x, y) ::
              run.s.bufs.Get(g.iters % 2 == 1)[g.Index(x, y)] == g.Ref(g.iters, x, y)
  {
    var s := Starts(g);
    run := RunsFinish(g, Begin(s));
    forall x, y | g.InGrid(x, y)
      ensures run.s.bufs.Get(g.iters % 2 == 1)[g.Index(x, y)] == g.Ref(g.iters, x, y)
    {
      EveryInterleavingIsSequential(g, run, x, y);
    }
  }
}
