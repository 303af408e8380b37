/** The barrier of execution streams where Pthreads has none: a counter and a generation tag under a
    spinlock. Any number of participants call it again and again; a step is one critical section or one
    look at the tag. */
module XstreamBarrier {
  import opened Counting
  import opened Traces

  /** The tag is kept below this bound by masking with UINT64_MAX >> 1. */
  const TAGS := 0x8000_0000_0000_0000

  function NextTag(tag: nat): nat { (tag + 1) % TAGS }

  /** A participant has returned from so many waits, and is outside or spins until the tag is not curTag. */
  datatype Participant = Outside(completed: nat) | Spinning(completed: nat, curTag: nat) {
    function Arrivals(): nat { if Spinning? then completed + 1 else completed }
  }

  /** generation only counts how often the tag has been changed. */
  datatype State = State(counter: nat, tag: nat, ps: seq<Participant>, generation: nat)

  ghost predicate Init(s: State) {
    && s.counter == 0 && s.tag == 0 && s.generation == 0
    && forall i: nat | i < |s.ps| :: s.ps[i] == Outside(0)
  }

  /** Participant i calls ABT_xstream_barrier_wait. As many participants as waiters share the barrier. */
  predicate Arrive(s: State, s': State, i: nat) {
    && i < |s.ps| && s.ps[i].Outside?
    && var done := Outside(s.ps[i].completed + 1);
    if |s.ps| <= 1 then
      s' == s.(ps := s.ps[i := done])
    else if s.counter + 1 == |s.ps| then
      s' == State(0, NextTag(s.tag), s.ps[i := done], s.generation + 1)
    else
      s' == s.(counter := s.counter + 1, ps := s.ps[i := Spinning(s.ps[i].completed, s.tag)])
  }

  /** One turn of the spin loop. */
  predicate Spin(s: State, s': State, i: nat) {
    && i < |s.ps| && s.ps[i].Spinning?
    && s' == if s.ps[i].curTag == s.tag then s else s.(ps := s.ps[i := Outside(s.ps[i].completed + 1)])
  }

  ghost predicate Next(s: State, s': State) {
    exists i: nat :: Arrive(s, s', i) || Spin(s, s', i)
  }

  ghost predicate Run(run: Trace<State>) {
    match run
    case Begin(s) => Init(s)
    case Then(prefix, s) => Run(prefix) && Next(prefix.s, s)
  }

  // ----- the invariant

  function TagOf(generation: nat): nat { generation % TAGS }

  lemma TagAdvances(g: nat)
    ensures TagOf(g + 1) == NextTag(TagOf(g)) && TagOf(g + 1) != TagOf(g)
  {
  }

  /** Who is outside has completed every generation; who spins does so in this one or, not having noticed
      yet, in the one before. */
  predicate Here(generation: nat, p: Participant) {
    match p
    case Outside(c) => c == generation
    case Spinning(c, t) => (c == generation || c + 1 == generation) && t == TagOf(c)
  }

  function Arrived(generation: nat): Participant -> nat {
    (p: Participant) => if p.Spinning? && p.completed == generation then 1 else 0
  }

  ghost predicate Inv(s: State) {
    && s.tag == TagOf(s.generation)
    && s.counter == Total(s.ps, Arrived(s.generation)) < |s.ps|
    && forall i: nat {:trigger s.ps[i]} | i < |s.ps| :: Here(s.generation, s.ps[i])
  }

  lemma ArriveKeeps(s: State, s': State, i: nat)
    requires Inv(s) && |s.ps| > 1 && Arrive(s, s', i)
    ensures Inv(s')
  {
    var g := s.generation;
    var w := Arrived(g);
    var spins := Spinning(s.ps[i].completed, s.tag);
    TotalUpdate(s.ps, i, spins, w);
    if s.counter + 1 == |s.ps| {
      var all := s.ps[i := spins];
      TotalAllOnes(all, w);
      TagAdvances(g);
      forall k: nat | k < |s'.ps| ensures Here(g + 1, s'.ps[k]) && Arrived(g + 1)(s'.ps[k]) == 0 {
        assert k != i ==> w(all[k]) == 1 && s'.ps[k] == all[k];
      }
      TotalConstant(s'.ps, Arrived(g + 1), 0);
    }
  }

  lemma SpinKeeps(s: State, s': State, i: nat)
    requires Inv(s) && Spin(s, s', i)
    ensures Inv(s')
  {
    var p := s.ps[i];
    if p.curTag != s.tag {
      assert p.completed != s.generation;
      TotalUpdate(s.ps, i, Outside(p.completed + 1), Arrived(s.generation));
    }
  }

  lemma {:induction false} RunInv(run: Trace<State>)
    requires Run(run) && |run.s.ps| > 1
    ensures Inv(run.s)
  {
    match run
    case Begin(s) =>
      TotalConstant(s.ps, Arrived(0), 0);
    case Then(prefix, s) =>
      RunInv(prefix);
      var i: nat :| Arrive(prefix.s, s, i) || Spin(prefix.s, s, i);
      if Arrive(prefix.s, s, i) {
        ArriveKeeps(prefix.s, s, i);
      } else {
        SpinKeeps(prefix.s, s, i);
      }
  }

  // ----- the theorems

  /** Nobody returns from its n-th wait before everybody has arrived for the n-th time, so the numbers of
      returned waits differ by at most one; and there is no bound on how long this goes on. */
  lemma NobodyLeavesEarly(run: Trace<State>, i: nat, k: nat)
    requires Run(run) && |run.s.ps| > 1 && i < |run.s.ps| && k < |run.s.ps|
    ensures run.s.ps[i].completed <= run.s.ps[k].Arrivals()
    ensures run.s.ps[i].completed <= run.s.ps[k].completed + 1
  {
    RunInv(run);
    assert Here(run.s.generation, run.s.ps[i]) && Here(run.s.generation, run.s.ps[k]);
  }

  /** A participant spins in vain exactly while its generation is incomplete, wherever the tag wraps. */
  lemma TagIsNeverMissed(run: Trace<State>, i: nat)
    requires Run(run) && |run.s.ps| > 1 && i < |run.s.ps| && run.s.ps[i].Spinning?
    ensures run.s.tag == run.s.generation % 0x8000_0000_0000_0000
    ensures run.s.ps[i].curTag == run.s.tag <==> run.s.ps[i].completed == run.s.generation
    ensures run.s.ps[i].completed == run.s.generation ==>
              exists k: nat :: k < |run.s.ps| && run.s.ps[k].Arrivals() == run.s.ps[i].completed
  {
    RunInv(run);
    var s := run.s;
    assert Here(s.generation, s.ps[i]);
    if s.ps[i].completed + 1 == s.generation {
      TagAdvances(s.ps[i].completed);
    } else {
      var k := Missing(s);
      assert s.ps[k].Arrivals() == s.generation;
    }
  }

  /** Some participant has not arrived in this generation. */
  lemma Missing(s: State) returns (k: nat)
    requires Inv(s)
    ensures k < |s.ps| && s.ps[k].Arrivals() == s.generation
  {
    var w := Arrived(s.generation);
    k := 0;
    while k < |s.ps| && w(s.ps[k]) == 1
      invariant k <= |s.ps| && forall j: nat | j < k :: w(s.ps[j]) == 1
    {
      k := k + 1;
    }
    if k == |s.ps| {
      TotalConstant(s.ps, w, 1);
    }
    assert Here(s.generation, s.ps[k]);
  }

  // ----- progress

  lemma IsNext(s: State, s': State, i: nat)
    requires Arrive(s, s', i) || Spin(s, s', i)
    ensures Next(s, s')
  {
  }

  /** Participant k, who has not arrived in this generation, notices that the last one is over, or arrives. */
  lemma MissingMoves(s: State, k: nat) returns (s': State)
    requires Inv(s) && |s.ps| > 1 && k < |s.ps| && s.ps[k].Arrivals() == s.generation
    ensures Next(s, s') && Inv(s') && |s'.ps| == |s.ps|
    ensures s'.ps == s.ps[k := s'.ps[k]]
    ensures if s.ps[k].Spinning? then s'.ps[k] == Outside(s.generation) && s'.generation == s.generation
            else if s'.generation == s.generation then s'.ps[k].Spinning? && s'.ps[k].completed == s.generation
            else s'.generation == s.generation + 1 && s'.ps[k] == Outside(s.generation + 1) && s'.counter == 0
  {
    assert Here(s.generation, s.ps[k]);
    if s.ps[k].Outside? {
      var done := Outside(s.ps[k].completed + 1);
      s' := if s.counter + 1 == |s.ps| then State(0, NextTag(s.tag), s.ps[k := done], s.generation + 1)
            else s.(counter := s.counter + 1, ps := s.ps[k := Spinning(s.ps[k].completed, s.tag)]);
      ArriveKeeps(s, s', k);
    } else {
      TagAdvances(s.ps[k].completed);
      s' := s.(ps := s.ps[k := Outside(s.ps[k].completed + 1)]);
      SpinKeeps(s, s', k);
    }
    IsNext(s, s', k);
  }

  /** Somebody can always go on: whoever has not arrived yet, or not noticed. */
  lemma NeverStuck(run: Trace<State>) returns (s': State)
    requires Run(run) && |run.s.ps| > 1
    ensures Next(run.s, s') && s' != run.s
  {
    RunInv(run);
    var k := Missing(run.s);
    s' := MissingMoves(run.s, k);
    assert s'.ps[k] != run.s.ps[k];
  }

  /** What participant p still has to do to be outside after generation g: notice, arrive, notice. */
  function Left(g: nat): Participant -> nat {
    (p: Participant) =>
      if p.Outside? then (if p.completed <= g then 2 else 0)
      else if p.completed < g then 3 else if p.completed == g then 1 else 0
  }

  lemma Shrinks(s: State, s': State, k: nat, g: nat)
    requires k < |s.ps| == |s'.ps| && s'.ps == s.ps[k := s'.ps[k]]
    requires Left(g)(s'.ps[k]) < Left(g)(s.ps[k])
    ensures Total(s'.ps, Left(g)) < Total(s.ps, Left(g))
  {
    TotalUpdate(s.ps, k, s'.ps[k], Left(g));
  }

  lemma OneMore(prefix: Trace<State>, s: State) returns (run: Trace<State>)
    requires Run(prefix) && Next(prefix.s, s)
    ensures run == Then(prefix, s) && Run(run) && Extends(run, prefix)
  {
    run := Then(prefix, s);
    assert Extends(prefix, prefix);
  }

  /** Generation g is complete when everybody has returned from it. */
  ghost predicate AllReturned(s: State, g: nat) {
    s.generation == g + 1 && forall i: nat {:trigger s.ps[i]} | i < |s.ps| :: s.ps[i] == Outside(g + 1)
  }

  /** Whatever has happened so far, the current generation g can be completed until everybody has returned
      from it: nobody who spins is left behind. */
  lemma {:induction false} GenerationCompletes(run: Trace<State>, g: nat) returns (run': Trace<State>)
    requires Run(run) && |run.s.ps| > 1
    requires run.s.generation == g || (run.s.generation == g + 1 && run.s.counter == 0)
    ensures Run(run') && Extends(run', run) && |run'.s.ps| == |run.s.ps| && AllReturned(run'.s, g)
    decreases Total(run.s.ps, Left(g))
  {
    RunInv(run);
    var s := run.s;
    var k: nat;
    if s.generation == g {
      k := Missing(s);
    } else {
      k := LastToNotice(s);
      if k == |s.ps| {
        return run;
      }
    }
    var s' := MissingMoves(s, k);
    assert Here(s.generation, s.ps[k]);
    Shrinks(s, s', k, g);
    var longer := OneMore(run, s');
    run' := GenerationCompletes(longer, g);
    ExtendsFurther(run', longer, run);
  }

  /** After a completed generation, somebody who has not noticed yet, or nobody. */
  lemma LastToNotice(s: State) returns (k: nat)
    requires Inv(s) && s.generation > 0 && s.counter == 0
    ensures k <= |s.ps|
    ensures k < |s.ps| ==> s.ps[k].Spinning? && s.ps[k].Arrivals() == s.generation
    ensures k == |s.ps| ==> AllReturned(s, s.generation - 1)
  {
    k := 0;
    while k < |s.ps| && s.ps[k].Outside?
      invariant k <= |s.ps| && forall i: nat {:trigger s.ps[i]} | i < k :: s.ps[i] == Outside(s.generation)
    {
      assert Here(s.generation, s.ps[k]);
      k := k + 1;
    }
    if k < |s.ps| {
      assert Here(s.generation, s.ps[k]);
      TotalAtLeast(s.ps, k, Arrived(s.generation));
    }
  }

  // ----- a barrier for one

  /** With one waiter nobody ever spins and the barrier itself is never touched. */
  lemma {:induction false} OneWaiterNeverSpins(run: Trace<State>)
    requires Run(run) && |run.s.ps| == 1
    ensures run.s.ps[0].Outside? && run.s.counter == 0 && run.s.tag == 0 && run.s.generation == 0
    ensures run.s.ps[0].completed == run.Steps()
  {
    if run.Then? {
      OneWaiterNeverSpins(run.prefix);
    }
  }
}
