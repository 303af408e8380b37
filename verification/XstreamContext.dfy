/** The native thread behind an execution stream: one worker and one controller that joins, revives and
    frees it share a state under a lock and a single condition variable. A step is one critical section,
    which ends with the unlock or with the start of a wait. Waits may end spuriously. */
module XstreamContext {
  import opened Traces

  datatype Ctx = Running | Waiting | ReqJoin | ReqTerminate

  /** The worker: about to assert its initial state, in thread_f, back from it, waiting unsignalled,
      woken up, or gone. */
  datatype WorkerPc = Start | Working | Finished | Asleep | Awake | Exited

  /** The controller: between calls, waiting unsignalled in join, woken up there, in pthread_join, or done. */
  datatype ControlPc = Idle | JoinAsleep | JoinAwake | Joining | Freed

  /** joined says that the last call was a join. runs counts completed calls of thread_f; early remembers
      that a join began before the worker had looked at its initial state. */
  datatype State = State(ctx: Ctx, worker: WorkerPc, control: ControlPc, joined: bool,
                         runs: nat, revives: nat, early: bool, failed: bool)

  const INIT := State(Running, Start, Idle, false, 0, 0, false, false)

  datatype Who = Worker | Controller

  predicate Waits(s: State, who: Who) {
    match who
    case Worker => s.worker == Asleep
    case Controller => s.control == JoinAsleep
  }

  function Wake(s: State, who: Who): State {
    match who
    case Worker => s.(worker := Awake)
    case Controller => s.(control := JoinAwake)
  }

  /** pthread_cond_signal wakes one waiter, any one, if there is one. */
  ghost predicate Signal(s: State, s': State) {
    || (exists who :: Waits(s, who) && s' == Wake(s, who))
    || (!Waits(s, Worker) && !Waits(s, Controller) && s' == s)
  }

  /** A wait ends without a signal. */
  ghost predicate Spurious(s: State, s': State) {
    exists who :: Waits(s, who) && s' == Wake(s, who)
  }

  function Assert(s: State, b: bool): State {
    s.(failed := s.failed || !b)
  }

  /** xstream_context_thread_func. */
  ghost predicate StepWorker(s: State, s': State) {
    match s.worker
    case Start => s' == Assert(s, s.ctx == Running).(worker := Working)
    case Working => s' == s.(worker := Finished, runs := s.runs + 1)
    case Finished =>
      if s.ctx == ReqJoin then
        exists t :: Signal(s, t) && s' == t.(ctx := Waiting, worker := Asleep)
      else
        s' == s.(ctx := Waiting, worker := Asleep)
    case Asleep => false
    case Awake =>
      if s.ctx == Waiting then s' == s.(worker := Asleep)
      else if s.ctx == ReqTerminate then s' == s.(worker := Exited)
      else s' == Assert(s, s.ctx == Running || s.ctx == ReqJoin).(worker := Working)
    case Exited => false
  }

  /** ABTD_xstream_context_join, up to its first wait or its return. */
  ghost predicate CallJoin(s: State, s': State) {
    && s.control == Idle
    && if s.ctx != Waiting then
         s' == Assert(s, s.ctx == Running).(ctx := ReqJoin, control := JoinAsleep, joined := false,
                                            early := s.early || s.worker == Start)
       else
         s' == s.(joined := true)
  }

  /** The rest of join. */
  ghost predicate StepJoin(s: State, s': State) {
    && s.control == JoinAwake
    && s' == if s.ctx == ReqJoin then s.(control := JoinAsleep)
             else Assert(s, s.ctx == Waiting).(control := Idle, joined := true)
  }

  /** ABTD_xstream_context_revive. */
  ghost predicate CallRevive(s: State, s': State) {
    && s.control == Idle && s.joined
    && Signal(Assert(s, s.ctx == Waiting).(ctx := Running, joined := false, revives := s.revives + 1), s')
  }

  /** ABTD_xstream_context_free and its pthread_join. */
  ghost predicate CallFree(s: State, s': State) {
    && s.control == Idle && s.joined
    && Signal(Assert(s, s.ctx == Waiting).(ctx := ReqTerminate, joined := false, control := Joining), s')
  }

  ghost predicate StepFree(s: State, s': State) {
    s.control == Joining && s.worker == Exited && s' == s.(control := Freed)
  }

  /** The controller revives and frees only what it has joined. What it joins has begun to run when joins
      are guarded, as they are in xstream_join, which joins the main scheduler's ULT before. */
  ghost predicate Next(guarded: bool, s: State, s': State) {
    || StepWorker(s, s') || Spurious(s, s')
    || (CallJoin(s, s') && (guarded ==> s.worker != Start))
    || StepJoin(s, s') || CallRevive(s, s') || CallFree(s, s') || StepFree(s, s')
  }

  ghost predicate Run(guarded: bool, run: Trace<State>) {
    match run
    case Begin(s) => s == INIT
    case Then(prefix, s) => Run(guarded, prefix) && Next(guarded, prefix.s, s)
  }

  // ----- the invariant

  ghost predicate Inv(s: State) {
    // nobody sleeps unless what it waits for has not happened
    && (s.worker == Asleep ==> s.ctx == Waiting)
    && (s.control == JoinAsleep ==> s.ctx == ReqJoin)
    // the worker
    && (s.ctx == Waiting ==> s.worker == Asleep || s.worker == Awake)
    && (s.worker == Exited ==> s.ctx == ReqTerminate)
    && (s.ctx == ReqTerminate ==> s.worker == Awake || s.worker == Exited)
    // the controller
    && (s.ctx == ReqJoin ==> s.control == JoinAsleep || s.control == JoinAwake)
    && (s.control == JoinAwake ==> s.ctx == ReqJoin || s.ctx == Waiting)
    && (s.ctx == ReqTerminate <==> s.control == Joining || s.control == Freed)
    && (s.control == Freed ==> s.worker == Exited)
    && (s.control == Idle && s.joined ==> s.ctx == Waiting)
    && (s.control != Idle ==> !s.joined)
    // completed runs
    && s.runs == s.revives + (if s.worker == Finished || s.ctx == Waiting || s.ctx == ReqTerminate then 1 else 0)
    // the first look at the state
    && (s.worker == Start ==> s.ctx == if s.early then ReqJoin else Running)
    && (s.failed ==> s.early)
    && (s.early && s.worker != Start ==> s.failed)
  }

  lemma WorkerKeeps(s: State, s': State)
    requires Inv(s) && StepWorker(s, s')
    ensures Inv(s') && s'.early == s.early
  {
  }

  lemma CallKeeps(s: State, s': State)
    requires Inv(s) && (CallJoin(s, s') || CallRevive(s, s') || CallFree(s, s'))
    ensures Inv(s')
    ensures s.worker != Start || !CallJoin(s, s') ==> s'.early == s.early
  {
  }

  lemma StepKeeps(guarded: bool, s: State, s': State)
    requires Inv(s) && Next(guarded, s, s')
    ensures Inv(s')
    ensures guarded && !s.early ==> !s'.early
  {
    if StepWorker(s, s') {
      WorkerKeeps(s, s');
    } else if CallJoin(s, s') || CallRevive(s, s') || CallFree(s, s') {
      CallKeeps(s, s');
    }
  }

  lemma {:induction false} RunInv(guarded: bool, run: Trace<State>)
    requires Run(guarded, run)
    ensures Inv(run.s)
    ensures guarded ==> !run.s.early
  {
    if run.Then? {
      RunInv(guarded, run.prefix);
      StepKeeps(guarded, run.prefix.s, run.s);
    }
  }

  // ----- the theorems

  /** A sleeper that nobody has signalled still has to wait: no wakeup is lost. */
  lemma NoLostWakeup(guarded: bool, run: Trace<State>)
    requires Run(guarded, run)
    ensures run.s.worker == Asleep ==> run.s.ctx == Waiting
    ensures run.s.control == JoinAsleep ==> run.s.ctx == ReqJoin
  {
    RunInv(guarded, run);
  }

  /** Although both sides share a condition variable, a signal can only reach its intended receiver, and
      that one is there: still waiting, or already awake and about to look at the state. */
  lemma SignalsHaveOneReceiver(guarded: bool, run: Trace<State>)
    requires Run(guarded, run)
    ensures run.s.worker == Finished && run.s.ctx == ReqJoin ==>
              !Waits(run.s, Worker) && (run.s.control == JoinAsleep || run.s.control == JoinAwake)
    ensures run.s.control == Idle && run.s.joined ==>
              !Waits(run.s, Controller) && (run.s.worker == Asleep || run.s.worker == Awake)
  {
    RunInv(guarded, run);
  }

  /** After a join returned, thread_f has completed once more than it has been revived; and the worker is
      gone only after it was told to terminate. */
  lemma JoinMeansCompleted(guarded: bool, run: Trace<State>)
    requires Run(guarded, run)
    ensures run.s.joined ==> run.s.runs == 1 + run.s.revives && run.s.ctx == Waiting
    ensures run.s.worker == Exited ==> run.s.control == Joining || run.s.control == Freed
    ensures run.s.control == Freed ==> run.s.worker == Exited && run.s.runs == 1 + run.s.revives
  {
    RunInv(guarded, run);
  }

  /** Every state assertion holds as long as no join begins before the worker has looked at its initial
      state, and the worker's first assertion fails as soon as one has. */
  lemma AssertionsHoldIffNoEarlyJoin(guarded: bool, run: Trace<State>)
    requires Run(guarded, run) && run.s.worker != Start
    ensures run.s.failed <==> run.s.early
  {
    RunInv(guarded, run);
  }

  /** What the other assertions ask for, wherever one of the two sides is at one: the end of join, and the
      beginnings of join, revive and free. */
  lemma OtherAssertionsHold(guarded: bool, run: Trace<State>)
    requires Run(guarded, run)
    ensures run.s.control == JoinAwake && run.s.ctx != ReqJoin ==> run.s.ctx == Waiting
    ensures run.s.control == Idle && run.s.ctx != Waiting ==> run.s.ctx == Running
    ensures run.s.control == Idle && run.s.joined ==> run.s.ctx == Waiting
  {
    RunInv(guarded, run);
  }

  /** xstream_join joins the main scheduler's ULT first, so it never joins early and nothing fails. */
  lemma GuardedAssertionsHold(run: Trace<State>)
    requires Run(true, run)
    ensures !run.s.failed
  {
    RunInv(true, run);
  }

  /** Without that, joining right after creating fails the assertion at the top of the worker. */
  lemma EarlyJoinFails() returns (run: Trace<State>)
    ensures Run(false, run) && run.s.failed && run.Steps() == 2
  {
    var s1 := State(ReqJoin, Start, JoinAsleep, false, 0, 0, true, false);
    var s2 := State(ReqJoin, Working, JoinAsleep, false, 0, 0, true, true);
    run := Begin(INIT);
    run := OneMore(false, run, s1);
    run := OneMore(false, run, s2);
  }

  lemma OneMore(guarded: bool, prefix: Trace<State>, s: State) returns (run: Trace<State>)
    requires Run(guarded, prefix) && Next(guarded, prefix.s, s)
    ensures run == Then(prefix, s) && Run(guarded, run) && Extends(run, prefix)
  {
    run := Then(prefix, s);
    assert Extends(prefix, prefix);
  }

  // ----- a call always returns

  /** What is left to do until the pending join or free returns. */
  function Left(s: State): nat {
    if s.ctx == ReqJoin then
      match s.worker
      case Awake => 6
      case Start => 5
      case Working => 4
      case Finished => 3
      case _ => 2
    else if s.control == JoinAwake then 1
    else if s.control == Joining then (if s.worker == Exited then 1 else 2)
    else 0
  }

  /** While join or free is pending some step brings its return nearer, and no step moves it away; so,
      as long as thread_f returns, every call returns, whatever wakes up spuriously. */
  lemma CallsReturn(guarded: bool, run: Trace<State>, s': State)
    requires Run(guarded, run) && Next(guarded, run.s, s')
    requires run.s.control != Idle && run.s.control != Freed
    ensures Left(run.s) > 0 && Left(s') <= Left(run.s)
    ensures s'.control == Idle || s'.control == Freed ==> Left(s') == 0
  {
    RunInv(guarded, run);
  }

  lemma CallsAdvance(guarded: bool, run: Trace<State>) returns (s': State)
    requires Run(guarded, run) && run.s.control != Idle && run.s.control != Freed
    ensures Next(guarded, run.s, s') && Left(s') < Left(run.s)
  {
    RunInv(guarded, run);
    var s := run.s;
    if s.control == JoinAwake && s.ctx == Waiting {
      s' := s.(control := Idle, joined := true);
      assert StepJoin(s, s');
    } else if s.control == Joining && s.worker == Exited {
      s' := s.(control := Freed);
      assert StepFree(s, s');
    } else {
      match s.worker {
        case Start => s' := Assert(s, s.ctx == Running).(worker := Working);
        case Working => s' := s.(worker := Finished, runs := s.runs + 1);
        case Finished =>
          var t := if Waits(s, Controller) then Wake(s, Controller) else s;
          assert Signal(s, t);
          s' := t.(ctx := Waiting, worker := Asleep);
        case Awake =>
          s' := if s.ctx == ReqTerminate then s.(worker := Exited)
                else Assert(s, s.ctx == Running || s.ctx == ReqJoin).(worker := Working);
      }
      assert StepWorker(s, s');
    }
  }

  // ----- thread_f always runs

  function LeftToRun(pc: WorkerPc): nat {
    match pc
    case Start => 4
    case Awake => 4
    case Working => 3
    case Finished => 2
    case _ => 0
  }

  lemma WorkerAdvances(guarded: bool, s: State) returns (s': State)
    requires Inv(s) && (s.ctx == Running || s.ctx == ReqJoin)
    ensures Next(guarded, s, s') && s'.revives == s.revives
    ensures s'.ctx == Waiting || (s'.ctx == s.ctx && LeftToRun(s'.worker) < LeftToRun(s.worker))
  {
    match s.worker {
      case Start => s' := Assert(s, s.ctx == Running).(worker := Working);
      case Awake => s' := Assert(s, s.ctx == Running || s.ctx == ReqJoin).(worker := Working);
      case Working => s' := s.(worker := Finished, runs := s.runs + 1);
      case Finished =>
        var t := if s.ctx == ReqJoin && Waits(s, Controller) then Wake(s, Controller) else s;
        assert s.ctx == ReqJoin ==> Signal(s, t);
        s' := t.(ctx := Waiting, worker := Asleep);
    }
    assert StepWorker(s, s');
  }

  /** Once created or revived, the worker gets to call thread_f and to complete it, whether or not a join is
      pending. */
  lemma {:induction false} ThreadRuns(guarded: bool, run: Trace<State>) returns (run': Trace<State>)
    requires Run(guarded, run) && (run.s.ctx == Running || run.s.ctx == ReqJoin)
    ensures Run(guarded, run') && Extends(run', run)
    ensures run'.s.ctx == Waiting && run'.s.revives == run.s.revives && run'.s.runs == 1 + run.s.revives
    decreases LeftToRun(run.s.worker)
  {
    RunInv(guarded, run);
    var s' := WorkerAdvances(guarded, run.s);
    run' := OneMore(guarded, run, s');
    RunInv(guarded, run');
    if s'.ctx != Waiting {
      var longer := run';
      run' := ThreadRuns(guarded, longer);
      ExtendsFurther(run', longer, run);
    }
  }

  /** The state of a stream that has been joined after n revivals. */
  function Joined(n: nat): State { State(Waiting, Asleep, Idle, true, n + 1, n, false, false) }

  lemma Move(prefix: Trace<State>, s: State) returns (run: Trace<State>)
    requires Run(true, prefix)
    requires StepWorker(prefix.s, s) || (CallJoin(prefix.s, s) && prefix.s.worker != Start) || CallRevive(prefix.s, s)
             || CallFree(prefix.s, s) || StepFree(prefix.s, s)
    ensures Run(true, run) && run.s == s
  {
    run := OneMore(true, prefix, s);
  }

  /** A stream can be joined and revived any number of times, */
  lemma {:induction false} CanBeRevived(n: nat) returns (run: Trace<State>)
    ensures Run(true, run) && run.s == Joined(n)
  {
    if n == 0 {
      run := Begin(INIT);
    } else {
      var before := CanBeRevived(n - 1);
      var revived := State(Running, Asleep, Idle, false, n, n, false, false);
      assert Assert(Joined(n - 1), true).(ctx := Running, joined := false, revives := n) == revived;
      assert Waits(revived, Worker) && Signal(revived, Wake(revived, Worker));
      run := Move(before, revived.(worker := Awake));
    }
    run := Move(run, State(Running, Working, Idle, false, n, n, false, false));
    run := Move(run, State(Running, Finished, Idle, false, n + 1, n, false, false));
    run := Move(run, State(Waiting, Asleep, Idle, false, n + 1, n, false, false));
    run := Move(run, Joined(n));
  }

  /** and freed afterwards. */
  lemma CanBeFreed(n: nat) returns (run: Trace<State>)
    ensures Run(true, run) && run.s == State(ReqTerminate, Exited, Freed, false, n + 1, n, false, false)
  {
    run := CanBeRevived(n);
    var told := State(ReqTerminate, Asleep, Joining, false, n + 1, n, false, false);
    assert Waits(told, Worker) && Signal(told, Wake(told, Worker));
    run := Move(run, told.(worker := Awake));
    run := Move(run, told.(worker := Exited));
    run := Move(run, told.(worker := Exited, control := Freed));
  }

  /** A sleeper on either side may wake up for no reason; if what it waits for has not happened it sleeps
      again. */
  lemma SpuriousWakeup(guarded: bool, run: Trace<State>, who: Who) returns (run': Trace<State>)
    requires Run(guarded, run) && Waits(run.s, who)
    ensures Run(guarded, run') && Extends(run', run) && run'.s == run.s && run'.Steps() == run.Steps() + 2
  {
    RunInv(guarded, run);
    assert Spurious(run.s, Wake(run.s, who));
    var longer := OneMore(guarded, run, Wake(run.s, who));
    run' := OneMore(guarded, longer, run.s);
    ExtendsFurther(run', longer, run);
  }
}
