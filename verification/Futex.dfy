/** The one-shot rendezvous of a suspending thread and a resuming one, as both of them should see it. */
module FutexSpec {

  /** One bit, set once by resume; suspend returns only when it is set. */
  datatype Spec = Spec(signalled: bool, returned: bool)

  const INIT := Spec(false, false)

  /** Setting the bit, returning, or nothing visible. */
  predicate Step(s: Spec, s': Spec) {
    || s' == s
    || (!s.signalled && s' == s.(signalled := true))
    || (s.signalled && !s.returned && s' == s.(returned := true))
  }
}

/** The variant on Linux futexes. */
module LinuxFutex {
  import opened FutexSpec
  import opened Traces

  /** suspend: about to load the value, about to enter FUTEX_WAIT, asleep in the kernel, or returned, when
      its caller may destroy the futex. */
  datatype Waiter = Load | Enter | Asleep | Returned

  /** resume: at its assertion, about to store 1, about to call FUTEX_WAKE, or returned. */
  datatype Resumer = Check | Store | Wake | Done

  datatype State = State(val: int, waiter: Waiter, resumer: Resumer, failed: bool)

  const BEGIN := State(0, Load, Check, false)

  predicate StepWaiter(s: State, s': State) {
    match s.waiter
    case Load => s' == s.(waiter := if s.val == 0 then Enter else Returned)
    case Enter => s' == s.(waiter := if s.val == 0 then Asleep else Load)
    case Asleep => s' == s.(waiter := Load)
    case Returned => false
  }

  /** FUTEX_WAKE uses the address of the futex but reads and writes nothing there. */
  predicate StepResumer(s: State, s': State) {
    match s.resumer
    case Check => s' == s.(resumer := Store, failed := s.failed || s.val != 0)
    case Store => s' == s.(val := 1, resumer := Wake)
    case Wake => s' == s.(resumer := Done, waiter := if s.waiter == Asleep then Load else s.waiter)
    case Done => false
  }

  ghost predicate Run(run: Trace<State>) {
    match run
    case Begin(s) => s == BEGIN
    case Then(prefix, s) => Run(prefix) && (StepWaiter(prefix.s, s) || StepResumer(prefix.s, s))
  }

  function Abstract(s: State): Spec { Spec(s.val == 1, s.waiter == Returned) }

  ghost predicate Inv(s: State) {
    && s.val == (if s.resumer == Check || s.resumer == Store then 0 else 1)
    && (s.waiter == Returned ==> s.val == 1)
    && (s.waiter == Asleep ==> s.resumer != Done)
    && !s.failed
  }

  lemma {:induction false} RunInv(run: Trace<State>)
    requires Run(run)
    ensures Inv(run.s)
  {
    if run.Then? {
      RunInv(run.prefix);
    }
  }

  /** Every step is a step of the specification, which starts with the bit clear. */
  lemma Refines(run: Trace<State>)
    requires Run(run)
    ensures Abstract(run.First()) == INIT
    ensures run.Then? ==> Step(Abstract(run.prefix.s), Abstract(run.s))
  {
    StartsAtBegin(run);
    if run.Then? {
      RunInv(run.prefix);
      RunInv(run);
    }
  }

  lemma {:induction false} StartsAtBegin(run: Trace<State>)
    requires Run(run)
    ensures run.First() == BEGIN
  {
    if run.Then? {
      StartsAtBegin(run.prefix);
    }
  }

  /** The assertion holds; nobody sleeps once resume has returned; and while resume still has to read or
      write the futex, suspend has not returned, so the futex is still there. */
  lemma Safe(run: Trace<State>)
    requires Run(run)
    ensures !run.s.failed && (run.s.resumer == Check ==> run.s.val == 0)
    ensures run.s.resumer == Done ==> run.s.waiter != Asleep
    ensures run.s.resumer == Check || run.s.resumer == Store ==> run.s.waiter != Returned
  {
    RunInv(run);
  }

  /** Steps left for the waiter once the bit is set. */
  function Left(w: Waiter): nat {
    match w
    case Enter => 3
    case Asleep => 2
    case Load => 1
    case Returned => 0
  }

  /** Once the bit is set every step of suspend brings it nearer to its return. */
  lemma SuspendReturns(run: Trace<State>, s': State)
    requires Run(run) && run.s.val == 1 && StepWaiter(run.s, s')
    ensures Left(s'.waiter) < Left(run.s.waiter)
  {
  }

  lemma OneMore(prefix: Trace<State>, s: State) returns (run: Trace<State>)
    requires Run(prefix) && (StepWaiter(prefix.s, s) || StepResumer(prefix.s, s))
    ensures Run(run) && run == Then(prefix, s) && Extends(run, prefix)
  {
    run := Then(prefix, s);
    assert Extends(prefix, prefix);
  }

  /** Resume is never blocked, and once it has returned suspend is not either. */
  lemma NeverStuck(run: Trace<State>) returns (s': State)
    requires Run(run) && !(run.s.resumer == Done && run.s.waiter == Returned)
    ensures if run.s.resumer == Done then StepWaiter(run.s, s') && Left(s'.waiter) < Left(run.s.waiter)
            else StepResumer(run.s, s') && LeftResumer(s'.resumer) < LeftResumer(run.s.resumer)
  {
    RunInv(run);
    var s := run.s;
    match s.resumer {
      case Check => s' := s.(resumer := Store);
      case Store => s' := s.(val := 1, resumer := Wake);
      case Wake => s' := s.(resumer := Done, waiter := if s.waiter == Asleep then Load else s.waiter);
      case Done => s' := s.(waiter := if s.waiter == Load then Returned else Load);
    }
  }

  function LeftResumer(r: Resumer): nat {
    match r
    case Check => 3
    case Store => 2
    case Wake => 1
    case Done => 0
  }

  /** So every run extends to one in which both have returned. */
  lemma {:induction false} BothReturn(run: Trace<State>) returns (run': Trace<State>)
    requires Run(run)
    ensures Run(run') && Extends(run', run) && run'.s.resumer == Done && run'.s.waiter == Returned
    decreases LeftResumer(run.s.resumer), Left(run.s.waiter)
  {
    if run.s.resumer == Done && run.s.waiter == Returned {
      return run;
    }
    var s' := NeverStuck(run);
    var longer := OneMore(run, s');
    run' := BothReturn(longer);
    ExtendsFurther(run', longer, run);
  }

  /** A waiter that comes first does fall asleep. */
  lemma WaiterSleeps() returns (run: Trace<State>)
    ensures Run(run) && run.s.waiter == Asleep && run.s.val == 0
  {
    run := Begin(BEGIN);
    run := OneMore(run, BEGIN.(waiter := Enter));
    run := OneMore(run, BEGIN.(waiter := Asleep));
  }

  /** A sleeper may wake up for no reason; it looks at the value and, if that is still 0, sleeps again. */
  lemma SpuriousWakeup(run: Trace<State>) returns (run': Trace<State>)
    requires Run(run) && run.s.waiter == Asleep && run.s.val == 0
    ensures Run(run') && Extends(run', run) && run'.s == run.s && run'.Steps() == run.Steps() + 3
  {
    var one := OneMore(run, run.s.(waiter := Load));
    var two := OneMore(one, run.s.(waiter := Enter));
    run' := OneMore(two, run.s);
    assert one.Steps() == run.Steps() + 1 && two.Steps() == run.Steps() + 2;
    ExtendsFurther(two, one, run);
    ExtendsFurther(run', two, run);
  }

  /** FUTEX_WAKE itself may be called with the address of a futex that is already gone. */
  lemma WakeMayComeLate() returns (run: Trace<State>)
    ensures Run(run) && run.s.resumer == Wake && run.s.waiter == Returned
  {
    run := Begin(BEGIN);
    run := OneMore(run, State(0, Load, Store, false));
    run := OneMore(run, State(1, Load, Wake, false));
    run := OneMore(run, State(1, Returned, Wake, false));
  }
}

/** The variant on Pthreads: the waiter publishes a synchronisation object on its own stack. */
module PthreadFutex {
  import opened FutexSpec
  import opened Traces

  /** p_sync_obj: not set, the waiter's object, or the mark that resume came first. */
  datatype Pointer = Null | SyncObj | Invalid

  datatype Holder = Nobody | TheWaiter | TheResumer

  /** suspend: the first load, taking the mutex of a new object, the compare-and-swap, the loop condition,
      asleep in the condition variable, woken and in need of the mutex, the unlock, the two destructions,
      and returned. */
  datatype Waiter = Load | Lock | Cas | Loop | Asleep | Relock | Unlock | Destroy | Returned

  /** resume: the first load, the compare-and-swap, and the four steps on the waiter's object. */
  datatype Resumer = RLoad | RCas | RLock | RStore | RSignal | RUnlock | RDone

  /** val, mutex and alive belong to the object on the waiter's stack. */
  datatype State = State(ptr: Pointer, val: int, mutex: Holder, alive: bool, waiter: Waiter, resumer: Resumer)

  const BEGIN := State(Null, 0, Nobody, false, Load, RLoad)

  predicate StepWaiter(s: State, s': State) {
    match s.waiter
    case Load => s' == if s.ptr != Null then s.(waiter := Returned) else s.(waiter := Lock, alive := true)
    case Lock => s.mutex == Nobody && s' == s.(mutex := TheWaiter, waiter := Cas)
    case Cas => s' == if s.ptr == Null then s.(ptr := SyncObj, waiter := Loop) else s.(waiter := Unlock)
    case Loop => s' == if s.val == 0 then s.(mutex := Nobody, waiter := Asleep) else s.(waiter := Unlock)
    case Asleep => s' == s.(waiter := Relock)
    case Relock => s.mutex == Nobody && s' == s.(mutex := TheWaiter, waiter := Loop)
    case Unlock => s' == s.(mutex := Nobody, waiter := Destroy)
    case Destroy => s' == s.(alive := false, waiter := Returned)
    case Returned => false
  }

  predicate StepResumer(s: State, s': State) {
    match s.resumer
    case RLoad => s' == s.(resumer := if s.ptr == Null then RCas else RLock)
    case RCas => s' == if s.ptr == Null then s.(ptr := Invalid, resumer := RDone) else s.(resumer := RLock)
    case RLock => s.mutex == Nobody && s' == s.(mutex := TheResumer, resumer := RStore)
    case RStore => s' == s.(val := 1, resumer := RSignal)
    case RSignal => s' == s.(resumer := RUnlock, waiter := if s.waiter == Asleep then Relock else s.waiter)
    case RUnlock => s' == s.(mutex := Nobody, resumer := RDone)
    case RDone => false
  }

  ghost predicate Run(run: Trace<State>) {
    match run
    case Begin(s) => s == BEGIN
    case Then(prefix, s) => Run(prefix) && (StepWaiter(prefix.s, s) || StepResumer(prefix.s, s))
  }

  function Abstract(s: State): Spec { Spec(s.ptr == Invalid || s.val == 1, s.waiter == Returned) }

  predicate OnObject(r: Resumer) { r == RLock || r == RStore || r == RSignal || r == RUnlock }

  ghost predicate Inv(s: State) {
    // p_sync_obj tells who came first
    && (s.ptr == Invalid ==> s.resumer == RDone && s.val == 0)
    && (s.ptr == SyncObj <==> s.waiter == Loop || s.waiter == Asleep || s.waiter == Relock || s.val == 1)
    && (OnObject(s.resumer) ==> s.ptr == SyncObj)
    && (s.waiter == Lock || s.waiter == Cas || s.waiter == Load ==> s.ptr != SyncObj)
    && (s.resumer == RDone <==> s.ptr == Invalid || (s.val == 1 && s.mutex != TheResumer))
    // the mutex
    && (s.mutex == TheWaiter <==> s.waiter == Cas || s.waiter == Loop || s.waiter == Unlock)
    && (s.mutex == TheResumer <==> s.resumer == RStore || s.resumer == RSignal || s.resumer == RUnlock)
    // the value
    && (s.val == 0 || s.val == 1)
    && (s.val == 1 <==> s.resumer == RSignal || s.resumer == RUnlock || (s.resumer == RDone && s.ptr == SyncObj))
    && (s.waiter == Asleep && s.val == 1 ==> s.resumer == RSignal)
    && (s.waiter == Unlock || s.waiter == Destroy || s.waiter == Returned ==> s.resumer == RDone)
    // the object
    && (s.alive <==> s.waiter != Load && s.waiter != Returned)
  }

  lemma StepKeeps(s: State, s': State)
    requires Inv(s) && (StepWaiter(s, s') || StepResumer(s, s'))
    ensures Inv(s')
    ensures Step(Abstract(s), Abstract(s'))
  {
  }

  lemma {:induction false} RunInv(run: Trace<State>)
    requires Run(run)
    ensures Inv(run.s) && run.First() == BEGIN
  {
    if run.Then? {
      RunInv(run.prefix);
      StepKeeps(run.prefix.s, run.s);
    }
  }

  /** Every step is a step of the specification, which starts with the bit clear. */
  lemma Refines(run: Trace<State>)
    requires Run(run)
    ensures Abstract(run.First()) == INIT
    ensures run.Then? ==> Step(Abstract(run.prefix.s), Abstract(run.s))
  {
    RunInv(run);
    if run.Then? {
      RunInv(run.prefix);
      StepKeeps(run.prefix.s, run.s);
    }
  }

  /** Nobody sleeps once resume has returned; while resume still works on the waiter's object the object is
      alive; while it still looks at the futex suspend has not returned; and the mutex that is destroyed
      is free. */
  lemma Safe(run: Trace<State>)
    requires Run(run)
    ensures run.s.resumer == RDone ==> run.s.waiter != Asleep
    ensures OnObject(run.s.resumer) ==> run.s.alive
    ensures run.s.resumer == RLoad || run.s.resumer == RCas ==> run.s.waiter != Returned
    ensures run.s.waiter == Destroy ==> run.s.mutex == Nobody
  {
    RunInv(run);
  }

  /** Steps left for each side, not counting spurious wakeups before the bit is set. */
  function LeftWaiter(w: Waiter): nat {
    match w
    case Load => 7
    case Lock => 6
    case Cas => 5
    case Asleep => 5
    case Relock => 4
    case Loop => 3
    case Unlock => 2
    case Destroy => 1
    case Returned => 0
  }

  function LeftResumer(r: Resumer): nat {
    match r
    case RLoad => 6
    case RCas => 5
    case RLock => 4
    case RStore => 3
    case RSignal => 2
    case RUnlock => 1
    case RDone => 0
  }

  lemma WaiterShrinks(s: State, s': State)
    requires Inv(s) && Abstract(s).signalled && StepWaiter(s, s')
    ensures LeftWaiter(s'.waiter) < LeftWaiter(s.waiter) && s'.resumer == s.resumer
  {
  }

  lemma ResumerShrinks(s: State, s': State)
    requires Inv(s) && StepResumer(s, s')
    ensures LeftResumer(s'.resumer) < LeftResumer(s.resumer) && LeftWaiter(s'.waiter) <= LeftWaiter(s.waiter)
  {
  }

  /** Once the bit is set every step of suspend or resume brings it nearer to its return. */
  lemma StepsShrink(run: Trace<State>, s': State)
    requires Run(run) && Abstract(run.s).signalled
    ensures StepWaiter(run.s, s') ==> LeftWaiter(s'.waiter) < LeftWaiter(run.s.waiter) && s'.resumer == run.s.resumer
    ensures StepResumer(run.s, s') ==>
              LeftResumer(s'.resumer) < LeftResumer(run.s.resumer) && LeftWaiter(s'.waiter) <= LeftWaiter(run.s.waiter)
  {
    RunInv(run);
    if StepWaiter(run.s, s') {
      WaiterShrinks(run.s, s');
    }
    if StepResumer(run.s, s') {
      ResumerShrinks(run.s, s');
    }
  }

  /** And until both have returned one of them can take a step. */
  lemma NeverStuck(run: Trace<State>) returns (s': State)
    requires Run(run) && Abstract(run.s).signalled && !(run.s.resumer == RDone && run.s.waiter == Returned)
    ensures if run.s.resumer == RDone then StepWaiter(run.s, s') else StepResumer(run.s, s')
  {
    RunInv(run);
    var s := run.s;
    if s.resumer == RSignal {
      s' := s.(resumer := RUnlock, waiter := if s.waiter == Asleep then Relock else s.waiter);
    } else if s.resumer == RUnlock {
      s' := s.(mutex := Nobody, resumer := RDone);
    } else {
      match s.waiter {
        case Load => s' := s.(waiter := Returned);
        case Lock => s' := s.(mutex := TheWaiter, waiter := Cas);
        case Cas => s' := s.(waiter := Unlock);
        case Relock => s' := s.(mutex := TheWaiter, waiter := Loop);
        case Loop => s' := s.(waiter := Unlock);
        case Unlock => s' := s.(mutex := Nobody, waiter := Destroy);
        case Destroy => s' := s.(alive := false, waiter := Returned);
      }
    }
  }

  lemma OneMore(prefix: Trace<State>, s: State) returns (run: Trace<State>)
    requires Run(prefix) && (StepWaiter(prefix.s, s) || StepResumer(prefix.s, s))
    ensures Run(run) && run == Then(prefix, s) && Extends(run, prefix)
  {
    run := Then(prefix, s);
    assert Extends(prefix, prefix);
  }

  /** Steps left for the waiter until resume can go on, or until it returns itself. */
  function Ahead(s: State): nat {
    if s.resumer == RDone then LeftWaiter(s.waiter) else if s.mutex == TheWaiter then 1 else 0
  }

  /** Resume goes on unless the waiter has the mutex it wants, and then the waiter gives it back. */
  lemma SomeoneMoves(run: Trace<State>) returns (s': State)
    requires Run(run) && !(run.s.resumer == RDone && run.s.waiter == Returned)
    ensures StepWaiter(run.s, s') || StepResumer(run.s, s')
    ensures || LeftResumer(s'.resumer) < LeftResumer(run.s.resumer)
            || (s'.resumer == run.s.resumer && Ahead(s') < Ahead(run.s))
  {
    RunInv(run);
    var s := run.s;
    if Abstract(s).signalled {
      s' := NeverStuck(run);
      StepsShrink(run, s');
    } else {
      match s.resumer {
        case RLoad => s' := s.(resumer := if s.ptr == Null then RCas else RLock);
        case RCas => s' := if s.ptr == Null then s.(ptr := Invalid, resumer := RDone) else s.(resumer := RLock);
        case RLock => s' := if s.mutex == Nobody then s.(mutex := TheResumer, resumer := RStore)
                            else s.(mutex := Nobody, waiter := Asleep);
        case RStore => s' := s.(val := 1, resumer := RSignal);
      }
    }
  }

  /** So every run extends to one in which both have returned. */
  lemma {:induction false} BothReturn(run: Trace<State>) returns (run': Trace<State>)
    requires Run(run)
    ensures Run(run') && Extends(run', run) && run'.s.resumer == RDone && run'.s.waiter == Returned
    decreases LeftResumer(run.s.resumer), Ahead(run.s)
  {
    if run.s.resumer == RDone && run.s.waiter == Returned {
      return run;
    }
    var s' := SomeoneMoves(run);
    var longer := OneMore(run, s');
    run' := BothReturn(longer);
    ExtendsFurther(run', longer, run);
  }

  /** A waiter that comes first does fall asleep, with its mutex free. */
  lemma WaiterSleeps() returns (run: Trace<State>)
    ensures Run(run) && run.s.waiter == Asleep && run.s.val == 0 && run.s.mutex == Nobody
  {
    run := Begin(BEGIN);
    run := OneMore(run, State(Null, 0, Nobody, true, Lock, RLoad));
    run := OneMore(run, State(Null, 0, TheWaiter, true, Cas, RLoad));
    run := OneMore(run, State(SyncObj, 0, TheWaiter, true, Loop, RLoad));
    run := OneMore(run, State(SyncObj, 0, Nobody, true, Asleep, RLoad));
  }

  /** A sleeper may wake up for no reason; it looks at the value and, if that is still 0, sleeps again. */
  lemma SpuriousWakeup(run: Trace<State>) returns (run': Trace<State>)
    requires Run(run) && run.s.waiter == Asleep && run.s.val == 0 && run.s.mutex == Nobody
    ensures Run(run') && Extends(run', run) && run'.s == run.s && run'.Steps() == run.Steps() + 3
  {
    var one := OneMore(run, run.s.(waiter := Relock));
    var two := OneMore(one, run.s.(waiter := Loop, mutex := TheWaiter));
    run' := OneMore(two, run.s);
    assert one.Steps() == run.Steps() + 1 && two.Steps() == run.Steps() + 2;
    ExtendsFurther(two, one, run);
    ExtendsFurther(run', two, run);
  }
}
