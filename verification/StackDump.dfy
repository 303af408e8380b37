/** The protocol behind ABT_info_trigger_print_all_thread_stacks: an atomic flag with four states and a
    counter make all execution streams stop while one of them prints. One step is one atomic operation,
    one plain assignment, or one output. */
module StackDump {
  import opened Counting
  import opened Options
  import opened Traces

  /** The arguments of one trigger. Pointers are numbers; a callback may be NULL. */
  datatype Request = Request(fp: int, timeout: real, cb: Option<int>, arg: int)

  datatype Flag = Unset | Initialize | Wait | Finalize

  /** Where an execution stream is: outside ABTI_info_check_print_all_thread_stacks, having seen the flag
      at Wait, spinning as the main stream, printing, calling back, about to store Finalize, spinning as
      another stream, at the assertion, about to decrement, or about to reset the flag. */
  datatype EsPc = Out | Loaded | Spin | Print(force: bool) | Callback(force: bool) | Finish
                | Waiting | Check | Decrement | Last

  /** Where a trigger is: Write(k) has k of the four assignments behind it; 5 is the store of Wait. */
  datatype TriggerPc = Start | Cas | Write(k: nat) | Done

  datatype Event = TimedOut(out: int) | Printed(out: int) | Called(cb: int, forced: bool, arg: int)

  datatype Shared = Shared(flag: Flag, barrier: int, vars: Request)

  /** The last five fields only observe: accepted lists the triggers that won, in order; events is the
      output so far; leader and last name the main stream and the stream that resets, or are -1. */
  datatype State = State(sh: Shared, es: seq<EsPc>, triggers: seq<TriggerPc>, failed: bool,
                         accepted: seq<nat>, events: seq<Event>, resets: nat, leader: int, last: int)

  /** As many execution streams and triggers as one likes. */
  ghost predicate Init(requests: seq<Request>, s: State) {
    && s.sh.flag == Unset && s.sh.barrier == 0
    && (forall i | 0 <= i < |s.es| :: s.es[i] == Out)
    && |s.triggers| == |requests| && (forall j | 0 <= j < |s.triggers| :: s.triggers[j] == Start)
    && !s.failed && s.accepted == [] && s.events == [] && s.resets == 0 && s.leader == s.last == -1
  }

  // ----- one step of an execution stream

  /** The stream is not spinning in vain. The main stream gives up only on a nonnegative timeout. */
  predicate EsEnabled(s: State, i: nat) {
    && i < |s.es|
    && (s.es[i] == Out ==> s.sh.flag == Wait)
    && (s.es[i] == Waiting ==> s.sh.flag == Finalize)
    && (s.es[i] == Spin ==> s.sh.barrier >= |s.es| || s.sh.vars.timeout >= 0.0)
  }

  function EsStep(s: State, i: nat): State
    requires EsEnabled(s, i)
  {
    var sh := s.sh;
    match s.es[i]
    case Out =>
      s.(es := s.es[i := Loaded])
    case Loaded =>
      s.(sh := sh.(barrier := sh.barrier + 1),
         es := s.es[i := if sh.barrier == 0 then Spin else Waiting],
         leader := if sh.barrier == 0 then i else s.leader)
    case Spin =>
      s.(es := s.es[i := Print(sh.barrier < |s.es|)])
    case Print(force) =>
      s.(es := s.es[i := Callback(force)],
         events := s.events + (if force then [TimedOut(sh.vars.fp)] else []) + [Printed(sh.vars.fp)])
    case Callback(force) =>
      s.(es := s.es[i := Finish],
         events := s.events + if sh.vars.cb.Some? then [Called(sh.vars.cb.value, force, sh.vars.arg)] else [])
    case Finish =>
      s.(sh := sh.(flag := Finalize), es := s.es[i := Check], leader := -1)
    case Waiting =>
      s.(es := s.es[i := Check])
    case Check =>
      s.(es := s.es[i := Decrement], failed := s.failed || sh.flag != Finalize)
    case Decrement =>
      s.(sh := sh.(barrier := sh.barrier - 1),
         es := s.es[i := if sh.barrier == 1 then Last else Out],
         last := if sh.barrier == 1 then i else s.last)
    case Last =>
      s.(sh := sh.(flag := Unset), es := s.es[i := Out], resets := s.resets + 1, last := -1)
  }

  predicate StepEs(s: State, s': State, i: nat) {
    EsEnabled(s, i) && s' == EsStep(s, i)
  }

  // ----- one step of a trigger

  predicate TriggerEnabled(s: State, j: nat) {
    j < |s.triggers| && !s.triggers[j].Done? && (s.triggers[j].Write? ==> s.triggers[j].k <= 5)
  }

  function TriggerStep(r: Request, s: State, j: nat): State
    requires TriggerEnabled(s, j)
  {
    var sh := s.sh;
    match s.triggers[j]
    case Start =>
      s.(triggers := s.triggers[j := if sh.flag == Unset then Cas else Done])
    case Cas =>
      if sh.flag == Unset then
        s.(sh := sh.(flag := Initialize), triggers := s.triggers[j := Write(0)], accepted := s.accepted + [j])
      else
        s.(triggers := s.triggers[j := Done])
    case Write(k) =>
      if k < 4 then
        s.(sh := sh.(vars := Assign(sh.vars, r, k)), triggers := s.triggers[j := Write(k + 1)])
      else if k == 4 then
        s.(triggers := s.triggers[j := Write(5)], failed := s.failed || sh.barrier != 0)
      else
        s.(sh := sh.(flag := Wait), triggers := s.triggers[j := Done])
  }

  predicate StepTrigger(r: Request, s: State, s': State, j: nat) {
    TriggerEnabled(s, j) && s' == TriggerStep(r, s, j)
  }

  /** Assignment k of the four global variables. */
  function Assign(vars: Request, r: Request, k: nat): Request {
    if k == 0 then vars.(fp := r.fp)
    else if k == 1 then vars.(timeout := r.timeout)
    else if k == 2 then vars.(cb := r.cb)
    else vars.(arg := r.arg)
  }

  ghost predicate Next(requests: seq<Request>, s: State, s': State) {
    || (exists i: nat :: StepEs(s, s', i))
    || (exists j: nat :: j < |requests| && StepTrigger(requests[j], s, s', j))
  }

  ghost predicate Run(requests: seq<Request>, run: Trace<State>) {
    match run
    case Begin(s) => Init(requests, s)
    case Then(prefix, s) => Run(requests, prefix) && Next(requests, prefix.s, s)
  }

  // ----- the invariant

  /** Between the increment and the decrement of the barrier. */
  function Inside(pc: EsPc): nat {
    if pc.Out? || pc.Loaded? || pc.Last? then 0 else 1
  }

  predicate IsMain(pc: EsPc) {
    pc.Spin? || pc.Print? || pc.Callback? || pc.Finish?
  }

  /** What the place of one execution stream says about the flag and the barrier. */
  predicate EsOk(flag: Flag, barrier: int, n: nat, pc: EsPc) {
    match pc
    case Out => true
    case Loaded => flag == Wait
    case Spin => flag == Wait
    case Print(force) => flag == Wait && barrier == n && !force
    case Callback(force) => flag == Wait && barrier == n && !force
    case Finish => flag == Wait && barrier == n
    case Waiting => flag == Wait || flag == Finalize
    case Check => flag == Finalize
    case Decrement => flag == Finalize
    case Last => flag == Finalize && barrier == 0
  }

  /** Stream i is where flag, barrier, leader and last say. */
  predicate EsHere(flag: Flag, barrier: int, n: nat, leader: int, last: int, i: nat, pc: EsPc) {
    EsOk(flag, barrier, n, pc) && (IsMain(pc) <==> i == leader) && (pc == Last <==> i == last)
  }

  ghost predicate EsInv(flag: Flag, barrier: int, es: seq<EsPc>, leader: int, last: int) {
    && barrier == Total(es, Inside)
    && (forall i: nat {:trigger es[i]} | i < |es| :: EsHere(flag, barrier, |es|, leader, last, i, es[i]))
    && (if flag == Wait && barrier > 0 then 0 <= leader < |es| else leader == -1)
    && (if flag == Finalize && barrier == 0 then 0 <= last < |es| else last == -1)
  }

  /** The four variables agree with r as far as k assignments go. */
  predicate Assigned(vars: Request, r: Request, k: nat) {
    && (k > 0 ==> vars.fp == r.fp) && (k > 1 ==> vars.timeout == r.timeout)
    && (k > 2 ==> vars.cb == r.cb) && (k > 3 ==> vars.arg == r.arg)
  }

  predicate AcceptedOk(requests: seq<Request>, accepted: seq<nat>) {
    forall a | 0 <= a < |accepted| :: accepted[a] < |requests|
  }

  /** The trigger served now, or -1. */
  function Current(flag: Flag, accepted: seq<nat>): int {
    if flag == Unset || accepted == [] then -1 else accepted[|accepted| - 1]
  }

  ghost predicate TriggerInv(requests: seq<Request>, sh: Shared, triggers: seq<TriggerPc>, accepted: seq<nat>) {
    && |triggers| == |requests| && AcceptedOk(requests, accepted)
    && (sh.flag != Unset ==> accepted != [])
    && var c := Current(sh.flag, accepted);
    && (forall j | 0 <= j < |triggers| :: triggers[j].Write? <==> sh.flag == Initialize && j == c)
    && (sh.flag == Initialize ==> triggers[c].k <= 5 && Assigned(sh.vars, requests[c], triggers[c].k))
    && (sh.flag == Wait || sh.flag == Finalize ==> sh.vars == requests[c])
  }

  /** What a request must put out: its stacks to its stream, then its callback, unless NULL, once. */
  function Output(r: Request): seq<Event> {
    [Printed(r.fp)] + if r.cb.Some? then [Called(r.cb.value, false, r.arg)] else []
  }

  function Outputs(requests: seq<Request>, accepted: seq<nat>): seq<Event>
    requires AcceptedOk(requests, accepted)
  {
    if accepted == [] then []
    else Outputs(requests, accepted[..|accepted| - 1]) + Output(requests[accepted[|accepted| - 1]])
  }

  /** The output of the current round so far. */
  function Partial(flag: Flag, es: seq<EsPc>, leader: int, r: Request): seq<Event> {
    if flag == Finalize then Output(r)
    else if flag != Wait || !(0 <= leader < |es|) then []
    else if es[leader].Callback? then [Printed(r.fp)]
    else if es[leader].Finish? then Output(r)
    else []
  }

  ghost predicate LogInv(requests: seq<Request>, s: State)
    requires TriggerInv(requests, s.sh, s.triggers, s.accepted)
  {
    if s.sh.flag == Unset then
      s.events == Outputs(requests, s.accepted) && s.resets == |s.accepted|
    else
      && s.events == Outputs(requests, s.accepted[..|s.accepted| - 1])
                     + Partial(s.sh.flag, s.es, s.leader, requests[Current(s.sh.flag, s.accepted)])
      && s.resets == |s.accepted| - 1
  }

  ghost predicate Inv(requests: seq<Request>, s: State) {
    && EsInv(s.sh.flag, s.sh.barrier, s.es, s.leader, s.last)
    && TriggerInv(requests, s.sh, s.triggers, s.accepted)
    && LogInv(requests, s)
    && !s.failed
  }

  /** The documented use: a negative timeout means to wait for every stream. */
  ghost predicate AllWait(requests: seq<Request>) {
    forall j | 0 <= j < |requests| :: requests[j].timeout < 0.0
  }

  // ----- every step keeps it

  /** A step that leaves the flag and the barrier alone. */
  lemma QuietKeeps(flag: Flag, barrier: int, es: seq<EsPc>, leader: int, last: int, i: nat, pc: EsPc)
    requires EsInv(flag, barrier, es, leader, last) && i < |es|
    requires Inside(pc) == Inside(es[i]) && IsMain(pc) == IsMain(es[i]) && pc != Last && es[i] != Last
    requires EsOk(flag, barrier, |es|, pc)
    ensures EsInv(flag, barrier, es[i := pc], leader, last)
  {
    TotalUpdate(es, i, pc, Inside);
  }

  lemma ArriveKeeps(barrier: int, es: seq<EsPc>, leader: int, i: nat)
    requires EsInv(Wait, barrier, es, leader, -1) && i < |es| && es[i] == Loaded
    ensures EsInv(Wait, barrier + 1, es[i := if barrier == 0 then Spin else Waiting],
                  if barrier == 0 then i else leader, -1)
  {
    var pc := if barrier == 0 then Spin else Waiting;
    TotalUpdate(es, i, pc, Inside);
    TotalAllOnes(es, Inside);
    assert Inside(es[i]) == 0;
    assert barrier < |es|;
    if barrier == 0 {
      NobodyInside(es);
    }
  }

  lemma FinishKeeps(barrier: int, es: seq<EsPc>, leader: int, i: nat)
    requires EsInv(Wait, barrier, es, leader, -1) && i < |es| && es[i] == Finish
    ensures EsInv(Finalize, barrier, es[i := Check], -1, -1)
    ensures barrier == |es|
  {
    TotalUpdate(es, i, Check, Inside);
    TotalAllOnes(es, Inside);
    assert EsHere(Wait, barrier, |es|, leader, -1, i, es[i]);
    var es' := es[i := Check];
    forall k: nat | k < |es'| ensures EsHere(Finalize, barrier, |es|, -1, -1, k, es'[k]) {
      assert EsHere(Wait, barrier, |es|, leader, -1, k, es[k]) && Inside(es[k]) == 1;
    }
  }

  lemma DecrementKeeps(barrier: int, es: seq<EsPc>, last: int, i: nat)
    requires EsInv(Finalize, barrier, es, -1, last) && i < |es| && es[i] == Decrement
    ensures EsInv(Finalize, barrier - 1, es[i := if barrier == 1 then Last else Out], -1,
                  if barrier == 1 then i else last)
  {
    TotalUpdate(es, i, if barrier == 1 then Last else Out, Inside);
    TotalAtLeast(es, i, Inside);
    assert barrier > 0 && last == -1;
  }

  lemma LastKeeps(barrier: int, es: seq<EsPc>, last: int, i: nat)
    requires EsInv(Finalize, barrier, es, -1, last) && i < |es| && es[i] == Last
    ensures EsInv(Unset, barrier, es[i := Out], -1, -1) && barrier == 0
  {
    TotalUpdate(es, i, Out, Inside);
    assert EsHere(Finalize, barrier, |es|, -1, last, i, es[i]);
    NobodyInside(es);
    var es' := es[i := Out];
    forall k: nat | k < |es'| ensures EsHere(Unset, barrier, |es|, -1, -1, k, es'[k]) {
      assert EsHere(Finalize, barrier, |es|, -1, last, k, es[k]);
    }
  }

  lemma EsStepKeeps(s: State, s': State, i: nat)
    requires EsInv(s.sh.flag, s.sh.barrier, s.es, s.leader, s.last)
    requires i < |s.es| && StepEs(s, s', i)
    requires s.es[i] == Spin ==> s.sh.vars.timeout < 0.0
    ensures EsInv(s'.sh.flag, s'.sh.barrier, s'.es, s'.leader, s'.last)
  {
    assert EsHere(s.sh.flag, s.sh.barrier, |s.es|, s.leader, s.last, i, s.es[i]);
    match s.es[i] {
      case Loaded => ArriveKeeps(s.sh.barrier, s.es, s.leader, i);
      case Finish => FinishKeeps(s.sh.barrier, s.es, s.leader, i);
      case Decrement => DecrementKeeps(s.sh.barrier, s.es, s.last, i);
      case Last => LastKeeps(s.sh.barrier, s.es, s.last, i);
      case Spin =>
        TotalAllOnes(s.es, Inside);
        QuietKeeps(s.sh.flag, s.sh.barrier, s.es, s.leader, s.last, i, Print(false));
      case _ =>
        QuietKeeps(s.sh.flag, s.sh.barrier, s.es, s.leader, s.last, i, s'.es[i]);
    }
  }

  lemma NobodyInside(es: seq<EsPc>)
    requires Total(es, Inside) == 0
    ensures forall i | 0 <= i < |es| :: Inside(es[i]) == 0
  {
    forall i | 0 <= i < |es| ensures Inside(es[i]) == 0 {
      TotalAtLeast(es, i, Inside);
    }
  }

  /** Triggers move the flag only before and after all streams are out. */
  lemma FlagKeeps(flag: Flag, flag': Flag, barrier: int, es: seq<EsPc>)
    requires EsInv(flag, barrier, es, -1, -1)
    requires (flag == Unset && flag' == Initialize) || (flag == Initialize && flag' == Wait)
    ensures EsInv(flag', barrier, es, -1, -1) && barrier == 0
  {
    forall i: nat | i < |es| ensures Inside(es[i]) == 0 && EsHere(flag', barrier, |es|, -1, -1, i, es[i]) {
      assert EsHere(flag, barrier, |es|, -1, -1, i, es[i]);
    }
    TotalConstant(es, Inside, 0);
  }

  lemma TriggerStepKeepsEs(r: Request, s: State, s': State, j: nat)
    requires EsInv(s.sh.flag, s.sh.barrier, s.es, s.leader, s.last)
    requires j < |s.triggers| && StepTrigger(r, s, s', j)
    requires s.triggers[j].Write? ==> s.sh.flag == Initialize
    ensures EsInv(s'.sh.flag, s'.sh.barrier, s'.es, s'.leader, s'.last)
    ensures s'.failed == s.failed
  {
    if s.sh.flag == Unset || s.sh.flag == Initialize {
      FlagKeeps(s.sh.flag, if s.sh.flag == Unset then Initialize else Wait, s.sh.barrier, s.es);
    }
  }

  lemma EsStepKeepsTriggers(requests: seq<Request>, s: State, s': State, i: nat)
    requires EsInv(s.sh.flag, s.sh.barrier, s.es, s.leader, s.last)
    requires TriggerInv(requests, s.sh, s.triggers, s.accepted)
    requires i < |s.es| && StepEs(s, s', i)
    ensures TriggerInv(requests, s'.sh, s'.triggers, s'.accepted)
    ensures s'.failed == s.failed
  {
    assert EsHere(s.sh.flag, s.sh.barrier, |s.es|, s.leader, s.last, i, s.es[i]);
  }

  lemma TriggerStepKeepsTriggers(requests: seq<Request>, s: State, s': State, j: nat)
    requires TriggerInv(requests, s.sh, s.triggers, s.accepted)
    requires j < |requests| && StepTrigger(requests[j], s, s', j)
    ensures TriggerInv(requests, s'.sh, s'.triggers, s'.accepted)
  {
  }

  /** The outputs of the main stream. */
  lemma OutputKeepsLog(requests: seq<Request>, s: State, s': State, i: nat)
    requires Inv(requests, s) && StepEs(s, s', i) && (s.es[i].Print? || s.es[i].Callback?)
    requires TriggerInv(requests, s'.sh, s'.triggers, s'.accepted)
    ensures LogInv(requests, s')
  {
    assert EsHere(s.sh.flag, s.sh.barrier, |s.es|, s.leader, s.last, i, s.es[i]);
  }

  /** The steps that move the flag. */
  lemma FlagKeepsLog(requests: seq<Request>, s: State, s': State, i: nat)
    requires Inv(requests, s) && StepEs(s, s', i) && (s.es[i] == Finish || s.es[i] == Last)
    requires TriggerInv(requests, s'.sh, s'.triggers, s'.accepted)
    ensures LogInv(requests, s')
  {
    assert EsHere(s.sh.flag, s.sh.barrier, |s.es|, s.leader, s.last, i, s.es[i]);
  }

  lemma EsStepKeepsLog(requests: seq<Request>, s: State, s': State, i: nat)
    requires Inv(requests, s) && StepEs(s, s', i)
    requires s.es[i] == Spin ==> s.sh.vars.timeout < 0.0
    requires TriggerInv(requests, s'.sh, s'.triggers, s'.accepted)
    ensures LogInv(requests, s')
  {
    if s.es[i].Print? || s.es[i].Callback? {
      OutputKeepsLog(requests, s, s', i);
    } else if s.es[i] == Finish || s.es[i] == Last {
      FlagKeepsLog(requests, s, s', i);
    } else {
      assert EsHere(s.sh.flag, s.sh.barrier, |s.es|, s.leader, s.last, i, s.es[i]);
    }
  }

  lemma CasKeepsLog(requests: seq<Request>, s: State, s': State, j: nat)
    requires Inv(requests, s) && j < |requests| && s.sh.flag == Unset
    requires s'.sh.flag == Initialize && s'.accepted == s.accepted + [j]
    requires s'.events == s.events && s'.resets == s.resets
    requires TriggerInv(requests, s'.sh, s'.triggers, s'.accepted)
    ensures LogInv(requests, s')
  {
    assert s'.accepted[..|s'.accepted| - 1] == s.accepted;
  }

  lemma TriggerStepKeepsLog(requests: seq<Request>, s: State, s': State, j: nat)
    requires Inv(requests, s) && j < |requests| && StepTrigger(requests[j], s, s', j)
    requires TriggerInv(requests, s'.sh, s'.triggers, s'.accepted)
    ensures LogInv(requests, s')
  {
    if s'.accepted != s.accepted {
      CasKeepsLog(requests, s, s', j);
    } else {
      assert s'.events == s.events && s'.resets == s.resets && s'.es == s.es && s'.leader == s.leader;
      if s'.sh.flag != s.sh.flag {
        assert s.sh.flag == Initialize && s'.sh.flag == Wait && s.leader == -1;
      }
    }
  }

  lemma StepKeeps(requests: seq<Request>, s: State, s': State)
    requires Inv(requests, s) && Next(requests, s, s') && AllWait(requests)
    ensures Inv(requests, s') && |s'.es| == |s.es|
  {
    if i: nat :| StepEs(s, s', i) {
      assert s.es[i] == Spin ==> s.sh.vars.timeout < 0.0 by {
        assert EsHere(s.sh.flag, s.sh.barrier, |s.es|, s.leader, s.last, i, s.es[i]);
      }
      EsStepKeeps(s, s', i);
      EsStepKeepsTriggers(requests, s, s', i);
      EsStepKeepsLog(requests, s, s', i);
    } else {
      var j: nat :| j < |requests| && StepTrigger(requests[j], s, s', j);
      TriggerStepKeepsEs(requests[j], s, s', j);
      TriggerStepKeepsTriggers(requests, s, s', j);
      TriggerStepKeepsLog(requests, s, s', j);
    }
  }

  lemma {:induction false} RunInv(requests: seq<Request>, run: Trace<State>)
    requires Run(requests, run) && AllWait(requests)
    ensures Inv(requests, run.s) && |run.s.es| == |run.First().es|
  {
    match run
    case Begin(s) =>
      TotalConstant(s.es, Inside, 0);
    case Then(prefix, s) =>
      RunInv(requests, prefix);
      StepKeeps(requests, prefix.s, s);
  }

  // ----- the theorems

  ghost predicate OneMain(es: seq<EsPc>) {
    forall i: nat, k: nat | i < |es| && k < |es| && IsMain(es[i]) && IsMain(es[k]) :: i == k
  }

  ghost predicate OneResets(es: seq<EsPc>) {
    forall i: nat, k: nat | i < |es| && k < |es| && es[i] == Last && es[k] == Last :: i == k
  }

  ghost predicate OthersWait(es: seq<EsPc>) {
    forall i: nat, k: nat | i < |es| && k < |es| && (es[i].Print? || es[i].Callback?) ::
      i == k || es[k] == Waiting
  }

  lemma EverybodyWaits(flag: Flag, barrier: int, es: seq<EsPc>, leader: int, last: int)
    requires EsInv(flag, barrier, es, leader, last)
    ensures OthersWait(es)
  {
    TotalAllOnes(es, Inside);
    forall i: nat, k: nat | i < |es| && k < |es| && (es[i].Print? || es[i].Callback?)
      ensures i == k || es[k] == Waiting
    {
      assert EsHere(flag, barrier, |es|, leader, last, i, es[i]);
      assert EsHere(flag, barrier, |es|, leader, last, k, es[k]);
      assert Inside(es[k]) == 1;
    }
  }

  lemma OneOfEach(flag: Flag, barrier: int, es: seq<EsPc>, leader: int, last: int)
    requires EsInv(flag, barrier, es, leader, last)
    ensures OneMain(es) && OneResets(es)
    ensures flag == Unset || flag == Initialize ==> barrier == 0
  {
    forall i: nat | i < |es| ensures EsHere(flag, barrier, |es|, leader, last, i, es[i]) {
    }
    if flag == Unset || flag == Initialize {
      TotalConstant(es, Inside, 0);
    }
  }

  /** What the two assertions of the source ask for, wherever a stream or a trigger is at one. */
  ghost predicate AssertionsHold(s: State) {
    && (forall i: nat {:trigger s.es[i]} | i < |s.es| && s.es[i] == Check :: s.sh.flag == Finalize)
    && (forall j: nat {:trigger s.triggers[j]} | j < |s.triggers| && s.triggers[j] == Write(4) :: s.sh.barrier == 0)
  }

  lemma AssertionsHoldHere(requests: seq<Request>, s: State)
    requires Inv(requests, s)
    ensures AssertionsHold(s)
  {
    forall i: nat | i < |s.es| && s.es[i] == Check ensures s.sh.flag == Finalize {
      assert EsHere(s.sh.flag, s.sh.barrier, |s.es|, s.leader, s.last, i, s.es[i]);
    }
    if s.sh.flag == Initialize {
      OneOfEach(s.sh.flag, s.sh.barrier, s.es, s.leader, s.last);
    }
  }

  /** In every reachable state both assertions hold and have held, the counter is the number of streams inside, it
      is 0 while the flag is Unset or Initialize, at most one stream is the main one, all the others spin
      inside while it prints or calls back, and at most one stream is about to reset the flag. */
  lemma StopTheWorld(requests: seq<Request>, run: Trace<State>)
    requires Run(requests, run) && AllWait(requests)
    ensures var s := run.s;
            && !s.failed && AssertionsHold(s)
            && s.sh.barrier == Total(s.es, Inside)
            && (s.sh.flag == Unset || s.sh.flag == Initialize ==> s.sh.barrier == 0)
            && OneMain(s.es) && OneResets(s.es) && OthersWait(s.es)
  {
    RunInv(requests, run);
    var s := run.s;
    OneOfEach(s.sh.flag, s.sh.barrier, s.es, s.leader, s.last);
    EverybodyWaits(s.sh.flag, s.sh.barrier, s.es, s.leader, s.last);
    AssertionsHoldHere(requests, s);
  }

  /** Whenever the flag is Unset, the output of the whole run is, in order, that of the triggers that won:
      each printed exactly once, on its own stream, followed by its own callback with its own argument and
      the flag false; and there have been exactly as many resets as such triggers. */
  lemma EveryRoundPrintsOnce(requests: seq<Request>, run: Trace<State>)
    requires Run(requests, run) && AllWait(requests)
    ensures AcceptedOk(requests, run.s.accepted)
    ensures run.s.sh.flag == Unset ==>
              run.s.events == Outputs(requests, run.s.accepted) && run.s.resets == |run.s.accepted|
    ensures run.s.sh.flag != Unset ==> run.s.resets + 1 == |run.s.accepted|
  {
    RunInv(requests, run);
  }

  /** A trigger wins at most once, and one that finds the flag taken is dropped: it never reaches the
      variables, whatever the documentation says about updating old values. */
  ghost predicate WinsOnce(triggers: seq<TriggerPc>, accepted: seq<nat>) {
    && (forall a: nat {:trigger accepted[a]} | a < |accepted| ::
          accepted[a] < |triggers| && (triggers[accepted[a]].Write? || triggers[accepted[a]].Done?))
    && (forall a: nat, b: nat | a < b < |accepted| :: accepted[a] != accepted[b])
  }

  lemma TriggerMovesOn(triggers: seq<TriggerPc>, accepted: seq<nat>, j: nat, pc: TriggerPc)
    requires WinsOnce(triggers, accepted) && j < |triggers| && (pc.Write? || pc.Done? || triggers[j] == Start)
    ensures WinsOnce(triggers[j := pc], accepted)
    ensures triggers[j] == Cas && pc.Write? ==> WinsOnce(triggers[j := pc], accepted + [j])
  {
  }

  lemma {:induction false} EachTriggerWinsOnce(requests: seq<Request>, run: Trace<State>)
    requires Run(requests, run)
    ensures |run.s.triggers| == |requests| && WinsOnce(run.s.triggers, run.s.accepted)
  {
    if run.Then? {
      EachTriggerWinsOnce(requests, run.prefix);
      var s := run.prefix.s;
      if j: nat :| j < |requests| && StepTrigger(requests[j], s, run.s, j) {
        TriggerMovesOn(s.triggers, s.accepted, j, run.s.triggers[j]);
      }
    }
  }

  lemma BusyTriggerIsDropped(r: Request, s: State, s': State, j: nat)
    requires j < |s.triggers| && StepTrigger(r, s, s', j)
    requires s.triggers[j] == Start || s.triggers[j] == Cas
    requires s.sh.flag != Unset
    ensures s' == s.(triggers := s.triggers[j := Done])
  {
  }

  /** Trigger j has, in some step of the run, found the flag Unset and taken it. */
  ghost predicate WonAtUnset(requests: seq<Request>, run: Trace<State>, j: nat)
    requires j < |requests|
  {
    && run.Then?
    && (|| WonAtUnset(requests, run.prefix, j)
        || (&& j < |run.prefix.s.triggers| && run.prefix.s.triggers[j] == Cas && run.prefix.s.sh.flag == Unset
            && StepTrigger(requests[j], run.prefix.s, run.s, j)))
  }

  lemma {:induction false} WinsIffAtUnset(requests: seq<Request>, run: Trace<State>, j: nat)
    requires Run(requests, run) && j < |requests|
    ensures j in run.s.accepted <==> WonAtUnset(requests, run, j)
  {
    if run.Then? {
      var s := run.prefix.s;
      WinsIffAtUnset(requests, run.prefix, j);
      if k: nat :| k < |requests| && StepTrigger(requests[k], s, run.s, k) {
        assert run.s.accepted == s.accepted || (run.s.accepted == s.accepted + [k] && s.triggers[k] == Cas);
        if run.s.accepted != s.accepted && j == k {
          assert run.s.accepted[|s.accepted|] == j;
        }
      } else {
        assert run.s.accepted == s.accepted;
      }
    }
  }

  /** In some state of the run the flag was Wait and the four variables were those of trigger j. */
  ghost predicate Served(requests: seq<Request>, run: Trace<State>, j: nat)
    requires j < |requests|
  {
    || (run.Then? && Served(requests, run.prefix, j))
    || (run.s.sh.flag == Wait && Current(Wait, run.s.accepted) == j && run.s.sh.vars == requests[j])
  }

  /** A trigger that has returned was served exactly if it won. */
  lemma {:induction false} ServedIffAccepted(requests: seq<Request>, run: Trace<State>, j: nat)
    requires Run(requests, run) && AllWait(requests) && j < |requests| == |run.s.triggers|
    ensures Served(requests, run, j) ==> j in run.s.accepted
    ensures run.s.triggers[j] == Done && j in run.s.accepted ==> Served(requests, run, j)
  {
    RunInv(requests, run);
    if run.Then? {
      var s := run.prefix.s;
      RunInv(requests, run.prefix);
      EachTriggerWinsOnce(requests, run.prefix);
      ServedIffAccepted(requests, run.prefix, j);
      AcceptedMovesOn(requests, s, run.s, j);
    }
  }

  lemma TriggerAccepts(requests: seq<Request>, s: State, s': State, k: nat)
    requires TriggerInv(requests, s.sh, s.triggers, s.accepted)
    requires k < |requests| && StepTrigger(requests[k], s, s', k)
    ensures |s'.triggers| == |s.triggers| && s'.triggers == s.triggers[k := s'.triggers[k]]
    ensures s'.accepted == s.accepted || (s'.accepted == s.accepted + [k] && s'.triggers[k] == Write(0))
    ensures s'.triggers[k] == Done && s.triggers[k].Write? ==>
              s'.sh.flag == Wait && Current(Wait, s'.accepted) == k && s'.sh.vars == requests[k]
  {
  }

  /** The step in which a winner returns opens the flag to its own values. */
  lemma AcceptedMovesOn(requests: seq<Request>, s: State, s': State, j: nat)
    requires TriggerInv(requests, s.sh, s.triggers, s.accepted) && WinsOnce(s.triggers, s.accepted)
    requires Next(requests, s, s') && j < |requests|
    ensures |s'.triggers| == |requests| && (j in s.accepted ==> j in s'.accepted)
    ensures j in s'.accepted && s.triggers[j] == Done ==> j in s.accepted
    ensures s'.triggers[j] == Done && j in s'.accepted && s.triggers[j] != Done ==>
              s'.sh.flag == Wait && Current(Wait, s'.accepted) == j && s'.sh.vars == requests[j]
  {
    if i: nat :| StepEs(s, s', i) {
      assert s'.accepted == s.accepted && s'.triggers == s.triggers;
    } else {
      var k: nat :| k < |requests| && StepTrigger(requests[k], s, s', k);
      assert j in s.accepted ==> s.triggers[j].Write? || s.triggers[j].Done?;
      TriggerAccepts(requests, s, s', k);
    }
  }

  /** A trigger that has returned has had its values served exactly if it found the flag Unset in its
      compare-and-swap; every other one is dropped, although the documentation says that calling again
      updates old values. */
  lemma UpdatesIffWonAtUnset(requests: seq<Request>, run: Trace<State>, j: nat)
    requires Run(requests, run) && AllWait(requests) && j < |requests| == |run.s.triggers|
    requires run.s.triggers[j] == Done
    ensures Served(requests, run, j) <==> WonAtUnset(requests, run, j)
  {
    WinsIffAtUnset(requests, run, j);
    ServedIffAccepted(requests, run, j);
  }

  /** The values are updated atomically, as documented: while the flag is Wait or Finalize all four are
      those of the trigger that won last. */
  lemma ValuesOfOneTrigger(requests: seq<Request>, run: Trace<State>)
    requires Run(requests, run) && AllWait(requests)
    requires run.s.sh.flag == Wait || run.s.sh.flag == Finalize
    ensures run.s.accepted != [] && run.s.accepted[|run.s.accepted| - 1] < |requests|
    ensures run.s.sh.vars == requests[run.s.accepted[|run.s.accepted| - 1]]
  {
    RunInv(requests, run);
  }

  lemma OneMore(requests: seq<Request>, prefix: Trace<State>, s: State) returns (run: Trace<State>)
    requires Run(requests, prefix) && Next(requests, prefix.s, s)
    ensures run == Then(prefix, s) && Run(requests, run) && Extends(run, prefix)
  {
    run := Then(prefix, s);
    assert Extends(prefix, prefix);
  }

  lemma TriggerIsNext(requests: seq<Request>, s: State, s': State, j: nat)
    requires j < |requests| && StepTrigger(requests[j], s, s', j)
    ensures Next(requests, s, s')
  {
  }

  function Begun(es: nat, vars: Request): State {
    State(Shared(Unset, 0, vars), seq(es, _ => Out), [Start, Start], false, [], [], 0, -1, -1)
  }

  /** Two triggers, the second called while the first writes its values: both return, and the values are
      those of the first, whatever the two pass. */
  lemma SecondTriggerIsDropped(es: nat, vars: Request, first: Request, second: Request) returns (run: Trace<State>)
    ensures Run([first, second], run) && run.s.triggers == [Done, Done]
    ensures run.s.sh.flag == Wait && run.s.sh.vars == first && run.s.accepted == [0]
  {
    var requests := [first, second];
    run := Begin(Begun(es, vars));
    run := TriggerMoves(requests, run, 0);
    run := TriggerMoves(requests, run, 0);
    run := TriggerMoves(requests, run, 1);
    run := WritesValues(requests, run);
  }

  lemma TriggerMoves(requests: seq<Request>, prefix: Trace<State>, j: nat) returns (run: Trace<State>)
    requires Run(requests, prefix) && j < |requests| && TriggerEnabled(prefix.s, j)
    ensures Run(requests, run) && run.s == TriggerStep(requests[j], prefix.s, j)
  {
    var s := TriggerStep(requests[j], prefix.s, j);
    TriggerIsNext(requests, prefix.s, s, j);
    run := OneMore(requests, prefix, s);
  }

  lemma WritesOne(requests: seq<Request>, prefix: Trace<State>, k: nat) returns (run: Trace<State>)
    requires Run(requests, prefix) && |requests| == |prefix.s.triggers| > 0
    requires k < 4 && prefix.s.triggers[0] == Write(k) && Assigned(prefix.s.sh.vars, requests[0], k)
    ensures Run(requests, run) && run.s.triggers == prefix.s.triggers[0 := Write(k + 1)]
    ensures Assigned(run.s.sh.vars, requests[0], k + 1) && run.s.accepted == prefix.s.accepted
  {
    var s := TriggerStep(requests[0], prefix.s, 0);
    AssignsOneMore(requests[0], prefix.s, s, k);
    run := TriggerMoves(requests, prefix, 0);
  }

  lemma AssignsOneMore(r: Request, s: State, s': State, k: nat)
    requires s.triggers != [] && k < 4 && s.triggers[0] == Write(k) && Assigned(s.sh.vars, r, k)
    requires s' == TriggerStep(r, s, 0)
    ensures s'.triggers == s.triggers[0 := Write(k + 1)] && s'.accepted == s.accepted
    ensures Assigned(s'.sh.vars, r, k + 1)
  {
  }

  /** A winner writes its values and opens the flag. */
  lemma WritesValues(requests: seq<Request>, prefix: Trace<State>) returns (run: Trace<State>)
    requires Run(requests, prefix) && |requests| == |prefix.s.triggers| > 0 && prefix.s.triggers[0] == Write(0)
    ensures Run(requests, run) && run.s.triggers == prefix.s.triggers[0 := Done]
    ensures run.s.sh.flag == Wait && run.s.sh.vars == requests[0] && run.s.accepted == prefix.s.accepted
  {
    run := prefix;
    for k := 0 to 4
      invariant Run(requests, run) && run.s.triggers == prefix.s.triggers[0 := Write(k)]
      invariant Assigned(run.s.sh.vars, requests[0], k) && run.s.accepted == prefix.s.accepted
    {
      run := WritesOne(requests, run, k);
    }
    run := TriggerMoves(requests, run, 0);
    run := TriggerMoves(requests, run, 0);
  }

  // ----- progress

  /** Steps left in the round for one stream, before and after the flag reaches Finalize. */
  function LeftBefore(pc: EsPc): nat {
    match pc
    case Out => 9
    case Loaded => 8
    case Spin => 7
    case Print(_) => 6
    case Callback(_) => 5
    case Finish => 4
    case Waiting => 4
    case Check => 3
    case Decrement => 2
    case Last => 1
  }

  function LeftAfter(pc: EsPc): nat {
    if pc == Out then 0 else LeftBefore(pc)
  }

  /** Steps left until the flag is Unset again, not counting the triggers that lose. */
  function RoundLeft(s: State): nat {
    match s.sh.flag
    case Unset => 0
    case Initialize =>
      var c := Current(s.sh.flag, s.accepted);
      Total(s.es, LeftBefore) + if 0 <= c < |s.triggers| && s.triggers[c].Write? && s.triggers[c].k <= 5
                                then 6 - s.triggers[c].k else 0
    case Wait => Total(s.es, LeftBefore)
    case Finalize => Total(s.es, LeftAfter)
  }

  lemma FinishShrinks(barrier: int, es: seq<EsPc>, leader: int, i: nat)
    requires EsInv(Wait, barrier, es, leader, -1) && i < |es| && es[i] == Finish
    ensures Total(es[i := Check], LeftAfter) < Total(es, LeftBefore)
  {
    FinishKeeps(barrier, es, leader, i);
    NobodyOut(es[i := Check]);
    TotalSame(es[i := Check], LeftBefore, LeftAfter);
    TotalUpdate(es, i, Check, LeftBefore);
  }

  lemma BeforeShrinks(s: State, s': State, i: nat)
    requires EsInv(s.sh.flag, s.sh.barrier, s.es, s.leader, s.last)
    requires StepEs(s, s', i) && (s.sh.flag == Wait || s.sh.flag == Initialize) && s.es[i] != Finish
    ensures s'.sh.flag == s.sh.flag && s'.triggers == s.triggers && s'.accepted == s.accepted
    ensures Total(s'.es, LeftBefore) < Total(s.es, LeftBefore)
  {
    assert EsHere(s.sh.flag, s.sh.barrier, |s.es|, s.leader, s.last, i, s.es[i]);
    TotalUpdate(s.es, i, s'.es[i], LeftBefore);
  }

  lemma AfterShrinks(s: State, s': State, i: nat)
    requires EsInv(s.sh.flag, s.sh.barrier, s.es, s.leader, s.last)
    requires StepEs(s, s', i) && s.sh.flag == Finalize
    ensures s'.sh.flag == Unset || (s'.sh.flag == Finalize && Total(s'.es, LeftAfter) < Total(s.es, LeftAfter))
  {
    assert EsHere(s.sh.flag, s.sh.barrier, |s.es|, s.leader, s.last, i, s.es[i]);
    TotalUpdate(s.es, i, s'.es[i], LeftAfter);
  }

  lemma EsStepShrinks(s: State, s': State, i: nat)
    requires EsInv(s.sh.flag, s.sh.barrier, s.es, s.leader, s.last)
    requires StepEs(s, s', i) && s.sh.flag != Unset
    ensures s'.sh.flag == Unset || RoundLeft(s') < RoundLeft(s)
  {
    if s.sh.flag == Finalize {
      AfterShrinks(s, s', i);
    } else if s.es[i] == Finish {
      assert EsHere(s.sh.flag, s.sh.barrier, |s.es|, s.leader, s.last, i, s.es[i]);
      FinishShrinks(s.sh.barrier, s.es, s.leader, i);
    } else {
      BeforeShrinks(s, s', i);
    }
  }

  lemma NobodyOut(es: seq<EsPc>)
    requires Total(es, Inside) == |es|
    ensures forall i | 0 <= i < |es| :: LeftBefore(es[i]) == LeftAfter(es[i])
  {
    TotalAllOnes(es, Inside);
    forall i | 0 <= i < |es| ensures LeftBefore(es[i]) == LeftAfter(es[i]) {
      assert Inside(es[i]) == 1;
    }
  }

  /** Every step of a stream, and of the trigger being served, brings the round nearer to its end; the
      other triggers do not delay it. */
  lemma RoundsEnd(requests: seq<Request>, s: State, s': State)
    requires Inv(requests, s) && Next(requests, s, s') && s.sh.flag != Unset
    ensures || s'.sh.flag == Unset
            || RoundLeft(s') < RoundLeft(s)
            || (RoundLeft(s') == RoundLeft(s)
                && exists j: nat {:trigger s.triggers[j]} ::
                     j < |s.triggers| && (s.triggers[j] == Start || s.triggers[j] == Cas)
                     && s' == s.(triggers := s.triggers[j := Done]))
  {
    if i: nat :| StepEs(s, s', i) {
      EsStepShrinks(s, s', i);
    } else {
      var j: nat :| j < |requests| && StepTrigger(requests[j], s, s', j);
      if !s.triggers[j].Write? {
        BusyTriggerIsDropped(requests[j], s, s', j);
      }
    }
  }

  /** While a request is pending some stream, or its trigger, can take a step that brings the round nearer
      to its end, as long as every stream keeps checking the flag. */
  lemma NeverStuck(requests: seq<Request>, s: State) returns (s': State)
    requires Inv(requests, s) && AllWait(requests) && s.sh.flag != Unset && |s.es| > 0
    ensures Next(requests, s, s') && (s'.sh.flag == Unset || RoundLeft(s') < RoundLeft(s))
    ensures s'.accepted == s.accepted
  {
    if s.sh.flag == Initialize {
      var j: nat := Current(s.sh.flag, s.accepted);
      s' := TriggerStep(requests[j], s, j);
      TriggerIsNext(requests, s, s', j);
    } else {
      var i := SomeoneMoves(s);
      s' := EsStep(s, i);
      EsStepShrinks(s, s', i);
      EsIsNext(requests, s, s', i);
    }
  }

  /** So every run with a pending request extends to one with the flag Unset again, in which everything
      that was promised so far has been put out, each request once. */
  lemma {:induction false} RoundFinishes(requests: seq<Request>, run: Trace<State>) returns (run': Trace<State>)
    requires Run(requests, run) && AllWait(requests) && |run.s.es| > 0
    ensures Run(requests, run') && Extends(run', run) && run'.s.sh.flag == Unset
    ensures AcceptedOk(requests, run.s.accepted) && run'.s.accepted == run.s.accepted
    ensures run'.s.events == Outputs(requests, run.s.accepted) && run'.s.resets == |run.s.accepted|
    decreases if run.s.sh.flag == Unset then 0 else 1, RoundLeft(run.s)
  {
    RunInv(requests, run);
    if run.s.sh.flag == Unset {
      return run;
    }
    var s' := NeverStuck(requests, run.s);
    StepKeeps(requests, run.s, s');
    var longer := OneMore(requests, run, s');
    run' := RoundFinishes(requests, longer);
    ExtendsFurther(run', longer, run);
  }

  /** A single request, on any number of streams: its stacks go to its own stream, and then its callback,
      unless it is NULL, is called once with the flag false and its own argument. */
  lemma OneRequestPrints(es: nat, vars: Request, r: Request) returns (run: Trace<State>)
    requires es > 0 && r.timeout < 0.0
    ensures Run([r], run) && |run.s.es| == es && run.s.sh.flag == Unset && run.s.resets == 1
    ensures r.cb.Some? ==> run.s.events == [Printed(r.fp), Called(r.cb.value, false, r.arg)]
    ensures r.cb.None? ==> run.s.events == [Printed(r.fp)]
  {
    var s := State(Shared(Unset, 0, vars), seq(es, _ => Out), [Start], false, [], [], 0, -1, -1);
    var begun: Trace<State> := Begin(s);
    begun := TriggerMoves([r], begun, 0);
    begun := TriggerMoves([r], begun, 0);
    run := RoundFinishes([r], begun);
    RunInv([r], run);
    SameStreams([r], run, begun);
    assert run.s.accepted == [0] && [0][..0] == [];
    assert Outputs([r], []) == [];
  }

  lemma {:induction false} SameStreams(requests: seq<Request>, longer: Trace<State>, run: Trace<State>)
    requires Run(requests, longer) && Extends(longer, run)
    ensures |longer.s.es| == |run.s.es|
  {
    if longer != run {
      SameStreams(requests, longer.prefix, run);
    }
  }

  lemma EsIsNext(requests: seq<Request>, s: State, s': State, i: nat)
    requires StepEs(s, s', i)
    ensures Next(requests, s, s')
  {
  }

  lemma SomeoneMoves(s: State) returns (i: nat)
    requires EsInv(s.sh.flag, s.sh.barrier, s.es, s.leader, s.last)
    requires (s.sh.flag == Wait || s.sh.flag == Finalize) && |s.es| > 0
    ensures EsEnabled(s, i)
  {
    if s.sh.flag == Wait {
      if s.sh.barrier > 0 && (s.es[s.leader] != Spin || s.sh.barrier >= |s.es|) {
        i := s.leader;
      } else {
        assert Total(s.es, Inside) < |s.es|;
        i := SomeoneOutside(s.es);
        assert EsHere(s.sh.flag, s.sh.barrier, |s.es|, s.leader, s.last, i, s.es[i]);
      }
    } else if s.sh.barrier == 0 {
      i := s.last;
    } else {
      i := TotalPositive(s.es, Inside);
      assert EsHere(s.sh.flag, s.sh.barrier, |s.es|, s.leader, s.last, i, s.es[i]);
    }
  }

  lemma SomeoneOutside(es: seq<EsPc>) returns (i: nat)
    requires Total(es, Inside) < |es|
    ensures i < |es| && Inside(es[i]) == 0
  {
    i := 0;
    while i < |es| && Inside(es[i]) == 1
      invariant i <= |es| && forall k | 0 <= k < i :: Inside(es[k]) == 1
    {
      i := i + 1;
    }
    if i == |es| {
      TotalConstant(es, Inside, 1);
    }
  }
}
