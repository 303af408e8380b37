/** Replacing the main scheduler of an execution stream. Everything here happens on that stream, one call
    after another: callers ask for a new scheduler and are suspended, and when the current scheduler's
    run function returns the stream installs the new one and resumes the caller. */
module MainSched {

  /** A ULT. suspends and resumes count how often a replacement has suspended and resumed it. */
  class Ult {
    var blocked: bool
    ghost var suspends: nat
    ghost var resumes: nat
    ghost var freed: bool

    constructor ()
      ensures !blocked && suspends == 0 && resumes == 0 && !freed
    {
      blocked, suspends, resumes, freed := false, 0, 0, false;
    }
  }

  /** A scheduler. reqReplace is ABTI_SCHED_REQ_REPLACE in its request; used is whether it is in use. */
  class Sched {
    const automatic: bool
    var used: bool
    var ythread: Ult?
    var replaceSched: Sched?
    var replaceWaiter: Ult?
    var reqReplace: bool
    ghost var freed: bool

    constructor (automatic: bool)
      ensures this.automatic == automatic && !used && ythread == null && !freed
      ensures replaceSched == null && replaceWaiter == null && !reqReplace
    {
      this.automatic := automatic;
      used, ythread, replaceSched, replaceWaiter, reqReplace, freed := false, null, null, null, false, false;
    }
  }

  /** A ULT has been resumed exactly as often as suspended, except for the suspension it is in. */
  ghost predicate Fair(c: Ult)
    reads c
  {
    c.suspends == c.resumes + if c.blocked then 1 else 0
  }

  class Xstream {
    const schedUlt: Ult
    var main: Sched
    var running: bool
    ghost var scheds: set<Sched>
    ghost var callers: set<Ult>
    ghost var touchedFreed: bool

    /** A replacement, a pending one or an old one, is complete. */
    ghost predicate Whole(s: Sched)
      reads this`scheds, this`callers, s`reqReplace, s`replaceSched, s`replaceWaiter
    {
      && (s.reqReplace ==> s.replaceSched != null)
      && (s.replaceSched != null ==>
            s.replaceSched in scheds && s.replaceWaiter != null && s.replaceWaiter in callers)
    }

    ghost predicate Shape()
      reads this`main, this`scheds, this`callers, scheds`reqReplace, scheds`replaceSched, scheds`replaceWaiter
    {
      main in scheds && forall s | s in scheds :: Whole(s)
    }

    /** The stream's ULT belongs to its main scheduler and to no other. */
    ghost predicate OneOwner()
      reads this`main, this`scheds, scheds`ythread
    {
      main in scheds && main.ythread == schedUlt && forall s | s in scheds && s != main :: s.ythread == null
    }

    /** Every scheduler but the main one that was replaced still carries the request. */
    ghost predicate OthersRequested()
      reads this`main, this`scheds, scheds`reqReplace, scheds`replaceSched
    {
      forall s | s in scheds && s != main :: s.replaceSched != null <==> s.reqReplace
    }

    /** Every caller is treated fairly, and only w is suspended. */
    ghost predicate OnlyWaiter(w: Ult?)
      reads this`callers, callers
    {
      && (forall c | c in callers :: Fair(c) && (c.blocked ==> c == w))
      && (w != null ==> w in callers && w.blocked)
    }

    /** Nothing freed is in use. */
    ghost predicate Alive()
      reads this`main, this`touchedFreed, main, schedUlt`freed
    {
      !touchedFreed && main.used && !main.freed && !schedUlt.freed
    }

    /** Only the waiter of the pending replacement is suspended, and what is pending is new. */
    ghost predicate Valid()
      reads this, scheds, callers, schedUlt`freed, main
    {
      && Shape() && OneOwner() && OthersRequested() && Alive()
      && (main.replaceSched != null <==> main.reqReplace)
      && OnlyWaiter(if main.reqReplace then main.replaceWaiter else null)
      && (main.reqReplace ==>
            running && main.replaceSched != main && !main.replaceSched.freed && main.replaceSched.replaceSched == null)
    }

    /** Nobody is suspended, but the main scheduler may carry a replacement from an earlier use. */
    ghost predicate Settled()
      reads this, scheds, callers, schedUlt`freed, main
    {
      Shape() && OneOwner() && OthersRequested() && Alive() && OnlyWaiter(null)
    }

    /** Nobody is suspended and nothing is pending, although the request may still be there. */
    ghost predicate Cleared()
      reads this, scheds, callers, schedUlt`freed, main
    {
      && OneOwner() && OthersRequested() && Alive() && OnlyWaiter(null)
      && main.replaceSched == null && forall s | s in scheds && s != main :: Whole(s)
    }

    /** What a caller can check before it passes a scheduler: it has never been replaced, and it is not the
        one that is pending already, if that would be freed automatically. */
    ghost predicate Clean(s: Sched)
      requires main in scheds
      reads this, scheds, s
    {
      s.replaceSched == null && !(main.replaceSched == s && s.automatic)
    }

    constructor (first: Sched, schedUlt: Ult)
      requires !first.used && !first.freed && !first.reqReplace && first.replaceSched == null && !schedUlt.freed
      modifies first
      ensures Valid() && running && main == first && scheds == {first} && callers == {} && this.schedUlt == schedUlt
      ensures !first.reqReplace && first.replaceSched == null
    {
      this.schedUlt := schedUlt;
      main, running := first, true;
      scheds, callers, touchedFreed := {first}, {}, false;
      new;
      first.used := true;
      first.ythread := schedUlt;
    }

    ghost function UltOf(s: Sched): set<Ult>
      reads s`ythread
    {
      if s.ythread == null then {} else {s.ythread}
    }

    /** ABTI_sched_discard_and_free: an automatic scheduler is freed, any other loses its ULT. In both cases
        the ULT itself is freed, if there is one. */
    method DiscardAndFree(s: Sched)
      modifies s`used, s`ythread, s`freed, UltOf(s)`freed
      ensures !s.used && s.freed == (old(s.freed) || s.automatic)
      ensures s.ythread == if s.automatic then old(s.ythread) else null
      ensures old(s.ythread) != null ==> old(s.ythread).freed
    {
      s.used := false;
      if s.ythread != null {
        s.ythread.freed := true;
      }
      if s.automatic {
        s.freed := true;
      } else {
        s.ythread := null;
      }
    }

    method Resume(c: Ult)
      modifies c`blocked, c`resumes
      ensures !c.blocked && c.resumes == old(c.resumes) + 1
    {
      c.blocked := false;
      c.resumes := c.resumes + 1;
    }

    /** Drop the replacement that the main scheduler carries, and resume its waiter. That is right for a
        pending one; for an old one the waiter has been resumed before. */
    method Overwrite()
      requires Shape() && main.replaceSched != null && (Valid() || Settled())
      modifies main`replaceSched, main`replaceWaiter, main.replaceSched`used, main.replaceSched`ythread,
               main.replaceSched`freed, UltOf(main.replaceSched)`freed,
               main.replaceWaiter`blocked, main.replaceWaiter`resumes, this`touchedFreed
      ensures main.replaceSched == null && main.replaceWaiter == null
      ensures if old(Valid()) then Cleared() else !Fair(old(main.replaceWaiter))
      ensures old(main.replaceSched).freed == (old(main.replaceSched.freed) || old(main.replaceSched).automatic)
      ensures !old(main.replaceSched).used && touchedFreed == (old(touchedFreed) || old(main.replaceSched.freed))
      ensures !old(main.replaceWaiter).blocked && old(main.replaceWaiter).resumes == old(main.replaceWaiter.resumes) + 1
    {
      var waiter := main.replaceWaiter;
      var dropped := main.replaceSched;
      touchedFreed := touchedFreed || dropped.freed;
      DiscardAndFree(dropped);
      main.replaceSched := null;
      main.replaceWaiter := null;
      Resume(waiter);
    }

    /** Make sched the pending replacement and suspend the caller. */
    method Pend(caller: Ult, sched: Sched)
      requires main in scheds && sched in scheds && caller in callers && !caller.blocked && running
      modifies main`replaceSched, main`replaceWaiter, main`reqReplace, caller`blocked, caller`suspends
      ensures main.replaceSched == sched && main.replaceWaiter == caller && main.reqReplace
      ensures caller.blocked && caller.suspends == old(caller.suspends) + 1
      ensures old(Cleared()) ==> OnlyWaiter(caller)
      ensures old(Cleared()) ==> (Valid() <==> sched != main && !sched.freed && sched.replaceSched == null)
      ensures old(forall s | s in scheds && s != main :: Whole(s)) ==> Shape()
      ensures forall c | c in callers && old(!Fair(c)) :: !Fair(c)
    {
      main.replaceSched := sched;
      main.replaceWaiter := caller;
      caller.blocked := true;
      caller.suspends := caller.suspends + 1;
      main.reqReplace := true;
    }

    /** ABT_xstream_set_main_sched by a ULT of the running stream. A scheduler in use is refused. What is
        left is valid exactly when it was valid before and the scheduler was clean. */
    method SetMainSched(caller: Ult, sched: Sched) returns (ok: bool)
      requires (Valid() || Settled()) && running
      requires caller in callers && !caller.blocked && sched in scheds && !sched.freed
      modifies this`touchedFreed, scheds, callers, schedUlt`freed
      ensures ok == !old(sched.used)
      ensures !ok ==> (Valid() <==> old(Valid())) && unchanged(this, scheds, callers, schedUlt)
      ensures ok ==> main.replaceSched == sched && main.replaceWaiter == caller && main.reqReplace && Shape()
      ensures ok ==> !sched.used && caller.blocked
      ensures ok && old(Valid()) ==> OnlyWaiter(caller)
      ensures ok && old(main.replaceSched) != null ==>
                old(main.replaceSched).freed == (old(main.replaceSched.freed) || old(main.replaceSched).automatic)
      ensures touchedFreed == (old(touchedFreed) || (ok && old(main.replaceSched != null && main.replaceSched.freed)))
      ensures ok ==> (Valid() <==> old(Valid()) && old(Clean(sched)))
      ensures ok ==> sched.replaceSched == old(sched.replaceSched) && sched.replaceWaiter == old(sched.replaceWaiter)
                     && sched.reqReplace == old(sched.reqReplace)
      ensures ok ==> forall c | c in callers :: c.suspends == old(c.suspends) + if c == caller then 1 else 0
      ensures ok && old(main.replaceSched) != null ==>
                old(main.replaceWaiter).resumes == old(main.replaceWaiter.resumes) + 1
      ensures ok ==> forall c | c in callers && (old(main.replaceSched) == null || c != old(main.replaceWaiter)) ::
                c.resumes == old(c.resumes)
    {
      if sched.used { return false; }
      ghost var valid, w := Valid(), main.replaceWaiter;
      if main.replaceSched != null {
        Overwrite();
      }
      assert if valid then Cleared() else w in callers && !Fair(w);
      Pend(caller, sched);
      ok := true;
    }

    /** Install the pending scheduler, free the old one, and resume the waiter. The request of the old
        scheduler is not cleared. */
    method Install()
      requires Shape() && running && main.reqReplace
      modifies this`main, this`touchedFreed, main`used, main`ythread, main`freed,
               main.replaceSched`used, main.replaceSched`ythread, main.replaceWaiter`blocked, main.replaceWaiter`resumes
      ensures main == old(main.replaceSched) && main.used == (main != old(main))
      ensures touchedFreed == (old(touchedFreed) || old(main.replaceSched.freed))
      ensures Shape() && (old(Valid()) ==> Valid() && !main.reqReplace)
      ensures old(main.replaceWaiter).resumes == old(main.replaceWaiter.resumes) + 1
      ensures !old(main.replaceWaiter).blocked
      ensures forall c | c in callers :: c.resumes >= old(c.resumes)
      ensures main != old(main) ==> !old(main).used && old(main).ythread == null
      ensures main != old(main) ==> old(main).freed == (old(main.freed) || old(main).automatic)
      ensures main != old(main) ==> main.ythread == old(main.ythread)
    {
      var waiter := main.replaceWaiter;
      Switch();
      Resume(waiter);
      assert old(Valid()) ==> OnlyWaiter(null);
    }

    /** Hand the stream's ULT from the old scheduler to the pending one, and free the old one. */
    method Switch()
      requires Shape() && main.reqReplace
      modifies this`main, this`touchedFreed, main`used, main`ythread, main`freed,
               main.replaceSched`used, main.replaceSched`ythread
      ensures main == old(main.replaceSched) && main.used == (main != old(main))
      ensures touchedFreed == (old(touchedFreed) || old(main.replaceSched.freed))
      ensures old(OneOwner()) && main != old(main) ==> OneOwner() && main.freed == old(main.replaceSched.freed)
      ensures main != old(main) ==> !old(main).used && old(main).ythread == null
      ensures main != old(main) ==> old(main).freed == (old(main.freed) || old(main).automatic)
      ensures main != old(main) ==> main.ythread == old(main.ythread)
    {
      var sched := main;
      var next := sched.replaceSched;
      touchedFreed := touchedFreed || next.freed;
      next.used := true;
      next.ythread := sched.ythread;
      main := next;
      sched.ythread := null;
      DiscardAndFree(sched);
    }

    /** The part of thread_main_sched_func after the run function returned. */
    method AfterRun(cancel: bool, finish: bool, hasUnit: bool) returns (stop: bool)
      requires Shape() && running
      modifies this`main, this`running, this`touchedFreed,
               scheds`used, scheds`ythread, scheds`freed, callers`blocked, callers`resumes
      ensures stop == (cancel || (finish && !hasUnit)) && running == !stop
      ensures old(Valid()) ==> Valid() && !main.reqReplace
      ensures if old(main.reqReplace) then
                && main == old(main.replaceSched) && main.used == (main != old(main))
                && touchedFreed == (old(touchedFreed) || old(main.replaceSched.freed))
                && old(main.replaceWaiter).resumes == old(main.replaceWaiter.resumes) + 1
                && !old(main.replaceWaiter).blocked
              else main == old(main) && touchedFreed == old(touchedFreed) && unchanged(scheds, callers)
      ensures forall c | c in callers && c != old(main.replaceWaiter) :: unchanged(c)
      ensures forall s | s in scheds && s != main && s != old(main) :: unchanged(s)
      ensures Shape() && forall c | c in callers :: c.resumes >= old(c.resumes)
      ensures main != old(main) ==> !old(main).used && old(main).ythread == null
      ensures main != old(main) ==> old(main).freed == (old(main.freed) || old(main).automatic)
      ensures main != old(main) ==> main.ythread == old(main.ythread)
    {
      if main.reqReplace {
        Install();
      }
      stop := cancel || (finish && !hasUnit);
      if stop { running := false; }
    }

    /** ABT_xstream_set_main_sched by another stream when this one has terminated. */
    method SetMainSchedTerminated(sched: Sched) returns (ok: bool)
      requires Valid() && !running && sched in scheds && !sched.freed
      modifies this`main, main`used, main`ythread, main`freed, sched`used, sched`ythread
      ensures ok == !old(sched.used)
      ensures ok ==> main == sched && Settled() && !old(main).used && old(main).freed == old(main.automatic)
      ensures !ok ==> unchanged(this, scheds)
      ensures (ok ==> old(Clean(sched))) <==> Valid()
    {
      if sched.used { return false; }
      sched.used := true;
      sched.ythread := main.ythread;
      main.ythread := null;
      main.used := false;
      if main.automatic { main.freed := true; }
      main := sched;
      ok := true;
    }

    /** ABT_xstream_revive clears the whole request of the main scheduler, but not the replacement that
        comes with it. */
    method Revive()
      requires Settled() && !running
      modifies this`running, main`reqReplace
      ensures Settled() && running && !main.reqReplace
      ensures Valid() <==> main.replaceSched == null
    {
      main.reqReplace := false;
      running := true;
    }

    /** A caller of this stream, and a scheduler nobody has used yet. */
    method NewCaller() returns (c: Ult)
      requires Valid()
      modifies this`callers
      ensures Valid() && fresh(c) && callers == old(callers) + {c} && !c.blocked && Fair(c)
    {
      c := new Ult();
      callers := callers + {c};
    }

    method NewSched(automatic: bool) returns (s: Sched)
      requires Valid() || Settled()
      modifies this`scheds
      ensures (old(Valid()) ==> Valid()) && (old(Settled()) ==> Settled()) && fresh(s) && scheds == old(scheds) + {s}
      ensures Clean(s) && !s.used && !s.freed && s.automatic == automatic && !s.reqReplace
    {
      s := new Sched(automatic);
      scheds := scheds + {s};
    }

    /** Installing a scheduler that has been replaced before resumes its last waiter once too often, from
        any valid state. */
    method ReinstallResumesTwice(caller: Ult, sched: Sched)
      requires Valid() && running && caller in callers && !caller.blocked
      requires sched in scheds && !sched.freed && !sched.used && sched.replaceSched != null
      modifies this, scheds, callers, schedUlt`freed
      ensures exists c | c in callers :: c.resumes > c.suspends
    {
      ghost var c := sched.replaceWaiter;
      ghost var all := callers;
      var ok := SetMainSched(caller, sched);
      assert c in callers && Fair(c);
      var stop := AfterRun(false, false, false);
      assert main == sched;
      stop := AfterRun(false, false, false);
    }

    /** Giving such a scheduler to a terminated stream and reviving the stream clears the request, so that
        nothing happens at once; but the next replacement resumes the old waiter once too often, from any
        valid state. */
    method ReviveResumesTwice(caller: Ult, sched: Sched)
      requires Valid() && !running && caller in callers
      requires sched in scheds && !sched.freed && !sched.used && sched.replaceSched != null
      modifies this, scheds, callers, schedUlt`freed
      ensures exists c | c in callers :: c.resumes > c.suspends
    {
      ghost var w := sched.replaceWaiter;
      assert !caller.blocked && Fair(w);
      var ok := SetMainSchedTerminated(sched);
      Revive();
      var next := NewSched(false);
      ok := SetMainSched(caller, next);
      var stop := AfterRun(false, false, false);
      assert w in callers && w.resumes > w.suspends;
    }

    /** A call by the caller and the return of the run function: the old scheduler keeps its replacement. */
    method ReplaceOnce(caller: Ult, next: Sched, cancel: bool)
      requires Valid() && running && caller in callers && !caller.blocked && main.replaceSched == null
      requires next in scheds && !next.freed && !next.used && Clean(next) && !main.automatic
      modifies this`main, this`running, this`touchedFreed, scheds, callers, schedUlt`freed
      ensures Valid() && running == !cancel && !caller.blocked
      ensures !old(main).used && !old(main).freed && old(main).replaceSched != null
    {
      var ok := SetMainSched(caller, next);
      var stop := AfterRun(cancel, false, false);
    }

    /** Passing a pending automatic scheduler again frees it and then installs it. */
    method PendingTwiceIsFreed(caller: Ult)
      requires Valid() && running && caller in callers && !caller.blocked
      requires main.reqReplace && main.replaceSched.automatic && !main.replaceSched.used
      modifies this, scheds, callers, schedUlt`freed
      ensures touchedFreed
    {
      var sched := main.replaceSched;
      var ok := SetMainSched(caller, sched);
      var stop := AfterRun(false, false, false);
    }
  }

  /** A new stream, a second scheduler, and a caller. */
  method Beginning(automatic: bool) returns (x: Xstream, second: Sched, c: Ult)
    ensures fresh(x) && fresh(x.scheds) && fresh(x.callers) && fresh(x.schedUlt)
    ensures x.Valid() && x.running && c in x.callers && !c.blocked
    ensures x.main.replaceSched == null && !x.main.automatic
    ensures second in x.scheds && !second.freed && !second.used && x.Clean(second) && second.automatic == automatic
  {
    var first := new Sched(false);
    var ult := new Ult();
    x := new Xstream(first, ult);
    second := x.NewSched(automatic);
    c := x.NewCaller();
  }

  /** A stream whose first scheduler has been replaced on behalf of caller c, running or terminated. */
  method Replaced(cancel: bool) returns (x: Xstream, first: Sched, c: Ult)
    ensures fresh(x) && fresh(x.scheds) && fresh(x.callers) && fresh(x.schedUlt)
    ensures x.Valid() && x.running == !cancel && c in x.callers && !c.blocked
    ensures first in x.scheds && !first.freed && !first.used && first.replaceSched != null
  {
    var second;
    x, second, c := Beginning(false);
    first := x.main;
    x.ReplaceOnce(c, second, cancel);
  }

  /** Two schedulers that take turns: the second time the first one is installed, its old request is still
      there and its old waiter is resumed again. */
  method TakeTurns() returns (x: Xstream)
    ensures exists c | c in x.callers :: c.resumes > c.suspends
  {
    var first, c;
    x, first, c := Replaced(false);
    x.ReinstallResumesTwice(c, first);
  }

  /** The same when the first one is given back to the stream after it has terminated. */
  method SwapAndRevive() returns (x: Xstream)
    ensures exists c | c in x.callers :: c.resumes > c.suspends
  {
    var first, c;
    x, first, c := Replaced(true);
    x.ReviveResumesTwice(c, first);
  }

  /** Two callers pass the same automatic scheduler: the second call frees it and it is installed. */
  method PassTwice() returns (x: Xstream)
    ensures x.touchedFreed
  {
    var second, c;
    x, second, c := Beginning(true);
    var d := x.NewCaller();
    var ok := x.SetMainSched(c, second);
    x.PendingTwiceIsFreed(d);
  }
}
