/** Futures: a resettable countdown with compartments and a list of suspended waiters. */
module Futures {
  import opened Options

  /** ABT_SUCCESS, or ABT_ERR_FUTURE for a set that finds no free compartment. */
  datatype Code = Success | ErrFuture

  /** What one critical section of a future does to its state. */
  datatype FutureState<T, W> = FutureState(num: nat, values: seq<T>, waiters: seq<W>) {

    predicate Ready() { |values| >= num }

    /** No more values than compartments, and nobody sleeps on a ready future. */
    predicate Valid() {
      |values| <= num && (Ready() ==> waiters == [])
    }

    /** The new state, the result code, and the waiters the call wakes up. */
    function Set(v: T): (FutureState<T, W>, Code, seq<W>) {
      if Ready() then (this, ErrFuture, [])
      else if |values| + 1 == num then (FutureState(num, values + [v], []), Success, waiters)
      else (FutureState(num, values + [v], waiters), Success, [])
    }

    /** The new state and whether the caller is suspended. */
    function Wait(w: W): (FutureState<T, W>, bool) {
      if Ready() then (this, false) else (FutureState(num, values, waiters + [w]), true)
    }

    function Reset(): FutureState<T, W> {
      FutureState(num, [], waiters)
    }
  }

  function Create<T, W>(num: nat): FutureState<T, W> {
    FutureState(num, [], [])
  }

  /** The future object, whose calls are one critical section each under its spinlock. */
  class Future<T(0), W> {
    const num: nat
    const hasCallback: bool
    var counter: nat
    const compartments: array<T>
    var waitlist: seq<W>

    ghost predicate Valid()
      reads this, compartments
    {
      && compartments.Length == num
      && counter <= num
      && State().Valid()
    }

    ghost function State(): FutureState<T, W>
      requires compartments.Length == num && counter <= num
      reads this, compartments
    {
      FutureState(num, compartments[..counter], waitlist)
    }

    constructor (num: nat, hasCallback: bool)
      ensures Valid() && State() == Create(num) && fresh(compartments)
      ensures this.hasCallback == hasCallback
    {
      this.num := num;
      this.hasCallback := hasCallback;
      counter := 0;
      compartments := new T[num];
      waitlist := [];
    }

    /** ABT_future_set. The callback sees all the compartments, once, before anyone is woken. */
    method Set(value: T) returns (code: Code, woken: seq<W>, callback: Option<seq<T>>)
      requires Valid()
      modifies this, compartments
      ensures Valid()
      ensures (State(), code, woken) == old(State()).Set(value)
      ensures callback == if hasCallback && code.Success? && |State().values| == num
                          then Some(State().values) else None
    {
      var c := counter;
      callback := None;
      if c >= num {
        return ErrFuture, [], None;
      }
      compartments[c] := value;
      c := c + 1;
      if c == num && hasCallback {
        assert compartments[..] == compartments[..c];
        callback := Some(compartments[..]);
      }
      assert compartments[..c] == old(compartments[..counter]) + [value];
      counter := c;
      woken := [];
      if c == num {
        woken := waitlist;
        waitlist := [];
      }
      code := Success;
    }

    /** The part of ABT_future_wait before the caller sleeps. */
    method Wait(w: W) returns (suspended: bool)
      requires Valid()
      modifies this
      ensures Valid()
      ensures (State(), suspended) == old(State()).Wait(w)
    {
      if counter < num {
        waitlist := waitlist + [w];
        suspended := true;
      } else {
        suspended := false;
      }
    }

    /** ABT_future_test. */
    method Test() returns (ready: bool)
      requires Valid()
      ensures ready <==> State().Ready()
    {
      ready := counter == num;
    }

    /** ABT_future_reset. The source leaves a reset under a waiter undefined. */
    method Reset()
      requires Valid() && waitlist == []
      modifies this
      ensures Valid() && State() == old(State()).Reset()
    {
      counter := 0;
    }
  }

  // ----- what any sequence of calls on one future does

  datatype Call<T, W> = CallSet(v: T) | CallWait(w: W) | CallReset

  /** The state of a future and what its callers have seen: values accepted since the last reset,
      failed sets, callers that were suspended, and callers that were woken up. */
  datatype History<T, W> = History(state: FutureState<T, W>, accepted: nat, failed: nat,
                                   suspended: seq<W>, woken: seq<W>)

  function Perform<T, W>(h: History<T, W>, call: Call<T, W>): History<T, W> {
    match call
    case CallSet(v) =>
      var (s, code, woken) := h.state.Set(v);
      History(s, if code.Success? then h.accepted + 1 else h.accepted,
              if code.Success? then h.failed else h.failed + 1, h.suspended, h.woken + woken)
    case CallWait(w) =>
      var (s, suspended) := h.state.Wait(w);
      History(s, h.accepted, h.failed, if suspended then h.suspended + [w] else h.suspended, h.woken)
    case CallReset =>
      History(h.state.Reset(), 0, h.failed, h.suspended, h.woken)
  }

  function PerformAll<T, W>(num: nat, calls: seq<Call<T, W>>): History<T, W> {
    if calls == [] then History(Create(num), 0, 0, [], [])
    else Perform(PerformAll(num, calls[..|calls| - 1]), calls[|calls| - 1])
  }

  /** A reset is legal when nobody is waiting. */
  ghost predicate Legal<T, W>(num: nat, calls: seq<Call<T, W>>) {
    forall i | 0 <= i < |calls| && calls[i].CallReset? :: PerformAll(num, calls[..i]).state.waiters == []
  }

  /** The arguments of the sets since the last reset. */
  function Received<T, W>(calls: seq<Call<T, W>>): seq<T> {
    if calls == [] then []
    else
      var earlier := Received(calls[..|calls| - 1]);
      match calls[|calls| - 1]
      case CallSet(v) => earlier + [v]
      case CallWait(_) => earlier
      case CallReset => []
  }

  function Take<T>(s: seq<T>, n: nat): seq<T> { if n <= |s| then s[..n] else s }

  lemma LegalBefore<T, W>(num: nat, calls: seq<Call<T, W>>)
    requires calls != [] && Legal(num, calls)
    ensures Legal(num, calls[..|calls| - 1])
  {
    var before := calls[..|calls| - 1];
    forall i | 0 <= i < |before| && before[i].CallReset? ensures PerformAll(num, before[..i]).state.waiters == [] {
      assert before[..i] == calls[..i] && calls[i].CallReset?;
    }
  }

  ghost predicate Conserved<T, W>(num: nat, h: History<T, W>, received: seq<T>) {
    && h.state.num == num && h.state.Valid()
    && h.suspended == h.woken + h.state.waiters
    && h.state.values == Take(received, num)
    && h.accepted == |h.state.values|
  }

  lemma SetConserves<T, W>(num: nat, h: History<T, W>, received: seq<T>, v: T)
    requires Conserved(num, h, received)
    ensures Conserved(num, Perform(h, CallSet(v)), received + [v])
  {
    if |received| < num {
      assert Take(received + [v], num) == Take(received, num) + [v];
    } else {
      assert Take(received + [v], num) == Take(received, num);
    }
  }

  lemma WaitConserves<T, W>(num: nat, h: History<T, W>, received: seq<T>, w: W)
    requires Conserved(num, h, received)
    ensures Conserved(num, Perform(h, CallWait(w)), received)
  {
  }

  /** Over any legal sequence of calls, every suspended caller is woken exactly once or still
      waiting, in the order of suspension; a future holds the values of the first sets since the last
      reset, as many as it has compartments, and is ready exactly when there were that many; and nobody
      sleeps on a ready future. */
  lemma {:induction false} WaitersConserved<T, W>(num: nat, calls: seq<Call<T, W>>)
    requires Legal(num, calls)
    ensures var h := PerformAll(num, calls);
            && h.state.num == num && h.state.Valid()
            && h.suspended == h.woken + h.state.waiters
            && h.state.values == Take(Received(calls), num)
            && h.accepted == |h.state.values| <= num
            && (h.state.Ready() <==> h.accepted == num)
            && (h.state.Ready() <==> |Received(calls)| >= num)
  {
    if calls != [] {
      var before := calls[..|calls| - 1];
      LegalBefore(num, calls);
      WaitersConserved(num, before);
      var h := PerformAll(num, before);
      match calls[|calls| - 1]
      case CallSet(v) => SetConserves(num, h, Received(before), v);
      case CallWait(w) => WaitConserves(num, h, Received(before), w);
      case CallReset => assert before == calls[..|calls| - 1] && h.state.waiters == [];
    }
  }

  /** What a call answers depends only on how many sets there have been since the last reset. A set
      succeeds while that is less than the number of compartments; it wakes nobody unless it is the one
      that fills the last compartment, and then everybody who waits; and a wait suspends its caller
      while the future is not full. */
  lemma CallsAnswer<T, W>(num: nat, calls: seq<Call<T, W>>, v: T, w: W)
    requires Legal(num, calls)
    ensures var (s, n) := (PerformAll(num, calls).state, |Received(calls)|);
            && s.Set(v).1 == (if n < num then Success else ErrFuture)
            && s.Set(v).2 == (if n + 1 == num then s.waiters else [])
            && s.Wait(w).1 == (n < num)
  {
    WaitersConserved(num, calls);
  }
}
