/** The work-stealing pool of the scheduling example: a doubly linked list with two ends whose outer links
    are never cleared. */
module StealPool {
  import opened Options

  type Context = bv32

  const OWNER_SECONDARY: Context := 0x200
  const THREAD_CREATE: Context := 0x1000
  const THREAD_CREATE_TO: Context := 0x2000
  const THREAD_REVIVE: Context := 0x4000
  const THREAD_REVIVE_TO: Context := 0x8000

  /** A pop by a stream that does not own the pool. */
  predicate Steals(context: Context) { context & OWNER_SECONDARY != 0 }

  /** A push that creates or revives a thread. */
  predicate Creates(context: Context) {
    context & (THREAD_CREATE | THREAD_CREATE_TO | THREAD_REVIVE | THREAD_REVIVE_TO) != 0
  }

  // ----- the mathematical deque, head first

  function Push<T>(d: seq<T>, u: T, context: Context): seq<T> {
    if Creates(context) then [u] + d else d + [u]
  }

  function Pop<T>(d: seq<T>, context: Context): (Option<T>, seq<T>) {
    if d == [] then (None, d)
    else if |d| > 1 && Steals(context) then (Some(d[|d| - 1]), d[..|d| - 1])
    else (Some(d[0]), d[1..])
  }

  predicate Has(context: Context, bit: Context) { context & bit != 0 }

  lemma BitsDecide(context: Context)
    ensures Creates(context) <==>
            Has(context, 0x1000) || Has(context, 0x2000) || Has(context, 0x4000) || Has(context, 0x8000)
    ensures Steals(context) <==> Has(context, 0x200)
  {
  }

  /** Each of the four bits for creating and reviving, alone or with others, sends a unit to the head, and
      without them it goes to the tail; the bit of a secondary owner makes a pop take the tail, and without
      it a pop takes the head. All other bits are ignored. */
  lemma EndsByContext<T>(d: seq<T>, u: T, context: Context)
    ensures Push(d, u, context) ==
            if Has(context, 0x1000) || Has(context, 0x2000) || Has(context, 0x4000) || Has(context, 0x8000)
            then [u] + d else d + [u]
    ensures d != [] ==>
              Pop(d, context) == if Has(context, 0x200) then (Some(d[|d| - 1]), d[..|d| - 1]) else (Some(d[0]), d[1..])
    ensures d == [] ==> Pop(d, context) == (None, [])
  {
    BitsDecide(context);
    assert |d| == 1 ==> d[1..] == d[..0];
  }

  /** A thread that was just created is what the owner gets next. */
  lemma OwnerTakesNewest<T>(d: seq<T>, u: T, create: Context, own: Context)
    requires Creates(create) && !Steals(own)
    ensures Pop(Push(d, u, create), own) == (Some(u), d)
  {
    assert ([u] + d)[1..] == d;
  }

  /** A thread that came back is what a thief gets next. */
  lemma ThiefTakesReturned<T>(d: seq<T>, u: T, back: Context, steal: Context)
    requires !Creates(back) && Steals(steal)
    ensures Pop(Push(d, u, back), steal) == (Some(u), d)
  {
    assert (d + [u])[..|d|] == d;
    assert d == [] ==> (d + [u])[1..] == d;
  }

  /** With two units or more, owner and thief get the same units in whatever order they come. */
  lemma OwnerAndThiefCommute<T>(d: seq<T>, own: Context, steal: Context)
    requires |d| >= 2 && !Steals(own) && Steals(steal)
    ensures var (u, d1) := Pop(d, own); var (v, d2) := Pop(d1, steal);
            var (v', e1) := Pop(d, steal); var (u', e2) := Pop(e1, own);
            u == u' && v == v' && d2 == e2
  {
    assert d[1..][..|d| - 2] == d[..|d| - 1][1..];
  }

  datatype Op<T> = PushOp(u: T, context: Context) | PopOp(context: Context)

  datatype History<T(==)> = History(deque: seq<T>, pushed: multiset<T>, popped: multiset<T>)

  function Perform<T>(h: History<T>, op: Op<T>): History<T> {
    match op
    case PushOp(u, context) => History(Push(h.deque, u, context), h.pushed + multiset{u}, h.popped)
    case PopOp(context) =>
      var (u, d) := Pop(h.deque, context);
      History(d, h.pushed, if u.Some? then h.popped + multiset{u.value} else h.popped)
  }

  function PerformAll<T>(ops: seq<Op<T>>): History<T> {
    if ops == [] then History([], multiset{}, multiset{})
    else Perform(PerformAll(ops[..|ops| - 1]), ops[|ops| - 1])
  }

  lemma PopTakesOne<T>(d: seq<T>, context: Context)
    ensures var (u, d') := Pop(d, context);
            multiset(d) == multiset(d') + if u.Some? then multiset{u.value} else multiset{}
  {
    if d != [] {
      assert d == [d[0]] + d[1..];
      assert d == d[..|d| - 1] + [d[|d| - 1]];
    }
  }

  /** Whatever is pushed is in the pool or has been popped, exactly as often as it was pushed. */
  lemma {:induction false} NothingLostOrDoubled<T>(ops: seq<Op<T>>)
    ensures var h := PerformAll(ops); h.pushed == multiset(h.deque) + h.popped
  {
    if ops != [] {
      var h := PerformAll(ops[..|ops| - 1]);
      NothingLostOrDoubled(ops[..|ops| - 1]);
      match ops[|ops| - 1]
      case PushOp(u, context) =>
        assert multiset(Push(h.deque, u, context)) == multiset(h.deque) + multiset{u};
      case PopOp(context) =>
        PopTakesOne(h.deque, context);
    }
  }

  // ----- the pool in memory

  class Unit {
    var prev: Unit?
    var next: Unit?
    const thread: int

    constructor (thread: int)
      ensures this.thread == thread && prev == null && next == null
    {
      this.thread := thread;
      prev, next := null, null;
    }
  }

  class Pool {
    var head: Unit?
    var tail: Unit?
    /** The units in the pool, head first. */
    ghost var units: seq<Unit>

    ghost predicate Linked(i: nat)
      requires i + 1 < |units|
      reads this`units, units`prev, units`next
    {
      units[i].prev == units[i + 1] && units[i + 1].next == units[i]
    }

    /** Only inner links mean anything: head.next and tail.prev are left over from earlier. */
    ghost predicate Valid()
      reads this, units`prev, units`next
    {
      && (if units == [] then head == null && tail == null else head == units[0] && tail == units[|units| - 1])
      && (forall i: nat | i + 1 < |units| :: Linked(i))
      && (forall i: nat, k: nat | i < k < |units| :: units[i] != units[k])
    }

    constructor ()
      ensures Valid() && units == []
    {
      head, tail, units := null, null, [];
    }

    /** pool_is_empty. */
    method IsEmpty() returns (empty: bool)
      requires Valid()
      ensures empty <==> units == []
    {
      empty := head == null;
    }

    /** pool_pop. The links of the unit stay as they are. */
    method PopUnit(context: Context) returns (thread: Option<int>, ghost popped: Unit?)
      requires Valid()
      modifies this
      ensures Valid()
      ensures thread == if popped == null then None else Some(popped.thread)
      ensures (if popped == null then None else Some(popped), units) == Pop(old(units), context)
    {
      var unit: Unit? := null;
      assert |units| > 1 ==> units[0] != units[|units| - 1];
      if head == null {
      } else if head == tail {
        assert |units| == 1 && units[1..] == [];
        unit := head;
        head := null;
        tail := null;
        units := [];
      } else if Steals(context) {
        unit := tail;
        assert Linked(|units| - 2);
        tail := unit.next;
        units := units[..|units| - 1];
        forall i: nat | i + 1 < |units| ensures Linked(i) {
          assert old(Linked(i));
        }
      } else {
        unit := head;
        assert Linked(0);
        head := unit.prev;
        units := units[1..];
        forall i: nat | i + 1 < |units| ensures Linked(i) {
          assert old(Linked(i + 1));
        }
      }
      popped := unit;
      thread := if unit == null then None else Some(unit.thread);
    }

    /** pool_push of a unit that is not in the pool, with whatever links it has. */
    method PushUnit(unit: Unit, context: Context)
      requires Valid() && unit !in units
      modifies this, unit`prev, unit`next, units`prev, units`next
      ensures Valid() && units == Push(old(units), unit, context)
    {
      ghost var was := units;
      if Creates(context) {
        if head != null {
          unit.prev := head;
          head.next := unit;
        } else {
          tail := unit;
        }
        head := unit;
        units := [unit] + units;
        forall i: nat | i + 1 < |units| ensures Linked(i) {
          assert i > 0 ==> old(Linked(i - 1));
        }
      } else {
        if tail != null {
          unit.next := tail;
          tail.prev := unit;
        } else {
          head := unit;
        }
        tail := unit;
        units := units + [unit];
        forall i: nat | i + 1 < |units| ensures Linked(i) {
          assert i + 1 < |was| ==> old(Linked(i));
        }
      }
    }
  }
}
