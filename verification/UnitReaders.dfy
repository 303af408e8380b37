/** One bucket of the unit table under concurrency: any number of threads map and unmap units under the
    lock while any number of others look units up without it. One step is one memory access. */
module UnitReaders {
  import opened Traces

  type Unit = nat

  const UNIT_NULL: Unit := 0

  /** An address is a position in the heap; NIL is the null pointer. */
  const NIL := -1

  datatype Node = Node(unit: Unit, thread: int, next: int)

  /** What callers are doing with a unit: thread w is inside map, or the unit is mapped to t, or thread w
      is inside unmap. A unit with no status is not mapped. */
  datatype Status = Mapping(w: nat, t: int) | Mapped(t: int) | Unmapping(w: nat)

  /** Where a mapping or unmapping thread is. MapAt and UnmapAt look at node cur, Fill and Thread are about
      to store the unit and the thread into an empty node. Build has k of the three fields of a new node
      behind it, and publishes it next when that is all; head is the list as it was before the allocation.
      Clear is about to empty a node. */
  datatype WriterPc =
    | Idle
    | WantMap(u: Unit, t: int) | MapAt(u: Unit, t: int, cur: int)
    | Fill(u: Unit, t: int, cur: int) | Thread(u: Unit, t: int, cur: int)
    | Reload(u: Unit, t: int) | Allocate(u: Unit, t: int, head: int)
    | Build(u: Unit, t: int, head: int, node: int, k: nat)
    | MapDone(u: Unit, t: int) | MapFailed(u: Unit)
    | WantUnmap(u: Unit) | UnmapAt(u: Unit, cur: int) | Clear(u: Unit, cur: int) | UnmapDone(u: Unit)

  /** Where a lookup is: about to compare node cur, about to read its thread, or returned. */
  datatype ReaderPc = NotReading | At(u: Unit, cur: int) | Hit(u: Unit, cur: int) | Returned(u: Unit, t: int)

  datatype Lock = Unlocked | LockedBy(w: nat)

  /** at is a ghost: the node in which each unit of the list lives. */
  datatype State = State(heap: seq<Node>, list: int, lock: Lock, status: map<Unit, Status>,
                         writers: seq<WriterPc>, readers: seq<ReaderPc>, at: map<Unit, nat>)

  ghost predicate Init(s: State) {
    && s.heap == [] && s.list == NIL && s.lock == Unlocked && s.status == map[] && s.at == map[]
    && (forall w: nat | w < |s.writers| :: s.writers[w] == Idle)
    && (forall r: nat | r < |s.readers| :: s.readers[r] == NotReading)
  }

  predicate Reading(pc: ReaderPc, u: Unit) {
    (pc.At? || pc.Hit?) && pc.u == u
  }

  /** Callers map a unit only when it is not mapped, unmap it only when it is mapped and nobody is looking
      it up, and look it up only while it is mapped. */
  predicate CallMap(s: State, s': State, w: nat, u: Unit, t: int) {
    && w < |s.writers| && s.writers[w] == Idle
    && u != UNIT_NULL && u !in s.status
    && s' == s.(writers := s.writers[w := WantMap(u, t)], status := s.status[u := Mapping(w, t)])
  }

  ghost predicate CallUnmap(s: State, s': State, w: nat, u: Unit) {
    && w < |s.writers| && s.writers[w] == Idle
    && u in s.status && s.status[u].Mapped? && (forall r: nat | r < |s.readers| :: !Reading(s.readers[r], u))
    && s' == s.(writers := s.writers[w := WantUnmap(u)], status := s.status[u := Unmapping(w)])
  }

  /** Store k of the three stores into a new node. */
  function Store(n: Node, u: Unit, t: int, head: int, k: nat): Node {
    if k == 0 then n.(unit := u) else if k == 1 then n.(thread := t) else n.(next := head)
  }

  /** Steps of unit_map_thread and unit_unmap_thread. A null pointer is never followed in a step, and
      memory from the allocator holds anything. */
  ghost predicate StepWriter(s: State, s': State, w: nat)
    requires w < |s.writers|
  {
    match s.writers[w]
    case Idle => false
    case WantMap(u, t) =>
      && s.lock == Unlocked
      && s' == s.(lock := LockedBy(w), writers := s.writers[w := MapAt(u, t, s.list)])
    case MapAt(u, t, cur) =>
      if cur == NIL then s' == s.(writers := s.writers[w := Reload(u, t)])
      else
        && 0 <= cur < |s.heap|
        && s' == s.(writers := s.writers[w := if s.heap[cur].unit == UNIT_NULL then Fill(u, t, cur)
                                              else MapAt(u, t, s.heap[cur].next)])
    case Fill(u, t, cur) =>
      && 0 <= cur < |s.heap|
      && s' == s.(heap := s.heap[cur := s.heap[cur].(unit := u)], at := s.at[u := cur],
                  writers := s.writers[w := Thread(u, t, cur)])
    case Thread(u, t, cur) =>
      && 0 <= cur < |s.heap|
      && s' == s.(heap := s.heap[cur := s.heap[cur].(thread := t)], writers := s.writers[w := MapDone(u, t)])
    case Reload(u, t) =>
      s' == s.(writers := s.writers[w := Allocate(u, t, s.list)])
    case Allocate(u, t, head) =>
      || (exists n :: s' == s.(heap := s.heap + [n], writers := s.writers[w := Build(u, t, head, |s.heap|, 0)]))
      || s' == s.(writers := s.writers[w := MapFailed(u)])
    case Build(u, t, head, node, k) =>
      && 0 <= node < |s.heap|
      && if k < 3 then
           s' == s.(heap := s.heap[node := Store(s.heap[node], u, t, head, k)],
                    writers := s.writers[w := Build(u, t, head, node, k + 1)])
         else
           s' == s.(list := node, at := s.at[u := node], writers := s.writers[w := MapDone(u, t)])
    case MapDone(u, t) =>
      s' == s.(lock := Unlocked, writers := s.writers[w := Idle], status := s.status[u := Mapped(t)])
    case MapFailed(u) =>
      s' == s.(lock := Unlocked, writers := s.writers[w := Idle], status := s.status - {u})
    case WantUnmap(u) =>
      && s.lock == Unlocked
      && s' == s.(lock := LockedBy(w), writers := s.writers[w := UnmapAt(u, s.list)])
    case UnmapAt(u, cur) =>
      && 0 <= cur < |s.heap|
      && s' == s.(writers := s.writers[w := if s.heap[cur].unit == u then Clear(u, cur)
                                            else UnmapAt(u, s.heap[cur].next)])
    case Clear(u, cur) =>
      && 0 <= cur < |s.heap|
      && s' == s.(heap := s.heap[cur := s.heap[cur].(unit := UNIT_NULL)], at := s.at - {u},
                  writers := s.writers[w := UnmapDone(u)])
    case UnmapDone(u) =>
      s' == s.(lock := Unlocked, writers := s.writers[w := Idle], status := s.status - {u})
  }

  /** Steps of a lookup. */
  ghost predicate StepReader(s: State, s': State, r: nat)
    requires r < |s.readers|
  {
    match s.readers[r]
    case At(u, cur) =>
      && 0 <= cur < |s.heap|
      && s' == s.(readers := s.readers[r := if s.heap[cur].unit == u then Hit(u, cur)
                                            else At(u, s.heap[cur].next)])
    case Hit(u, cur) =>
      && 0 <= cur < |s.heap|
      && s' == s.(readers := s.readers[r := Returned(u, s.heap[cur].thread)])
    case _ =>
      exists u | u in s.status && s.status[u].Mapped? :: s' == s.(readers := s.readers[r := At(u, s.list)])
  }

  ghost predicate Next(s: State, s': State) {
    || (exists w: nat, u, t :: CallMap(s, s', w, u, t))
    || (exists w: nat, u :: CallUnmap(s, s', w, u))
    || (exists w: nat :: w < |s.writers| && StepWriter(s, s', w))
    || (exists r: nat :: r < |s.readers| && StepReader(s, s', r))
  }

  ghost predicate Run(run: Trace<State>) {
    match run
    case Begin(s) => Init(s)
    case Then(prefix, s) => Run(prefix) && Next(prefix.s, s)
  }

  // ----- the invariant

  predicate Critical(pc: WriterPc) {
    !pc.Idle? && !pc.WantMap? && !pc.WantUnmap?
  }

  /** Newer nodes come first, and the last node of the heap may be private. */
  ghost predicate ListOk(heap: seq<Node>, list: int, private: bool) {
    && list == |heap| - 1 - (if private then 1 else 0) && list >= -1
    && (forall k: nat {:trigger heap[k]} | k <= list :: heap[k].next == k - 1)
  }

  /** at is exactly where the units of the published nodes are. */
  ghost predicate AtOk(heap: seq<Node>, list: int, at: map<Unit, nat>) {
    && list < |heap|
    && (forall u | u in at :: u != UNIT_NULL && at[u] <= list && heap[at[u]].unit == u)
    && (forall k: nat | k <= list && heap[k].unit != UNIT_NULL :: heap[k].unit in at && at[heap[k].unit] == k)
  }

  /** Units of the list are known to callers, and mapped units are in the list with their thread. */
  ghost predicate StatusOk(heap: seq<Node>, list: int, at: map<Unit, nat>, status: map<Unit, Status>)
    requires AtOk(heap, list, at)
  {
    && (forall u | u in at :: u in status)
    && (forall u | u in status :: u != UNIT_NULL)
    && (forall u | u in status && status[u].Mapped? :: u in at && heap[at[u]].thread == status[u].t)
  }

  /** Every published node behind cur, in the order of the list, is in use. */
  predicate UsedBefore(heap: seq<Node>, list: int, cur: int) {
    forall k: nat {:trigger heap[k]} | cur < k <= list && k < |heap| :: heap[k].unit != UNIT_NULL
  }

  /** What the place of a thread in unit_map_thread says. */
  predicate MapperOk(heap: seq<Node>, list: int, at: map<Unit, nat>, pc: WriterPc) {
    match pc
    case WantMap(u, t) => u !in at
    case MapAt(u, t, cur) => u !in at && -1 <= cur <= list && UsedBefore(heap, list, cur)
    case Fill(u, t, cur) => u !in at && 0 <= cur <= list < |heap| && heap[cur].unit == UNIT_NULL
    case Thread(u, t, cur) => u in at && at[u] == cur
    case Reload(u, t) => u !in at && UsedBefore(heap, list, NIL)
    case Allocate(u, t, head) => u !in at && head == list && UsedBefore(heap, list, NIL)
    case Build(u, t, head, node, k) =>
      && u !in at && head == list && 0 <= node == list + 1 < |heap| && k <= 3 && UsedBefore(heap, list, NIL)
      && (k > 0 ==> heap[node].unit == u) && (k > 1 ==> heap[node].thread == t) && (k > 2 ==> heap[node].next == head)
    case MapDone(u, t) => u in at && at[u] < |heap| && heap[at[u]].thread == t
    case MapFailed(u) => u !in at && UsedBefore(heap, list, NIL)
    case _ => true
  }

  /** What the place of a thread in unit_unmap_thread says. */
  predicate UnmapperOk(list: int, at: map<Unit, nat>, pc: WriterPc) {
    match pc
    case WantUnmap(u) => u in at
    case UnmapAt(u, cur) => u in at && at[u] <= cur <= list
    case Clear(u, cur) => u in at && at[u] == cur
    case UnmapDone(u) => u !in at
    case _ => true
  }

  /** A thread inside map or unmap is the one that callers know of. */
  predicate Known(status: map<Unit, Status>, w: nat, pc: WriterPc) {
    match pc
    case Idle => true
    case MapFailed(u) => u in status && status[u].Mapping? && status[u].w == w
    case WantUnmap(u) => u in status && status[u] == Unmapping(w)
    case UnmapAt(u, _) => u in status && status[u] == Unmapping(w)
    case Clear(u, _) => u in status && status[u] == Unmapping(w)
    case UnmapDone(u) => u in status && status[u] == Unmapping(w)
    case _ => pc.u in status && status[pc.u] == Mapping(w, pc.t)
  }

  /** A lookup has not passed the node that it needs, and its unit is still mapped. */
  predicate ReaderOk(list: int, at: map<Unit, nat>, status: map<Unit, Status>, pc: ReaderPc) {
    match pc
    case At(u, cur) => u in status && status[u].Mapped? && u in at && at[u] <= cur <= list
    case Hit(u, cur) => u in status && status[u].Mapped? && u in at && at[u] == cur
    case _ => true
  }

  ghost predicate TableOk(s: State) {
    && ListOk(s.heap, s.list, Private(s.lock, s.writers))
    && AtOk(s.heap, s.list, s.at)
    && StatusOk(s.heap, s.list, s.at, s.status)
  }

  predicate Private(lock: Lock, writers: seq<WriterPc>) {
    lock.LockedBy? && lock.w < |writers| && writers[lock.w].Build?
  }

  predicate WriterOk(heap: seq<Node>, list: int, lock: Lock, at: map<Unit, nat>, status: map<Unit, Status>,
                     w: nat, pc: WriterPc)
  {
    && (Critical(pc) <==> lock == LockedBy(w))
    && Known(status, w, pc) && MapperOk(heap, list, at, pc) && UnmapperOk(list, at, pc)
  }

  ghost predicate WritersOk(s: State) {
    && (s.lock.LockedBy? ==> s.lock.w < |s.writers|)
    && forall w: nat {:trigger s.writers[w]} | w < |s.writers| ::
         WriterOk(s.heap, s.list, s.lock, s.at, s.status, w, s.writers[w])
  }

  ghost predicate ReadersOk(list: int, at: map<Unit, nat>, status: map<Unit, Status>, readers: seq<ReaderPc>) {
    forall r: nat {:trigger readers[r]} | r < |readers| :: ReaderOk(list, at, status, readers[r])
  }

  ghost predicate Inv(s: State) {
    TableOk(s) && WritersOk(s) && ReadersOk(s.list, s.at, s.status, s.readers)
  }

  // ----- what a step leaves alone

  /** Whoever does not hold the lock depends on the status of its own unit and on whether that is in the
      list, and on nothing else. */
  lemma OutsiderKeeps(s: State, s': State, w: nat)
    requires WritersOk(s) && w < |s.writers| == |s'.writers| && s'.writers[w] == s.writers[w]
    requires !Critical(s.writers[w]) && s'.lock != LockedBy(w)
    requires var pc := s.writers[w];
             pc.Idle? || (pc.u in s.status && pc.u in s'.status && s'.status[pc.u] == s.status[pc.u]
                          && (pc.u in s'.at <==> pc.u in s.at))
    ensures WriterOk(s'.heap, s'.list, s'.lock, s'.at, s'.status, w, s'.writers[w])
  {
    assert WriterOk(s.heap, s.list, s.lock, s.at, s.status, w, s.writers[w]);
  }

  /** Lookups depend on the status and the node of mapped units; a list that has grown is no problem. */
  lemma LookupsKeep(s: State, s': State)
    requires ReadersOk(s.list, s.at, s.status, s.readers) && s'.readers == s.readers && s.list <= s'.list
    requires forall u | u in s.status && s.status[u].Mapped? && u in s.at ::
               u in s'.status && s'.status[u] == s.status[u] && u in s'.at && s'.at[u] == s.at[u]
    ensures ReadersOk(s'.list, s'.at, s'.status, s'.readers)
  {
    forall r: nat | r < |s'.readers| ensures ReaderOk(s'.list, s'.at, s'.status, s'.readers[r]) {
      assert ReaderOk(s.list, s.at, s.status, s.readers[r]);
    }
  }

  /** Only the unit of thread w is touched in a step of w. */
  ghost predicate Touches(s: State, s': State, w: nat, u: Unit) {
    && w < |s.writers| == |s'.writers|
    && (forall k: nat {:trigger s'.writers[k]} | k < |s.writers| && k != w :: s'.writers[k] == s.writers[k])
    && (forall v | v != u :: (v in s'.status <==> v in s.status) && (v in s'.at <==> v in s.at))
    && (forall v | v != u && v in s.status :: s'.status[v] == s.status[v])
    && (forall v | v != u && v in s.at :: s'.at[v] == s.at[v])
  }

  /** The unit of thread w is no other thread's: so all of them stay where they are. */
  lemma OthersKeep(s: State, s': State, w: nat, u: Unit)
    requires WritersOk(s) && Touches(s, s', w, u)
    requires s.lock == Unlocked || s.lock == LockedBy(w)
    requires s'.lock == Unlocked || s'.lock == LockedBy(w)
    requires WriterOk(s'.heap, s'.list, s'.lock, s'.at, s'.status, w, s'.writers[w])
    requires forall k: nat {:trigger s.writers[k]} | k < |s.writers| && k != w ::
               s.writers[k].Idle? || s.writers[k].u != u
    ensures WritersOk(s')
  {
    forall k: nat | k < |s'.writers| ensures WriterOk(s'.heap, s'.list, s'.lock, s'.at, s'.status, k, s'.writers[k]) {
      if k != w {
        assert WriterOk(s.heap, s.list, s.lock, s.at, s.status, k, s.writers[k]);
        OutsiderKeeps(s, s', k);
      }
    }
  }

  /** Two threads never work on the same unit. */
  lemma OwnUnit(s: State, w: nat)
    requires WritersOk(s) && w < |s.writers| && !s.writers[w].Idle?
    ensures forall k: nat {:trigger s.writers[k]} | k < |s.writers| && k != w ::
              s.writers[k].Idle? || s.writers[k].u != s.writers[w].u
  {
    assert WriterOk(s.heap, s.list, s.lock, s.at, s.status, w, s.writers[w]);
    forall k: nat | k < |s.writers| && k != w ensures s.writers[k].Idle? || s.writers[k].u != s.writers[w].u {
      assert WriterOk(s.heap, s.list, s.lock, s.at, s.status, k, s.writers[k]);
    }
  }

  lemma NobodyWorksOn(s: State, u: Unit)
    requires WritersOk(s) && (u in s.status ==> s.status[u].Mapped?)
    ensures forall k: nat {:trigger s.writers[k]} | k < |s.writers| :: s.writers[k].Idle? || s.writers[k].u != u
  {
    forall k: nat | k < |s.writers| ensures s.writers[k].Idle? || s.writers[k].u != u {
      assert WriterOk(s.heap, s.list, s.lock, s.at, s.status, k, s.writers[k]);
    }
  }

  // ----- the calls

  lemma CallMapKeeps(s: State, s': State, w: nat, u: Unit, t: int)
    requires Inv(s) && CallMap(s, s', w, u, t)
    ensures Inv(s')
  {
    assert WriterOk(s.heap, s.list, s.lock, s.at, s.status, w, s.writers[w]);
    assert u !in s.at && TableOk(s');
    NobodyWorksOn(s, u);
    OthersKeepLocked(s, s', w, u);
    LookupsKeep(s, s');
  }

  /** A call or a return while somebody else may hold the lock. */
  lemma OthersKeepLocked(s: State, s': State, w: nat, u: Unit)
    requires WritersOk(s) && Touches(s, s', w, u) && s'.lock == s.lock && s.lock != LockedBy(w)
    requires s'.heap == s.heap && s'.list == s.list && s'.at == s.at
    requires WriterOk(s'.heap, s'.list, s'.lock, s'.at, s'.status, w, s'.writers[w])
    requires forall k: nat {:trigger s.writers[k]} | k < |s.writers| && k != w ::
               s.writers[k].Idle? || s.writers[k].u != u
    ensures WritersOk(s')
  {
    forall k: nat | k < |s'.writers| ensures WriterOk(s'.heap, s'.list, s'.lock, s'.at, s'.status, k, s'.writers[k]) {
      if k != w {
        assert WriterOk(s.heap, s.list, s.lock, s.at, s.status, k, s.writers[k]);
      }
    }
  }

  lemma CallUnmapKeeps(s: State, s': State, w: nat, u: Unit)
    requires Inv(s) && CallUnmap(s, s', w, u)
    ensures Inv(s')
  {
    assert WriterOk(s.heap, s.list, s.lock, s.at, s.status, w, s.writers[w]);
    assert u in s.at && TableOk(s');
    NobodyWorksOn(s, u);
    OthersKeepLocked(s, s', w, u);
    NoLookupsOf(s, s', u);
  }

  /** Nobody looks u up, and nothing else changes for lookups. */
  lemma NoLookupsOf(s: State, s': State, u: Unit)
    requires ReadersOk(s.list, s.at, s.status, s.readers) && s'.readers == s.readers
    requires s'.list == s.list && s'.at == s.at && forall r: nat | r < |s.readers| :: !Reading(s.readers[r], u)
    requires forall v | v in s.status && v != u :: v in s'.status && s'.status[v] == s.status[v]
    ensures ReadersOk(s'.list, s'.at, s'.status, s'.readers)
  {
    forall r: nat | r < |s'.readers| ensures ReaderOk(s'.list, s'.at, s'.status, s'.readers[r]) {
      assert ReaderOk(s.list, s.at, s.status, s.readers[r]);
      assert !Reading(s.readers[r], u);
    }
  }

  // ----- the steps of a lookup

  lemma ReaderKeeps(s: State, s': State, r: nat)
    requires Inv(s) && r < |s.readers| && StepReader(s, s', r)
    ensures Inv(s')
  {
    assert WritersOk(s') by {
      forall w: nat | w < |s'.writers| ensures WriterOk(s'.heap, s'.list, s'.lock, s'.at, s'.status, w, s'.writers[w]) {
        assert WriterOk(s.heap, s.list, s.lock, s.at, s.status, w, s.writers[w]);
      }
    }
    ReaderMoves(s, s', r);
    forall k: nat | k < |s'.readers| ensures ReaderOk(s'.list, s'.at, s'.status, s'.readers[k]) {
      assert k != r ==> ReaderOk(s.list, s.at, s.status, s.readers[k]);
    }
  }

  lemma ReaderMoves(s: State, s': State, r: nat)
    requires TableOk(s) && ReadersOk(s.list, s.at, s.status, s.readers) && r < |s.readers| && StepReader(s, s', r)
    ensures |s'.readers| == |s.readers| && s' == s.(readers := s.readers[r := s'.readers[r]])
    ensures ReaderOk(s.list, s.at, s.status, s'.readers[r])
  {
    assert ReaderOk(s.list, s.at, s.status, s.readers[r]);
  }

  // ----- the steps of map and unmap

  /** Steps that only move the thread and take the lock. */
  predicate Walks(pc: WriterPc) {
    pc.WantMap? || pc.MapAt? || pc.Reload? || pc.WantUnmap? || pc.UnmapAt?
  }

  lemma WalkKeeps(s: State, s': State, w: nat)
    requires Inv(s) && w < |s.writers| && StepWriter(s, s', w) && Walks(s.writers[w])
    ensures Inv(s')
  {
    assert WriterOk(s.heap, s.list, s.lock, s.at, s.status, w, s.writers[w]);
    assert TableOk(s') && WriterOk(s'.heap, s'.list, s'.lock, s'.at, s'.status, w, s'.writers[w]) by {
      WalkerWalks(s, s', w);
    }
    OwnUnit(s, w);
    OthersKeep(s, s', w, s.writers[w].u);
    LookupsKeep(s, s');
  }

  lemma WalkerWalks(s: State, s': State, w: nat)
    requires TableOk(s) && w < |s.writers| && StepWriter(s, s', w) && Walks(s.writers[w])
    requires WriterOk(s.heap, s.list, s.lock, s.at, s.status, w, s.writers[w])
    ensures TableOk(s') && w < |s'.writers|
    ensures WriterOk(s'.heap, s'.list, s'.lock, s'.at, s'.status, w, s'.writers[w])
  {
  }

  lemma FillKeeps(s: State, s': State, w: nat)
    requires Inv(s) && w < |s.writers| && StepWriter(s, s', w) && s.writers[w].Fill?
    ensures Inv(s')
  {
    assert WriterOk(s.heap, s.list, s.lock, s.at, s.status, w, s.writers[w]);
    FillTable(s, s', w);
    OwnUnit(s, w);
    OthersKeep(s, s', w, s.writers[w].u);
    LookupsKeep(s, s');
  }

  lemma FillTable(s: State, s': State, w: nat)
    requires TableOk(s) && w < |s.writers| && StepWriter(s, s', w) && s.writers[w].Fill?
    requires WriterOk(s.heap, s.list, s.lock, s.at, s.status, w, s.writers[w])
    ensures TableOk(s')
  {
  }

  lemma ThreadKeeps(s: State, s': State, w: nat)
    requires Inv(s) && w < |s.writers| && StepWriter(s, s', w) && s.writers[w].Thread?
    ensures Inv(s')
  {
    assert WriterOk(s.heap, s.list, s.lock, s.at, s.status, w, s.writers[w]);
    assert TableOk(s');
    OwnUnit(s, w);
    OthersKeep(s, s', w, s.writers[w].u);
    LookupsKeep(s, s');
  }

  lemma AllocateKeeps(s: State, s': State, w: nat)
    requires Inv(s) && w < |s.writers| && StepWriter(s, s', w) && s.writers[w].Allocate?
    ensures Inv(s')
  {
    assert WriterOk(s.heap, s.list, s.lock, s.at, s.status, w, s.writers[w]);
    assert TableOk(s');
    OwnUnit(s, w);
    OthersKeep(s, s', w, s.writers[w].u);
    LookupsKeep(s, s');
  }

  /** A store into the private node. */
  lemma BuildKeeps(s: State, s': State, w: nat)
    requires Inv(s) && w < |s.writers| && StepWriter(s, s', w) && s.writers[w].Build? && s.writers[w].k < 3
    ensures Inv(s')
  {
    assert WriterOk(s.heap, s.list, s.lock, s.at, s.status, w, s.writers[w]);
    assert TableOk(s');
    OwnUnit(s, w);
    OthersKeep(s, s', w, s.writers[w].u);
    LookupsKeep(s, s');
  }

  lemma PublishKeeps(s: State, s': State, w: nat)
    requires Inv(s) && w < |s.writers| && StepWriter(s, s', w) && s.writers[w].Build? && s.writers[w].k >= 3
    ensures Inv(s')
  {
    assert WriterOk(s.heap, s.list, s.lock, s.at, s.status, w, s.writers[w]);
    assert TableOk(s');
    OwnUnit(s, w);
    OthersKeep(s, s', w, s.writers[w].u);
    LookupsKeep(s, s');
  }

  lemma ClearKeeps(s: State, s': State, w: nat)
    requires Inv(s) && w < |s.writers| && StepWriter(s, s', w) && s.writers[w].Clear?
    ensures Inv(s')
  {
    assert WriterOk(s.heap, s.list, s.lock, s.at, s.status, w, s.writers[w]);
    assert TableOk(s');
    OwnUnit(s, w);
    OthersKeep(s, s', w, s.writers[w].u);
    LookupsKeep(s, s');
  }

  /** Giving the lock back. */
  lemma ReturnKeeps(s: State, s': State, w: nat)
    requires Inv(s) && w < |s.writers| && StepWriter(s, s', w)
    requires var pc := s.writers[w]; pc.MapDone? || pc.MapFailed? || pc.UnmapDone?
    ensures Inv(s')
  {
    assert WriterOk(s.heap, s.list, s.lock, s.at, s.status, w, s.writers[w]);
    assert TableOk(s');
    OwnUnit(s, w);
    OthersKeep(s, s', w, s.writers[w].u);
    LookupsKeep(s, s');
  }

  lemma WriterKeeps(s: State, s': State, w: nat)
    requires Inv(s) && w < |s.writers| && StepWriter(s, s', w)
    ensures Inv(s')
  {
    match s.writers[w] {
      case Fill(_, _, _) => FillKeeps(s, s', w);
      case Thread(_, _, _) => ThreadKeeps(s, s', w);
      case Allocate(_, _, _) => AllocateKeeps(s, s', w);
      case Build(_, _, _, _, k) =>
        if k < 3 {
          BuildKeeps(s, s', w);
        } else {
          PublishKeeps(s, s', w);
        }
      case Clear(_, _) => ClearKeeps(s, s', w);
      case MapDone(_, _) => ReturnKeeps(s, s', w);
      case MapFailed(_) => ReturnKeeps(s, s', w);
      case UnmapDone(_) => ReturnKeeps(s, s', w);
      case _ => WalkKeeps(s, s', w);
    }
  }

  lemma StepKeeps(s: State, s': State)
    requires Inv(s) && Next(s, s')
    ensures Inv(s')
  {
    if w: nat, u, t :| CallMap(s, s', w, u, t) {
      CallMapKeeps(s, s', w, u, t);
    } else if w: nat, u :| CallUnmap(s, s', w, u) {
      CallUnmapKeeps(s, s', w, u);
    } else if w: nat :| w < |s.writers| && StepWriter(s, s', w) {
      WriterKeeps(s, s', w);
    } else {
      var r: nat :| r < |s.readers| && StepReader(s, s', r);
      ReaderKeeps(s, s', r);
    }
  }

  lemma {:induction false} RunInv(run: Trace<State>)
    requires Run(run)
    ensures Inv(run.s)
  {
    if run.Then? {
      RunInv(run.prefix);
      StepKeeps(run.prefix.s, run.s);
    }
  }

  // ----- the theorems

  /** The address that a reader is about to follow. */
  predicate ReaderFollows(s: State, r: nat) {
    r < |s.readers| && (s.readers[r].At? || s.readers[r].Hit?)
  }

  /** The address that a writer is about to follow, when it has one. */
  predicate WriterFollows(s: State, w: nat) {
    w < |s.writers| && var pc := s.writers[w]; pc.Fill? || pc.Thread? || pc.UnmapAt? || pc.Clear?
  }

  /** No pointer that a lookup, a fill or an unmap is about to follow is null, so the assertions of the
      source hold; and only the holder of the lock is inside. */
  lemma NeverNull(run: Trace<State>, i: nat)
    requires Run(run)
    ensures ReaderFollows(run.s, i) ==> 0 <= run.s.readers[i].cur < |run.s.heap|
    ensures WriterFollows(run.s, i) ==> 0 <= run.s.writers[i].cur < |run.s.heap|
    ensures i < |run.s.writers| && Critical(run.s.writers[i]) ==> run.s.lock == LockedBy(i)
  {
    RunInv(run);
    var s := run.s;
    if i < |s.readers| {
      assert ReaderOk(s.list, s.at, s.status, s.readers[i]);
    }
    if i < |s.writers| {
      assert WriterOk(s.heap, s.list, s.lock, s.at, s.status, i, s.writers[i]);
    }
  }

  lemma ReaderReturns(s: State, s': State, r: nat, r': nat)
    requires Inv(s) && r < |s.readers| && r' < |s.readers| && StepReader(s, s', r')
    ensures ReturnsRight(s, s', r)
  {
    assert ReaderOk(s.list, s.at, s.status, s.readers[r']);
  }

  lemma WriterReturns(s: State, s': State, r: nat, w: nat)
    requires r < |s.readers| && w < |s.writers| && StepWriter(s, s', w)
    ensures ReturnsRight(s, s', r)
  {
  }

  /** If a lookup returns in this step, it has been looking up a mapped unit, and returns its thread. */
  ghost predicate ReturnsRight(s: State, s': State, r: nat)
    requires r < |s.readers|
  {
    && |s'.readers| == |s.readers|
    && (s'.readers[r].Returned? && s'.readers[r] != s.readers[r] ==>
          var Returned(u, t) := s'.readers[r];
          Reading(s.readers[r], u) && u in s.status && s.status[u] == Mapped(t))
  }

  /** Whatever a lookup returns is the thread that its unit is mapped to, whatever happens to other units. */
  lemma LookupIsRight(run: Trace<State>, s': State, r: nat)
    requires Run(run) && Next(run.s, s') && r < |run.s.readers|
    ensures ReturnsRight(run.s, s', r)
  {
    RunInv(run);
    var s := run.s;
    if w: nat :| w < |s.writers| && StepWriter(s, s', w) {
      WriterReturns(s, s', r, w);
    } else if r': nat :| r' < |s.readers| && StepReader(s, s', r') {
      ReaderReturns(s, s', r, r');
    }
  }

  /** A node is allocated, or mapping fails, only when every node of the list is in use. */
  lemma AllocatesOnlyWhenFull(run: Trace<State>, w: nat, k: nat)
    requires Run(run) && w < |run.s.writers| && k <= run.s.list
    requires var pc := run.s.writers[w]; pc.Allocate? || pc.Build? || pc.MapFailed?
    ensures k < |run.s.heap| && run.s.heap[k].unit != UNIT_NULL
  {
    RunInv(run);
    var s := run.s;
    assert WriterOk(s.heap, s.list, s.lock, s.at, s.status, w, s.writers[w]);
  }

  /** How far a lookup still has to go. */
  function Distance(s: State, r: nat): int
    requires r < |s.readers|
  {
    match s.readers[r]
    case At(u, cur) => if u in s.at then cur - s.at[u] + 1 else 0
    case _ => 0
  }

  /** Only the caller who may unmap or map a unit moves its node. */
  lemma NodeStays(s: State, s': State, w: nat, u: Unit)
    requires WritersOk(s) && w < |s.writers| && StepWriter(s, s', w)
    requires u in s.at && u in s.status && s.status[u].Mapped?
    ensures u in s'.at && s'.at[u] == s.at[u] && s'.readers == s.readers
  {
    assert WriterOk(s.heap, s.list, s.lock, s.at, s.status, w, s.writers[w]);
  }

  lemma LookupAdvances(s: State, s': State, r: nat, r': nat)
    requires TableOk(s) && ReadersOk(s.list, s.at, s.status, s.readers)
    requires r < |s.readers| && s.readers[r].At? && r' < |s.readers| && StepReader(s, s', r')
    ensures r < |s'.readers| && s'.at == s.at
    ensures if r' == r then !s'.readers[r].NotReading? && 0 <= Distance(s', r) < Distance(s, r)
            else s'.readers[r] == s.readers[r]
  {
    assert ReaderOk(s.list, s.at, s.status, s.readers[r]);
    assert s.readers[r].u in s.at;
  }

  /** Every step of a lookup brings it nearer to its node; no step of anybody else moves the node, the
      mapping or the lookup. */
  lemma LookupTerminates(run: Trace<State>, s': State, r: nat)
    requires Run(run) && Next(run.s, s') && r < |run.s.readers| && run.s.readers[r].At?
    ensures r < |s'.readers| && Distance(run.s, r) > 0
    ensures || (s'.readers[r] == run.s.readers[r] && Distance(s', r) == Distance(run.s, r))
            || (!s'.readers[r].NotReading? && 0 <= Distance(s', r) < Distance(run.s, r))
  {
    RunInv(run);
    var s := run.s;
    var u := s.readers[r].u;
    assert ReaderOk(s.list, s.at, s.status, s.readers[r]);
    if w: nat, u', t :| CallMap(s, s', w, u', t) {
    } else if w: nat, u' :| CallUnmap(s, s', w, u') {
    } else if w: nat :| w < |s.writers| && StepWriter(s, s', w) {
      NodeStays(s, s', w, u);
    } else {
      var r': nat :| r' < |s.readers| && StepReader(s, s', r');
      LookupAdvances(s, s', r, r');
    }
  }

  // ----- every call can be completed

  lemma OneMore(prefix: Trace<State>, s: State) returns (run: Trace<State>)
    requires Run(prefix) && Next(prefix.s, s)
    ensures run == Then(prefix, s) && Run(run) && Extends(run, prefix)
  {
    run := Then(prefix, s);
    assert Extends(prefix, prefix);
  }

  lemma ReaderIsNext(s: State, s': State, r: nat)
    requires r < |s.readers| && StepReader(s, s', r)
    ensures Next(s, s')
  {
  }

  /** A thread that is not looking anything up can look up any mapped unit, and gets its thread, without
      anybody else having to move. */
  lemma LookupCompletes(run: Trace<State>, r: nat, u: Unit) returns (run': Trace<State>)
    requires Run(run) && r < |run.s.readers| && u in run.s.status && run.s.status[u].Mapped?
    requires run.s.readers[r].NotReading? || run.s.readers[r].Returned?
    ensures Run(run') && Extends(run', run)
    ensures run'.s == run.s.(readers := run.s.readers[r := Returned(u, run.s.status[u].t)])
  {
    var s := run.s.(readers := run.s.readers[r := At(u, run.s.list)]);
    ReaderIsNext(run.s, s, r);
    var longer := OneMore(run, s);
    run' := LookupGoesOn(longer, r);
    ExtendsFurther(run', longer, run);
  }

  lemma {:induction false} LookupGoesOn(run: Trace<State>, r: nat) returns (run': Trace<State>)
    requires Run(run) && r < |run.s.readers| && (run.s.readers[r].At? || run.s.readers[r].Hit?)
    ensures Run(run') && Extends(run', run)
    ensures var u := run.s.readers[r].u;
            && u in run.s.status && run.s.status[u].Mapped?
            && run'.s == run.s.(readers := run.s.readers[r := Returned(u, run.s.status[u].t)])
    decreases run.s.readers[r].At?, Distance(run.s, r)
  {
    RunInv(run);
    var s := run.s;
    assert ReaderOk(s.list, s.at, s.status, s.readers[r]);
    var cur := s.readers[r].cur;
    if s.readers[r].At? {
      var u := s.readers[r].u;
      var s' := s.(readers := s.readers[r := if s.heap[cur].unit == u then Hit(u, cur) else At(u, s.heap[cur].next)]);
      ReaderIsNext(s, s', r);
      LookupAdvances(s, s', r, r);
      var longer := OneMore(run, s');
      run' := LookupGoesOn(longer, r);
      ExtendsFurther(run', longer, run);
    } else {
      var s' := s.(readers := s.readers[r := Returned(s.readers[r].u, s.heap[cur].thread)]);
      ReaderIsNext(s, s', r);
      run' := OneMore(run, s');
    }
  }

  /** How far a mapping or unmapping thread still has to go, if the allocator has memory. */
  function WriterLeft(heap: nat, pc: WriterPc): int {
    match pc
    case Idle => 0
    case WantMap(_, _) => 11 + heap
    case MapAt(_, _, cur) => 9 + cur
    case Reload(_, _) => 7
    case Allocate(_, _, _) => 6
    case Build(_, _, _, _, k) => 5 - k
    case Fill(_, _, _) => 3
    case Thread(_, _, _) => 2
    case MapDone(_, _) => 1
    case MapFailed(_) => 1
    case WantUnmap(_) => 4 + heap
    case UnmapAt(_, cur) => 3 + cur
    case Clear(_, _) => 2
    case UnmapDone(_) => 1
  }

  predicate Maps(pc: WriterPc) {
    !pc.Idle? && !pc.MapFailed? && !pc.WantUnmap? && !pc.UnmapAt? && !pc.Clear? && !pc.UnmapDone?
  }

  /** Thread w has moved on with the unit it works on, or returned with what its caller wants. */
  ghost predicate WriterMoved(s: State, s': State, w: nat) {
    && w < |s.writers| && !s.writers[w].Idle? && s'.readers == s.readers
    && |s'.writers| == |s.writers| && s'.writers == s.writers[w := s'.writers[w]]
    && var (pc, pc') := (s.writers[w], s'.writers[w]);
    && s'.lock == (if pc'.Idle? then Unlocked else LockedBy(w))
    && if pc'.Idle? then
         s'.status == if Maps(pc) then s.status[pc.u := Mapped(pc.t)] else s.status - {pc.u}
       else
         s'.status == s.status && pc'.u == pc.u && (Maps(pc) <==> Maps(pc')) && (Maps(pc) ==> pc'.t == pc.t)
  }

  lemma BuilderAdvances(s: State, w: nat) returns (s': State)
    requires Inv(s) && w < |s.writers| && s.writers[w].Build?
    ensures StepWriter(s, s', w) && WriterMoved(s, s', w)
    ensures 0 <= WriterLeft(|s'.heap|, s'.writers[w]) < WriterLeft(|s.heap|, s.writers[w])
  {
    assert WriterOk(s.heap, s.list, s.lock, s.at, s.status, w, s.writers[w]);
    var Build(u, t, head, node, k) := s.writers[w];
    s' := if k < 3 then s.(heap := s.heap[node := Store(s.heap[node], u, t, head, k)],
                           writers := s.writers[w := Build(u, t, head, node, k + 1)])
          else s.(list := node, at := s.at[u := node], writers := s.writers[w := MapDone(u, t)]);
  }

  lemma MapperAdvances(s: State, w: nat) returns (s': State)
    requires Inv(s) && w < |s.writers| && Maps(s.writers[w]) && (s.lock == Unlocked || s.lock == LockedBy(w))
    ensures StepWriter(s, s', w) && WriterMoved(s, s', w)
    ensures 0 <= WriterLeft(|s'.heap|, s'.writers[w]) < WriterLeft(|s.heap|, s.writers[w])
  {
    assert WriterOk(s.heap, s.list, s.lock, s.at, s.status, w, s.writers[w]);
    match s.writers[w] {
      case WantMap(u, t) => s' := s.(lock := LockedBy(w), writers := s.writers[w := MapAt(u, t, s.list)]);
      case MapAt(u, t, cur) =>
        s' := s.(writers := s.writers[w := if cur == NIL then Reload(u, t)
                                           else if s.heap[cur].unit == UNIT_NULL then Fill(u, t, cur)
                                           else MapAt(u, t, s.heap[cur].next)]);
      case Fill(u, t, cur) =>
        s' := s.(heap := s.heap[cur := s.heap[cur].(unit := u)], at := s.at[u := cur],
                 writers := s.writers[w := Thread(u, t, cur)]);
      case Thread(u, t, cur) =>
        s' := s.(heap := s.heap[cur := s.heap[cur].(thread := t)], writers := s.writers[w := MapDone(u, t)]);
      case Reload(u, t) => s' := s.(writers := s.writers[w := Allocate(u, t, s.list)]);
      case Allocate(u, t, head) =>
        s' := s.(heap := s.heap + [Node(0, 0, 0)], writers := s.writers[w := Build(u, t, head, |s.heap|, 0)]);
      case Build(_, _, _, _, _) => s' := BuilderAdvances(s, w);
      case MapDone(u, t) =>
        s' := s.(lock := Unlocked, writers := s.writers[w := Idle], status := s.status[u := Mapped(t)]);
    }
  }

  lemma UnmapperAdvances(s: State, w: nat) returns (s': State)
    requires Inv(s) && w < |s.writers| && !s.writers[w].Idle? && !Maps(s.writers[w])
    requires s.lock == Unlocked || s.lock == LockedBy(w)
    ensures StepWriter(s, s', w) && WriterMoved(s, s', w)
    ensures 0 <= WriterLeft(|s'.heap|, s'.writers[w]) < WriterLeft(|s.heap|, s.writers[w])
  {
    assert WriterOk(s.heap, s.list, s.lock, s.at, s.status, w, s.writers[w]);
    match s.writers[w] {
      case WantUnmap(u) => s' := s.(lock := LockedBy(w), writers := s.writers[w := UnmapAt(u, s.list)]);
      case UnmapAt(u, cur) =>
        s' := s.(writers := s.writers[w := if s.heap[cur].unit == u then Clear(u, cur)
                                           else UnmapAt(u, s.heap[cur].next)]);
      case Clear(u, cur) =>
        s' := s.(heap := s.heap[cur := s.heap[cur].(unit := UNIT_NULL)], at := s.at - {u},
                 writers := s.writers[w := UnmapDone(u)]);
      case MapFailed(u) => s' := s.(lock := Unlocked, writers := s.writers[w := Idle], status := s.status - {u});
      case UnmapDone(u) => s' := s.(lock := Unlocked, writers := s.writers[w := Idle], status := s.status - {u});
    }
  }

  /** What is left of a call when it has returned: the unit is mapped to its thread, or not mapped. */
  ghost predicate Completed(s: State, s': State, w: nat)
    requires w < |s.writers| && !s.writers[w].Idle?
  {
    var pc := s.writers[w];
    && s'.writers == s.writers[w := Idle] && s'.readers == s.readers && s'.lock == Unlocked
    && s'.status == if Maps(pc) then s.status[pc.u := Mapped(pc.t)] else s.status - {pc.u}
  }

  /** A thread that nobody else keeps from the lock gets to the end of its call. */
  lemma {:induction false} HolderFinishes(run: Trace<State>, w: nat) returns (run': Trace<State>)
    requires Run(run) && w < |run.s.writers| && !run.s.writers[w].Idle?
    requires run.s.lock == Unlocked || run.s.lock == LockedBy(w)
    ensures Run(run') && Extends(run', run) && Completed(run.s, run'.s, w)
    decreases WriterLeft(|run.s.heap|, run.s.writers[w])
  {
    RunInv(run);
    var s';
    if Maps(run.s.writers[w]) {
      s' := MapperAdvances(run.s, w);
    } else {
      s' := UnmapperAdvances(run.s, w);
    }
    assert Next(run.s, s');
    var longer := OneMore(run, s');
    if s'.writers[w].Idle? {
      run' := longer;
    } else {
      run' := HolderFinishes(longer, w);
      ExtendsFurther(run', longer, run);
    }
  }

  /** The allocator may refuse; then mapping fails, and the list and everybody else stay as they are. */
  lemma MappingMayFail(run: Trace<State>, w: nat) returns (run': Trace<State>)
    requires Run(run) && w < |run.s.writers| && run.s.writers[w].Allocate?
    ensures Run(run') && Extends(run', run)
    ensures run'.s == run.s.(lock := Unlocked, writers := run.s.writers[w := Idle],
                             status := run.s.status - {run.s.writers[w].u})
  {
    var u := run.s.writers[w].u;
    var failed := run.s.(writers := run.s.writers[w := MapFailed(u)]);
    assert StepWriter(run.s, failed, w);
    var longer := OneMore(run, failed);
    var back := failed.(lock := Unlocked, writers := failed.writers[w := Idle], status := failed.status - {u});
    assert StepWriter(failed, back, w);
    run' := OneMore(longer, back);
    ExtendsFurther(run', longer, run);
  }

  /** Every call of map or unmap can be completed, whoever holds the lock, and then its unit is mapped to
      the thread that was passed, or no longer mapped. */
  lemma CallCompletes(run: Trace<State>, w: nat) returns (run': Trace<State>)
    requires Run(run) && w < |run.s.writers| && !run.s.writers[w].Idle?
    ensures Run(run') && Extends(run', run) && run'.s.readers == run.s.readers
    ensures w < |run'.s.writers| && run'.s.writers[w].Idle?
    ensures var pc := run.s.writers[w];
            if Maps(pc) then pc.u in run'.s.status && run'.s.status[pc.u] == Mapped(pc.t)
            else pc.u !in run'.s.status
  {
    if run.s.lock == Unlocked || run.s.lock == LockedBy(w) {
      run' := HolderFinishes(run, w);
    } else {
      RunInv(run);
      var h := run.s.lock.w;
      assert WriterOk(run.s.heap, run.s.list, run.s.lock, run.s.at, run.s.status, h, run.s.writers[h]);
      var longer := HolderFinishes(run, h);
      run' := HolderFinishes(longer, w);
      ExtendsFurther(run', longer, run);
    }
  }
}
