/** The hash table from user-defined work units to threads. A bucket is a singly linked list that only
    grows: unmapping empties a node, mapping reuses an empty one. */
module UnitTable {

  /** A handle is a machine word. Bit 0 marks the units of built-in pools, which never get here. */
  type Unit = u: nat | u < 0x1_0000_0000_0000_0000

  const UNIT_NULL: Unit := 0

  predicate Builtin(u: Unit) { u % 2 == 1 }

  /** A unit that may be mapped. */
  predicate User(u: Unit) { u != UNIT_NULL && !Builtin(u) }

  const TABLE_SIZE := 256

  type Index = i: nat | i < TABLE_SIZE

  /** unit_get_hash_index with ABTI_UNIT_HASH_TABLE_SIZE_EXP = 8, shifts written as divisions. */
  function HashIndex(u: Unit): Index {
    (u / 8 + u / 0x800 + u / 0x8_0000) % TABLE_SIZE
  }

  /** The index comes from three bytes of the handle, each of which reaches every bucket. */
  lemma HashSpreads(i: nat)
    requires i < TABLE_SIZE
    ensures HashIndex(8 * i) == i && HashIndex(0x800 * i) == i && HashIndex(0x8_0000 * i) == i
  {
    assert 0x800 * i / 8 == TABLE_SIZE * i;
    assert 0x8_0000 * i / 8 == TABLE_SIZE * (TABLE_SIZE * i) && 0x8_0000 * i / 0x800 == TABLE_SIZE * i;
    Multiple(i, i);
    Multiple(TABLE_SIZE * i + i, i);
  }

  lemma Multiple(n: int, i: nat)
    requires i < TABLE_SIZE
    ensures (TABLE_SIZE * n + i) % TABLE_SIZE == i
  {
  }

  // ----- one bucket as a sequence of slots, head first

  datatype Slot = Slot(unit: Unit, thread: int)

  datatype Code = Success | ErrMem

  /** i is the first slot that holds u, or the number of slots. */
  predicate IsFirst(slots: seq<Slot>, u: Unit, i: nat) {
    && i <= |slots|
    && (i < |slots| ==> slots[i].unit == u)
    && (forall k: nat | k < i :: slots[k].unit != u)
  }

  lemma FirstExists(slots: seq<Slot>, u: Unit)
    ensures exists i: nat :: IsFirst(slots, u, i)
  {
    var i := 0;
    while i < |slots| && slots[i].unit != u
      invariant i <= |slots| && forall k: nat | k < i :: slots[k].unit != u
    {
      i := i + 1;
    }
    assert IsFirst(slots, u, i);
  }

  ghost function Find(slots: seq<Slot>, u: Unit): (i: nat)
    ensures IsFirst(slots, u, i)
  {
    FirstExists(slots, u);
    var i: nat :| IsFirst(slots, u, i);
    i
  }

  /** allocOk says whether malloc succeeds if it is needed. */
  ghost function MapSlot(slots: seq<Slot>, u: Unit, t: int, allocOk: bool): (seq<Slot>, Code) {
    var i := Find(slots, UNIT_NULL);
    if i < |slots| then (slots[i := Slot(u, t)], Success)
    else if allocOk then ([Slot(u, t)] + slots, Success)
    else (slots, ErrMem)
  }

  ghost function UnmapSlot(slots: seq<Slot>, u: Unit): seq<Slot> {
    var i := Find(slots, u);
    if i < |slots| then slots[i := slots[i].(unit := UNIT_NULL)] else slots
  }

  // ----- what a bucket means

  /** No live unit occurs twice. */
  ghost predicate Unique(slots: seq<Slot>) {
    forall i: nat, k: nat | i < k < |slots| && slots[i].unit != UNIT_NULL :: slots[i].unit != slots[k].unit
  }

  function Live(slots: seq<Slot>): set<Unit> {
    set i | 0 <= i < |slots| && slots[i].unit != UNIT_NULL :: slots[i].unit
  }

  /** The bucket agrees with a map restricted to the units that live in it. */
  ghost predicate Agrees(slots: seq<Slot>, m: map<Unit, int>) {
    && Unique(slots)
    && (forall i: nat | i < |slots| && slots[i].unit != UNIT_NULL ::
          slots[i].unit in m && slots[i].thread == m[slots[i].unit])
    && (forall u | u in m :: u != UNIT_NULL && Find(slots, u) < |slots|)
  }

  lemma MapAgrees(slots: seq<Slot>, m: map<Unit, int>, u: Unit, t: int, allocOk: bool)
    requires Agrees(slots, m) && u != UNIT_NULL && u !in m
    ensures var (slots', code) := MapSlot(slots, u, t, allocOk);
            Agrees(slots', if code == Success then m[u := t] else m)
  {
    var (slots', code) := MapSlot(slots, u, t, allocOk);
    if code == Success {
      var m' := m[u := t];
      var j := if Find(slots, UNIT_NULL) < |slots| then Find(slots, UNIT_NULL) else 0;
      assert slots'[j] == Slot(u, t);
      forall v | v in m' ensures Find(slots', v) < |slots'| {
        if v != u {
          var k := Find(slots, v);
          assert slots[k].unit == v;
          if Find(slots, UNIT_NULL) < |slots| {
            assert slots'[k] == slots[k];
          } else {
            assert slots'[k + 1] == slots[k];
          }
        }
      }
    }
  }

  /** No slot is free. */
  predicate Full(slots: seq<Slot>) {
    forall k: nat | k < |slots| :: slots[k].unit != UNIT_NULL
  }

  lemma MapFails(slots: seq<Slot>, u: Unit, t: int, allocOk: bool)
    ensures MapSlot(slots, u, t, allocOk).1 == ErrMem <==> !allocOk && Full(slots)
  {
    var i := Find(slots, UNIT_NULL);
    assert i < |slots| ==> slots[i].unit == UNIT_NULL;
  }

  /** Mapping fails only for want of memory, when it needs some, and then changes nothing; otherwise the
      unit goes into the first free slot, and into a new one at the head only when there is none. */
  lemma MapFillsFirst(slots: seq<Slot>, u: Unit, t: int, allocOk: bool)
    ensures var (slots', code) := MapSlot(slots, u, t, allocOk);
            && (code == ErrMem <==> !allocOk && Full(slots))
            && (code == ErrMem ==> slots' == slots)
            && (Full(slots) && allocOk ==> slots' == [Slot(u, t)] + slots)
            && (!Full(slots) ==> exists i: nat :: i < |slots| && slots[i].unit == UNIT_NULL && Full(slots[..i])
                                                  && slots' == slots[..i] + [Slot(u, t)] + slots[i + 1..])
  {
    var i := Find(slots, UNIT_NULL);
    if i < |slots| {
      assert slots[i].unit == UNIT_NULL && Full(slots[..i]);
      assert slots[i := Slot(u, t)] == slots[..i] + [Slot(u, t)] + slots[i + 1..];
    }
  }

  lemma UnmapAgrees(slots: seq<Slot>, m: map<Unit, int>, u: Unit)
    requires Agrees(slots, m) && u in m
    ensures Agrees(UnmapSlot(slots, u), m - {u})
  {
    var slots' := UnmapSlot(slots, u);
    forall v | v in m - {u} ensures Find(slots', v) < |slots'| {
      var k := Find(slots, v);
      assert slots'[k] == slots[k];
    }
  }

  /** The number of mapped units is the number of slots in use. */
  lemma {:induction false} LiveCount(slots: seq<Slot>)
    requires Unique(slots)
    ensures |Live(slots)| <= |slots|
    ensures |Live(slots)| == |slots| <==> forall i: nat | i < |slots| :: slots[i].unit != UNIT_NULL
  {
    if slots != [] {
      var (front, last) := (slots[..|slots| - 1], slots[|slots| - 1]);
      assert slots == front + [last];
      LiveCount(front);
      if last.unit != UNIT_NULL {
        assert Live(slots) == Live(front) + {last.unit};
        assert last.unit !in Live(front);
      } else {
        assert Live(slots) == Live(front);
      }
    }
  }

  lemma AgreesLive(slots: seq<Slot>, m: map<Unit, int>)
    requires Agrees(slots, m)
    ensures Live(slots) == m.Keys
  {
    forall u | u in m ensures u in Live(slots) {
      assert slots[Find(slots, u)].unit == u;
    }
  }

  // ----- the whole table over any sequence of calls

  type Buckets = b: seq<seq<Slot>> | |b| == TABLE_SIZE witness seq(TABLE_SIZE, _ => [])

  /** What follows holds for any hash function. */
  type Hash = Unit -> Index

  datatype Op = Map(u: Unit, t: int, allocOk: bool) | Unmap(u: Unit)

  /** The table, the plain map it stands for, and how many units of each bucket have ever been mapped at
      the same time. */
  datatype History = History(hash: Hash, table: Buckets, m: map<Unit, int>, peak: seq<nat>)

  function Part(hash: Hash, m: map<Unit, int>, i: nat): map<Unit, int> {
    map u | u in m && hash(u) == i :: m[u]
  }

  function Max(a: nat, b: nat): nat { if a < b then b else a }

  /** A unit is mapped only when it is not, and unmapped only when it is. */
  predicate Legal(h: History, op: Op) {
    match op
    case Map(u, _, _) => User(u) && u !in h.m
    case Unmap(u) => u in h.m
  }

  ghost function Perform(h: History, op: Op): History
    requires |h.peak| == TABLE_SIZE
  {
    var i := h.hash(op.u);
    match op
    case Map(u, t, allocOk) =>
      var (slots, code) := MapSlot(h.table[i], u, t, allocOk);
      var m := if code == Success then h.m[u := t] else h.m;
      History(h.hash, h.table[i := slots], m, h.peak[i := Max(h.peak[i], |Part(h.hash, m, i)|)])
    case Unmap(u) =>
      History(h.hash, h.table[i := UnmapSlot(h.table[i], u)], h.m - {u}, h.peak)
  }

  ghost predicate BucketOk(h: History, i: nat)
    requires i < TABLE_SIZE && |h.peak| == TABLE_SIZE
  {
    Agrees(h.table[i], Part(h.hash, h.m, i)) && |h.table[i]| == h.peak[i]
  }

  ghost predicate Refines(h: History) {
    && |h.peak| == TABLE_SIZE
    && (forall i: nat | i < TABLE_SIZE :: BucketOk(h, i))
  }

  function Empty(hash: Hash): History {
    History(hash, seq(TABLE_SIZE, _ => []), map[], seq(TABLE_SIZE, _ => 0))
  }

  ghost predicate Reachable(hash: Hash, ops: seq<Op>, h: History)
    decreases |ops|
  {
    if ops == [] then h == Empty(hash)
    else exists h0 :: ReachedBy(hash, ops, h0, h)
  }

  ghost predicate ReachedBy(hash: Hash, ops: seq<Op>, h0: History, h: History)
    requires ops != []
    decreases |ops|, 0
  {
    var op := ops[|ops| - 1];
    && Reachable(hash, ops[..|ops| - 1], h0) && |h0.peak| == TABLE_SIZE
    && Legal(h0, op) && h == Perform(h0, op)
  }

  lemma AgreesCount(slots: seq<Slot>, m: map<Unit, int>)
    requires Agrees(slots, m)
    ensures |m| <= |slots|
    ensures |m| == |slots| <==> Find(slots, UNIT_NULL) == |slots|
  {
    AgreesLive(slots, m);
    LiveCount(slots);
    assert |m| == |m.Keys|;
    var i := Find(slots, UNIT_NULL);
    assert IsFirst(slots, UNIT_NULL, i);
  }

  lemma OneMore(m: map<Unit, int>, u: Unit, t: int)
    requires u !in m
    ensures |m[u := t]| == |m| + 1
  {
    assert m[u := t].Keys == m.Keys + {u};
    assert |m| == |m.Keys|;
  }

  lemma MapGrowsToPeak(slots: seq<Slot>, m: map<Unit, int>, u: Unit, t: int, allocOk: bool)
    requires Agrees(slots, m) && u !in m
    ensures var (slots', code) := MapSlot(slots, u, t, allocOk);
            |slots'| == Max(|slots|, if code == Success then |m[u := t]| else |m|)
  {
    AgreesCount(slots, m);
    OneMore(m, u, t);
  }

  /** What mapping does to the bucket of u and to its part of the map. */
  lemma MapPerformed(h: History, u: Unit, t: int, allocOk: bool)
    requires |h.peak| == TABLE_SIZE
    ensures var (i, h') := (h.hash(u), Perform(h, Map(u, t, allocOk)));
            var part := Part(h.hash, h.m, i);
            var (slots, code) := MapSlot(h.table[i], u, t, allocOk);
            var part' := if code == Success then part[u := t] else part;
            && |h'.peak| == TABLE_SIZE && h'.table[i] == slots
            && Part(h'.hash, h'.m, i) == part' && h'.peak[i] == Max(h.peak[i], |part'|)
  {
    var i := h.hash(u);
    assert Part(h.hash, h.m[u := t], i) == Part(h.hash, h.m, i)[u := t];
  }

  lemma MapKeepsBucket(h: History, u: Unit, t: int, allocOk: bool)
    requires Refines(h) && User(u) && u !in h.m
    ensures BucketOk(Perform(h, Map(u, t, allocOk)), h.hash(u))
  {
    var i := h.hash(u);
    assert BucketOk(h, i);
    MapPerformed(h, u, t, allocOk);
    MapAgrees(h.table[i], Part(h.hash, h.m, i), u, t, allocOk);
    MapGrowsToPeak(h.table[i], Part(h.hash, h.m, i), u, t, allocOk);
  }

  lemma UnmapKeepsBucket(h: History, u: Unit)
    requires Refines(h) && u in h.m
    ensures BucketOk(Perform(h, Unmap(u)), h.hash(u))
  {
    var i := h.hash(u);
    assert BucketOk(h, i);
    UnmapAgrees(h.table[i], Part(h.hash, h.m, i), u);
    assert Part(h.hash, h.m - {u}, i) == Part(h.hash, h.m, i) - {u};
  }

  lemma PerformKeeps(h: History, op: Op)
    requires Refines(h) && Legal(h, op)
    ensures Refines(Perform(h, op))
  {
    var h' := Perform(h, op);
    forall i: nat | i < TABLE_SIZE ensures BucketOk(h', i) {
      assert BucketOk(h, i);
      if i == h.hash(op.u) {
        match op
        case Map(u, t, allocOk) => MapKeepsBucket(h, u, t, allocOk);
        case Unmap(u) => UnmapKeepsBucket(h, u);
      } else {
        assert Part(h.hash, h'.m, i) == Part(h.hash, h.m, i);
      }
    }
  }

  /** Over any legal sequence of calls the table agrees with the map, holds no live unit twice, and has in
      each bucket as many nodes as there have ever been units mapped there at the same time. */
  lemma {:induction false} TableRefinesMap(hash: Hash, ops: seq<Op>, h: History)
    requires Reachable(hash, ops, h)
    ensures Refines(h)
  {
    if ops == [] {
      forall i: nat | i < TABLE_SIZE ensures BucketOk(h, i) {
        assert h.table[i] == [] && Part(h.hash, h.m, i) == map[];
      }
    } else {
      var h0 :| ReachedBy(hash, ops, h0, h);
      TableRefinesMap(hash, ops[..|ops| - 1], h0);
      PerformKeeps(h0, ops[|ops| - 1]);
    }
  }

  /** The slot that a lookup reaches. */
  lemma LookupIsMap(h: History, u: Unit)
    requires Refines(h) && (u in h.m || u != UNIT_NULL)
    ensures u in h.m ==> u != UNIT_NULL
    ensures var slots := h.table[h.hash(u)];
            var i := Find(slots, u);
            if u in h.m then i < |slots| && slots[i] == Slot(u, h.m[u]) else i == |slots|
  {
    assert BucketOk(h, h.hash(u));
    assert u in h.m ==> u in Part(h.hash, h.m, h.hash(u));
  }

  ghost predicate AllFree(slots: seq<Slot>) {
    forall i | 0 <= i < |slots| :: slots[i].unit == UNIT_NULL
  }

  /** What finalize asserts holds exactly when everything has been unmapped. */
  lemma EmptyMapMeansFree(h: History)
    requires Refines(h)
    ensures h.m == map[] <==> forall i: nat | i < TABLE_SIZE :: AllFree(h.table[i])
  {
    if h.m == map[] {
      forall i: nat | i < TABLE_SIZE ensures AllFree(h.table[i]) {
        assert BucketOk(h, i);
        forall k | 0 <= k < |h.table[i]| ensures h.table[i][k].unit == UNIT_NULL {
        }
      }
    } else {
      var u :| u in h.m;
      var i := h.hash(u);
      assert BucketOk(h, i) && u in Part(h.hash, h.m, i);
      assert h.table[i][Find(h.table[i], u)].unit == u;
    }
  }

  // ----- the memory representation

  /** The link is set before a node is published and never changes. home is the bucket it belongs to. */
  class Node {
    var unit: Unit
    var thread: int
    const next: Node?
    ghost const home: Bucket

    constructor (u: Unit, t: int, next: Node?, ghost home: Bucket)
      ensures unit == u && thread == t && this.next == next && this.home == home
    {
      unit := u;
      thread := t;
      this.next := next;
      this.home := home;
    }
  }

  /** One bucket and its lock. */
  class Bucket {
    var locked: bool
    var list: Node?
    ghost var nodes: seq<Node>

    ghost predicate Valid()
      reads this
    {
      && list == First(nodes)
      && forall i: nat {:trigger nodes[i]} | i < |nodes| ::
           nodes[i].home == this && nodes[i].next == First(nodes[i + 1..])
    }

    static ghost function First(nodes: seq<Node>): Node? {
      if nodes == [] then null else nodes[0]
    }

    static ghost function SlotsOf(nodes: seq<Node>): (slots: seq<Slot>)
      reads nodes
    {
      seq(|nodes|, i requires 0 <= i < |nodes| reads nodes => Slot(nodes[i].unit, nodes[i].thread))
    }

    ghost function Slots(): seq<Slot>
      reads this, nodes
    {
      SlotsOf(nodes)
    }

    constructor ()
      ensures Valid() && Slots() == [] && nodes == [] && !locked
    {
      locked := false;
      list := null;
      nodes := [];
    }

    /** The links lead from node to node and end, so no node comes twice. */
    lemma NoCycle(i: nat, k: nat)
      requires Valid() && i < k < |nodes|
      ensures nodes[i] != nodes[k]
      decreases |nodes| - k
    {
      if nodes[i] == nodes[k] {
        assert nodes[i].next == nodes[i + 1];
        if k + 1 < |nodes| {
          NoCycle(i + 1, k + 1);
        }
      }
    }

    lemma AllDifferent()
      requires Valid()
      ensures forall i: nat, k: nat | i < k < |nodes| :: nodes[i] != nodes[k]
    {
      forall i: nat, k: nat | i < k < |nodes| ensures nodes[i] != nodes[k] {
        NoCycle(i, k);
      }
    }

    /** unit_map_thread, once it has the lock. */
    method Map(u: Unit, t: int, allocOk: bool) returns (code: Code)
      requires Valid() && u != UNIT_NULL
      modifies this, nodes
      ensures Valid() && !locked
      ensures (Slots(), code) == MapSlot(old(Slots()), u, t, allocOk)
      ensures code == ErrMem <==> !allocOk && old(Full(Slots()))
      ensures nodes == old(nodes) || (nodes != [] && fresh(nodes[0]) && nodes == [nodes[0]] + old(nodes))
    {
      ghost var was := Slots();
      MapFails(was, u, t, allocOk);
      locked := true;
      var cur := list;
      ghost var i := 0;
      while cur != null
        invariant i <= |nodes| && cur == First(nodes[i..])
        invariant Slots() == was && forall k: nat | k < i :: was[k].unit != UNIT_NULL
        decreases |nodes| - i
      {
        if cur.unit == UNIT_NULL {
          assert IsFirst(was, UNIT_NULL, i);
          Reuse(cur, i, u, t);
          locked := false;
          return Success;
        }
        cur := cur.next;
        i := i + 1;
      }
      assert Find(was, UNIT_NULL) == |was|;
      if !allocOk {
        locked := false;
        return ErrMem;
      }
      Grow(u, t);
      locked := false;
      code := Success;
    }

    /** Put a unit into a node that is free. */
    method Reuse(node: Node, ghost i: nat, u: Unit, t: int)
      requires Valid() && locked && i < |nodes| && node == nodes[i]
      modifies node`unit, node`thread
      ensures Valid() && Slots() == old(Slots())[i := Slot(u, t)]
    {
      AllDifferent();
      node.unit := u;
      node.thread := t;
    }

    /** Publish a new node at the head. */
    method Grow(u: Unit, t: int)
      requires Valid() && locked
      modifies this
      ensures Valid() && locked == old(locked)
      ensures nodes != [] && fresh(nodes[0]) && nodes == [nodes[0]] + old(nodes)
      ensures Slots() == [Slot(u, t)] + old(Slots())
    {
      var node := new Node(u, t, list, this);
      nodes := [node] + nodes;
      list := node;
      assert nodes[1..] == old(nodes);
    }

    /** unit_unmap_thread, once it has the lock. The unit must be there. */
    method Unmap(u: Unit)
      requires Valid() && u != UNIT_NULL && Find(Slots(), u) < |Slots()|
      modifies this, nodes
      ensures Valid() && !locked && nodes == old(nodes)
      ensures Slots() == UnmapSlot(old(Slots()), u)
    {
      ghost var at := Find(Slots(), u);
      locked := true;
      var cur := list;
      ghost var i := 0;
      while cur.unit != u
        invariant i <= at && cur == nodes[i]
        decreases at - i
      {
        assert Slots()[i].unit != u;
        cur := cur.next;
        i := i + 1;
      }
      assert Slots()[i].unit == u;
      Clear(cur, i);
      locked := false;
    }

    /** Take the unit out of a node. */
    method Clear(node: Node, ghost i: nat)
      requires Valid() && locked && i < |nodes| && node == nodes[i]
      modifies node`unit
      ensures Valid() && Slots() == old(Slots())[i := old(Slots())[i].(unit := UNIT_NULL)]
    {
      AllDifferent();
      node.unit := UNIT_NULL;
    }

    /** unit_get_thread_from_user_defined_unit. It takes no lock. */
    method Get(u: Unit) returns (t: int)
      requires Valid() && Find(Slots(), u) < |Slots()|
      ensures Slots()[Find(Slots(), u)] == Slot(u, t)
    {
      ghost var at := Find(Slots(), u);
      var cur := list;
      ghost var i := 0;
      while cur.unit != u
        invariant i <= at && cur == nodes[i]
        decreases at - i
      {
        assert Slots()[i].unit != u;
        cur := cur.next;
        i := i + 1;
      }
      assert Slots()[i].unit == u;
      t := cur.thread;
    }

    /** The bucket is unlocked, and none of its nodes is in use. */
    ghost predicate Unused()
      reads this, nodes
    {
      !locked && forall n | n in nodes :: n.unit == UNIT_NULL
    }

    lemma UnusedMeansFree()
      ensures Unused() <==> !locked && AllFree(Slots())
    {
      if !locked && AllFree(Slots()) {
        forall n | n in nodes ensures n.unit == UNIT_NULL {
          var i :| 0 <= i < |nodes| && nodes[i] == n;
          assert Slots()[i].unit == n.unit;
        }
      }
    }

    /** What unit_finalize_hash_table does with one bucket. */
    method Finalize() returns (ok: bool, freed: seq<Node>)
      requires Valid()
      ensures ok <==> Unused()
      ensures ok ==> freed == nodes
    {
      freed := [];
      if locked { return false, freed; }
      var cur := list;
      ghost var n := 0;
      while cur != null
        invariant n <= |nodes| && cur == First(nodes[n..])
        invariant freed == nodes[..n]
        invariant forall k: nat | k < n :: nodes[k].unit == UNIT_NULL
        decreases |nodes| - n
      {
        if cur.unit != UNIT_NULL {
          return false, freed;
        }
        freed := freed + [cur];
        cur := cur.next;
        n := n + 1;
      }
      ok := true;
    }
  }

  ghost function NodesOf(entries: seq<Bucket>): seq<Node>
    reads entries
  {
    if entries == [] then [] else NodesOf(entries[..|entries| - 1]) + entries[|entries| - 1].nodes
  }

  lemma NodesOfMore(entries: seq<Bucket>, i: nat)
    requires i < |entries|
    ensures NodesOf(entries[..i + 1]) == NodesOf(entries[..i]) + entries[i].nodes
  {
    assert entries[..i + 1][..i] == entries[..i];
  }

  lemma {:induction false} NodesOfHas(entries: seq<Bucket>, n: Node)
    requires forall b | b in entries :: b.Valid()
    ensures n in NodesOf(entries) ==> n.home in entries && n in n.home.nodes
    ensures n.home in entries && n in n.home.nodes ==> n in NodesOf(entries)
  {
    if entries != [] {
      NodesOfHas(entries[..|entries| - 1], n);
      assert entries[|entries| - 1].Valid();
      assert n in entries[|entries| - 1].nodes ==> n.home == entries[|entries| - 1];
    }
  }

  /** No node is in the table twice. */
  lemma {:induction false} NodesOfDiffer(entries: seq<Bucket>)
    requires forall b | b in entries :: b.Valid()
    requires forall i: nat, k: nat | i < k < |entries| :: entries[i] != entries[k]
    ensures var all := NodesOf(entries); forall i: nat, k: nat | i < k < |all| :: all[i] != all[k]
  {
    if entries != [] {
      var (front, last) := (entries[..|entries| - 1], entries[|entries| - 1]);
      NodesOfDiffer(front);
      last.AllDifferent();
      assert last !in front;
      forall n | n in NodesOf(front) ensures n !in last.nodes {
        NodesOfHas(front, n);
      }
      var all := NodesOf(entries);
      forall i: nat, k: nat | i < k < |all| ensures all[i] != all[k] {
        assert all == NodesOf(front) + last.nodes;
        if i < |NodesOf(front)| <= k {
          assert all[i] in NodesOf(front) && all[k] in last.nodes;
        }
      }
    }
  }

  /** The table. hist says what the calls so far mean. */
  class Table {
    const entries: seq<Bucket>
    ghost var hist: History

    ghost function Nodes(): set<Node>
      reads entries
    {
      set i: nat, k: nat | i < |entries| && k < |entries[i].nodes| :: entries[i].nodes[k]
    }

    ghost predicate Shaped()
      reads this, entries
    {
      && |entries| == TABLE_SIZE
      && (forall i: nat, k: nat | i < k < TABLE_SIZE :: entries[i] != entries[k])
      && (forall i: nat {:trigger entries[i]} | i < TABLE_SIZE :: entries[i].Valid())
    }

    ghost predicate Holds(i: nat)
      requires i < |entries| == TABLE_SIZE
      reads this, entries[i], entries[i].nodes
    {
      entries[i].Slots() == hist.table[i]
    }

    ghost predicate Valid()
      reads this, entries, Nodes()
    {
      && Shaped()
      && hist.hash == HashIndex && Refines(hist)
      && forall i: nat | i < TABLE_SIZE :: Holds(i)
    }

    constructor ()
      ensures Valid() && fresh(entries) && hist == Empty(HashIndex)
      ensures forall b | b in entries :: b.nodes == [] && !b.locked
    {
      var es: seq<Bucket> := [];
      for n := 0 to TABLE_SIZE
        invariant |es| == n && fresh(es)
        invariant forall i: nat, k: nat | i < k < n :: es[i] != es[k]
        invariant forall i: nat {:trigger es[i]} | i < n :: es[i].Valid() && es[i].nodes == [] && !es[i].locked
      {
        var b := new Bucket();
        es := es + [b];
      }
      entries := es;
      hist := Empty(HashIndex);
      TableRefinesMap(HashIndex, [], Empty(HashIndex));
      new;
      forall i: nat | i < TABLE_SIZE ensures Holds(i) {
        assert entries[i].nodes == [];
      }
    }

    /** unit_map_thread: it fails only for want of memory, and then changes nothing. */
    method Map(u: Unit, t: int, allocOk: bool) returns (code: Code)
      requires Valid() && User(u) && u !in hist.m
      modifies this, entries[HashIndex(u)], entries[HashIndex(u)].nodes
      ensures Valid() && hist == Perform(old(hist), Op.Map(u, t, allocOk))
      ensures code == MapSlot(old(hist).table[HashIndex(u)], u, t, allocOk).1
      ensures code == ErrMem <==> !allocOk && Full(old(hist).table[HashIndex(u)])
      ensures !entries[HashIndex(u)].locked
      ensures hist.m == if code == Success then old(hist).m[u := t] else old(hist).m
    {
      ghost var (h, was) := (HashIndex(u), hist);
      MapFails(hist.table[h], u, t, allocOk);
      PerformKeeps(hist, Op.Map(u, t, allocOk));
      assert Holds(h);
      code := MapInBucket(u, t, allocOk);
      hist := Perform(hist, Op.Map(u, t, allocOk));
      assert hist.table == was.table[h := MapSlot(was.table[h], u, t, allocOk).0];
      forall i: nat | i < TABLE_SIZE ensures Holds(i) {
        assert i != h ==> old(Holds(i));
      }
    }

    method MapInBucket(u: Unit, t: int, allocOk: bool) returns (code: Code)
      requires Shaped() && u != UNIT_NULL
      modifies entries[HashIndex(u)], entries[HashIndex(u)].nodes
      ensures Shaped() && !entries[HashIndex(u)].locked
      ensures (entries[HashIndex(u)].Slots(), code) == MapSlot(old(entries[HashIndex(u)].Slots()), u, t, allocOk)
      ensures forall i: nat | i < TABLE_SIZE && i != HashIndex(u) :: entries[i].Slots() == old(entries[i].Slots())
    {
      var h := HashIndex(u);
      OtherBuckets(h);
      code := entries[h].Map(u, t, allocOk);
    }

    lemma OtherBuckets(h: nat)
      requires Shaped() && h < TABLE_SIZE
      ensures forall i: nat | i < TABLE_SIZE && i != h ::
                entries[i] != entries[h] && forall n | n in entries[i].nodes :: n !in entries[h].nodes
    {
      forall i: nat, n | i < TABLE_SIZE && i != h && n in entries[i].nodes ensures n !in entries[h].nodes {
        assert entries[i].Valid() && entries[h].Valid();
      }
    }

    /** unit_unmap_thread. */
    method Unmap(u: Unit)
      requires Valid() && u in hist.m
      modifies this, entries[HashIndex(u)], entries[HashIndex(u)].nodes
      ensures Valid() && hist == Perform(old(hist), Op.Unmap(u))
      ensures hist.m == old(hist).m - {u} && !entries[HashIndex(u)].locked
    {
      ghost var (h, was) := (HashIndex(u), hist);
      PerformKeeps(hist, Op.Unmap(u));
      LookupIsMap(hist, u);
      assert Holds(h);
      UnmapInBucket(u);
      hist := Perform(hist, Op.Unmap(u));
      assert hist.table == was.table[h := UnmapSlot(was.table[h], u)];
      forall i: nat | i < TABLE_SIZE ensures Holds(i) {
        assert i != h ==> old(Holds(i));
      }
    }

    method UnmapInBucket(u: Unit)
      requires Shaped() && u != UNIT_NULL
      requires Find(entries[HashIndex(u)].Slots(), u) < |entries[HashIndex(u)].Slots()|
      modifies entries[HashIndex(u)], entries[HashIndex(u)].nodes
      ensures Shaped() && !entries[HashIndex(u)].locked
      ensures entries[HashIndex(u)].Slots() == UnmapSlot(old(entries[HashIndex(u)].Slots()), u)
      ensures forall i: nat | i < TABLE_SIZE && i != HashIndex(u) :: entries[i].Slots() == old(entries[i].Slots())
    {
      var h := HashIndex(u);
      OtherBuckets(h);
      entries[h].Unmap(u);
    }

    /** unit_get_thread_from_user_defined_unit finds the thread that the unit was mapped to. */
    method Get(u: Unit) returns (t: int)
      requires Valid() && u in hist.m
      ensures t == hist.m[u]
    {
      assert Holds(HashIndex(u));
      LookupIsMap(hist, u);
      t := entries[HashIndex(u)].Get(u);
    }

    /** unit_finalize_hash_table. Its assertions hold exactly when no lock is held and every unit has been
        unmapped, and then it frees every node once. */
    method Finalize() returns (ok: bool, freed: seq<Node>)
      requires Valid()
      ensures ok <==> hist.m == map[] && forall b | b in entries :: !b.locked
      ensures ok ==> freed == NodesOf(entries)
      ensures ok ==> forall i: nat, k: nat | i < k < |freed| :: freed[i] != freed[k]
    {
      ok, freed := FreeNodes();
      AllUnused();
      EmptyMapMeansFree(hist);
      NodesOfDiffer(entries);
    }

    lemma AllUnused()
      requires Shaped() && forall i: nat | i < TABLE_SIZE :: Holds(i)
      ensures (forall i: nat | i < TABLE_SIZE :: entries[i].Unused()) <==>
              (forall i: nat | i < TABLE_SIZE :: AllFree(hist.table[i])) && forall b | b in entries :: !b.locked
    {
      if forall i: nat | i < TABLE_SIZE :: entries[i].Unused() {
        forall i: nat | i < TABLE_SIZE ensures AllFree(hist.table[i]) {
          assert Holds(i) && entries[i].Unused();
          entries[i].UnusedMeansFree();
        }
        forall b | b in entries ensures !b.locked {
          var i: nat :| i < TABLE_SIZE && entries[i] == b;
          assert entries[i].Unused();
        }
      } else {
        var i: nat :| i < TABLE_SIZE && !entries[i].Unused();
        assert Holds(i) && entries[i] in entries;
        entries[i].UnusedMeansFree();
      }
    }

    method FreeNodes() returns (ok: bool, freed: seq<Node>)
      requires |entries| == TABLE_SIZE && forall i: nat {:trigger entries[i]} | i < TABLE_SIZE :: entries[i].Valid()
      ensures ok <==> forall i: nat | i < TABLE_SIZE :: entries[i].Unused()
      ensures ok ==> freed == NodesOf(entries)
    {
      freed := [];
      forall i: nat | i < TABLE_SIZE
        ensures NodesOf(entries[..i + 1]) == NodesOf(entries[..i]) + entries[i].nodes
      {
        NodesOfMore(entries, i);
      }
      for i := 0 to TABLE_SIZE
        invariant freed == old(NodesOf(entries[..i]))
        invariant forall k: nat | k < i :: old(entries[k].Unused())
      {
        assert entries[i].Valid();
        var nodes;
        ok, nodes := entries[i].Finalize();
        assert ok == old(entries[i].Unused()) && entries[i].nodes == old(entries[i].nodes);
        if !ok {
          return false, freed;
        }
        freed := freed + nodes;
      }
      assert entries[..TABLE_SIZE] == entries;
      ok := true;
    }
  }
}
