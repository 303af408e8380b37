/** The ranks of execution streams: an intrusive doubly linked list sorted by rank, under one lock. */
module RankList {

  class Xstream {
    var rank: int
    var prev: Xstream?
    var next: Xstream?
    const primary: bool

    /** xstream_create clears the links of a new stream. */
    constructor (primary: bool)
      ensures prev == null && next == null && this.primary == primary
    {
      prev, next := null, null;
      this.primary := primary;
    }
  }

  datatype Code = Success | ErrInvXstream | ErrInvRank

  ghost function At(order: seq<Xstream>, i: int): Xstream? {
    if 0 <= i < |order| then order[i] else null
  }

  /** The links of element i, except that nothing is said here about what precedes the head. */
  ghost predicate Linked(order: seq<Xstream>, i: nat)
    requires i < |order|
    reads order`prev, order`next
  {
    order[i].next == At(order, i + 1) && (i > 0 ==> order[i].prev == order[i - 1])
  }

  ghost predicate Chained(order: seq<Xstream>)
    reads order`prev, order`next
  {
    forall i: nat | i < |order| :: Linked(order, i)
  }

  ghost predicate Sorted(order: seq<Xstream>)
    reads order`rank
  {
    forall i: nat, k: nat {:trigger Below(order, i, k)} | i < k < |order| :: Below(order, i, k)
  }

  ghost predicate Below(order: seq<Xstream>, i: nat, k: nat)
    requires i < |order| && k < |order|
    reads order`rank
  {
    order[i].rank < order[k].rank
  }

  ghost predicate Distinct(order: seq<Xstream>) {
    forall i: nat, k: nat | i < k < |order| :: order[i] != order[k]
  }

  ghost predicate Unused(order: seq<Xstream>, rank: int)
    reads order`rank
  {
    forall i: nat | i < |order| :: order[i].rank != rank
  }

  ghost predicate InRange(order: seq<Xstream>, max: int)
    reads order`rank
  {
    forall i: nat | i < |order| :: 0 <= order[i].rank < max
  }

  /** A larger bound, one element more, and one less. */
  lemma InRangeMore(was: seq<Xstream>, k: nat, x: Xstream, max: int)
    requires InRange(was, max) && k <= |was| && x.rank >= 0
    ensures InRange(was[..k] + [x] + was[k..], if x.rank >= max then x.rank + 1 else max)
  {
  }

  lemma MoreIsSorted(was: seq<Xstream>, k: nat, x: Xstream)
    requires Sorted(was) && k <= |was|
    requires forall i: nat | i < k :: was[i].rank < x.rank
    requires forall i: nat | k <= i < |was| :: was[i].rank > x.rank
    ensures Sorted(was[..k] + [x] + was[k..])
  {
    var order := was[..k] + [x] + was[k..];
    forall i: nat, j: nat | i < j < |order| ensures Below(order, i, j) {
      assert i != k && j != k ==> Below(was, if i < k then i else i - 1, if j < k then j else j - 1);
    }
  }

  lemma RestAbove(order: seq<Xstream>, k: nat)
    requires Sorted(order) && k < |order|
    ensures forall i: nat | k < i < |order| :: order[i].rank > order[k].rank
  {
    forall i: nat | k < i < |order| ensures order[i].rank > order[k].rank {
      assert Below(order, k, i);
    }
  }

  lemma LessIsFine(was: seq<Xstream>, k: nat, max: int)
    requires k < |was| && InRange(was, max) && Sorted(was)
    ensures InRange(was[..k] + was[k + 1..], max) && Sorted(was[..k] + was[k + 1..])
    ensures was[k] !in was[..k] + was[k + 1..]
  {
    var order := was[..k] + was[k + 1..];
    forall i: nat, j: nat | i < j < |order| ensures Below(order, i, j) {
      assert Below(was, if i < k then i else i + 1, if j < k then j else j + 1);
    }
    forall i: nat | i < |order| ensures order[i] != was[k] {
      assert if i < k then Below(was, i, k) else Below(was, k, i + 1);
    }
  }

  lemma LessIsUnused(was: seq<Xstream>, k: nat, rank: int)
    requires k < |was| && Unused(was, rank)
    ensures Unused(was[..k] + was[k + 1..], rank)
  {
  }

  /** The primary stream comes first, with rank 0, and is the only primary one. */
  ghost predicate PrimaryFirst(order: seq<Xstream>)
    reads order`rank
  {
    && order != [] && order[0].primary && order[0].rank == 0
    && forall i: nat | 0 < i < |order| :: !order[i].primary
  }

  lemma StaysPrimary(was: seq<Xstream>, k: nat, x: Xstream)
    requires PrimaryFirst(was) && 0 < k <= |was| && !x.primary
    ensures PrimaryFirst(was[..k] + [x] + was[k..])
  {
  }

  class List {
    var head: Xstream?
    var num: int
    var max: int
    ghost var order: seq<Xstream>

    ghost predicate Shape()
      reads this, order
    {
      head == At(order, 0) && Chained(order) && Sorted(order)
    }

    ghost predicate Valid()
      reads this, order
    {
      && Shape()
      && (order != [] ==> order[0].prev == null)
      && num == |order|
      && InRange(order, max)
    }

    constructor (max: nat)
      ensures Valid() && order == [] && this.max == max
    {
      head, num, order := null, 0, [];
      this.max := max;
    }

    lemma SortedIsDistinct()
      requires Sorted(order)
      ensures Distinct(order)
    {
      forall i: nat, k: nat | i < k < |order| ensures order[i] != order[k] {
        assert Below(order, i, k);
      }
    }

    /** The search of xstream_add_xstream_list: the first element of a larger rank and the one before. */
    method Search(rank: int) returns (prevXstream: Xstream?, xstream: Xstream?, ghost k: nat)
      requires Shape() && Unused(order, rank)
      ensures k <= |order| && xstream == At(order, k) && prevXstream == At(order, if k == 0 then 0 else k - 1)
      ensures forall i: nat | i < k :: order[i].rank < rank
      ensures forall i: nat | k <= i < |order| :: order[i].rank > rank
    {
      prevXstream := head;
      xstream := prevXstream;
      k := 0;
      while xstream != null
        invariant k <= |order| && xstream == At(order, k)
        invariant prevXstream == At(order, if k == 0 then 0 else k - 1)
        invariant forall i: nat | i < k :: order[i].rank < rank
        decreases |order| - k
      {
        assert xstream.rank != rank;
        if xstream.rank > rank {
          RestAbove(order, k);
          break;
        }
        assert Linked(order, k);
        prevXstream := xstream;
        xstream := xstream.next;
        k := k + 1;
      }
    }

    /** The links of xstream_add_xstream_list: x goes between prevXstream and xstream. In the one case where
        it becomes the head of a nonempty list, x.prev is not set. */
    method LinkIn(x: Xstream, prevXstream: Xstream?, xstream: Xstream?, ghost k: nat)
      requires head == At(order, 0) && Chained(order) && Distinct(order) && x !in order
      requires order != [] ==> order[0].prev == null
      requires k <= |order| && xstream == At(order, k) && prevXstream == At(order, if k == 0 then 0 else k - 1)
      modifies this`head, this`order, order`prev, order`next, x`prev, x`next
      ensures head == At(order, 0) && Chained(order)
      ensures order == old(order)[..k] + [x] + old(order)[k..]
      ensures order[0].prev == if k == 0 && old(order) != [] then old(x.prev) else null
    {
      assert k > 0 ==> Linked(order, k - 1);
      assert k < |order| ==> Linked(order, k);
      if xstream == null {
        if prevXstream != null {
          prevXstream.next := x;
          x.prev := prevXstream;
          x.next := null;
        } else {
          x.prev := null;
          x.next := null;
          head := x;
        }
      } else {
        if xstream.prev != null {
          xstream.prev.next := x;
          x.prev := xstream.prev;
        } else {
          head := x;
        }
        xstream.prev := x;
        x.next := xstream;
      }
      ghost var was := order;
      order := was[..k] + [x] + was[k..];
      forall i: nat | i < |order| ensures Linked(order, i) {
        if i < k {
          assert old(Linked(was, i)) && order[i] == was[i];
        } else if i > k {
          assert old(Linked(was, i - 1)) && order[i] == was[i - 1];
        }
      }
    }

    /** xstream_add_xstream_list. */
    method Add(x: Xstream) returns (ghost k: nat)
      requires Shape() && x !in order && Unused(order, x.rank)
      requires order != [] ==> order[0].prev == null
      modifies this`head, this`order, order`prev, order`next, x`prev, x`next
      ensures Shape()
      ensures k <= |old(order)| && order == old(order)[..k] + [x] + old(order)[k..]
      ensures k == 0 <==> old(order) == [] || x.rank < old(order)[0].rank
      ensures order[0].prev == if k == 0 && old(order) != [] then old(x.prev) else null
    {
      var prevXstream, xstream;
      prevXstream, xstream, k := Search(x.rank);
      MoreIsSorted(order, k, x);
      assert Distinct(order) by { SortedIsDistinct(); }
      LinkIn(x, prevXstream, xstream, k);
    }

    /** xstream_remove_xstream_list. The links of x stay as they are. */
    method Remove(x: Xstream, ghost k: nat)
      requires head == At(order, 0) && Chained(order) && Distinct(order)
      requires k < |order| && order[k] == x && order[0].prev == null
      modifies this`head, this`order, order`prev, order`next
      ensures head == At(order, 0) && Chained(order)
      ensures order == old(order)[..k] + old(order)[k + 1..]
      ensures order != [] ==> order[0].prev == null
      ensures x.prev == old(x.prev) && x.next == old(x.next)
    {
      assert Linked(order, k);
      assert k > 0 ==> Linked(order, k - 1);
      assert k + 1 < |order| ==> Linked(order, k + 1);
      if x.prev == null {
        assert head == x;
        head := x.next;
      } else {
        x.prev.next := x.next;
      }
      if x.next != null {
        x.next.prev := x.prev;
      }
      ghost var was := order;
      order := was[..k] + was[k + 1..];
      forall i: nat | i < |order| ensures Linked(order, i) {
        ghost var j := if i < k then i else i + 1;
        assert old(Linked(was, j)) && order[i] == was[j] && was[j] != x;
        if j + 1 == k {
          assert order[i].next == old(x.next);
        } else if j == k + 1 {
          assert order[i].prev == old(x.prev);
        } else {
          assert order[i].next == old(was[j].next) && order[i].prev == old(was[j].prev);
        }
      }
    }

    /** xstream_update_max_xstreams, without its warning. */
    method UpdateMax(rank: int)
      modifies this`max
      ensures rank < max && old(max) <= max
      ensures max == old(max) || max == rank + 1
    {
      if rank >= max {
        max := rank + 1;
      }
    }

    /** The search for an unused rank. */
    method FindUnused() returns (rank: int)
      requires Valid()
      ensures rank >= 0 && Unused(order, rank)
      ensures forall r | 0 <= r < rank :: !Unused(order, r)
    {
      rank := 0;
      var xstream := head;
      ghost var i := 0;
      while xstream != null
        invariant i <= |order| && xstream == At(order, i) && rank == i
        invariant forall k: nat | k < i :: order[k].rank == k
        decreases |order| - i
      {
        assert Linked(order, i);
        if xstream.rank == rank {
          rank := rank + 1;
        } else {
          RestAbove(order, i);
          assert i > 0 ==> Below(order, i - 1, i);
          break;
        }
        xstream := xstream.next;
        i := i + 1;
      }
      forall r | 0 <= r < rank ensures !Unused(order, r) {
        assert order[r].rank == r;
      }
    }

    /** The search for a given rank. */
    method IsUnused(rank: int) returns (unused: bool)
      requires Shape()
      ensures unused == Unused(order, rank)
    {
      var xstream := head;
      ghost var i := 0;
      while xstream != null
        invariant i <= |order| && xstream == At(order, i)
        invariant forall k: nat | k < i :: order[k].rank != rank
        decreases |order| - i
      {
        assert Linked(order, i);
        if xstream.rank == rank {
          return false;
        } else if xstream.rank > rank {
          RestAbove(order, i);
          return true;
        }
        xstream := xstream.next;
        i := i + 1;
      }
      unused := true;
    }

    /** Put x, whose rank nobody has, into the list, and raise the bound. */
    method Attach(x: Xstream) returns (ghost k: nat)
      requires Shape() && InRange(order, max) && (order != [] ==> order[0].prev == null)
      requires x !in order && x.rank >= 0 && Unused(order, x.rank)
      modifies this`head, this`order, this`max, order`prev, order`next, x`prev, x`next
      ensures Shape() && InRange(order, max)
      ensures k <= |old(order)| && order == old(order)[..k] + [x] + old(order)[k..]
      ensures k == 0 <==> old(order) == [] || x.rank < old(order)[0].rank
      ensures order[0].prev == if k == 0 && old(order) != [] then old(x.prev) else null
      ensures max == if x.rank >= old(max) then x.rank + 1 else old(max)
    {
      InRangeMore(order, 0, x, max);
      ghost var was, wasMax := order, max;
      k := Add(x);
      UpdateMax(x.rank);
      InRangeMore(was, k, x, wasMax);
    }

    method Register(x: Xstream) returns (ghost k: nat)
      requires Valid() && x !in order && x.prev == null && x.rank >= 0 && Unused(order, x.rank)
      modifies this`head, this`order, this`num, this`max, order`prev, order`next, x`prev, x`next
      ensures Valid()
      ensures k <= |old(order)| && order == old(order)[..k] + [x] + old(order)[k..]
      ensures k == 0 <==> old(order) == [] || x.rank < old(order)[0].rank
      ensures max == if x.rank >= old(max) then x.rank + 1 else old(max)
      ensures PrimaryFirst(old(order)) && !x.primary ==> PrimaryFirst(order)
    {
      ghost var was := order;
      k := Attach(x);
      num := num + 1;
      if PrimaryFirst(was) && !x.primary {
        assert was[0].rank != x.rank;
        StaysPrimary(was, k, x);
      }
    }

    /** xstream_set_new_rank for a stream that has just been created: rank -1 takes the least unused rank,
        any other rank fails exactly when it is taken. */
    method SetNewRank(x: Xstream, rank: int) returns (ok: bool, ghost k: nat)
      requires Valid() && x !in order && x.prev == null && rank >= -1
      modifies this`head, this`order, this`num, this`max, order`prev, order`next, x`rank, x`prev, x`next
      ensures Valid()
      ensures ok <==> rank == -1 || Unused(old(order), rank)
      ensures !ok ==> unchanged(this, old(order), x)
      ensures ok ==> k <= |old(order)| && order == old(order)[..k] + [x] + old(order)[k..]
      ensures ok ==> (k == 0 <==> old(order) == [] || x.rank < old(order)[0].rank)
      ensures ok ==> Unused(old(order), x.rank) && max == if x.rank >= old(max) then x.rank + 1 else old(max)
      ensures ok ==> if rank == -1 then forall r | 0 <= r < x.rank :: !Unused(old(order), r) else x.rank == rank
      ensures PrimaryFirst(old(order)) && !x.primary ==> PrimaryFirst(order)
    {
      k := 0;
      var rank' := rank;
      if rank == -1 {
        rank' := FindUnused();
      } else {
        ok := IsUnused(rank);
        if !ok { return; }
      }
      x.rank := rank';
      k := Register(x);
      ok := true;
    }

    /** xstream_change_rank. The list stays valid exactly when the stream does not move to the head of the
        list from behind, because then its old backward link would remain. */
    method ChangeRank(x: Xstream, rank: int, ghost k: nat) returns (ok: bool, ghost k': nat)
      requires Valid() && k < |order| && order[k] == x && rank >= 0
      modifies this`head, this`order, this`max, order`prev, order`next, x`rank
      ensures Shape() && num == |order|
      ensures ok <==> rank == old(x.rank) || old(Unused(order, rank))
      ensures !ok || rank == old(x.rank) ==> order == old(order) && max == old(max) && x.rank == old(x.rank)
      ensures !ok ==> Valid()
      ensures ok ==> x.rank == rank
      ensures ok && rank != old(x.rank) ==>
                var rest := old(order)[..k] + old(order)[k + 1..];
                && k' <= |rest| && order == rest[..k'] + [x] + rest[k'..]
                && (k' == 0 <==> rest == [] || rank < rest[0].rank)
      ensures ok && rank != old(x.rank) && k > 0 && k' == 0 ==> x.prev == old(order)[k - 1]
      ensures ok && rank != old(x.rank) ==> max == if rank >= old(max) then rank + 1 else old(max)
      ensures ok ==> (Valid() <==> k == 0 || rank > old(head.rank))
    {
      k' := k;
      if x.rank == rank {
        assert k > 0 ==> Below(order, 0, k);
        return true, k;
      }
      ok := IsUnused(rank);
      if !ok { return; }
      k' := Move(x, rank, k);
    }

    method Detach(x: Xstream, ghost k: nat)
      requires Valid() && k < |order| && order[k] == x
      modifies this`head, this`order, order`prev, order`next
      ensures Shape() && InRange(order, max) && (order != [] ==> order[0].prev == null)
      ensures order == old(order)[..k] + old(order)[k + 1..] && x !in order
      ensures x.prev == if k == 0 then null else old(order)[k - 1]
    {
      SortedIsDistinct();
      LessIsFine(order, k, max);
      assert Linked(order, k);
      Remove(x, k);
    }

    method Move(x: Xstream, rank: int, ghost k: nat) returns (ghost k': nat)
      requires Valid() && k < |order| && order[k] == x && rank >= 0 && Unused(order, rank)
      modifies this`head, this`order, this`max, order`prev, order`next, x`rank
      ensures Shape() && num == |order| && x.rank == rank
      ensures var rest := old(order)[..k] + old(order)[k + 1..];
              && k' <= |rest| && order == rest[..k'] + [x] + rest[k'..]
              && (k' == 0 <==> rest == [] || rank < rest[0].rank)
      ensures k > 0 && k' == 0 ==> x.prev == old(order)[k - 1]
      ensures max == if rank >= old(max) then rank + 1 else old(max)
      ensures Valid() <==> k == 0 || rank > old(head.rank)
    {
      ghost var was := order;
      LessIsUnused(was, k, rank);
      Detach(x, k);
      x.rank := rank;
      assert k > 0 ==> order[0] == was[0];
      k' := Attach(x);
    }

    /** xstream_return_rank. */
    method ReturnRank(x: Xstream, ghost k: nat)
      requires Valid() && k < |order| && order[k] == x
      modifies this`head, this`order, this`num, order`prev, order`next
      ensures Valid() && order == old(order)[..k] + old(order)[k + 1..] && max == old(max)
      ensures PrimaryFirst(old(order)) && !x.primary ==> PrimaryFirst(order)
    {
      Detach(x, k);
      num := num - 1;
    }

    /** ABT_xstream_set_rank. With the primary stream first, the list always stays valid. */
    method SetRank(x: Xstream, rank: int, ghost k: nat) returns (code: Code)
      requires Valid() && PrimaryFirst(order) && k < |order| && order[k] == x
      modifies this`head, this`order, this`max, order`prev, order`next, x`rank
      ensures Valid() && PrimaryFirst(order) && |order| == |old(order)|
      ensures code == if x.primary then ErrInvXstream
                      else if rank < 0 || (rank != old(x.rank) && !old(Unused(order, rank))) then ErrInvRank
                      else Success
      ensures x.rank == if code == Success then rank else old(x.rank)
      ensures forall y | y in old(order) && y != x :: y in order && y.rank == old(y.rank)
    {
      if x.primary { return ErrInvXstream; }
      if rank < 0 { return ErrInvRank; }
      ghost var was := order;
      assert k > 0 && order[0].rank == 0 && Below(order, 0, k);
      var changed;
      ghost var k';
      changed, k' := ChangeRank(x, rank, k);
      if changed && rank != old(x.rank) {
        assert (was[..k] + was[k + 1..])[0] == was[0];
        MovedBehindPrimary(was, k, x, k');
      }
      code := if changed then Success else ErrInvRank;
    }

    lemma MovedBehindPrimary(was: seq<Xstream>, k: nat, x: Xstream, k': nat)
      requires 0 < k < |was| && was[k] == x && 0 < k' < |was|
      requires var rest := was[..k] + was[k + 1..]; order == rest[..k'] + [x] + rest[k'..]
      requires was[0].primary && was[0].rank == 0 && !x.primary
      requires forall i: nat | 0 < i < |was| :: !was[i].primary
      ensures PrimaryFirst(order) && |order| == |was|
      ensures forall y | y in was && y != x :: y in order
    {
      var rest := was[..k] + was[k + 1..];
      assert rest[0] == was[0];
      assert order[0] == rest[0];
      forall i: nat | 0 < i < |order| ensures !order[i].primary {
        assert order[i] == if i < k' then rest[i] else if i == k' then x else rest[i - 1];
      }
      forall y | y in was && y != x ensures y in order {
        var i :| 0 <= i < |was| && was[i] == y;
        assert rest[if i < k then i else i - 1] == y;
        var j := if i < k then i else i - 1;
        assert order[if j < k' then j else j + 1] == y;
      }
    }
  }

  method OneStream() returns (l: List, a: Xstream)
    ensures fresh(l) && fresh(a) && l.Valid() && l.order == [a] && a.rank == 1
  {
    l := new List(0);
    a := new Xstream(false);
    var ok;
    ghost var k;
    ok, k := l.SetNewRank(a, 1);
  }

  method TwoStreams() returns (l: List, a: Xstream, b: Xstream)
    ensures fresh(l) && fresh(a) && fresh(b) && a != b
    ensures l.Valid() && l.order == [a, b] && a.rank == 1 && b.rank == 2
  {
    l, a := OneStream();
    b := new Xstream(false);
    var ok;
    ghost var k;
    ok, k := l.SetNewRank(b, 2);
    assert k == 1;
  }

  /** Moving a stream to the head from behind leaves its old backward link: without the primary stream in
      front the list would break. */
  method StaleLink() returns (l: List)
    ensures |l.order| == 2 && l.Shape() && l.order[0].prev == l.order[1] && !l.Valid()
  {
    var a, b;
    l, a, b := TwoStreams();
    ghost var k;
    var ok;
    ok, k := l.ChangeRank(b, 0, 1);
    assert [a, b][..1] + [a, b][2..] == [a];
    assert l.order == [b, a];
  }
}
