/** The affinity parser's allocation list: every block it allocates carries a header, and the headers form
    a doubly linked list, so that one call frees everything, whatever failed on the way. */
module AllocList {

  datatype Code = Success | ErrMem | ErrOther

  /** A block. frees counts how often it has been freed: a block may be read or written only while that
      is 0. place is its position in the list. */
  class Header {
    var prev: Header?
    var next: Header?
    ghost var frees: nat
    ghost var place: nat

    constructor (prev: Header?, next: Header?, ghost place: nat)
      ensures this.prev == prev && this.next == next && frees == 0 && this.place == place
    {
      this.prev := prev;
      this.next := next;
      frees := 0;
      this.place := place;
    }
  }

  ghost function At(blocks: seq<Header>, i: int): Header? {
    if 0 <= i < |blocks| then blocks[i] else null
  }

  ghost predicate Linked(blocks: seq<Header>, i: nat)
    requires i < |blocks|
    reads blocks[i]
  {
    blocks[i].prev == At(blocks, i - 1) && blocks[i].next == At(blocks, i + 1)
  }

  /** The block is alive and at its place. */
  ghost predicate Alive(h: Header, i: nat)
    reads h
  {
    h.frees == 0 && h.place == i
  }

  class List {
    var head: Header?
    var tail: Header?
    /** The live blocks in order, every block that was ever allocated, and whether an allocation has failed. */
    ghost var blocks: seq<Header>
    ghost var ever: set<Header>
    ghost var failed: bool

    /** The links are those of the live blocks; all others have been freed once. */
    ghost predicate Valid()
      reads this, blocks, ever
    {
      && head == At(blocks, 0) && tail == At(blocks, |blocks| - 1)
      && (forall i: nat | i < |blocks| :: Linked(blocks, i))
      && (forall i: nat {:trigger blocks[i]} | i < |blocks| :: blocks[i] in ever && Alive(blocks[i], i))
      && (forall h | h in ever && h !in blocks :: h.frees == 1)
    }

    constructor ()
      ensures Valid() && blocks == [] && ever == {} && !failed
    {
      head, tail := null, null;
      blocks, ever, failed := [], {}, false;
    }

    /** Nothing that was allocated is forgotten; what was live still is, except perhaps one block; nothing else
        is live but new blocks; and a failed allocation is reported. */
    twostate predicate Kept(but: Header?, code: Code)
      reads this, blocks, ever
    {
      && Valid() && old(ever) <= ever && failed == (old(failed) || code.ErrMem?)
      && (forall h | h in old(blocks) && h != but :: h in blocks)
      && (forall h | h in blocks :: h in old(blocks) || fresh(h))
    }

    /** list_calloc. ok says whether the allocator has memory. */
    method Calloc(ok: bool) returns (code: Code, block: Header?)
      requires Valid()
      modifies this, blocks
      ensures Valid()
      ensures code == if ok then Success else ErrMem
      ensures failed == (old(failed) || !ok)
      ensures !ok ==> block == null && blocks == old(blocks) && ever == old(ever)
      ensures ok ==> block != null && fresh(block) && blocks == old(blocks) + [block] && ever == old(ever) + {block}
    {
      if !ok {
        failed := true;
        return ErrMem, null;
      }
      var h := new Header(null, null, |blocks|);
      block := h;
      Append(h);
      ever := ever + {h};
      code := Success;
    }

    /** Link a block behind the last one. */
    method Append(h: Header)
      requires head == At(blocks, 0) && tail == At(blocks, |blocks| - 1) && h !in blocks
      requires forall k: nat | k < |blocks| :: Linked(blocks, k)
      requires forall k: nat {:trigger blocks[k]} | k < |blocks| :: blocks[k].place == k
      modifies this`head, this`tail, this`blocks, blocks`next, h`prev, h`next
      ensures blocks == old(blocks) + [h]
      ensures head == At(blocks, 0) && tail == At(blocks, |blocks| - 1)
      ensures forall k: nat | k < |blocks| :: Linked(blocks, k)
    {
      h.next := null;
      h.prev := tail;
      if tail != null {
        assert Linked(blocks, |blocks| - 1);
        tail.next := h;
        tail := h;
      } else {
        head := h;
        tail := h;
      }
      ghost var was := blocks;
      blocks := blocks + [h];
      forall i: nat | i < |blocks| ensures Linked(blocks, i) {
        assert i < |was| ==> old(Linked(was, i));
      }
    }

    /** list_realloc of the block at place i, for a nonzero old size. moved says whether the allocator hands
        out another block and frees the old one; the header is copied with the rest. */
    method Realloc(old': Header, ghost i: nat, ok: bool, moved: bool) returns (code: Code, block: Header)
      requires Valid() && i < |blocks| && blocks[i] == old'
      modifies this, blocks
      ensures Valid()
      ensures code == if ok then Success else ErrMem
      ensures ok && moved ==> && fresh(block) && old'.frees == 1 && blocks == old(blocks)[i := block]
                              && ever == old(ever) + {block}
      ensures !(ok && moved) ==> block == old' && blocks == old(blocks) && ever == old(ever)
      ensures failed == (old(failed) || !ok)
    {
      assert Linked(blocks, i);
      var oldPrev := old'.prev;
      var oldNext := old'.next;
      block := old';
      if !ok {
        failed := true;
        return ErrMem, block;
      }
      if moved {
        block := Moved(old', oldPrev, oldNext, i);
      } else {
        Replace(old', block, oldPrev, oldNext, i);
        assert blocks == old(blocks);
      }
      code := Success;
    }

    /** The allocator copies the block, header and all, frees the old one, and the links follow. */
    method Moved(old': Header, oldPrev: Header?, oldNext: Header?, ghost i: nat) returns (block: Header)
      requires Valid() && i < |blocks| && blocks[i] == old'
      requires oldPrev == At(blocks, i - 1) && oldNext == At(blocks, i + 1)
      modifies this, blocks
      ensures Valid() && fresh(block) && old'.frees == 1 && failed == old(failed)
      ensures blocks == old(blocks)[i := block] && ever == old(ever) + {block}
    {
      block := new Header(oldPrev, oldNext, i);
      old'.frees := old'.frees + 1;
      ever := ever + {block};
      ghost var was := blocks;
      Replace(old', block, oldPrev, oldNext, i);
      assert blocks[i] == block;
      forall h | h in ever && h !in blocks && h != old' ensures h.frees == 1 {
        OnlyOneReplaced(was, i, block, h);
        assert h in old(ever) && h !in was;
      }
    }

    /** list_realloc for any old size: a block of size 0 was never allocated. */
    method ReallocAny(oldSize: nat, old': Header?, ghost i: nat, ok: bool, moved: bool)
      returns (code: Code, block: Header?)
      requires Valid() && (oldSize > 0 ==> i < |blocks| && blocks[i] == old')
      modifies this, blocks
      ensures Valid()
      ensures code == if ok then Success else ErrMem
      ensures !ok ==> blocks == old(blocks) && ever == old(ever)
      ensures ok && oldSize == 0 ==> block != null && blocks == old(blocks) + [block]
      ensures ok && oldSize > 0 ==> block != null && blocks == old(blocks)[i := block]
      ensures ok ==> block != null && block in blocks && (block == old' || fresh(block))
      ensures Kept(old', code)
      ensures ever == old(ever) || (block != null && fresh(block) && ever == old(ever) + {block})
      ensures failed == (old(failed) || !ok)
    {
      if oldSize == 0 {
        code, block := Calloc(ok);
      } else {
        code, block := Realloc(old', i, ok, moved);
        assert blocks[i] == block;
        forall h | h in old(blocks) && h != old' ensures h in blocks {
          var k :| 0 <= k < |old(blocks)| && old(blocks)[k] == h;
          assert blocks[k] == h;
        }
      }
    }

    static lemma OnlyOneReplaced(was: seq<Header>, i: nat, block: Header, h: Header)
      requires i < |was| && h !in was[i := block] && h != was[i]
      ensures h !in was
    {
      forall k | 0 <= k < |was| ensures was[k] != h {
        assert k != i ==> was[i := block][k] == was[k];
      }
    }

    /** Put block into the place of old', which may be the same. */
    method Replace(old': Header, block: Header, oldPrev: Header?, oldNext: Header?, ghost i: nat)
      requires i < |blocks| && blocks[i] == old' && (block == old' || block !in blocks)
      requires head == At(blocks, 0) && tail == At(blocks, |blocks| - 1)
      requires oldPrev == At(blocks, i - 1) && oldNext == At(blocks, i + 1)
      requires forall k: nat | k < |blocks| && k != i :: Linked(blocks, k)
      requires forall k: nat {:trigger blocks[k]} | k < |blocks| :: blocks[k].place == k
      modifies this`head, this`tail, this`blocks, blocks`prev, blocks`next, block`prev, block`next
      ensures blocks == old(blocks)[i := block]
      ensures head == At(blocks, 0) && tail == At(blocks, |blocks| - 1)
      ensures forall k: nat | k < |blocks| :: Linked(blocks, k)
    {
      assert i > 0 ==> Linked(blocks, i - 1);
      assert i + 1 < |blocks| ==> Linked(blocks, i + 1);
      if head == old' { head := block; }
      if tail == old' { tail := block; }
      block.prev := oldPrev;
      if oldPrev != null { oldPrev.next := block; }
      block.next := oldNext;
      if oldNext != null { oldNext.prev := block; }
      ghost var was := blocks;
      blocks := blocks[i := block];
      forall k: nat | k < |blocks| ensures Linked(blocks, k) {
        assert k != i ==> old(Linked(was, k)) && blocks[k] == was[k] != block;
      }
    }
  }

  /** list_free_all, which is given the head of list l: by then every block that was ever allocated has been
      freed exactly once. */
  method FreeAll(head: Header?, ghost l: List)
    requires l.Valid() && head == l.head
    modifies l.blocks
    ensures forall h | h in l.ever :: h.frees == 1
  {
    var cur := head;
    ghost var i := 0;
    while cur != null
      invariant i <= |l.blocks| && cur == At(l.blocks, i)
      invariant forall k: nat | k < |l.blocks| :: Linked(l.blocks, k)
      invariant forall k: nat {:trigger l.blocks[k]} | k < |l.blocks| ::
                  l.blocks[k].place == k && l.blocks[k].frees == if k < i then 1 else 0
      invariant forall h | h in l.ever && h !in l.blocks :: h.frees == 1
      decreases |l.blocks| - i
    {
      assert Linked(l.blocks, i) && cur.frees == 0;
      var next := cur.next;
      cur.frees := cur.frees + 1;
      cur := next;
      i := i + 1;
    }
  }

  /** One call of the parser: a new block, or more room for block i, which may be one of size 0. */
  datatype Call = New(ok: bool) | Grow(i: nat, oldSize: nat, ok: bool, moved: bool)

  /** Whatever the parser allocates and wherever the allocator fails it, freeing the list afterwards frees
      every block that was ever allocated exactly once. */
  method ParseAndFree(calls: seq<Call>) returns (l: List)
    ensures fresh(l) && forall h | h in l.ever :: h.frees == 1
  {
    l := new List();
    var held: seq<Header> := [];
    for n := 0 to |calls|
      invariant fresh(l) && l.Valid() && fresh(l.ever) && held == l.blocks
    {
      match calls[n]
      case New(ok) =>
        var code, block := l.Calloc(ok);
        if code == Success { held := held + [block]; }
      case Grow(i, oldSize, ok, moved) =>
        if i < |held| {
          var code, block := l.ReallocAny(oldSize, held[i], i, ok, moved);
          if code == Success {
            held := if oldSize == 0 then held + [block] else held[i := block];
          }
        }
    }
    FreeAll(l.head, l);
  }
}
