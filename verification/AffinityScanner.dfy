/** The affinity parser as it runs: scanning loops over a terminated character array with an index, id lists
    that grow in place, and an allocator that may fail or move blocks at every call. Every method agrees with
    the functions of AffinityParser, and touches only memory that is alive. */
module AffinityScanner {
  import A = AllocList
  import G = AffinityGrammar
  import P = AffinityParser
  import opened Options

  // ----- the lists that are built

  /** block is its own memory and mem that of ids, which is allocated with the first ids. */
  class IdList {
    var num: nat
    var ids: array<int>
    const block: A.Header
    var mem: A.Header?

    ghost predicate Valid()
      reads this
    {
      ids.Length == num
    }

    ghost function Contents(): seq<int>
      reads this, ids
    {
      ids[..]
    }

    /** What it uses is among the given live blocks. */
    ghost predicate Holds(blocks: seq<A.Header>)
      reads this
    {
      block in blocks && block != mem && (num > 0 ==> mem != null && mem in blocks)
    }

    ghost predicate Uses(h: A.Header?)
      reads this
    {
      h != null && (h == block || h == mem)
    }

    constructor (block: A.Header)
      ensures Valid() && Contents() == [] && fresh(ids) && this.block == block && mem == null
    {
      num := 0;
      ids := new int[0];
      this.block := block;
      mem := null;
    }

    /** id_list_add: grow by num ids. */
    method Add(alloc: A.List, id: int, num': nat, stride: int) returns (code: A.Code)
      requires Valid() && alloc.Valid() && Holds(alloc.blocks)
      modifies this, alloc, alloc.blocks
      ensures Valid() && alloc.Kept(old(mem), code) && !code.ErrOther?
      ensures code.Success? ==> Contents() == old(Contents()) + G.Ramp(id, num', stride)
      ensures code.Success? ==> fresh(ids) && Holds(alloc.blocks) && mem != null && (mem == old(mem) || fresh(mem))
      ensures code.ErrMem? ==> ids == old(ids) && mem == old(mem)
    {
      var ok: bool, moved: bool := *, *;
      ghost var place := if num > 0 then mem.place else 0;
      var block';
      code, block' := alloc.ReallocAny(num, mem, place, ok, moved);
      if code.ErrMem? { return; }
      mem := block';
      Append(id, num', stride);
    }

    /** The new ids, in the memory that they have been given. */
    method Append(id: int, num': nat, stride: int)
      requires Valid()
      modifies this`num, this`ids
      ensures Valid() && fresh(ids)
      ensures Contents() == old(Contents()) + G.Ramp(id, num', stride)
    {
      ghost var was := Contents();
      var bigger := new int[num + num'];
      forall k | 0 <= k < num { bigger[k] := ids[k]; }
      for i := 0 to num'
        invariant Valid() && ids == old(ids) && num == old(num)
        invariant bigger[..num + i] == was + G.Ramp(id, i, stride)
      {
        bigger[num + i] := id + stride * i;
        assert bigger[..num + (i + 1)] == bigger[..num + i] + [id + stride * i];
      }
      ids := bigger;
      num := num + num';
    }
  }

  /** id_list_create. */
  method IdListCreate(alloc: A.List) returns (code: A.Code, l: IdList?)
    requires alloc.Valid()
    modifies alloc, alloc.blocks
    ensures alloc.Kept(null, code) && !code.ErrOther?
    ensures code.Success? ==> l != null && fresh(l) && fresh(l.ids) && l.Valid() && l.Contents() == []
    ensures code.Success? ==> l.Holds(alloc.blocks) && fresh(l.block) && l.mem == null
  {
    var ok: bool := *;
    var block;
    code, block := alloc.Calloc(ok);
    l := null;
    if code.Success? {
      l := new IdList(block);
    }
  }

  /** Copy a list of ids, shifted. */
  method Shifted(alloc: A.List, base: IdList, d: int) returns (code: A.Code, l: IdList?)
    requires base.Valid() && alloc.Valid() && base.Holds(alloc.blocks)
    modifies alloc, alloc.blocks
    ensures alloc.Kept(null, code) && !code.ErrOther?
    ensures code.Success? ==> l != null && fresh(l) && fresh(l.ids) && l.Valid()
    ensures code.Success? ==> l.Contents() == G.Shift(base.Contents(), d)
    ensures code.Success? ==> l.Holds(alloc.blocks) && fresh(l.block) && l.mem != null && fresh(l.mem)
  {
    code, l := IdListCreate(alloc);
    if code.ErrMem? { return; }
    var ok: bool := *;
    var block;
    code, block := alloc.Calloc(ok);
    if code.ErrMem? { return; }
    l.mem := block;
    Fill(l, base, d);
  }

  method Fill(l: IdList, base: IdList, d: int)
    requires base.Valid() && l != base
    modifies l`num, l`ids
    ensures fresh(l.ids) && l.Valid() && l.num == base.num && l.Contents() == G.Shift(base.Contents(), d)
  {
    l.num := base.num;
    l.ids := new int[base.num];
    for j := 0 to base.num
      invariant fresh(l.ids) && l.ids.Length == l.num == base.num && l.ids != base.ids
      invariant base.ids == old(base.ids) && base.num == old(base.num)
      invariant l.ids[..j] == G.Shift(base.ids[..j], d)
    {
      l.ids[j] := base.ids[j] + d;
      assert l.ids[..j + 1] == l.ids[..j] + [base.ids[j] + d];
      assert base.ids[..j + 1][..j] == base.ids[..j];
    }
    assert l.ids[..] == l.ids[..base.num] && base.ids[..] == base.ids[..base.num];
  }

  ghost function ContentsOf(lists: seq<IdList>): (r: seq<seq<int>>)
    reads lists, set l | l in lists :: l.ids
    ensures |r| == |lists|
  {
    seq(|lists|, i requires 0 <= i < |lists| reads lists, set l | l in lists :: l.ids => lists[i].ids[..])
  }

  /** The base and its copies, as list_add makes them. */
  method Copies(alloc: A.List, base: IdList, num: nat, stride: int) returns (code: A.Code, more: seq<IdList>)
    requires base.Valid() && alloc.Valid() && base.Holds(alloc.blocks) && num > 0
    modifies alloc, alloc.blocks
    ensures alloc.Kept(null, code) && !code.ErrOther?
    ensures code.Success? ==> [base] <= more && ContentsOf(more) == G.Copies(base.Contents(), num, stride)
    ensures code.Success? ==> forall l | l in more :: l.Valid() && l.Holds(alloc.blocks)
    ensures code.Success? ==> forall l | l in more :: l == base || (fresh(l.block) && l.mem != null && fresh(l.mem))
  {
    code, more := A.Success, [base];
    JustTheBase(base, stride);
    for i := 1 to num
      invariant |more| == i && more[0] == base && code.Success? && alloc.Kept(null, A.Success)
      invariant ContentsOf(more) == G.Copies(base.Contents(), i, stride)
      invariant forall l | l in more :: l.Valid() && l.Holds(alloc.blocks)
      invariant forall l | l in more :: l == base || (fresh(l.block) && l.mem != null && fresh(l.mem))
    {
      code, more := OneMore(alloc, base, stride * i, more);
      if code.ErrMem? { return; }
    }
  }

  lemma JustTheBase(base: IdList, stride: int)
    ensures ContentsOf([base]) == G.Copies(base.Contents(), 1, stride)
  {
    G.ShiftZero(base.Contents());
    assert G.Copies(base.Contents(), 1, stride) == [base.Contents()];
  }

  method OneMore(alloc: A.List, base: IdList, d: int, lists: seq<IdList>)
    returns (code: A.Code, more: seq<IdList>)
    requires base.Valid() && alloc.Valid() && base.Holds(alloc.blocks)
    requires forall l | l in lists :: l.Valid() && l.Holds(alloc.blocks)
    modifies alloc, alloc.blocks
    ensures alloc.Kept(null, code) && !code.ErrOther?
    ensures code.Success? ==> |more| == |lists| + 1 && more[..|lists|] == lists
    ensures code.Success? ==> ContentsOf(more) == old(ContentsOf(lists)) + [G.Shift(base.Contents(), d)]
    ensures code.Success? ==> forall l | l in more :: l.Valid() && l.Holds(alloc.blocks)
    ensures code.Success? ==> forall l | l in more :: l in lists || (fresh(l.block) && l.mem != null && fresh(l.mem))
  {
    var l;
    code, l := Shifted(alloc, base, d);
    if code.ErrMem? { return code, lists; }
    more := lists + [l];
  }

  /** The whole affinity list. block is its own memory, mem that of the array of its id lists, and memHead
      the head that is saved in the end; alloc is the list that all of it belongs to. */
  class List {
    var lists: seq<IdList>
    const block: A.Header
    var mem: A.Header?
    var memHead: A.Header?
    ghost const alloc: A.List

    ghost predicate Valid()
      reads this, lists
    {
      forall l | l in lists :: l.Valid()
    }

    ghost function Contents(): seq<seq<int>>
      reads this, lists, set l | l in lists :: l.ids
    {
      ContentsOf(lists)
    }

    /** What it uses is among the given live blocks, and the array shares its block with nothing. */
    ghost predicate Holds(blocks: seq<A.Header>)
      reads this, lists
    {
      && block in blocks && block != mem
      && (lists != [] ==> mem != null && mem in blocks)
      && forall l | l in lists :: l.Holds(blocks) && !l.Uses(mem)
    }

    /** All of its memory is alive and can be freed from the saved head. */
    ghost predicate Freeable()
      reads this, lists, alloc, alloc.blocks, alloc.ever
    {
      alloc.Valid() && memHead == alloc.head && Holds(alloc.blocks)
    }

    constructor (block: A.Header, ghost alloc: A.List)
      ensures Valid() && lists == [] && mem == null && this.block == block && this.alloc == alloc
    {
      lists := [];
      this.block := block;
      mem, memHead := null, null;
      this.alloc := alloc;
    }

    /** Room for more id lists in the array. */
    method Room(alloc: A.List, ghost base: IdList) returns (code: A.Code)
      requires alloc.Valid() && Holds(alloc.blocks) && base.Holds(alloc.blocks) && !base.Uses(mem)
      modifies this`mem, alloc, alloc.blocks
      ensures alloc.Kept(old(mem), code) && !code.ErrOther? && (mem == old(mem) || fresh(mem))
      ensures code.ErrMem? ==> mem == old(mem)
      ensures code.Success? ==> Holds(alloc.blocks) && base.Holds(alloc.blocks) && !base.Uses(mem)
      ensures code.Success? ==> mem != null && mem in alloc.blocks
    {
      var ok: bool, moved: bool := *, *;
      ghost var place := if lists != [] then mem.place else 0;
      var block';
      code, block' := alloc.ReallocAny(|lists|, mem, place, ok, moved);
      if code.Success? {
        mem := block';
      }
    }

    /** list_add: num lists, the first of which is base itself. */
    method Add(alloc: A.List, base: IdList, num: nat, stride: int) returns (code: A.Code)
      requires Valid() && base.Valid() && num > 0
      requires alloc.Valid() && Holds(alloc.blocks) && base.Holds(alloc.blocks) && !base.Uses(mem)
      modifies this`lists, this`mem, alloc, alloc.blocks
      ensures Valid() && alloc.Kept(old(mem), code) && !code.ErrOther? && (mem == old(mem) || fresh(mem))
      ensures code.Success? ==> Contents() == old(Contents()) + G.Copies(base.Contents(), num, stride)
      ensures code.Success? ==> old(lists) + [base] <= lists
      ensures code.Success? ==> Holds(alloc.blocks)
      ensures code.ErrMem? ==> lists == old(lists)
    {
      code := Room(alloc, base);
      if code.Success? {
        code := Extend(alloc, base, num, stride);
      }
    }

    /** The rest of list_add, once there is room. */
    method Extend(alloc: A.List, base: IdList, num: nat, stride: int) returns (code: A.Code)
      requires Valid() && base.Valid() && num > 0
      requires alloc.Valid() && Holds(alloc.blocks) && base.Holds(alloc.blocks) && !base.Uses(mem)
      requires mem != null && mem in alloc.blocks
      modifies this`lists, alloc, alloc.blocks
      ensures Valid() && alloc.Kept(null, code) && !code.ErrOther?
      ensures code.Success? ==> Contents() == old(Contents()) + G.Copies(base.Contents(), num, stride)
      ensures code.Success? ==> old(lists) + [base] <= lists
      ensures code.Success? ==> Holds(alloc.blocks)
      ensures code.ErrMem? ==> lists == old(lists)
    {
      ghost var was := Contents();
      var more;
      code, more := Copies(alloc, base, num, stride);
      if code.ErrMem? { return; }
      assert Contents() == was;
      assert forall l | l in more :: !l.Uses(mem);
      Append(more, alloc.blocks);
    }

    method Append(more: seq<IdList>, ghost blocks: seq<A.Header>)
      requires Valid() && Holds(blocks) && mem != null && mem in blocks
      requires forall l | l in more :: l.Valid() && l.Holds(blocks) && !l.Uses(mem)
      modifies this`lists
      ensures Valid() && Holds(blocks) && lists == old(lists) + more
      ensures Contents() == old(Contents()) + ContentsOf(more)
    {
      assert ContentsOf(lists + more) == ContentsOf(lists) + ContentsOf(more);
      lists := lists + more;
    }
  }

  // ----- scanning

  /** A character array that ends with the terminator, and an index that has not passed it. */
  predicate Readable(str: string, index: nat) {
    index < |str| && str[|str| - 1] == '\0'
  }

  /** consume_int. */
  method ConsumeInt(str: string, index: nat) returns (ok: bool, index': nat, val: int)
    requires Readable(str, index)
    ensures ok == P.Int(str[index..]).Some?
    ensures if ok then Readable(str, index') && index < index' && P.Int(str[index..]).value == (val, str[index'..])
            else index' == index
  {
    var i, sign, flag := index, 1, P.Nothing;
    val := 0;
    while true
      invariant Readable(str, i) && index <= i && (sign == 1 || sign == -1)
      invariant flag == P.Value ==> index < i
      invariant P.ScanInt(str[i..], flag, sign == -1, val) == P.Int(str[index..])
      decreases |str| - i
    {
      var c := str[i];
      assert str[i..][1..] == str[i + 1..];
      if flag != P.Value && c == '-' {
        flag := P.Sign;
        sign := -sign;
      } else if flag != P.Value && c == '+' {
        flag := P.Sign;
      } else if flag == P.Nothing && G.IsBlank(c) {
      } else if '0' <= c <= '9' {
        flag := P.Value;
        val := val * 10 + (c as int - '0' as int);
      } else if flag == P.Value {
        return true, i, val * sign;
      } else {
        return false, index, val;
      }
      i := i + 1;
    }
  }

  /** consume_pint. */
  method ConsumePint(str: string, index: nat) returns (ok: bool, index': nat, val: int)
    requires Readable(str, index)
    ensures ok == P.Pint(str[index..]).Some?
    ensures if ok then Readable(str, index') && index < index' && P.Pint(str[index..]).value == (val, str[index'..])
            else index' == index
  {
    ok, index', val := ConsumeInt(str, index);
    if !ok || val <= 0 {
      return false, index, val;
    }
  }

  /** consume_symbol. Only the terminator itself leaves the index behind the array. */
  method ConsumeSymbol(str: string, index: nat, symbol: char) returns (ok: bool, index': nat)
    requires Readable(str, index)
    ensures ok == P.Symbol(str[index..], symbol).Some?
    ensures if ok then index < index' <= |str| && P.Symbol(str[index..], symbol).value == str[index'..]
            else index' == index
    ensures ok && symbol != '\0' ==> Readable(str, index')
  {
    var i := index;
    while true
      invariant Readable(str, i) && index <= i
      invariant P.Symbol(str[i..], symbol) == P.Symbol(str[index..], symbol)
      decreases |str| - i
    {
      var c := str[i];
      assert str[i..][1..] == str[i + 1..];
      if c == symbol {
        return true, i + 1;
      } else if !G.IsBlank(c) {
        return false, index;
      }
      i := i + 1;
    }
  }

  /** The optional ":" num ":" stride, as parse_es_id_list and parse_list both read it. */
  method ParseRepeat(str: string, index: nat) returns (ok: bool, index': nat, num: int, stride: int)
    requires Readable(str, index)
    ensures ok == P.Repeat(str[index..]).Some?
    ensures ok ==> Readable(str, index') && index <= index'
    ensures ok ==> P.Repeat(str[index..]).value == (num, stride, str[index'..])
  {
    num, stride := 1, 1;
    ok, index' := ConsumeSymbol(str, index, ':');
    if ok {
      ok, index', num := ConsumePint(str, index');
      if !ok { return; }
      ok, index' := ConsumeSymbol(str, index', ':');
      if ok {
        ok, index', stride := ConsumeInt(str, index');
        if !ok { return; }
      }
    }
    ok := num < G.MAX_NUM_ELEMS;
  }

  /** The ids or lists that were read before the rest. */
  function Before<T>(a: seq<T>, r: Option<seq<T>>): Option<seq<T>> {
    if r.None? then r else Some(a + r.value)
  }

  function BeforeIds(a: seq<int>, r: Option<(seq<int>, string)>): Option<(seq<int>, string)> {
    if r.None? then r else Some((a + r.value.0, r.value.1))
  }

  lemma BeforeTwice<T>(a: seq<T>, b: seq<T>, r: Option<seq<T>>)
    ensures Before(a, Before(b, r)) == Before(a + b, r)
    ensures Before([], r) == r
  {
    if r.Some? {
      assert a + (b + r.value) == (a + b) + r.value;
      assert [] + r.value == r.value;
    }
  }

  lemma BeforeIdsTwice(a: seq<int>, b: seq<int>, r: Option<(seq<int>, string)>)
    ensures BeforeIds(a, BeforeIds(b, r)) == BeforeIds(a + b, r)
    ensures BeforeIds([], r) == r
  {
    if r.Some? {
      assert a + (b + r.value.0) == (a + b) + r.value.0;
      assert [] + r.value.0 == r.value.0;
    }
  }

  /** An id and how often it is repeated. */
  function IdInterval(t: string): Option<(int, nat, int, string)> {
    if P.Int(t).None? || P.Repeat(P.Int(t).value.1).None? then None
    else
      var (num, stride, t') := P.Repeat(P.Int(t).value.1).value;
      Some((P.Int(t).value.0, num, stride, t'))
  }

  method ParseIdInterval(str: string, index: nat) returns (ok: bool, index': nat, id: int, num: int, stride: int)
    requires Readable(str, index)
    ensures ok == IdInterval(str[index..]).Some?
    ensures ok ==> Readable(str, index') && index < index'
    ensures ok ==> IdInterval(str[index..]).value == (id, num, stride, str[index'..])
  {
    num, stride := 1, 1;
    ok, index', id := ConsumeInt(str, index);
    if ok {
      ok, index', num, stride := ParseRepeat(str, index');
    }
  }

  /** A comma, after which the list goes on, or the symbol that closes it. */
  method CommaOr(str: string, index: nat, close: char) returns (again: bool, ok: bool, index': nat)
    requires Readable(str, index)
    ensures again == P.Symbol(str[index..], ',').Some?
    ensures again ==> Readable(str, index') && index < index' && P.Symbol(str[index..], ',').value == str[index'..]
    ensures !again ==> ok == P.Symbol(str[index..], close).Some?
    ensures !again && ok ==> index < index' <= |str| && P.Symbol(str[index..], close).value == str[index'..]
    ensures !again && ok && close != '\0' ==> Readable(str, index')
  {
    ok := true;
    again, index' := ConsumeSymbol(str, index, ',');
    if !again {
      ok, index' := ConsumeSymbol(str, index, close);
    }
  }

  function IdsAt(t: string): Option<seq<int>> {
    if IdInterval(t).None? then None
    else
      var (id, num, stride, _) := IdInterval(t).value;
      Some(G.Ramp(id, num, stride))
  }

  /** One turn of the loop of parse_es_id_list. */
  lemma IdsTurn(t: string)
    ensures IdInterval(t).None? ==> P.Ids(t).None?
    ensures IdInterval(t).Some? ==>
              var (id, num, stride, t') := IdInterval(t).value;
              var ids := G.Ramp(id, num, stride);
              P.Ids(t) == if P.Symbol(t', ',').Some? then BeforeIds(ids, P.Ids(P.Symbol(t', ',').value))
                          else if P.Symbol(t', '}').Some? then Some((ids, P.Symbol(t', '}').value)) else None
  {
  }

  /** What parse_list reads before a comma or the end: an id list and how often it is repeated. */
  function Interval(t: string): Option<(seq<seq<int>>, string)> {
    var es := P.EsIdList(t);
    if es.None? || P.Repeat(es.value.1).None? then None
    else
      var (num, stride, t') := P.Repeat(es.value.1).value;
      Some((G.Copies(es.value.0, num, stride), t'))
  }

  /** One turn of the loop of parse_list. */
  lemma ListTurn(t: string)
    ensures Interval(t).None? ==> P.List(t).None?
    ensures Interval(t).Some? ==>
              var (lists, t') := Interval(t).value;
              P.List(t) == if P.Symbol(t', ',').Some? then Before(lists, P.List(P.Symbol(t', ',').value))
                           else if P.Symbol(t', '\0').Some? then Some(lists) else None
  {
  }

  /** One id interval of a list in braces. */
  method AddInterval(alloc: A.List, str: string, index: nat, l: IdList) returns (code: A.Code, index': nat)
    requires Readable(str, index) && l.Valid() && alloc.Valid() && l.Holds(alloc.blocks)
    modifies l, alloc, alloc.blocks
    ensures l.Valid() && alloc.Kept(old(l.mem), code)
    ensures code.ErrOther? ==> IdInterval(str[index..]).None?
    ensures code.Success? ==>
              && IdInterval(str[index..]).Some? && Readable(str, index') && index < index'
              && var (id, num, stride, t') := IdInterval(str[index..]).value;
              l.Contents() == old(l.Contents()) + G.Ramp(id, num, stride) && str[index'..] == t'
    ensures code.Success? ==>
              fresh(l.ids) && l.Holds(alloc.blocks) && l.mem != null && (l.mem == old(l.mem) || fresh(l.mem))
  {
    var ok, id, num, stride;
    ok, index', id, num, stride := ParseIdInterval(str, index);
    if !ok { return A.ErrOther, index'; }
    code := l.Add(alloc, id, num, stride);
  }

  /** One turn of the loop of parse_es_id_list. */
  method ParseIdsTurn(alloc: A.List, str: string, index: nat, l: IdList)
    returns (code: A.Code, again: bool, index': nat)
    requires Readable(str, index) && l.Valid() && alloc.Valid() && l.Holds(alloc.blocks)
    modifies l, alloc, alloc.blocks
    ensures l.Valid() && alloc.Kept(old(l.mem), code)
    ensures code.ErrOther? ==> P.Ids(str[index..]).None?
    ensures code.Success? ==>
              fresh(l.ids) && l.Holds(alloc.blocks) && l.mem != null && (l.mem == old(l.mem) || fresh(l.mem))
    ensures code.Success? ==> Readable(str, index') && index < index' && IdsAt(str[index..]).Some?
    ensures code.Success? ==> l.Contents() == old(l.Contents()) + IdsAt(str[index..]).value
    ensures code.Success? ==>
              P.Ids(str[index..]) == if again then BeforeIds(IdsAt(str[index..]).value, P.Ids(str[index'..]))
                                     else Some((IdsAt(str[index..]).value, str[index'..]))
  {
    again := false;
    IdsTurn(str[index..]);
    code, index' := AddInterval(alloc, str, index, l);
    if !code.Success? { return; }
    ghost var now := l.Contents();
    var ok;
    again, ok, index' := CommaOr(str, index', '}');
    assert l.Contents() == now;
    if !again && !ok {
      code := A.ErrOther;
    }
  }

  /** The rest of parse_es_id_list, behind the brace. */
  method ParseIds(alloc: A.List, str: string, index: nat, l: IdList) returns (code: A.Code, index': nat)
    requires Readable(str, index) && l.Valid() && alloc.Valid() && l.Holds(alloc.blocks)
    requires l.Contents() == [] && l.mem == null
    modifies l, alloc, alloc.blocks
    ensures l.Valid() && alloc.Kept(null, code)
    ensures code.ErrOther? ==> P.Ids(str[index..]).None?
    ensures code.Success? ==>
              && P.Ids(str[index..]).Some? && Readable(str, index') && index < index'
              && P.Ids(str[index..]).value == (l.Contents(), str[index'..])
    ensures code.Success? ==> fresh(l.ids) && l.Holds(alloc.blocks) && (l.mem != null ==> fresh(l.mem))
  {
    var again := true;
    index', code := index, A.Success;
    ghost var all := P.Ids(str[index..]);
    BeforeIdsTwice([], [], all);
    while again
      invariant code.Success? && alloc.Kept(null, A.Success)
      invariant l.Valid() && l.Holds(alloc.blocks) && (l.mem != null ==> fresh(l.mem))
      invariant Readable(str, index') && if again then index <= index' else index < index' && fresh(l.ids)
      invariant l.ids == old(l.ids) || fresh(l.ids)
      invariant again ==> all == BeforeIds(l.Contents(), P.Ids(str[index'..]))
      invariant !again ==> all == Some((l.Contents(), str[index'..]))
      decreases again, |str| - index'
    {
      ghost var t, was := str[index'..], l.Contents();
      code, again, index' := ParseIdsTurn(alloc, str, index', l);
      if !code.Success? { return; }
      if again {
        BeforeIdsTwice(was, IdsAt(t).value, P.Ids(str[index'..]));
      }
    }
  }

  /** parse_es_id_list. */
  method ParseEsIdList(alloc: A.List, str: string, index: nat) returns (code: A.Code, r: IdList?, index': nat)
    requires Readable(str, index) && alloc.Valid()
    modifies alloc, alloc.blocks
    ensures alloc.Kept(null, code)
    ensures code.ErrOther? ==> P.EsIdList(str[index..]).None?
    ensures code.Success? ==>
              && P.EsIdList(str[index..]).Some?
              && r != null && fresh(r) && fresh(r.ids) && r.Valid()
              && Readable(str, index') && index < index'
              && P.EsIdList(str[index..]).value == (r.Contents(), str[index'..])
    ensures code.Success? ==> r.Holds(alloc.blocks) && fresh(r.block) && (r.mem != null ==> fresh(r.mem))
  {
    index' := index;
    code, r := IdListCreate(alloc);
    if code.ErrMem? { return; }
    var ok, val;
    ok, index', val := ConsumeInt(str, index);
    if ok {
      code := r.Add(alloc, val, 1, 1);
      assert code.Success? ==> r.Contents() == [val];
      return;
    }
    ok, index' := ConsumeSymbol(str, index, '{');
    if !ok { return A.ErrOther, null, index; }
    code, index' := ParseIds(alloc, str, index', r);
  }

  /** An id list has been read; read how often it is repeated, and add it. */
  method AddRepeated(alloc: A.List, str: string, index: nat, l: List, base: IdList)
    returns (code: A.Code, index': nat)
    requires Readable(str, index) && l.Valid() && base.Valid()
    requires alloc.Valid() && l.Holds(alloc.blocks) && base.Holds(alloc.blocks) && !base.Uses(l.mem)
    modifies l, alloc, alloc.blocks
    ensures l.Valid() && alloc.Kept(old(l.mem), code) && (l.mem == old(l.mem) || fresh(l.mem))
    ensures code.ErrOther? ==> P.Repeat(str[index..]).None?
    ensures code.Success? ==> P.Repeat(str[index..]).Some? && Readable(str, index') && index <= index'
    ensures code.Success? ==>
              var (num, stride, t) := P.Repeat(str[index..]).value;
              str[index'..] == t && l.Contents() == old(l.Contents()) + G.Copies(old(base.Contents()), num, stride)
    ensures code.Success? ==> l.Holds(alloc.blocks)
  {
    var ok, num, stride;
    ghost var was, ids := l.Contents(), base.Contents();
    ok, index', num, stride := ParseRepeat(str, index);
    if !ok { return A.ErrOther, index'; }
    assert l.Contents() == was && base.Contents() == ids;
    code := l.Add(alloc, base, num, stride);
  }

  /** The part of the loop of parse_list before the comma. */
  method ParseInterval(alloc: A.List, str: string, index: nat, l: List) returns (code: A.Code, index': nat)
    requires Readable(str, index) && l.Valid() && alloc.Valid() && l.Holds(alloc.blocks)
    modifies l, alloc, alloc.blocks
    ensures l.Valid() && alloc.Kept(old(l.mem), code) && (l.mem == old(l.mem) || fresh(l.mem))
    ensures code.ErrOther? ==> Interval(str[index..]).None?
    ensures code.Success? ==> Interval(str[index..]).Some? && Readable(str, index') && index < index'
    ensures code.Success? ==> l.Contents() == old(l.Contents()) + Interval(str[index..]).value.0
    ensures code.Success? ==> str[index'..] == Interval(str[index..]).value.1
    ensures code.Success? ==> l.Holds(alloc.blocks)
  {
    var es;
    ghost var was := l.Contents();
    code, es, index' := ParseEsIdList(alloc, str, index);
    if !code.Success? { return; }
    assert l.Contents() == was;
    code, index' := AddRepeated(alloc, str, index', l, es);
  }

  /** One turn of the loop of parse_list. */
  method ParseListTurn(alloc: A.List, str: string, index: nat, l: List)
    returns (code: A.Code, again: bool, index': nat)
    requires Readable(str, index) && l.Valid() && alloc.Valid() && l.Holds(alloc.blocks)
    modifies l, alloc, alloc.blocks
    ensures l.Valid() && alloc.Kept(old(l.mem), code) && (l.mem == old(l.mem) || fresh(l.mem))
    ensures code.ErrOther? ==> P.List(str[index..]).None?
    ensures code.Success? ==> Interval(str[index..]).Some? && l.Holds(alloc.blocks)
    ensures code.Success? ==> l.Contents() == old(l.Contents()) + Interval(str[index..]).value.0
    ensures code.Success? && again ==>
              && Readable(str, index') && index < index'
              && P.List(str[index..]) == Before(Interval(str[index..]).value.0, P.List(str[index'..]))
    ensures code.Success? && !again ==> P.List(str[index..]) == Some(Interval(str[index..]).value.0)
  {
    again := false;
    ListTurn(str[index..]);
    code, index' := ParseInterval(alloc, str, index, l);
    if !code.Success? { return; }
    ghost var now := l.Contents();
    var ok;
    again, ok, index' := CommaOr(str, index', '\0');
    assert l.Contents() == now;
    if !again && !ok {
      code := A.ErrOther;
    }
  }

  /** The loop of parse_list, which adds to an empty list. */
  method ParseIntervals(alloc: A.List, str: string, l: List) returns (code: A.Code)
    requires Readable(str, 0) && l.Valid() && l.lists == [] && l.mem == null
    requires alloc.Valid() && l.Holds(alloc.blocks)
    modifies l, alloc, alloc.blocks
    ensures l.Valid() && alloc.Kept(null, code)
    ensures code.ErrOther? ==> P.List(str).None?
    ensures code.Success? ==> P.List(str).Some? && l.Contents() == P.List(str).value && l.Holds(alloc.blocks)
  {
    var index: nat, again := 0, true;
    code := A.Success;
    ghost var all := P.List(str);
    assert str[0..] == str;
    BeforeTwice([], [], all);
    while again
      invariant code.Success? && alloc.Kept(null, A.Success)
      invariant l.Valid() && l.Holds(alloc.blocks) && (l.mem != null ==> fresh(l.mem))
      invariant again ==> Readable(str, index) && all == Before(l.Contents(), P.List(str[index..]))
      invariant !again ==> all == Some(l.Contents())
      decreases again, |str| - index
    {
      ghost var t, was := str[index..], l.Contents();
      code, again, index := ParseListTurn(alloc, str, index, l);
      if !code.Success? { return; }
      if again {
        BeforeTwice(was, Interval(t).value.0, P.List(str[index..]));
      }
    }
  }

  /** parse_list: unless an allocation fails, it returns what the grammar says and fails exactly when the
      grammar does. */
  method ParseList(alloc: A.List, str: string) returns (code: A.Code, r: List?)
    requires Readable(str, 0) && alloc.Valid()
    modifies alloc, alloc.blocks
    ensures alloc.Kept(null, code)
    ensures code.ErrOther? ==> P.List(str).None?
    ensures code.Success? ==>
              P.List(str).Some? && r != null && fresh(r) && r.Valid() && r.Contents() == P.List(str).value
    ensures code.Success? ==> r.alloc == alloc && r.Holds(alloc.blocks)
  {
    var have: bool := *;
    var block;
    r := null;
    code, block := alloc.Calloc(have);
    if code.ErrMem? { return; }
    r := new List(block, alloc);
    code := ParseIntervals(alloc, str, r);
  }

  /** ABTD_affinity_list_create on a C string, or on no string at all. It runs out of memory exactly when an
      allocation has failed. Whenever it fails, every block it had allocated has been freed exactly once; when
      it succeeds, all that it hands out is alive and can be freed from the saved head. */
  method AffinityListCreate(affinity: Option<string>) returns (code: A.Code, r: List?, ghost alloc: A.List)
    requires affinity.Some? ==> P.CString(affinity.value)
    ensures code.ErrMem? <==> alloc.failed
    ensures code.ErrOther? ==> affinity.None? || P.Parse(affinity.value).None?
    ensures code.Success? ==> affinity.Some? && P.Parse(affinity.value).Some?
    ensures code.Success? ==> r != null && r.Valid() && r.Contents() == P.Parse(affinity.value).value
    ensures code.Success? ==> r.alloc == alloc && r.Freeable()
    ensures !code.Success? ==> r == null && forall h | h in alloc.ever :: h.frees == 1
  {
    var tmp := new A.List();
    alloc := tmp;
    if affinity.None? {
      code := A.ErrOther;
    } else {
      code, r := ParseList(tmp, affinity.value + "\0");
    }
    if code.Success? {
      r.memHead := tmp.head;
    } else {
      A.FreeAll(tmp.head, tmp);
      r := null;
    }
  }

  /** ABTD_affinity_list_free. */
  method AffinityListFree(p: List?)
    requires p != null ==> p.Freeable()
    modifies if p == null then [] else p.alloc.blocks
    ensures p != null ==> forall h | h in p.alloc.ever :: h.frees == 1
  {
    if p != null {
      A.FreeAll(p.memHead, p.alloc);
    }
  }
}
