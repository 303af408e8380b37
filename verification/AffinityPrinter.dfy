/** Printing lists of CPU ids as affinity strings, in the shortest form, and what comes back when such a
    string is parsed. The expansion is written down here once more, without the trees of the grammar. */
module AffinityPrinter {
  import opened Options
  import G = AffinityGrammar
  import P = AffinityParser

  /** An id, or an arithmetic progression of ids. */
  datatype Ramp = Ramp(first: int, num: int, stride: int)

  /** One id list and its shifted copies. Single prints without braces. */
  datatype Group = Single(id: int, num: int, stride: int) | Braced(ramps: seq<Ramp>, num: int, stride: int)

  // ----- what they stand for

  function Progression(r: Ramp): seq<int> {
    seq(if r.num < 0 then 0 else r.num, k => r.first + r.stride * k)
  }

  function Ids(ramps: seq<Ramp>): seq<int> {
    if ramps == [] then [] else Progression(ramps[0]) + Ids(ramps[1..])
  }

  function Shifted(ids: seq<int>, d: int): seq<int> {
    seq(|ids|, j requires 0 <= j < |ids| => ids[j] + d)
  }

  function Base(g: Group): seq<int> {
    if g.Single? then [g.id] else Ids(g.ramps)
  }

  function Expand(g: Group): seq<seq<int>> {
    seq(if g.num < 0 then 0 else g.num, k => Shifted(Base(g), g.stride * k))
  }

  function ExpandAll(groups: seq<Group>): seq<seq<int>> {
    if groups == [] then [] else Expand(groups[0]) + ExpandAll(groups[1..])
  }

  /** What can be written down: nothing is empty, and every num is from 1 to 1048575. */
  predicate PrintableNum(num: int) { 1 <= num <= 1048575 }

  predicate PrintableRamps(ramps: seq<Ramp>) {
    ramps != [] && forall k | 0 <= k < |ramps| :: PrintableNum(ramps[k].num)
  }

  predicate PrintableGroup(g: Group) {
    PrintableNum(g.num) && (g.Braced? ==> PrintableRamps(g.ramps))
  }

  predicate Printable(groups: seq<Group>) {
    groups != [] && forall k | 0 <= k < |groups| :: PrintableGroup(groups[k])
  }

  // ----- how they are printed, in front of what follows

  function Digits(n: nat): (s: string)
    ensures s != [] && forall c | c in s :: G.IsDigit(c)
  {
    var c := '0' + (n % 10) as char;
    if n < 10 then [c] else Digits(n / 10) + [c]
  }

  function PrintInt(v: int, tail: string): string {
    if v < 0 then ['-'] + (Digits(-v) + tail) else Digits(v) + tail
  }

  /** A num and a stride of 1 are left out as far as possible. */
  function PrintRepeat(num: int, stride: int, tail: string): string {
    if stride != 1 then [':'] + PrintInt(num, [':'] + PrintInt(stride, tail))
    else if num != 1 then [':'] + PrintInt(num, tail)
    else tail
  }

  function PrintRamp(r: Ramp, tail: string): string {
    PrintInt(r.first, PrintRepeat(r.num, r.stride, tail))
  }

  function PrintRamps(ramps: seq<Ramp>, tail: string): string
    requires ramps != []
  {
    PrintRamp(ramps[0], if |ramps| == 1 then tail else [','] + PrintRamps(ramps[1..], tail))
  }

  function PrintGroup(g: Group, tail: string): string
    requires PrintableGroup(g)
  {
    var after := PrintRepeat(g.num, g.stride, tail);
    if g.Single? then PrintInt(g.id, after) else ['{'] + PrintRamps(g.ramps, ['}'] + after)
  }

  /** 1,{2:3,7}:2:10 and so on. */
  function Print(groups: seq<Group>): string
    requires Printable(groups)
  {
    PrintGroup(groups[0], if |groups| == 1 then "" else [','] + Print(groups[1..]))
  }

  // ----- the two expansions agree

  lemma RampsAgree(r: Ramp)
    ensures G.Ramp(r.first, r.num, r.stride) == Progression(r)
  {
    forall k: nat | k < r.num ensures G.Ramp(r.first, r.num, r.stride)[k] == Progression(r)[k] {
      G.RampAt(r.first, r.num, r.stride, k);
    }
  }

  lemma ShiftsAgree(ids: seq<int>, d: int)
    ensures G.Shift(ids, d) == Shifted(ids, d)
  {
    forall j: nat | j < |ids| ensures G.Shift(ids, d)[j] == Shifted(ids, d)[j] {
      G.ShiftAt(ids, d, j);
    }
  }

  lemma CopiesAgree(g: Group)
    ensures G.Copies(Base(g), g.num, g.stride) == Expand(g)
  {
    forall k: nat | k < g.num ensures G.Copies(Base(g), g.num, g.stride)[k] == Expand(g)[k] {
      G.CopiesAt(Base(g), g.num, g.stride, k);
      ShiftsAgree(Base(g), g.stride * k);
    }
  }

  // ----- a printed text is the text of a tree

  lemma {:induction false} DecimalOfAppend(s: string, c: char, sofar: int)
    ensures G.Decimal(s + [c], sofar) == G.Decimal(s, sofar) * 10 + G.Digit(c)
  {
    if s == [] {
      assert s + [c] == [c];
    } else {
      assert (s + [c])[1..] == s[1..] + [c];
      DecimalOfAppend(s[1..], c, sofar * 10 + G.Digit(s[0]));
    }
  }

  lemma {:induction false} DigitsDenote(n: nat)
    ensures G.Decimal(Digits(n), 0) == n
  {
    var c := '0' + (n % 10) as char;
    if n >= 10 {
      DigitsDenote(n / 10);
      DecimalOfAppend(Digits(n / 10), c, 0);
    } else {
      assert [c][1..] == [];
    }
  }

  function IntTree(v: int): G.Int {
    if v < 0 then G.Int("", "-", Digits(-v)) else G.Int("", "", Digits(v))
  }

  lemma IntTreePrints(v: int, t: string)
    ensures IntTree(v).Valid() && IntTree(v).Value() == v && IntTree(v).Text(t) == PrintInt(v, t)
  {
    var digits := Digits(if v < 0 then -v else v);
    DigitsDenote(if v < 0 then -v else v);
    P.NoBlanks(digits + t);
    if v < 0 {
      assert "-"[1..] == "";
      assert G.Negative("-", false);
      P.NoBlanks("-" + (digits + t));
    }
  }

  function RepeatTree(num: int, stride: int): G.Repeat {
    if stride != 1 then G.Strided("", IntTree(num), "", IntTree(stride))
    else if num != 1 then G.Times("", IntTree(num))
    else G.Once
  }

  lemma RepeatTreePrints(num: int, stride: int, t: string)
    requires PrintableNum(num)
    ensures var r := RepeatTree(num, stride);
            r.Valid() && r.Num() == num && r.Stride() == stride && r.Text(t) == PrintRepeat(num, stride, t)
  {
    IntTreePrints(num, t);
    P.NoBlanks([':'] + PrintInt(num, t));
    if stride != 1 {
      var t' := [':'] + PrintInt(stride, t);
      IntTreePrints(stride, t);
      IntTreePrints(num, t');
      P.NoBlanks(t');
      P.NoBlanks([':'] + PrintInt(num, t'));
    }
  }

  function RampTree(r: Ramp): G.IdInterval { G.IdInterval(IntTree(r.first), RepeatTree(r.num, r.stride)) }

  lemma RampTreePrints(r: Ramp, t: string)
    requires PrintableNum(r.num)
    ensures RampTree(r).Valid() && RampTree(r).Ids() == Progression(r) && RampTree(r).Text(t) == PrintRamp(r, t)
  {
    RepeatTreePrints(r.num, r.stride, t);
    IntTreePrints(r.first, PrintRepeat(r.num, r.stride, t));
    RampsAgree(r);
  }

  lemma {:induction false} RampsPrint(ramps: seq<Ramp>, t: string) returns (l: G.IdList)
    requires PrintableRamps(ramps)
    ensures l.Valid() && l.Ids() == Ids(ramps) && l.Text(t) == PrintRamps(ramps, t)
  {
    if |ramps| == 1 {
      RampTreePrints(ramps[0], t);
      assert Ids(ramps) == Progression(ramps[0]) + [] == Progression(ramps[0]);
      l := G.LastId(RampTree(ramps[0]));
    } else {
      var rest := RampsPrint(ramps[1..], t);
      l := G.MoreIds(RampTree(ramps[0]), "", rest);
      RampTreePrints(ramps[0], [','] + rest.Text(t));
      P.NoBlanks([','] + rest.Text(t));
    }
  }

  lemma EsPrints(g: Group, t: string) returns (es: G.EsIdList)
    requires PrintableGroup(g)
    ensures es.Valid() && es.Ids() == Base(g)
    ensures es.Text(t) == if g.Single? then PrintInt(g.id, t) else ['{'] + PrintRamps(g.ramps, ['}'] + t)
  {
    if g.Single? {
      IntTreePrints(g.id, t);
      es := G.Id(IntTree(g.id));
    } else {
      var l := RampsPrint(g.ramps, ['}'] + t);
      es := G.Braces("", l, "");
      P.NoBlanks(['}'] + t);
      P.NoBlanks(['{'] + PrintRamps(g.ramps, ['}'] + t));
    }
  }

  lemma GroupPrints(g: Group, t: string) returns (i: G.Interval)
    requires PrintableGroup(g)
    ensures i.Valid() && i.Lists() == Expand(g) && i.Text(t) == PrintGroup(g, t)
  {
    var es := EsPrints(g, PrintRepeat(g.num, g.stride, t));
    i := G.Interval(es, RepeatTree(g.num, g.stride));
    RepeatTreePrints(g.num, g.stride, t);
    CopiesAgree(g);
  }

  lemma LastPrints(g: Group) returns (l: G.List)
    requires PrintableGroup(g)
    ensures l.Valid() && l.Lists() == Expand(g) && l.Text("") == PrintGroup(g, "")
  {
    var i := GroupPrints(g, "");
    l := G.Last(i, "");
    P.NoBlanks("");
  }

  lemma MorePrints(g: Group, rest: G.List) returns (l: G.List)
    requires PrintableGroup(g) && rest.Valid()
    ensures l.Valid() && l.Lists() == Expand(g) + rest.Lists()
    ensures l.Text("") == PrintGroup(g, [','] + rest.Text(""))
  {
    var t := [','] + rest.Text("");
    var i := GroupPrints(g, t);
    l := G.More(i, "", rest);
    P.NoBlanks(t);
  }

  lemma {:induction false} GroupsPrint(groups: seq<Group>) returns (l: G.List)
    requires Printable(groups)
    ensures l.Valid() && l.Lists() == ExpandAll(groups) && l.Text("") == Print(groups)
  {
    if |groups| == 1 {
      l := LastPrints(groups[0]);
      assert ExpandAll(groups[1..]) == [];
      assert Expand(groups[0]) + [] == Expand(groups[0]);
    } else {
      var rest := GroupsPrint(groups[1..]);
      l := MorePrints(groups[0], rest);
    }
  }

  // ----- the theorems

  /** Printing and parsing gives every id of every list. */
  lemma PrintedIsParsed(groups: seq<Group>)
    requires Printable(groups)
    ensures P.Parse(Print(groups)) == Some(ExpandAll(groups))
  {
    var l := GroupsPrint(groups);
    P.ListIsParsed(l);
  }

  /** Lists of ids one by one, as {a,b},{c}. */
  function Plain(ids: seq<int>): Group {
    Braced(seq(|ids|, j requires 0 <= j < |ids| => Ramp(ids[j], 1, 1)), 1, 1)
  }

  function PlainGroups(lists: seq<seq<int>>): seq<Group> {
    seq(|lists|, k requires 0 <= k < |lists| => Plain(lists[k]))
  }

  lemma {:induction false} PlainIds(ids: seq<int>)
    ensures Ids(Plain(ids).ramps) == ids
  {
    if ids != [] {
      PlainIds(ids[1..]);
      assert Plain(ids).ramps[1..] == Plain(ids[1..]).ramps;
      assert Progression(Ramp(ids[0], 1, 1)) == [ids[0]];
    }
  }

  lemma {:induction false} PlainExpands(lists: seq<seq<int>>)
    ensures ExpandAll(PlainGroups(lists)) == lists
  {
    if lists != [] {
      var ids := lists[0];
      PlainExpands(lists[1..]);
      PlainIds(ids);
      assert PlainGroups(lists)[1..] == PlainGroups(lists[1..]);
      assert Shifted(ids, 0) == ids;
      assert Expand(Plain(ids)) == [ids];
    }
  }

  /** Any nonempty lists of ids can be written down and come back. */
  lemma PlainIsParsed(lists: seq<seq<int>>)
    requires lists != [] && forall k | 0 <= k < |lists| :: lists[k] != []
    ensures Printable(PlainGroups(lists)) && P.Parse(Print(PlainGroups(lists))) == Some(lists)
  {
    PlainExpands(lists);
    PrintedIsParsed(PlainGroups(lists));
  }

  lemma IntTail(v: int, a: string, b: string)
    ensures PrintInt(v, a) + b == PrintInt(v, a + b)
  {
    var digits := Digits(if v < 0 then -v else v);
    G.Assoc(digits, a, b);
    G.Assoc("-", digits + a, b);
  }

  lemma IntIsScanned(v: int, t: string)
    requires P.Stops(t)
    ensures P.Int(PrintInt(v, t)) == Some((v, t))
  {
    IntTreePrints(v, t);
    P.IntAccepts(IntTree(v), t);
  }

  /** A num is accepted exactly from 1 to 1048575, with or without a stride. */
  lemma NumIsLimited(id: int, num: int, stride: int)
    ensures P.Parse(PrintInt(id, [':'] + PrintInt(num, ""))).Some? <==> 1 <= num <= 1048575
    ensures P.Parse(PrintInt(id, [':'] + PrintInt(num, [':'] + PrintInt(stride, "")))).Some? <==> 1 <= num <= 1048575
  {
    NumDecides(id, num, "\0");
    IntTail(num, "", "\0");
    IntTail(id, [':'] + PrintInt(num, ""), "\0");
    G.Assoc(":", PrintInt(num, ""), "\0");
    assert "" + "\0" == "\0";
    var s := [':'] + PrintInt(stride, "\0");
    IntTail(stride, "", "\0");
    G.Assoc(":", PrintInt(stride, ""), "\0");
    IntTail(num, [':'] + PrintInt(stride, ""), "\0");
    G.Assoc(":", PrintInt(num, [':'] + PrintInt(stride, "")), "\0");
    IntTail(id, [':'] + PrintInt(num, [':'] + PrintInt(stride, "")), "\0");
    IntIsScanned(stride, "\0");
    NumDecides(id, num, s);
  }

  lemma NumDecides(id: int, num: int, t: string)
    requires t == "\0" || (t != [] && t[0] == ':' && P.Int(t[1..]).Some? && P.Int(t[1..]).value.1 == "\0")
    ensures P.List(PrintInt(id, [':'] + PrintInt(num, t))).Some? <==> 1 <= num <= 1048575
  {
    var t' := [':'] + PrintInt(num, t);
    IntIsScanned(id, t');
    IntIsScanned(num, t);
    assert t'[1..] == PrintInt(num, t);
    assert P.Symbol(t', ':') == Some(PrintInt(num, t));
    assert P.Repeat(t').Some? <==> 1 <= num <= 1048575;
  }
}
