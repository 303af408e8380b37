/** The grammar of ABT_SET_AFFINITY strings as trees with their blanks, signs and digits, what a tree
    looks like in text, and which lists of CPU ids it stands for. */
module AffinityGrammar {

  /** A number of elements at least this large is refused. */
  const MAX_NUM_ELEMS := 1024 * 1024

  predicate IsBlank(c: char) { c == ' ' || c == '\t' || c == '\r' || c == '\n' }

  predicate IsDigit(c: char) { '0' <= c <= '9' }

  predicate IsSign(c: char) { c == '+' || c == '-' }

  predicate Blanks(s: string) { forall c | c in s :: IsBlank(c) }

  // ----- tokens

  /** An integer: blanks, then any number of signs and at least one digit with nothing in between. */
  datatype Int = Int(blanks: string, signs: string, digits: string) {

    predicate Valid() {
      && Blanks(blanks)
      && (forall c | c in signs :: IsSign(c))
      && digits != [] && (forall c | c in digits :: IsDigit(c))
    }

    /** The text of a tree followed by tail. */
    function Text(tail: string): string { blanks + (signs + (digits + tail)) }

    function Value(): int {
      if Negative(signs, false) then -Decimal(digits, 0) else Decimal(digits, 0)
    }

    function Strip(): Int { Int("", signs, digits) }
  }

  function Negative(signs: string, sofar: bool): bool {
    if signs == [] then sofar else Negative(signs[1..], if signs[0] == '-' then !sofar else sofar)
  }

  function Digit(c: char): int { c as int - '0' as int }

  function Decimal(digits: string, sofar: int): int {
    if digits == [] then sofar else Decimal(digits[1..], sofar * 10 + Digit(digits[0]))
  }

  // ----- the nonterminals; every symbol comes with the blanks before it

  /** The optional ":" num and ":" num ":" stride. */
  datatype Repeat =
    | Once
    | Times(colon: string, num: Int)
    | Strided(colon: string, num: Int, colon2: string, stride: Int)
  {
    predicate Valid() {
      match this
      case Once => true
      case Times(c, n) => Blanks(c) && n.Valid() && 0 < n.Value() < MAX_NUM_ELEMS
      case Strided(c, n, c2, s) =>
        Blanks(c) && n.Valid() && 0 < n.Value() < MAX_NUM_ELEMS && Blanks(c2) && s.Valid()
    }

    function Text(tail: string): string {
      match this
      case Once => tail
      case Times(c, n) => c + ([':'] + n.Text(tail))
      case Strided(c, n, c2, s) => c + ([':'] + n.Text(c2 + ([':'] + s.Text(tail))))
    }

    function Num(): int { if Once? then 1 else num.Value() }

    function Stride(): int { if Strided? then stride.Value() else 1 }

    function Strip(): Repeat {
      match this
      case Once => Once
      case Times(_, n) => Times("", n.Strip())
      case Strided(_, n, _, s) => Strided("", n.Strip(), "", s.Strip())
    }
  }

  datatype IdInterval = IdInterval(id: Int, repeat: Repeat) {
    predicate Valid() { id.Valid() && repeat.Valid() }

    function Text(tail: string): string { id.Text(repeat.Text(tail)) }

    function Ids(): seq<int> { Ramp(id.Value(), repeat.Num(), repeat.Stride()) }

    function Strip(): IdInterval { IdInterval(id.Strip(), repeat.Strip()) }
  }

  datatype IdList = LastId(first: IdInterval) | MoreIds(first: IdInterval, comma: string, rest: IdList) {
    predicate Valid() { first.Valid() && (MoreIds? ==> Blanks(comma) && rest.Valid()) }

    function Text(tail: string): string {
      first.Text(if MoreIds? then comma + ([','] + rest.Text(tail)) else tail)
    }

    function Ids(): seq<int> { if MoreIds? then first.Ids() + rest.Ids() else first.Ids() }

    function Strip(): IdList {
      if MoreIds? then MoreIds(first.Strip(), "", rest.Strip()) else LastId(first.Strip())
    }
  }

  datatype EsIdList = Id(id: Int) | Braces(open: string, ids: IdList, close: string) {
    predicate Valid() { if Id? then id.Valid() else Blanks(open) && ids.Valid() && Blanks(close) }

    function Text(tail: string): string {
      if Id? then id.Text(tail) else open + (['{'] + ids.Text(close + (['}'] + tail)))
    }

    function Ids(): seq<int> { if Id? then [id.Value()] else ids.Ids() }

    function Strip(): EsIdList { if Id? then Id(id.Strip()) else Braces("", ids.Strip(), "") }
  }

  datatype Interval = Interval(es: EsIdList, repeat: Repeat) {
    predicate Valid() { es.Valid() && repeat.Valid() }

    function Text(tail: string): string { es.Text(repeat.Text(tail)) }

    function Lists(): seq<seq<int>> { Copies(es.Ids(), repeat.Num(), repeat.Stride()) }

    function Strip(): Interval { Interval(es.Strip(), repeat.Strip()) }
  }

  /** The whole list, with the blanks before the end of the string. */
  datatype List = Last(first: Interval, end: string) | More(first: Interval, comma: string, rest: List) {
    predicate Valid() { first.Valid() && if Last? then Blanks(end) else Blanks(comma) && rest.Valid() }

    function Text(tail: string): string {
      first.Text(if Last? then end + tail else comma + ([','] + rest.Text(tail)))
    }

    function Lists(): seq<seq<int>> { if Last? then first.Lists() else first.Lists() + rest.Lists() }

    function Strip(): List {
      if Last? then Last(first.Strip(), "") else More(first.Strip(), "", rest.Strip())
    }
  }

  // ----- strides

  /** id, id + stride, ..., id + stride * (num - 1). */
  function Ramp(id: int, num: int, stride: int): (r: seq<int>)
    ensures |r| == if num <= 0 then 0 else num
  {
    if num <= 0 then [] else Ramp(id, num - 1, stride) + [id + stride * (num - 1)]
  }

  function Shift(ids: seq<int>, d: int): (r: seq<int>)
    ensures |r| == |ids|
  {
    if ids == [] then [] else Shift(ids[..|ids| - 1], d) + [ids[|ids| - 1] + d]
  }

  /** num copies of a list of ids, each stride further than the one before. */
  function Copies(ids: seq<int>, num: int, stride: int): (r: seq<seq<int>>)
    ensures |r| == if num <= 0 then 0 else num
  {
    if num <= 0 then [] else Copies(ids, num - 1, stride) + [Shift(ids, stride * (num - 1))]
  }

  lemma {:induction false} RampAt(id: int, num: int, stride: int, i: nat)
    requires i < num
    ensures Ramp(id, num, stride)[i] == id + stride * i
  {
    if i < num - 1 {
      RampAt(id, num - 1, stride, i);
    }
  }

  lemma {:induction false} ShiftAt(ids: seq<int>, d: int, j: nat)
    requires j < |ids|
    ensures Shift(ids, d)[j] == ids[j] + d
  {
    if j < |ids| - 1 {
      ShiftAt(ids[..|ids| - 1], d, j);
    }
  }

  lemma {:induction false} CopiesAt(ids: seq<int>, num: int, stride: int, i: nat)
    requires i < num
    ensures Copies(ids, num, stride)[i] == Shift(ids, stride * i)
  {
    if i < num - 1 {
      CopiesAt(ids, num - 1, stride, i);
    }
  }

  lemma {:induction false} ShiftZero(ids: seq<int>)
    ensures Shift(ids, 0) == ids
  {
    if ids != [] {
      ShiftZero(ids[..|ids| - 1]);
    }
  }

  // ----- what a tree means, form by form

  /** A value is negative when there is an odd number of minus signs before it; plus signs do nothing. */
  lemma {:induction false} OddSignsNegate(signs: string, sofar: bool)
    ensures Negative(signs, sofar) <==> (sofar != (multiset(signs)['-'] % 2 == 1))
  {
    if signs != [] {
      assert signs == [signs[0]] + signs[1..];
      OddSignsNegate(signs[1..], if signs[0] == '-' then !sofar else sofar);
    }
  }

  lemma IntMeans(tok: Int)
    ensures tok.Value() == if multiset(tok.signs)['-'] % 2 == 1 then -Decimal(tok.digits, 0) else Decimal(tok.digits, 0)
  {
    OddSignsNegate(tok.signs, false);
  }

  /** The ids of an interval: id alone, num ids in a row, or num ids that are stride apart. */
  lemma IntervalMeans(i: IdInterval, k: nat)
    requires i.Valid() && k < |i.Ids()|
    ensures match i.repeat
            case Once => i.Ids() == [i.id.Value()]
            case Times(_, num) => |i.Ids()| == num.Value() && i.Ids()[k] == i.id.Value() + k
            case Strided(_, num, _, stride) =>
              |i.Ids()| == num.Value() && i.Ids()[k] == i.id.Value() + stride.Value() * k
  {
    RampAt(i.id.Value(), i.repeat.Num(), i.repeat.Stride(), k);
  }

  /** The lists of an interval: the list alone, num copies each one further, or num copies each stride further. */
  lemma ListsMean(i: Interval, k: nat, j: nat)
    requires i.Valid() && k < |i.Lists()| && j < |i.es.Ids()|
    ensures |i.Lists()[k]| == |i.es.Ids()|
    ensures match i.repeat
            case Once => i.Lists() == [i.es.Ids()]
            case Times(_, num) => |i.Lists()| == num.Value() && i.Lists()[k][j] == i.es.Ids()[j] + k
            case Strided(_, num, _, stride) =>
              |i.Lists()| == num.Value() && i.Lists()[k][j] == i.es.Ids()[j] + stride.Value() * k
  {
    CopiesAt(i.es.Ids(), i.repeat.Num(), i.repeat.Stride(), k);
    ShiftAt(i.es.Ids(), i.repeat.Stride() * k, j);
    if i.repeat.Once? {
      ShiftZero(i.es.Ids());
    }
  }

  // ----- blanks carry no meaning

  lemma StripRepeat(r: Repeat)
    ensures r.Strip().Num() == r.Num() && r.Strip().Stride() == r.Stride()
    ensures r.Valid() ==> r.Strip().Valid()
  {
  }

  lemma StripIdInterval(i: IdInterval)
    ensures i.Strip().Ids() == i.Ids()
    ensures i.Valid() ==> i.Strip().Valid()
  {
    StripRepeat(i.repeat);
  }

  lemma {:induction false} StripIdList(l: IdList)
    ensures l.Strip().Ids() == l.Ids()
    ensures l.Valid() ==> l.Strip().Valid()
  {
    StripIdInterval(l.first);
    if l.MoreIds? {
      StripIdList(l.rest);
    }
  }

  lemma StripInterval(i: Interval)
    ensures i.Strip().Lists() == i.Lists()
    ensures i.Valid() ==> i.Strip().Valid()
  {
    StripRepeat(i.repeat);
    if i.es.Braces? {
      StripIdList(i.es.ids);
    }
  }

  lemma {:induction false} StripList(l: List)
    ensures l.Strip().Lists() == l.Lists()
    ensures l.Valid() ==> l.Strip().Valid()
  {
    StripInterval(l.first);
    if l.More? {
      StripList(l.rest);
    }
  }

  // ----- a tail is only appended

  lemma Assoc(x: string, y: string, z: string)
    ensures x + (y + z) == (x + y) + z
  {
  }

  lemma IntTail(tok: Int, a: string, b: string)
    ensures tok.Text(a + b) == tok.Text(a) + b
  {
    Assoc(tok.digits, a, b);
    Assoc(tok.signs, tok.digits + a, b);
    Assoc(tok.blanks, tok.signs + (tok.digits + a), b);
  }

  /** Blanks and a symbol before a text. */
  lemma SymbolTail(blanks: string, c: char, a: string, b: string)
    ensures blanks + ([c] + (a + b)) == (blanks + ([c] + a)) + b
  {
    Assoc([c], a, b);
    Assoc(blanks, [c] + a, b);
  }

  lemma RepeatTail(r: Repeat, a: string, b: string)
    ensures r.Text(a + b) == r.Text(a) + b
  {
    match r
    case Once =>
    case Times(c, n) =>
      IntTail(n, a, b);
      SymbolTail(c, ':', n.Text(a), b);
    case Strided(c, n, c2, s) =>
      var t := c2 + ([':'] + s.Text(a));
      IntTail(s, a, b);
      SymbolTail(c2, ':', s.Text(a), b);
      IntTail(n, t, b);
      SymbolTail(c, ':', n.Text(t), b);
  }

  lemma IdIntervalTail(i: IdInterval, a: string, b: string)
    ensures i.Text(a + b) == i.Text(a) + b
  {
    RepeatTail(i.repeat, a, b);
    IntTail(i.id, i.repeat.Text(a), b);
  }

  lemma {:induction false} IdListTail(l: IdList, a: string, b: string)
    ensures l.Text(a + b) == l.Text(a) + b
  {
    if l.MoreIds? {
      IdListTail(l.rest, a, b);
      SymbolTail(l.comma, ',', l.rest.Text(a), b);
      IdIntervalTail(l.first, l.comma + ([','] + l.rest.Text(a)), b);
    } else {
      IdIntervalTail(l.first, a, b);
    }
  }

  lemma EsIdListTail(es: EsIdList, a: string, b: string)
    ensures es.Text(a + b) == es.Text(a) + b
  {
    match es
    case Id(id) => IntTail(id, a, b);
    case Braces(open, ids, close) =>
      var inner := close + (['}'] + a);
      SymbolTail(close, '}', a, b);
      IdListTail(ids, inner, b);
      SymbolTail(open, '{', ids.Text(inner), b);
  }

  lemma IntervalTail(i: Interval, a: string, b: string)
    ensures i.Text(a + b) == i.Text(a) + b
  {
    RepeatTail(i.repeat, a, b);
    EsIdListTail(i.es, i.repeat.Text(a), b);
  }

  lemma {:induction false} ListTail(l: List, a: string, b: string)
    ensures l.Text(a + b) == l.Text(a) + b
  {
    if l.More? {
      ListTail(l.rest, a, b);
      SymbolTail(l.comma, ',', l.rest.Text(a), b);
      IntervalTail(l.first, l.comma + ([','] + l.rest.Text(a)), b);
    } else {
      Assoc(l.end, a, b);
      IntervalTail(l.first, l.end + a, b);
    }
  }
}
