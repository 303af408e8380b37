/** The affinity parser as functions from the unread text to what it returns, and the proof that it
    accepts exactly the grammar. Every text ends with the terminator '\0'. */
module AffinityParser {
  import opened Options
  import G = AffinityGrammar

  /** What consume_int has seen: nothing but blanks, a sign, or a digit. */
  datatype Flag = Nothing | Sign | Value

  /** consume_int, one character at a time. */
  function ScanInt(t: string, flag: Flag, negative: bool, val: int): (r: Option<(int, string)>)
    ensures r.Some? ==> |r.value.1| <= |t| && (flag != Value ==> |r.value.1| < |t|)
  {
    if t == [] then None
    else if flag != Value && t[0] == '-' then ScanInt(t[1..], Sign, !negative, val)
    else if flag != Value && t[0] == '+' then ScanInt(t[1..], Sign, negative, val)
    else if flag == Nothing && G.IsBlank(t[0]) then ScanInt(t[1..], flag, negative, val)
    else if G.IsDigit(t[0]) then ScanInt(t[1..], Value, negative, val * 10 + G.Digit(t[0]))
    else if flag == Value then Some((if negative then -val else val, t))
    else None
  }

  function Int(t: string): (r: Option<(int, string)>)
    ensures r.Some? ==> |r.value.1| < |t|
  {
    ScanInt(t, Nothing, false, 0)
  }

  /** consume_pint. */
  function Pint(t: string): (r: Option<(int, string)>)
    ensures r.Some? ==> |r.value.1| < |t|
  {
    if Int(t).Some? && Int(t).value.0 > 0 then Int(t) else None
  }

  /** consume_symbol. */
  function Symbol(t: string, symbol: char): (r: Option<string>)
    ensures r.Some? ==> |r.value| < |t|
  {
    if t == [] then None
    else if t[0] == symbol then Some(t[1..])
    else if G.IsBlank(t[0]) then Symbol(t[1..], symbol)
    else None
  }

  /** The optional ":" num ":" stride with its defaults. */
  function Repeat(t: string): (r: Option<(int, int, string)>)
    ensures r.Some? ==> |r.value.2| <= |t| && 0 < r.value.0 < G.MAX_NUM_ELEMS
  {
    var colon := Symbol(t, ':');
    if colon.None? then Some((1, 1, t))
    else
      var num := Pint(colon.value);
      if num.None? then None
      else
        var colon2 := Symbol(num.value.1, ':');
        if colon2.None? then
          if num.value.0 >= G.MAX_NUM_ELEMS then None else Some((num.value.0, 1, num.value.1))
        else
          var stride := Int(colon2.value);
          if stride.None? || num.value.0 >= G.MAX_NUM_ELEMS then None
          else Some((num.value.0, stride.value.0, stride.value.1))
  }

  /** What follows an opening brace, up to and including the closing one. */
  function Ids(t: string): (r: Option<(seq<int>, string)>)
    ensures r.Some? ==> |r.value.1| < |t|
    decreases |t|
  {
    var id := Int(t);
    if id.None? then None
    else
      var repeat := Repeat(id.value.1);
      if repeat.None? then None
      else
        var (num, stride, t') := repeat.value;
        var ids := G.Ramp(id.value.0, num, stride);
        var comma := Symbol(t', ',');
        if comma.Some? then
          var rest := Ids(comma.value);
          if rest.None? then None else Some((ids + rest.value.0, rest.value.1))
        else
          var close := Symbol(t', '}');
          if close.None? then None else Some((ids, close.value))
  }

  /** parse_es_id_list. */
  function EsIdList(t: string): (r: Option<(seq<int>, string)>)
    ensures r.Some? ==> |r.value.1| < |t|
  {
    var id := Int(t);
    if id.Some? then Some(([id.value.0], id.value.1))
    else
      var open := Symbol(t, '{');
      if open.Some? then Ids(open.value) else None
  }

  /** parse_list. */
  function List(t: string): Option<seq<seq<int>>>
    decreases |t|
  {
    var es := EsIdList(t);
    if es.None? then None
    else
      var repeat := Repeat(es.value.1);
      if repeat.None? then None
      else
        var (num, stride, t') := repeat.value;
        var lists := G.Copies(es.value.0, num, stride);
        var comma := Symbol(t', ',');
        if comma.Some? then
          var rest := List(comma.value);
          if rest.None? then None else Some(lists + rest.value)
        else if Symbol(t', '\0').None? then None
        else Some(lists)
  }

  /** The C string s. */
  predicate CString(s: string) { '\0' !in s }

  function Parse(s: string): Option<seq<seq<int>>> {
    List(s + "\0")
  }

  // ----- tokens: what the scanner accepts

  /** A text after which a number has ended. */
  predicate Stops(t: string) { t != [] && !G.IsDigit(t[0]) }

  /** The first character that is not blank. */
  function First(t: string): char {
    if t == [] then '\0' else if G.IsBlank(t[0]) then First(t[1..]) else t[0]
  }

  lemma {:induction false} DigitsScan(digits: string, t: string, negative: bool, val: int)
    requires (forall c | c in digits :: G.IsDigit(c)) && Stops(t)
    ensures ScanInt(digits + t, Value, negative, val) ==
            Some((if negative then -G.Decimal(digits, val) else G.Decimal(digits, val), t))
  {
    if digits == [] {
      assert digits + t == t;
    } else {
      assert (digits + t)[1..] == digits[1..] + t;
      DigitsScan(digits[1..], t, negative, val * 10 + G.Digit(digits[0]));
    }
  }

  lemma Behind(s: string, t: string)
    requires s != []
    ensures (s + t)[0] == s[0] && (s + t)[1..] == s[1..] + t
  {
  }

  lemma {:induction false} SignsScan(signs: string, digits: string, t: string, flag: Flag, negative: bool)
    requires (forall c | c in signs :: G.IsSign(c)) && digits != [] && (forall c | c in digits :: G.IsDigit(c))
    requires Stops(t) && flag != Value
    ensures ScanInt(signs + (digits + t), flag, negative, 0) ==
            Some((if G.Negative(signs, negative) then -G.Decimal(digits, 0) else G.Decimal(digits, 0), t))
  {
    if signs == [] {
      NoBlanks(digits + t);
      assert signs + (digits + t) == digits + t;
      Behind(digits, t);
      assert G.IsDigit(digits[0]);
      DigitsScan(digits[1..], t, negative, G.Digit(digits[0]));
    } else {
      Behind(signs, digits + t);
      assert G.IsSign(signs[0]);
      SignsScan(signs[1..], digits, t, Sign, if signs[0] == '-' then !negative else negative);
    }
  }

  /** consume_int accepts every integer token, and stops behind its last digit. */
  lemma {:induction false} IntAccepts(tok: G.Int, t: string)
    requires tok.Valid() && Stops(t)
    ensures Int(tok.Text(t)) == Some((tok.Value(), t))
    decreases |tok.blanks|
  {
    if tok.blanks == [] {
      assert tok.Text(t) == tok.signs + (tok.digits + t);
      SignsScan(tok.signs, tok.digits, t, Nothing, false);
    } else {
      var less := tok.(blanks := tok.blanks[1..]);
      assert G.IsBlank(tok.blanks[0]);
      assert tok.Text(t)[1..] == less.Text(t);
      IntAccepts(less, t);
    }
  }

  lemma {:induction false} DigitsOf(t: string, negative: bool, val: int) returns (digits: string)
    requires ScanInt(t, Value, negative, val).Some?
    ensures var (v, t') := ScanInt(t, Value, negative, val).value;
            && t == digits + t' && Stops(t') && (forall c | c in digits :: G.IsDigit(c))
            && v == if negative then -G.Decimal(digits, val) else G.Decimal(digits, val)
  {
    if G.IsDigit(t[0]) {
      var rest := DigitsOf(t[1..], negative, val * 10 + G.Digit(t[0]));
      digits := [t[0]] + rest;
      assert digits[1..] == rest;
    } else {
      digits := [];
    }
  }

  lemma {:induction false} SignsOf(t: string, flag: Flag, negative: bool) returns (signs: string, digits: string)
    requires ScanInt(t, flag, negative, 0).Some? && flag != Value && (flag == Nothing ==> !G.IsBlank(t[0]))
    ensures var (v, t') := ScanInt(t, flag, negative, 0).value;
            && t == signs + (digits + t') && Stops(t')
            && (forall c | c in signs :: G.IsSign(c)) && digits != [] && (forall c | c in digits :: G.IsDigit(c))
            && v == if G.Negative(signs, negative) then -G.Decimal(digits, 0) else G.Decimal(digits, 0)
  {
    if G.IsSign(t[0]) {
      var negative' := if t[0] == '-' then !negative else negative;
      var signs';
      signs', digits := SignsOf(t[1..], Sign, negative');
      signs := [t[0]] + signs';
      assert signs[1..] == signs';
      G.Assoc([t[0]], signs', digits + ScanInt(t, flag, negative, 0).value.1);
    } else {
      var digits' := DigitsOf(t[1..], negative, G.Digit(t[0]));
      signs, digits := [], [t[0]] + digits';
      assert digits[1..] == digits';
    }
  }

  /** And it accepts nothing else. */
  lemma {:induction false} IntToken(t: string) returns (tok: G.Int)
    requires Int(t).Some?
    ensures tok.Valid() && t == tok.Text(Int(t).value.1) && tok.Value() == Int(t).value.0
    ensures Stops(Int(t).value.1)
    decreases |t|
  {
    if G.IsBlank(t[0]) {
      var less := IntToken(t[1..]);
      tok := less.(blanks := [t[0]] + less.blanks);
    } else {
      var signs, digits := SignsOf(t, Nothing, false);
      tok := G.Int("", signs, digits);
    }
  }

  lemma {:induction false} SymbolAccepts(blanks: string, c: char, t: string)
    requires G.Blanks(blanks) && !G.IsBlank(c)
    ensures Symbol(blanks + ([c] + t), c) == Some(t)
    ensures First(blanks + ([c] + t)) == c
    ensures !G.IsDigit(c) ==> Stops(blanks + ([c] + t))
  {
    if blanks == [] {
      assert blanks + ([c] + t) == [c] + t;
    } else {
      assert (blanks + ([c] + t))[1..] == blanks[1..] + ([c] + t);
      assert G.IsBlank(blanks[0]);
      SymbolAccepts(blanks[1..], c, t);
    }
  }

  lemma {:induction false} SymbolBlanks(t: string, c: char) returns (blanks: string)
    requires Symbol(t, c).Some? && !G.IsBlank(c)
    ensures G.Blanks(blanks) && t == blanks + ([c] + Symbol(t, c).value)
  {
    if t[0] == c {
      blanks := [];
    } else {
      var rest := SymbolBlanks(t[1..], c);
      blanks := [t[0]] + rest;
    }
  }

  /** A symbol is consumed only when it is the next character but for blanks. */
  lemma {:induction false} SymbolIsFirst(t: string, c: char)
    requires !G.IsBlank(c) && t != []
    ensures Symbol(t, c).Some? ==> First(t) == c
  {
    if t[0] != c && G.IsBlank(t[0]) && t[1..] != [] {
      SymbolIsFirst(t[1..], c);
    }
  }

  /** Numbers start with a digit or a sign, so a text that starts otherwise has none. */
  lemma {:induction false} NoInt(t: string)
    requires First(t) == '{'
    ensures Int(t).None?
  {
    if G.IsBlank(t[0]) {
      NoInt(t[1..]);
    }
  }

  // ----- every tree is accepted

  lemma RepeatAccepts(r: G.Repeat, t: string)
    requires r.Valid() && Stops(t) && First(t) != ':'
    ensures Repeat(r.Text(t)) == Some((r.Num(), r.Stride(), t))
    ensures Stops(r.Text(t))
  {
    SymbolIsFirst(t, ':');
    match r
    case Once =>
    case Times(c, n) =>
      SymbolAccepts(c, ':', n.Text(t));
      IntAccepts(n, t);
    case Strided(c, n, c2, s) =>
      var t2 := c2 + ([':'] + s.Text(t));
      SymbolAccepts(c, ':', n.Text(t2));
      SymbolAccepts(c2, ':', s.Text(t));
      IntAccepts(n, t2);
      IntAccepts(s, t);
  }

  lemma IdsLast(t: string, id: (int, string), repeat: (int, int, string), behind: string)
    requires Int(t) == Some(id) && Repeat(id.1) == Some(repeat)
    requires Symbol(repeat.2, ',').None? && Symbol(repeat.2, '}') == Some(behind)
    ensures Ids(t) == Some((G.Ramp(id.0, repeat.0, repeat.1), behind))
  {
  }

  lemma IdsMore(t: string, id: (int, string), repeat: (int, int, string), next: string, rest: (seq<int>, string))
    requires Int(t) == Some(id) && Repeat(id.1) == Some(repeat)
    requires Symbol(repeat.2, ',') == Some(next) && Ids(next) == Some(rest)
    ensures Ids(t) == Some((G.Ramp(id.0, repeat.0, repeat.1) + rest.0, rest.1))
  {
  }

  lemma {:induction false} IdsAccepts(l: G.IdList, close: string, t: string)
    requires l.Valid() && G.Blanks(close)
    ensures Ids(l.Text(close + (['}'] + t))) == Some((l.Ids(), t))
  {
    var (i, r, end) := (l.first.id, l.first.repeat, close + (['}'] + t));
    SymbolAccepts(close, '}', t);
    if l.LastId? {
      SymbolIsFirst(end, ',');
      RepeatAccepts(r, end);
      IntAccepts(i, r.Text(end));
      IdsLast(l.Text(end), (i.Value(), r.Text(end)), (r.Num(), r.Stride(), end), t);
    } else {
      var t' := l.comma + ([','] + l.rest.Text(end));
      SymbolAccepts(l.comma, ',', l.rest.Text(end));
      RepeatAccepts(r, t');
      IntAccepts(i, r.Text(t'));
      IdsAccepts(l.rest, close, t);
      IdsMore(l.Text(end), (i.Value(), r.Text(t')), (r.Num(), r.Stride(), t'), l.rest.Text(end), (l.rest.Ids(), t));
    }
  }

  lemma EsAccepts(es: G.EsIdList, t: string)
    requires es.Valid() && Stops(t)
    ensures EsIdList(es.Text(t)) == Some((es.Ids(), t))
  {
    match es
    case Id(id) => IntAccepts(id, t);
    case Braces(open, ids, close) =>
      SymbolAccepts(open, '{', ids.Text(close + (['}'] + t)));
      NoInt(es.Text(t));
      IdsAccepts(ids, close, t);
  }

  lemma ListLast(t: string, es: (seq<int>, string), repeat: (int, int, string))
    requires EsIdList(t) == Some(es) && Repeat(es.1) == Some(repeat)
    requires Symbol(repeat.2, ',').None? && Symbol(repeat.2, '\0').Some?
    ensures List(t) == Some(G.Copies(es.0, repeat.0, repeat.1))
  {
  }

  lemma ListMore(t: string, es: (seq<int>, string), repeat: (int, int, string), next: string, rest: seq<seq<int>>)
    requires EsIdList(t) == Some(es) && Repeat(es.1) == Some(repeat)
    requires Symbol(repeat.2, ',') == Some(next) && List(next) == Some(rest)
    ensures List(t) == Some(G.Copies(es.0, repeat.0, repeat.1) + rest)
  {
  }

  lemma {:induction false} ListAccepts(l: G.List)
    requires l.Valid()
    ensures List(l.Text("\0")) == Some(l.Lists())
  {
    var (es, r, t) := (l.first.es, l.first.repeat, l.Text("\0"));
    if l.Last? {
      var t' := l.end + "\0";
      assert t' == l.end + (['\0'] + "");
      SymbolAccepts(l.end, '\0', "");
      SymbolIsFirst(t', ',');
      RepeatAccepts(r, t');
      EsAccepts(es, r.Text(t'));
      ListLast(t, (es.Ids(), r.Text(t')), (r.Num(), r.Stride(), t'));
    } else {
      var t' := l.comma + ([','] + l.rest.Text("\0"));
      SymbolAccepts(l.comma, ',', l.rest.Text("\0"));
      RepeatAccepts(r, t');
      EsAccepts(es, r.Text(t'));
      ListAccepts(l.rest);
      ListMore(t, (es.Ids(), r.Text(t')), (r.Num(), r.Stride(), t'), l.rest.Text("\0"), l.rest.Lists());
    }
  }

  // ----- and nothing else is

  lemma RepeatTree(t: string) returns (r: G.Repeat)
    requires Repeat(t).Some?
    ensures r.Valid() && (r.Num(), r.Stride()) == (Repeat(t).value.0, Repeat(t).value.1)
    ensures t == r.Text(Repeat(t).value.2)
  {
    var colon := Symbol(t, ':');
    if colon.None? {
      r := G.Once;
    } else {
      var c := SymbolBlanks(t, ':');
      var n := IntToken(colon.value);
      var t' := Pint(colon.value).value.1;
      if Symbol(t', ':').None? {
        r := G.Times(c, n);
      } else {
        var c2 := SymbolBlanks(t', ':');
        var s := IntToken(Symbol(t', ':').value);
        r := G.Strided(c, n, c2, s);
      }
    }
  }

  lemma {:induction false} IdsTree(t: string) returns (l: G.IdList, close: string)
    requires Ids(t).Some?
    ensures l.Valid() && G.Blanks(close) && l.Ids() == Ids(t).value.0
    ensures t == l.Text(close + (['}'] + Ids(t).value.1))
    decreases |t|
  {
    var i := IntToken(t);
    var r := RepeatTree(Int(t).value.1);
    var t' := Repeat(Int(t).value.1).value.2;
    if Symbol(t', ',').Some? {
      var comma := SymbolBlanks(t', ',');
      var rest;
      rest, close := IdsTree(Symbol(t', ',').value);
      l := G.MoreIds(G.IdInterval(i, r), comma, rest);
    } else {
      close := SymbolBlanks(t', '}');
      l := G.LastId(G.IdInterval(i, r));
    }
  }

  lemma EsTree(t: string) returns (es: G.EsIdList)
    requires EsIdList(t).Some?
    ensures es.Valid() && es.Ids() == EsIdList(t).value.0 && t == es.Text(EsIdList(t).value.1)
  {
    if Int(t).Some? {
      var id := IntToken(t);
      es := G.Id(id);
    } else {
      var open := SymbolBlanks(t, '{');
      var ids, close := IdsTree(Symbol(t, '{').value);
      es := G.Braces(open, ids, close);
    }
  }

  /** What lies behind the terminator is not part of the string. */
  lemma {:induction false} ListTree(t: string) returns (l: G.List, behind: string)
    requires List(t).Some?
    ensures l.Valid() && l.Lists() == List(t).value && t == l.Text(['\0'] + behind)
    decreases |t|
  {
    var es := EsTree(t);
    var t1 := EsIdList(t).value.1;
    var r := RepeatTree(t1);
    var t2 := Repeat(t1).value.2;
    if Symbol(t2, ',').Some? {
      var comma := SymbolBlanks(t2, ',');
      var rest;
      rest, behind := ListTree(Symbol(t2, ',').value);
      l := G.More(G.Interval(es, r), comma, rest);
    } else {
      var end := SymbolBlanks(t2, '\0');
      behind := Symbol(t2, '\0').value;
      l := G.Last(G.Interval(es, r), end);
    }
  }

  // ----- the theorems

  /** A string is split at its first terminator in one way only. */
  lemma SameString(s: string, a: string, behind: string)
    requires CString(s) && s + ['\0'] == a + (['\0'] + behind)
    ensures a == s
  {
    var t := a + (['\0'] + behind);
    forall k | 0 <= k < |s| ensures t[k] == s[k] && t[k] != '\0' {
      assert t[k] == (s + ['\0'])[k];
    }
    assert t[|a|] == '\0' && t[..|a|] == a;
    assert (s + ['\0'])[..|s|] == s;
  }

  /** The parser succeeds exactly on the texts of valid trees, and returns what the tree stands for. */
  lemma ParsesExactlyTheGrammar(s: string, lists: seq<seq<int>>)
    requires CString(s)
    ensures Parse(s) == Some(lists) <==>
            exists l: G.List :: l.Valid() && l.Text("") == s && l.Lists() == lists
  {
    if Parse(s) == Some(lists) {
      var l, behind := ListTree(s + "\0");
      G.ListTail(l, "", ['\0'] + behind);
      assert "" + (['\0'] + behind) == ['\0'] + behind;
      SameString(s, l.Text(""), behind);
    }
    if l: G.List :| l.Valid() && l.Text("") == s && l.Lists() == lists {
      ListIsParsed(l);
    }
  }

  lemma ListIsParsed(l: G.List)
    requires l.Valid()
    ensures Parse(l.Text("")) == Some(l.Lists())
  {
    G.ListTail(l, "", "\0");
    assert "" + "\0" == "\0";
    ListAccepts(l);
  }

  /** Adding or removing blanks before tokens, or at the end, does not change the result. */
  lemma BlanksDoNotMatter(l: G.List, l': G.List)
    requires l.Valid() && l'.Valid() && l.Strip() == l'.Strip()
    ensures Parse(l.Text("")) == Parse(l'.Text(""))
  {
    ListIsParsed(l);
    ListIsParsed(l');
    G.StripList(l);
    G.StripList(l');
  }

  /** A leading space, tab, carriage return or newline is skipped. */
  lemma LeadingBlankIsSkipped(c: char, s: string)
    requires c == ' ' || c == '\t' || c == '\r' || c == '\n'
    ensures Parse([c] + s) == Parse(s)
  {
    var t := s + "\0";
    assert ([c] + s) + "\0" == [c] + t;
    assert ([c] + t)[1..] == t;
    assert EsIdList([c] + t) == EsIdList(t);
  }

  /** Any other character that cannot begin a list makes the parse fail. */
  lemma OtherCharactersFail(c: char, s: string)
    requires c != ' ' && c != '\t' && c != '\r' && c != '\n' && c != '{' && c != '+' && c != '-'
    requires c < '0' || '9' < c
    ensures Parse([c] + s) == None
  {
    var t := s + "\0";
    assert ([c] + s) + "\0" == [c] + t;
    assert Int([c] + t) == None && Symbol([c] + t, '{') == None;
  }

  lemma NoBlanks(t: string)
    ensures "" + t == t
  {
  }
}
