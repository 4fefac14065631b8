/**
  Prepared INSERT statements: parameters are printed as literals into the template's text, and the
  hand-written parser reads the statement back.  Text is a sequence of bytes; reading past its end
  gives the terminating zero byte.
  */
module InsertTemplate {
  import opened Sequences
  import opened Options

  type Text = seq<Byte>

  const QUOTE: Byte := 39
  const DOLLAR: Byte := 36
  const OPEN: Byte := 40
  const CLOSE: Byte := 41
  const PLUS: Byte := 43
  const COMMA: Byte := 44
  const MINUS: Byte := 45
  const DOT: Byte := 46
  const ZERO: Byte := 48
  const SEMICOLON: Byte := 59
  const INSERT_KW: Text := [105, 110, 115, 101, 114, 116]
  const INTO_KW: Text := [105, 110, 116, 111]
  const VALUES_KW: Text := [118, 97, 108, 117, 101, 115]

  predicate IsWs(b: Byte) { b == 32 || b == 9 || b == 10 || b == 13 }

  predicate IsDigit(b: Byte) { 48 <= b <= 57 }

  predicate IsAlpha(b: Byte) { 65 <= b <= 90 || 97 <= b <= 122 || b == 95 }

  predicate IsWord(b: Byte) { IsAlpha(b) || IsDigit(b) }

  function Lower(b: Byte): Byte { if 65 <= b <= 90 then b + 32 else b }

  /** The byte at the front of the text, or the terminating zero. */
  function Head(s: Text): Byte { if s == [] then 0 else s[0] }

  // -------------------------------------------------------------------------------------------
  // Decimal numbers

  predicate AllDigits(s: Text) { forall i :: 0 <= i < |s| ==> IsDigit(s[i]) }

  function Decimal(s: Text): nat
    requires AllDigits(s)
  {
    if s == [] then 0 else Decimal(s[..|s| - 1]) * 10 + (s[|s| - 1] - ZERO)
  }

  function Digits(n: nat): (s: Text)
    ensures s != [] && AllDigits(s)
  {
    if n < 10 then [ZERO + n] else Digits(n / 10) + [ZERO + n % 10]
  }

  lemma {:induction false} DigitsBack(n: nat)
    ensures Decimal(Digits(n)) == n
  {
    if n < 10 {
      assert Digits(n)[..0] == [];
    } else {
      DigitsBack(n / 10);
      assert Digits(n)[..|Digits(n)| - 1] == Digits(n / 10);
    }
  }

  /** Length of the run of digits at the front. */
  function DigitRun(s: Text): (n: nat)
    ensures n <= |s| && AllDigits(s[..n]) && (n < |s| ==> !IsDigit(s[n]))
  {
    if s == [] || !IsDigit(s[0]) then 0 else
      assert s[..1 + DigitRun(s[1..])] == [s[0]] + s[1..][..DigitRun(s[1..])];
      1 + DigitRun(s[1..])
  }

  lemma {:induction false} RunOf(d: Text, rest: Text)
    requires AllDigits(d) && !IsDigit(Head(rest))
    ensures DigitRun(d + rest) == |d| && (d + rest)[..|d|] == d && (d + rest)[|d|..] == rest
  {
    if d == [] {
      assert d + rest == rest;
    } else {
      assert (d + rest)[1..] == d[1..] + rest;
      RunOf(d[1..], rest);
    }
  }

  // -------------------------------------------------------------------------------------------
  // Parameters as literals

  datatype Param = IntParam(i: int) | CharParam(bytes: Text) | NullInt | NullChar

  predicate Is32(i: int) { -0x8000_0000 <= i < 0x8000_0000 }

  predicate ParamOk(p: Param) { p.IntParam? ==> Is32(p.i) }

  function PrintInt(i: int): Text {
    if i < 0 then [MINUS] + Digits(-i) else Digits(i)
  }

  /** The literal for a parameter; a quote inside a string is refused. */
  function PrintParam(p: Param): Option<Text> {
    match p
    case IntParam(i) => Some(PrintInt(i))
    case CharParam(b) => if QUOTE in b then None else Some([QUOTE] + b + [QUOTE])
    case NullInt => Some([ZERO])
    case NullChar => Some([QUOTE, QUOTE])
  }

  // -------------------------------------------------------------------------------------------
  // Substitution

  /** The text with its markers replaced; inside quotes nothing is a marker. */
  function Substituted(t: Text, lits: seq<Text>, inStr: bool): Text {
    if t == [] then []
    else if inStr then [t[0]] + Substituted(t[1..], lits, t[0] != QUOTE)
    else if t[0] == QUOTE then [t[0]] + Substituted(t[1..], lits, true)
    else if t[0] == DOLLAR && IsDigit(Head(t[1..])) && 1 <= Decimal(t[1..][..DigitRun(t[1..])]) <= |lits| then
      lits[Decimal(t[1..][..DigitRun(t[1..])]) - 1] + Substituted(t[1..][DigitRun(t[1..])..], lits, false)
    else [t[0]] + Substituted(t[1..], lits, false)
  }

  /** The loop over the template. */
  method SubstituteParams(t: Text, lits: seq<Text>) returns (out: Text)
    ensures out == Substituted(t, lits, false)
  {
    out := [];
    var inStr := false;
    var i := 0;
    while i < |t|
      invariant 0 <= i <= |t| && out + Substituted(t[i..], lits, inStr) == Substituted(t, lits, false)
    {
      var c := t[i];
      assert t[i..][1..] == t[i + 1..];
      if inStr {
        Shift(out, c, Substituted(t[i + 1..], lits, c != QUOTE));
        out := out + [c];
        if c == QUOTE {
          inStr := false;
        }
        i := i + 1;
        continue;
      }
      if c == QUOTE {
        Shift(out, c, Substituted(t[i + 1..], lits, true));
        inStr := true;
        out := out + [c];
        i := i + 1;
        continue;
      }
      if c == DOLLAR && i + 1 < |t| && IsDigit(t[i + 1]) {
        var num, j := ReadNumber(t, i + 1);
        if 1 <= num <= |lits| {
          assert t[i + 1..][j - (i + 1)..] == t[j..];
          assert out + (lits[num - 1] + Substituted(t[j..], lits, false)) == (out + lits[num - 1]) + Substituted(t[j..], lits, false);
          out := out + lits[num - 1];
          i := j;
          continue;
        }
      }
      Shift(out, c, Substituted(t[i + 1..], lits, false));
      out := out + [c];
      i := i + 1;
    }
  }

  lemma Shift(a: Text, c: Byte, b: Text)
    ensures a + ([c] + b) == (a + [c]) + b
  {
  }

  method ReadNumber(t: Text, from: nat) returns (num: nat, j: nat)
    requires from <= |t|
    ensures j == from + DigitRun(t[from..]) && num == Decimal(t[from..][..DigitRun(t[from..])])
  {
    num, j := 0, from;
    while j < |t| && IsDigit(t[j])
      invariant from <= j <= |t| && AllDigits(t[from..j]) && num == Decimal(t[from..j])
    {
      assert t[from..j + 1] == t[from..j] + [t[j]];
      num := num * 10 + (t[j] - ZERO);
      j := j + 1;
    }
    assert t[from..] == t[from..j] + t[j..];
    RunOf(t[from..j], t[j..]);
  }

  // -------------------------------------------------------------------------------------------
  // The parser, on what is left of the text

  datatype Lit = IntLit(i: int) | StrLit(bytes: Text) | FloatLit(text: Text)

  datatype InsertStmt = InsertStmt(tab: Text, vals: seq<Lit>)

  function SkipWs(s: Text): (r: Text)
    ensures |r| <= |s|
  {
    if s != [] && IsWs(s[0]) then SkipWs(s[1..]) else s
  }

  /** Skips white space and a keyword in any case. */
  function Keyword(s: Text, k: Text): (r: Option<Text>)
    ensures r.Some? ==> |r.value| <= |s|
  {
    var s1 := SkipWs(s);
    if |k| <= |s1| && forall i :: 0 <= i < |k| ==> Lower(s1[i]) == k[i] then Some(s1[|k|..]) else None
  }

  function WordRun(s: Text): (n: nat)
    ensures n <= |s|
  {
    if s == [] || !IsWord(s[0]) then 0 else 1 + WordRun(s[1..])
  }

  /** Length of a string body up to the closing quote or the end of the text. */
  function BodyRun(s: Text): (n: nat)
    ensures n <= |s|
  {
    if Head(s) == 0 || s[0] == QUOTE then 0 else 1 + BodyRun(s[1..])
  }

  /** A string after its opening quote. */
  function AfterQuote(s: Text): (r: Option<(Lit, Text)>)
    ensures r.Some? ==> |r.value.1| < |s|
  {
    var n := BodyRun(s);
    if Head(s[n..]) != QUOTE then None else Some((StrLit(s[..n]), s[n..][1..]))
  }

  /** A number after its sign; all is the text from the sign on. */
  function AfterSign(s: Text, all: Text, negative: bool): (r: Option<(Lit, Text)>)
    requires |s| <= |all|
    ensures r.Some? ==> |r.value.1| < |s|
  {
    var n := DigitRun(s);
    if n == 0 then None
    else if Head(s[n..]) == DOT then
      var rest := s[n..][1..];
      var after := rest[DigitRun(rest)..];
      Some((FloatLit(all[..|all| - |after|]), after))
    else
      var v: int := Decimal(s[..n]);
      Some((IntLit(if negative then -v else v), s[n..]))
  }

  /** A literal at the front, and what follows it. */
  function Value(s: Text): (r: Option<(Lit, Text)>)
    ensures r.Some? ==> |r.value.1| < |s|
  {
    if Head(s) == QUOTE then AfterQuote(s[1..])
    else if Head(s) == MINUS || Head(s) == PLUS then AfterSign(s[1..], s, Head(s) == MINUS)
    else if IsDigit(Head(s)) then AfterSign(s, s, false)
    else None
  }

  /** Literals separated by commas up to the closing parenthesis. */
  function Values(s: Text): Option<(seq<Lit>, Text)>
    decreases |s|
  {
    match Value(SkipWs(s))
    case None => None
    case Some(v) =>
      var s1 := SkipWs(v.1);
      if Head(s1) == COMMA then
        match Values(s1[1..])
        case None => None
        case Some(rest) => Some(([v.0] + rest.0, rest.1))
      else if Head(s1) == CLOSE then Some(([v.0], s1[1..]))
      else None
  }

  function Tail(s: Text, tab: Text): Option<InsertStmt> {
    var (vals, s1) :- Values(s);
    var s2 := SkipWs(s1);
    var s3 := if Head(s2) == SEMICOLON then SkipWs(s2[1..]) else s2;
    if Head(s3) == 0 then Some(InsertStmt(tab, vals)) else None
  }

  function ParseInsert(s: Text): Option<InsertStmt> {
    var s1 :- Keyword(s, INSERT_KW);
    var s2 :- Keyword(s1, INTO_KW);
    var s3 := SkipWs(s2);
    if !IsAlpha(Head(s3)) then None else
      var n := WordRun(s3);
      if Head(SkipWs(s3[n..])) == OPEN then None else
        var s4 :- Keyword(s3[n..], VALUES_KW);
        var s5 := SkipWs(s4);
        if Head(s5) != OPEN then None else Tail(s5[1..], s3[..n])
  }

  // -------------------------------------------------------------------------------------------
  // The parser as a pointer walking over the text

  method WalkWs(s: Text, p: nat) returns (q: nat)
    requires p <= |s|
    ensures p <= q <= |s| && s[q..] == SkipWs(s[p..])
  {
    q := p;
    while q < |s| && IsWs(s[q])
      invariant p <= q <= |s| && SkipWs(s[q..]) == SkipWs(s[p..])
    {
      assert s[q..][1..] == s[q + 1..];
      q := q + 1;
    }
  }

  method WalkKeyword(s: Text, p: nat, k: Text) returns (ok: bool, q: nat)
    requires p <= |s| && 0 !in k
    ensures p <= q <= |s| && Keyword(s[p..], k) == if ok then Some(s[q..]) else None
  {
    var start := WalkWs(s, p);
    q := start;
    for i := 0 to |k|
      invariant q == start + i <= |s|
      invariant forall j :: 0 <= j < i ==> Lower(s[start..][j]) == k[j]
    {
      if q == |s| || Lower(s[q]) != k[i] {
        assert q < |s| ==> s[start..][i] == s[q];
        return false, p;
      }
      assert s[start..][i] == s[q];
      q := q + 1;
    }
    assert s[start..][|k|..] == s[q..];
    ok := true;
  }

  method WalkDigits(s: Text, p: nat) returns (q: nat)
    requires p <= |s|
    ensures q == p + DigitRun(s[p..]) && q <= |s|
  {
    q := p;
    while q < |s| && IsDigit(s[q])
      invariant p <= q <= |s| && q + DigitRun(s[q..]) == p + DigitRun(s[p..])
    {
      assert s[q..][1..] == s[q + 1..];
      q := q + 1;
    }
  }

  method WalkString(s: Text, p: nat) returns (v: Option<Lit>, q: nat)
    requires p <= |s|
    ensures p <= q <= |s| && AfterQuote(s[p..]) == if v.Some? then Some((v.value, s[q..])) else None
  {
    q := p;
    while q < |s| && s[q] != 0 && s[q] != QUOTE
      invariant p <= q <= |s| && q + BodyRun(s[q..]) == p + BodyRun(s[p..])
    {
      assert s[q..][1..] == s[q + 1..];
      q := q + 1;
    }
    assert s[p..][q - p..] == s[q..] && s[p..][..q - p] == s[p..q];
    if Head(s[q..]) != QUOTE {
      return None, p;
    }
    assert s[q..][1..] == s[q + 1..];
    v, q := Some(StrLit(s[p..q])), q + 1;
  }

  method WalkNumber(s: Text, from: nat, p: nat, negative: bool) returns (v: Option<Lit>, q: nat)
    requires from <= p <= |s|
    ensures p <= q <= |s| && AfterSign(s[p..], s[from..], negative) == if v.Some? then Some((v.value, s[q..])) else None
    ensures v.Some? ==> p < q
  {
    hide DigitRun, Decimal;
    q := WalkDigits(s, p);
    if q == p {
      return None, p;
    }
    assert s[p..][q - p..] == s[q..] && s[p..][..q - p] == s[p..q];
    if Head(s[q..]) == DOT {
      assert s[q..][1..] == s[q + 1..];
      var f := WalkDigits(s, q + 1);
      assert s[q + 1..][f - (q + 1)..] == s[f..] && s[from..][..|s[from..]| - |s[f..]|] == s[from..f];
      return Some(FloatLit(s[from..f])), f;
    }
    var num, j := ReadNumber(s, p);
    var n: int := num;
    v := Some(IntLit(if negative then -n else n));
  }

  method WalkValue(s: Text, p: nat) returns (v: Option<Lit>, q: nat)
    requires p <= |s|
    ensures p <= q <= |s| && Value(s[p..]) == if v.Some? then Some((v.value, s[q..])) else None
    ensures v.Some? ==> p < q
  {
    hide AfterQuote, AfterSign;
    var c := Head(s[p..]);
    q := p;
    v := None;
    if c == QUOTE {
      assert s[p..][1..] == s[p + 1..];
      v, q := WalkString(s, p + 1);
    } else if c == MINUS || c == PLUS {
      assert s[p..][1..] == s[p + 1..];
      v, q := WalkNumber(s, p, p + 1, c == MINUS);
    } else if IsDigit(c) {
      v, q := WalkNumber(s, p, p, false);
    }
  }

  method WalkValues(s: Text, p: nat) returns (vals: Option<seq<Lit>>, q: nat)
    requires p <= |s|
    ensures p <= q <= |s| && Values(s[p..]) == if vals.Some? then Some((vals.value, s[q..])) else None
    decreases |s| - p
  {
    hide Value;
    q := p;
    var list: seq<Lit> := [];
    PrependNone(Values(s[p..]));
    while true
      invariant p <= q <= |s| && Values(s[p..]) == Prepend(list, Values(s[q..]))
      decreases |s| - q
    {
      var start := WalkWs(s, q);
      var v, after := WalkValue(s, start);
      if v.None? {
        return None, p;
      }
      var next := WalkWs(s, after);
      if Head(s[next..]) == COMMA {
        assert s[next..][1..] == s[next + 1..];
        PrependOne(list, v.value, Values(s[next + 1..]));
        list := list + [v.value];
        q := next + 1;
        continue;
      }
      if Head(s[next..]) == CLOSE {
        assert s[next..][1..] == s[next + 1..];
        return Some(list + [v.value]), next + 1;
      }
      return None, p;
    }
  }

  function Prepend(list: seq<Lit>, r: Option<(seq<Lit>, Text)>): Option<(seq<Lit>, Text)> {
    match r
    case None => None
    case Some(p) => Some((list + p.0, p.1))
  }

  lemma PrependNone(r: Option<(seq<Lit>, Text)>)
    ensures Prepend([], r) == r
  {
    if r.Some? {
      assert [] + r.value.0 == r.value.0;
    }
  }

  lemma PrependOne(list: seq<Lit>, v: Lit, r: Option<(seq<Lit>, Text)>)
    ensures Prepend(list, Prepend([v], r)) == Prepend(list + [v], r)
  {
    if r.Some? {
      assert list + ([v] + r.value.0) == (list + [v]) + r.value.0;
    }
  }

  method WalkWord(s: Text, p: nat) returns (q: nat)
    requires p <= |s|
    ensures q == p + WordRun(s[p..]) && q <= |s|
  {
    q := p;
    while q < |s| && IsWord(s[q])
      invariant p <= q <= |s| && q + WordRun(s[q..]) == p + WordRun(s[p..])
    {
      assert s[q..][1..] == s[q + 1..];
      q := q + 1;
    }
  }

  method TryFastParseInsert(s: Text) returns (r: Option<InsertStmt>)
    ensures r == ParseInsert(s)
  {
    hide Keyword, Values, SkipWs, WordRun, Tail;
    assert s[0..] == s;
    var ok, p := WalkKeyword(s, 0, INSERT_KW);
    if !ok { return None; }
    ok, p := WalkKeyword(s, p, INTO_KW);
    if !ok { return None; }
    p := WalkWs(s, p);
    if !IsAlpha(Head(s[p..])) { return None; }
    var ts := p;
    p := WalkWord(s, p);
    var tab := s[ts..p];
    assert s[ts..][..p - ts] == tab && s[ts..][p - ts..] == s[p..];
    var w := WalkWs(s, p);
    if Head(s[w..]) == OPEN { return None; }
    ok, p := WalkKeyword(s, p, VALUES_KW);
    if !ok { return None; }
    p := WalkWs(s, p);
    if Head(s[p..]) != OPEN { return None; }
    assert s[p..][1..] == s[p + 1..];
    r := WalkTail(s, p + 1, tab);
  }

  method WalkTail(s: Text, from: nat, tab: Text) returns (r: Option<InsertStmt>)
    requires from <= |s|
    ensures r == Tail(s[from..], tab)
  {
    hide Values, SkipWs;
    var vals, p := WalkValues(s, from);
    if vals.None? { return None; }
    p := WalkWs(s, p);
    if Head(s[p..]) == SEMICOLON {
      assert s[p..][1..] == s[p + 1..];
      p := WalkWs(s, p + 1);
    }
    if Head(s[p..]) != 0 { return None; }
    r := Some(InsertStmt(tab, vals.value));
  }

  // -------------------------------------------------------------------------------------------
  // Templates

  /** One place in the list of values: a marker, an integer, or a string. */
  datatype Item = Marker(digits: Text) | Number(sign: Text, digits: Text) | Quoted(bytes: Text)

  /** An item with the white space around it. */
  datatype Slot = Slot(before: Text, item: Item, after: Text)

  /** The text of a single-row INSERT, cut where the grammar cuts it. */
  datatype Template = Template(w0: Text, insertKw: Text, w1: Text, intoKw: Text, w2: Text, tab: Text, w3: Text,
                               valuesKw: Text, w4: Text, slots: seq<Slot>, w5: Text, semicolon: bool, w6: Text)

  predicate AllWs(s: Text) { forall i :: 0 <= i < |s| ==> IsWs(s[i]) }

  predicate IsKeyword(s: Text, k: Text) {
    |s| == |k| && forall i :: 0 <= i < |s| ==> Lower(s[i]) == k[i]
  }

  predicate IsName(s: Text) {
    s != [] && IsAlpha(s[0]) && forall i :: 0 <= i < |s| ==> IsWord(s[i])
  }

  /** Markers are numbered from 1 to n; strings have no quote and no zero byte inside. */
  predicate ItemOk(it: Item, n: nat) {
    match it
    case Marker(d) => d != [] && AllDigits(d) && 1 <= Decimal(d) <= n
    case Number(sign, d) => (sign == [] || sign == [MINUS] || sign == [PLUS]) && d != [] && AllDigits(d)
    case Quoted(b) => QUOTE !in b && 0 !in b
  }

  predicate SlotOk(sl: Slot, n: nat) {
    AllWs(sl.before) && AllWs(sl.after) && ItemOk(sl.item, n)
  }

  predicate TemplateOk(t: Template, n: nat) {
    && AllWs(t.w0) && AllWs(t.w1) && AllWs(t.w2) && AllWs(t.w3) && t.w3 != [] && AllWs(t.w4) && AllWs(t.w5) && AllWs(t.w6)
    && IsKeyword(t.insertKw, INSERT_KW) && IsKeyword(t.intoKw, INTO_KW) && IsKeyword(t.valuesKw, VALUES_KW) && IsName(t.tab)
    && t.slots != [] && SlotsOk(t.slots, n)
  }

  function RawText(it: Item): Text {
    match it
    case Marker(d) => [DOLLAR] + d
    case Number(sign, d) => sign + d
    case Quoted(b) => [QUOTE] + b + [QUOTE]
  }

  function BoundText(it: Item, lits: seq<Text>): Text
    requires ItemOk(it, |lits|)
  {
    if it.Marker? then lits[Decimal(it.digits) - 1] else RawText(it)
  }

  /** The list of values with one text for every slot, up to the closing parenthesis. */
  function Render(slots: seq<Slot>, texts: seq<Text>): Text
    requires slots != [] && |texts| == |slots|
  {
    slots[0].before + texts[0] + slots[0].after + if |slots| == 1 then [CLOSE] else [COMMA] + Render(slots[1..], texts[1..])
  }

  function RawTexts(slots: seq<Slot>): (r: seq<Text>)
    ensures |r| == |slots|
  {
    if slots == [] then [] else [RawText(slots[0].item)] + RawTexts(slots[1..])
  }

  predicate SlotsOk(slots: seq<Slot>, n: nat) {
    forall i :: 0 <= i < |slots| ==> SlotOk(slots[i], n)
  }

  function BoundTexts(slots: seq<Slot>, lits: seq<Text>): (r: seq<Text>)
    requires SlotsOk(slots, |lits|)
    ensures |r| == |slots|
  {
    if slots == [] then [] else
      assert SlotOk(slots[0], |lits|);
      [BoundText(slots[0].item, lits)] + BoundTexts(slots[1..], lits)
  }

  function Front(t: Template): Text {
    t.w0 + (t.insertKw + (t.w1 + (t.intoKw + (t.w2 + (t.tab + (t.w3 + (t.valuesKw + (t.w4 + [OPEN]))))))))
  }

  function Back(t: Template): Text {
    t.w5 + ((if t.semicolon then [SEMICOLON] else []) + t.w6)
  }

  function TemplateText(t: Template): Text
    requires t.slots != []
  {
    Front(t) + (Render(t.slots, RawTexts(t.slots)) + Back(t))
  }

  // -------------------------------------------------------------------------------------------
  // Substituting into a template

  predicate Plain(s: Text) { QUOTE !in s && DOLLAR !in s }

  lemma {:induction false} PlainCopied(x: Text, rest: Text, lits: seq<Text>)
    requires Plain(x)
    ensures Substituted(x + rest, lits, false) == x + Substituted(rest, lits, false)
  {
    if x == [] {
      assert x + rest == rest;
    } else {
      assert x[0] in x;
      assert (x + rest)[1..] == x[1..] + rest;
      PlainCopied(x[1..], rest, lits);
    }
  }

  lemma {:induction false} BodyCopied(b: Text, rest: Text, lits: seq<Text>)
    requires QUOTE !in b
    ensures Substituted(b + [QUOTE] + rest, lits, true) == b + [QUOTE] + Substituted(rest, lits, false)
  {
    if b == [] {
      assert ([] + [QUOTE] + rest)[1..] == rest && [] + [QUOTE] + rest == [QUOTE] + rest;
    } else {
      assert b[0] in b;
      assert (b + [QUOTE] + rest)[1..] == b[1..] + [QUOTE] + rest;
      BodyCopied(b[1..], rest, lits);
    }
  }

  lemma MarkerBound(d: Text, rest: Text, lits: seq<Text>)
    requires d != [] && AllDigits(d) && 1 <= Decimal(d) <= |lits| && !IsDigit(Head(rest))
    ensures Substituted([DOLLAR] + d + rest, lits, false) == lits[Decimal(d) - 1] + Substituted(rest, lits, false)
  {
    hide Decimal, DigitRun, Substituted, AllDigits;
    var t := [DOLLAR] + d + rest;
    RunOf(d, rest);
    FirstOff(DOLLAR, d, rest);
    FirstDigit(d, rest);
    MarkerAhead(t, d, rest, lits);
  }

  lemma FirstOff(c: Byte, d: Text, rest: Text)
    ensures Head([c] + d + rest) == c && ([c] + d + rest)[1..] == d + rest
  {
  }

  lemma FirstDigit(d: Text, rest: Text)
    requires d != [] && AllDigits(d)
    ensures IsDigit(Head(d + rest)) && Head(d + rest) == d[0]
  {
  }

  lemma MarkerAhead(t: Text, d: Text, rest: Text, lits: seq<Text>)
    requires t != [] && Head(t) == DOLLAR && t[1..] == d + rest && IsDigit(Head(t[1..])) && AllDigits(d) && 1 <= Decimal(d) <= |lits|
    requires DigitRun(t[1..]) == |d| && t[1..][..|d|] == d && t[1..][|d|..] == rest
    ensures Substituted(t, lits, false) == lits[Decimal(d) - 1] + Substituted(rest, lits, false)
  {
    hide Decimal, DigitRun, AllDigits;
  }
  lemma NumberPlain(sign: Text, d: Text)
    requires (sign == [] || sign == [MINUS] || sign == [PLUS]) && AllDigits(d)
    ensures Plain(sign + d)
  {
  }

  /** An item followed by something that is no digit is replaced as a whole. */
  lemma ItemBound(it: Item, rest: Text, lits: seq<Text>)
    requires ItemOk(it, |lits|) && !IsDigit(Head(rest))
    ensures Substituted(RawText(it) + rest, lits, false) == BoundText(it, lits) + Substituted(rest, lits, false)
  {
    match it
    case Marker(d) => MarkerBound(d, rest, lits);
    case Number(sign, d) =>
      NumberPlain(sign, d);
      PlainCopied(sign + d, rest, lits);
    case Quoted(b) => QuotedCopied(b, rest, lits);
  }

  lemma QuotedCopied(b: Text, rest: Text, lits: seq<Text>)
    requires QUOTE !in b
    ensures Substituted([QUOTE] + b + [QUOTE] + rest, lits, false) == [QUOTE] + b + [QUOTE] + Substituted(rest, lits, false)
  {
    BodyCopied(b, rest, lits);
    assert ([QUOTE] + b + [QUOTE] + rest)[1..] == b + [QUOTE] + rest;
    assert [QUOTE] + (b + [QUOTE] + Substituted(rest, lits, false)) == [QUOTE] + b + [QUOTE] + Substituted(rest, lits, false);
  }

  /** What follows an item: white space, then a comma or the closing parenthesis. */
  predicate Ends(b: Byte) { IsWs(b) || b == COMMA || b == CLOSE }

  lemma {:induction false} SlotsBound(slots: seq<Slot>, back: Text, lits: seq<Text>)
    requires slots != [] && SlotsOk(slots, |lits|)
    ensures Substituted(Render(slots, RawTexts(slots)) + back, lits, false)
            == Render(slots, BoundTexts(slots, lits)) + Substituted(back, lits, false)
  {
    hide Substituted, RawText, BoundText, ItemOk;
    var sl := slots[0];
    var sep := if |slots| == 1 then CLOSE else COMMA;
    var rest := if |slots| == 1 then back else Render(slots[1..], RawTexts(slots[1..])) + back;
    var tail := sl.after + [sep] + rest;
    RenderFirst(slots, RawTexts(slots), back);
    RenderFirst(slots, BoundTexts(slots, lits), Substituted(back, lits, false));
    WsPlain(sl.before, []);
    WsPlain(sl.after, [sep]);
    PlainCopied(sl.before, RawText(sl.item) + tail, lits);
    ItemBound(sl.item, tail, lits);
    PlainCopied(sl.after + [sep], rest, lits);
    if |slots| > 1 {
      assert RawTexts(slots)[1..] == RawTexts(slots[1..]) && BoundTexts(slots, lits)[1..] == BoundTexts(slots[1..], lits);
      SlotsBound(slots[1..], back, lits);
    }
  }

  lemma WsPlain(w: Text, more: Text)
    requires AllWs(w) && Plain(more)
    ensures Plain(w + more)
  {
  }

  /** The first slot of a list of values followed by more text. */
  lemma RenderFirst(slots: seq<Slot>, texts: seq<Text>, back: Text)
    requires slots != [] && |texts| == |slots|
    ensures Render(slots, texts) + back ==
            slots[0].before + (texts[0] + (slots[0].after + [if |slots| == 1 then CLOSE else COMMA]
            + (if |slots| == 1 then back else Render(slots[1..], texts[1..]) + back)))
  {
  }

  // -------------------------------------------------------------------------------------------
  // Parsing what was substituted

  /** A literal, or nothing if a string would end at a zero byte inside. */
  function ParamLit(p: Param): Option<Lit> {
    match p
    case IntParam(i) => Some(IntLit(i))
    case CharParam(b) => if 0 in b then None else Some(StrLit(b))
    case NullInt => Some(IntLit(0))
    case NullChar => Some(StrLit([]))
  }

  function ItemLit(it: Item, params: seq<Param>): Option<Lit>
    requires ItemOk(it, |params|)
  {
    match it
    case Marker(d) => ParamLit(params[Decimal(d) - 1])
    case Number(sign, d) =>
      var n: int := Decimal(d);
      Some(IntLit(if sign == [MINUS] then -n else n))
    case Quoted(b) => Some(StrLit(b))
  }

  /** The values of all slots, or nothing if one of them has none. */
  function SlotLits(slots: seq<Slot>, params: seq<Param>): Option<seq<Lit>>
    requires SlotsOk(slots, |params|)
  {
    if slots == [] then Some([]) else
      assert SlotOk(slots[0], |params|);
      var l :- ItemLit(slots[0].item, params);
      var rest :- SlotLits(slots[1..], params);
      Some([l] + rest)
  }

  /** A marker whose parameter is a string with a zero byte in it. */
  predicate HoldsZero(it: Item, params: seq<Param>)
    requires ItemOk(it, |params|)
  {
    it.Marker? && var p := params[Decimal(it.digits) - 1]; p.CharParam? && 0 in p.bytes
  }

  predicate UsesZero(slots: seq<Slot>, params: seq<Param>)
    requires SlotsOk(slots, |params|)
  {
    exists i :: 0 <= i < |slots| && SlotOk(slots[i], |params|) && HoldsZero(slots[i].item, params)
  }

  /** One value for every slot: a marker's parameter or the constant that is written there. */
  ghost predicate AreValues(slots: seq<Slot>, params: seq<Param>, vals: seq<Lit>)
    requires SlotsOk(slots, |params|)
  {
    |vals| == |slots| && forall i :: 0 <= i < |slots| ==> SlotOk(slots[i], |params|) && ItemLit(slots[i].item, params) == Some(vals[i])
  }

  /** Every slot has its value unless a used string holds a zero byte. */
  lemma {:induction false} SlotValues(slots: seq<Slot>, params: seq<Param>)
    requires SlotsOk(slots, |params|)
    ensures SlotLits(slots, params).None? <==> UsesZero(slots, params)
    ensures SlotLits(slots, params).Some? ==> AreValues(slots, params, SlotLits(slots, params).value)
  {
    hide Decimal;
    if slots != [] {
      assert SlotOk(slots[0], |params|);
      SlotValues(slots[1..], params);
      assert slots == [slots[0]] + slots[1..];
      ZeroFirst(slots, params);
      assert ItemLit(slots[0].item, params).None? <==> HoldsZero(slots[0].item, params);
    }
  }

  lemma ZeroFirst(slots: seq<Slot>, params: seq<Param>)
    requires slots != [] && SlotsOk(slots, |params|)
    ensures SlotOk(slots[0], |params|)
    ensures UsesZero(slots, params) <==> HoldsZero(slots[0].item, params) || UsesZero(slots[1..], params)
  {
    hide HoldsZero, ItemOk;
    assert SlotOk(slots[0], |params|);
    assert forall i :: 0 <= i < |slots| - 1 ==> slots[1..][i] == slots[i + 1];
    if UsesZero(slots, params) && !HoldsZero(slots[0].item, params) {
      var i :| 0 <= i < |slots| && SlotOk(slots[i], |params|) && HoldsZero(slots[i].item, params);
      assert slots[1..][i - 1] == slots[i];
    }
  }

  /** The text is a literal that reads as the given value, whatever ends it. */
  ghost predicate ReadsAs(text: Text, l: Option<Lit>) {
    && text != [] && !IsWs(text[0])
    && forall rest :: Ends(Head(rest)) ==> Value(text + rest) == match l case None => None case Some(v) => Some((v, rest))
  }

  lemma {:induction false} BodyEnds(b: Text, rest: Text)
    requires QUOTE !in b
    ensures 0 !in b ==> BodyRun(b + [QUOTE] + rest) == |b|
    ensures 0 in b ==> Head((b + [QUOTE] + rest)[BodyRun(b + [QUOTE] + rest)..]) == 0
  {
    var t := b + [QUOTE] + rest;
    if b != [] {
      assert b[0] in b && t[1..] == b[1..] + [QUOTE] + rest;
      if b[0] != 0 {
        BodyEnds(b[1..], rest);
        assert t[BodyRun(t)..] == t[1..][BodyRun(t[1..])..];
      }
    }
  }

  lemma StringReads(b: Text)
    requires QUOTE !in b
    ensures ReadsAs([QUOTE] + b + [QUOTE], if 0 in b then None else Some(StrLit(b)))
  {
    var text := [QUOTE] + b + [QUOTE];
    forall rest | Ends(Head(rest))
      ensures Value(text + rest) == if 0 in b then None else Some((StrLit(b), rest))
    {
      StringValue(b, rest);
    }
  }

  lemma StringValue(b: Text, rest: Text)
    requires QUOTE !in b
    ensures Value([QUOTE] + b + [QUOTE] + rest) == if 0 in b then None else Some((StrLit(b), rest))
  {
    hide BodyRun;
    var s := [QUOTE] + b + [QUOTE] + rest;
    assert s[1..] == b + [QUOTE] + rest;
    BodyEnds(b, rest);
    if 0 !in b {
      assert s[1..][|b|..] == [QUOTE] + rest && s[1..][..|b|] == b && s[1..][|b|..][1..] == rest;
    }
  }

  lemma NumberReads(sign: Text, d: Text)
    requires (sign == [] || sign == [MINUS] || sign == [PLUS]) && d != [] && AllDigits(d)
    ensures var n: int := Decimal(d); ReadsAs(sign + d, Some(IntLit(if sign == [MINUS] then -n else n)))
  {
    hide Value, Decimal;
    var n: int := Decimal(d);
    var l := IntLit(if sign == [MINUS] then -n else n);
    SignFirst(sign, d);
    forall rest | Ends(Head(rest)) ensures Value(sign + d + rest) == Some((l, rest)) {
      NumberValue(sign, d, rest);
    }
  }

  lemma SignFirst(sign: Text, d: Text)
    requires (sign == [] || sign == [MINUS] || sign == [PLUS]) && d != [] && AllDigits(d)
    ensures sign + d != [] && !IsWs((sign + d)[0])
  {
  }

  lemma NumberValue(sign: Text, d: Text, rest: Text)
    requires (sign == [] || sign == [MINUS] || sign == [PLUS]) && d != [] && AllDigits(d) && Ends(Head(rest))
    ensures var n: int := Decimal(d); Value(sign + d + rest) == Some((IntLit(if sign == [MINUS] then -n else n), rest))
  {
    hide Decimal, DigitRun, AfterQuote, AfterSign, AllDigits;
    var s := sign + d + rest;
    RunOf(d, rest);
    FirstDigit(d, rest);
    if sign == [] {
      assert s == d + rest;
      DigitsValue(d, rest, s, false);
    } else {
      FirstOff(sign[0], d, rest);
      DigitsValue(d, rest, s, sign == [MINUS]);
    }
  }

  lemma DigitsValue(d: Text, rest: Text, all: Text, negative: bool)
    requires d != [] && AllDigits(d) && Ends(Head(rest)) && |d + rest| <= |all|
    ensures var n: int := Decimal(d); AfterSign(d + rest, all, negative) == Some((IntLit(if negative then -n else n), rest))
  {
    hide Decimal, DigitRun;
    RunOf(d, rest);
  }

  /** Printing a parameter and reading it gives the parameter back. */
  lemma ParamReads(p: Param)
    requires ParamOk(p) && PrintParam(p).Some?
    ensures ReadsAs(PrintParam(p).value, ParamLit(p))
  {
    hide ReadsAs, Decimal, Digits;
    match p
    case IntParam(i) =>
      DigitsBack(if i < 0 then -i else i);
      NumberReads(if i < 0 then [MINUS] else [], Digits(if i < 0 then -i else i));
      assert [] + Digits(if i < 0 then -i else i) == Digits(if i < 0 then -i else i);
    case CharParam(b) => StringReads(b);
    case NullInt =>
      NumberReads([], [ZERO]);
      assert [] + [ZERO] == [ZERO];
      ZeroDecimal();
    case NullChar =>
      StringReads([]);
      assert [QUOTE] + [] + [QUOTE] == [QUOTE, QUOTE];
  }

  lemma ZeroDecimal()
    ensures AllDigits([ZERO]) && Decimal([ZERO]) == 0
  {
    assert [ZERO][..0] == [];
  }

  ghost predicate PrintedAs(params: seq<Param>, lits: seq<Text>) {
    |lits| == |params| && forall i :: 0 <= i < |params| ==> ParamOk(params[i]) && PrintParam(params[i]) == Some(lits[i])
  }

  lemma ItemReads(it: Item, params: seq<Param>, lits: seq<Text>)
    requires ItemOk(it, |params|) && PrintedAs(params, lits)
    ensures ReadsAs(BoundText(it, lits), ItemLit(it, params))
  {
    hide ReadsAs, Decimal, PrintParam, ParamLit;
    match it
    case Marker(d) => ParamReads(params[Decimal(d) - 1]);
    case Number(sign, d) => NumberReads(sign, d);
    case Quoted(b) => StringReads(b);
  }

  lemma {:induction false} WsSkipped(w: Text, rest: Text)
    requires AllWs(w) && !IsWs(Head(rest))
    ensures SkipWs(w + rest) == rest
  {
    if w == [] {
      assert w + rest == rest;
    } else {
      assert (w + rest)[1..] == w[1..] + rest;
      WsSkipped(w[1..], rest);
    }
  }

  /** The list of values reads as the values of its slots. */
  lemma {:induction false} SlotsRead(slots: seq<Slot>, params: seq<Param>, lits: seq<Text>, back: Text)
    requires slots != [] && SlotsOk(slots, |params|) && |lits| == |params| && PrintedAs(params, lits)
    ensures Values(Render(slots, BoundTexts(slots, lits)) + back)
            == match SlotLits(slots, params) case None => None case Some(v) => Some((v, back))
  {
    hide Value, ReadsAs, BoundText, ItemLit, ItemOk, PrintedAs, SkipWs;
    var sl := slots[0];
    assert SlotOk(sl, |params|);
    var sep := if |slots| == 1 then CLOSE else COMMA;
    var rest := if |slots| == 1 then back else Render(slots[1..], BoundTexts(slots[1..], lits)) + back;
    var text := BoundText(sl.item, lits);
    var tail := sl.after + ([sep] + rest);
    RenderFirst(slots, BoundTexts(slots, lits), back);
    assert sl.after + [sep] + rest == tail;
    ItemReads(sl.item, params, lits);
    OneValue(sl, text, ItemLit(sl.item, params), sep, rest);
    assert ([sep] + rest)[1..] == rest;
    if |slots| > 1 {
      SlotsRead(slots[1..], params, lits, back);
    } else {
      LastSlot(slots, params);
    }
  }

  lemma LastSlot(slots: seq<Slot>, params: seq<Param>)
    requires |slots| == 1 && SlotsOk(slots, |params|) && ItemOk(slots[0].item, |params|)
    ensures SlotLits(slots, params) == match ItemLit(slots[0].item, params) case None => None case Some(l) => Some([l])
  {
    hide ItemLit, ItemOk;
    assert SlotLits(slots[1..], params) == Some([]);
    if ItemLit(slots[0].item, params).Some? {
      var l := ItemLit(slots[0].item, params).value;
      assert [l] + [] == [l];
    }
  }

  lemma OneValue(sl: Slot, text: Text, l: Option<Lit>, sep: Byte, rest: Text)
    requires AllWs(sl.before) && AllWs(sl.after) && ReadsAs(text, l) && (sep == COMMA || sep == CLOSE)
    ensures var tail := sl.after + ([sep] + rest);
            && SkipWs(sl.before + (text + tail)) == text + tail
            && Value(text + tail) == (match l case None => None case Some(v) => Some((v, tail)))
            && SkipWs(tail) == [sep] + rest
  {
    hide Value;
    var tail := sl.after + ([sep] + rest);
    WsSkipped(sl.before, text + tail);
    WsSkipped(sl.after, [sep] + rest);
    assert Head(tail) == if sl.after == [] then sep else sl.after[0];
  }

  /** The keyword at the front, in any case. */
  lemma KeywordRead(w: Text, kw: Text, k: Text, rest: Text)
    requires AllWs(w) && IsKeyword(kw, k) && k != [] && 97 <= k[0] <= 122
    ensures Keyword(w + (kw + rest), k) == Some(rest)
    ensures kw != [] && !IsWs(kw[0]) && IsAlpha(kw[0])
  {
    assert Head(kw + rest) == kw[0];
    WsSkipped(w, kw + rest);
    assert (kw + rest)[|k|..] == rest;
    assert forall i :: 0 <= i < |k| ==> (kw + rest)[i] == kw[i];
  }

  lemma {:induction false} WordOf(tab: Text, rest: Text)
    requires (forall i :: 0 <= i < |tab| ==> IsWord(tab[i])) && !IsWord(Head(rest))
    ensures WordRun(tab + rest) == |tab| && (tab + rest)[..|tab|] == tab && (tab + rest)[|tab|..] == rest
  {
    if tab == [] {
      assert tab + rest == rest;
    } else {
      assert (tab + rest)[1..] == tab[1..] + rest;
      WordOf(tab[1..], rest);
    }
  }

  lemma KeywordsLower()
    ensures 97 <= INSERT_KW[0] <= 122 && 97 <= INTO_KW[0] <= 122 && 97 <= VALUES_KW[0] <= 122
  {
  }

  /** Everything before the values is read over, and the table's name is found. */
  lemma FrontRead(t: Template, n: nat, rest: Text)
    requires TemplateOk(t, n)
    ensures ParseInsert(Front(t) + rest) == Tail(rest, t.tab)
  {
    hide Keyword, SkipWs, WordRun, Tail, SlotsOk, IsKeyword;
    KeywordsLower();
    var f5 := t.w4 + ([OPEN] + rest);
    var f4 := t.w3 + (t.valuesKw + f5);
    var f3 := t.tab + f4;
    var f2 := t.w2 + f3;
    var f1 := t.w1 + (t.intoKw + f2);
    FrontSplit(t, rest);
    KeywordRead(t.w0, t.insertKw, INSERT_KW, f1);
    KeywordRead(t.w1, t.intoKw, INTO_KW, f2);
    assert Head(f3) == t.tab[0];
    WsSkipped(t.w2, f3);
    assert Head(f4) == t.w3[0];
    WordOf(t.tab, f4);
    KeywordRead(t.w3, t.valuesKw, VALUES_KW, f5);
    assert Head(t.valuesKw + f5) == t.valuesKw[0];
    WsSkipped(t.w3, t.valuesKw + f5);
    WsSkipped(t.w4, [OPEN] + rest);
    assert ([OPEN] + rest)[1..] == rest;
  }

  lemma FrontSplit(t: Template, rest: Text)
    ensures Front(t) + rest ==
            t.w0 + (t.insertKw + (t.w1 + (t.intoKw + (t.w2 + (t.tab + (t.w3 + (t.valuesKw + (t.w4 + ([OPEN] + rest)))))))))
  {
  }

  /** After the values only white space and at most one semicolon may follow. */
  lemma BackRead(t: Template, n: nat)
    requires TemplateOk(t, n)
    ensures var s2 := SkipWs(Back(t));
            Head(if Head(s2) == SEMICOLON then SkipWs(s2[1..]) else s2) == 0
  {
    WsSkipped(t.w6, []);
    assert t.w6 + [] == t.w6;
    if t.semicolon {
      WsSkipped(t.w5, [SEMICOLON] + t.w6);
      assert ([SEMICOLON] + t.w6)[1..] == t.w6;
    } else {
      assert Back(t) == (t.w5 + t.w6) + [];
      WsSkipped(t.w5 + t.w6, []);
    }
  }

  lemma FramePlain(t: Template, n: nat)
    requires TemplateOk(t, n)
    ensures Plain(Front(t)) && Plain(Back(t))
  {
    hide SlotsOk;
    forall b | b in Front(t) || b in Back(t) ensures b != QUOTE && b != DOLLAR {
      KeywordPlain(t.insertKw, INSERT_KW);
      KeywordPlain(t.intoKw, INTO_KW);
      KeywordPlain(t.valuesKw, VALUES_KW);
    }
  }

  lemma KeywordPlain(s: Text, k: Text)
    requires IsKeyword(s, k) && QUOTE !in k && DOLLAR !in k
    ensures Plain(s)
  {
    forall b | b in s ensures b != QUOTE && b != DOLLAR {
      var i :| 0 <= i < |s| && s[i] == b;
      assert k[i] in k;
    }
  }

  /** For every template and every list of parameters: substituting the printed parameters and
      parsing gives the statement with exactly those values, whatever text the strings hold; it is
      rejected exactly if a string that is used holds a zero byte. */
  lemma PreparedInsert(t: Template, params: seq<Param>, lits: seq<Text>)
    requires TemplateOk(t, |params|) && |lits| == |params| && PrintedAs(params, lits)
    ensures ParseInsert(Substituted(TemplateText(t), lits, false))
            == match SlotLits(t.slots, params) case None => None case Some(vals) => Some(InsertStmt(t.tab, vals))
    ensures ParseInsert(Substituted(TemplateText(t), lits, false)).None? <==> UsesZero(t.slots, params)
    ensures !UsesZero(t.slots, params) ==> AreValues(t.slots, params, SlotLits(t.slots, params).value)
  {
    hide Substituted, Render, RawTexts, BoundTexts, SkipWs, Values, SlotLits, Front, Back, PrintedAs, ParseInsert, SlotsOk, UsesZero,
         AreValues;
    var bound := Render(t.slots, BoundTexts(t.slots, lits));
    FramePlain(t, |params|);
    PlainCopied(Front(t), Render(t.slots, RawTexts(t.slots)) + Back(t), lits);
    SlotsBound(t.slots, Back(t), lits);
    PlainCopied(Back(t), [], lits);
    NothingLeft(Back(t), lits);
    FrontRead(t, |params|, bound + Back(t));
    SlotsRead(t.slots, params, lits, Back(t));
    BackRead(t, |params|);
    SlotValues(t.slots, params);
  }

  lemma NothingLeft(b: Text, lits: seq<Text>)
    ensures b + [] == b && b + Substituted([], lits, false) == b
  {
  }

  /** Prints the parameters in turn; the first string with a quote in it ends the attempt. */
  method PrintAll(params: seq<Param>) returns (lits: Option<seq<Text>>)
    requires forall i :: 0 <= i < |params| ==> ParamOk(params[i])
    ensures lits.Some? <==> forall i :: 0 <= i < |params| ==> PrintParam(params[i]).Some?
    ensures lits.Some? ==> PrintedAs(params, lits.value)
  {
    hide PrintParam, ParamOk;
    var out := [];
    for i := 0 to |params|
      invariant |out| == i && forall j :: 0 <= j < i ==> PrintParam(params[j]) == Some(out[j])
    {
      var p := PrintParam(params[i]);
      if p.None? {
        return None;
      }
      out := out + [p.value];
    }
    lits := Some(out);
  }

  /** Executing a prepared INSERT up to its parsed form. */
  method BindAndParse(t: Template, params: seq<Param>) returns (r: Option<InsertStmt>)
    requires TemplateOk(t, |params|) && forall i :: 0 <= i < |params| ==> ParamOk(params[i])
    ensures r.None? <==> (exists i :: 0 <= i < |params| && params[i].CharParam? && QUOTE in params[i].bytes) || UsesZero(t.slots, params)
    ensures (forall i :: 0 <= i < |params| && params[i].CharParam? ==> QUOTE !in params[i].bytes) ==>
              r == match SlotLits(t.slots, params) case None => None case Some(vals) => Some(InsertStmt(t.tab, vals))
  {
    hide Substituted, TemplateText, SlotLits, ParseInsert, PrintInt, UsesZero, AreValues;
    var lits := PrintAll(params);
    if lits.None? {
      return None;
    }
    var sql := SubstituteParams(TemplateText(t), lits.value);
    PreparedInsert(t, params, lits.value);
    r := TryFastParseInsert(sql);
  }
}
