/** JSON texts (sections 2, 4, 5 and 7 of RFC 8259). Numbers are integers and escapes stay below U+0080:
    nothing else is ever written by the dump in AstJson. */
module Json {
  import opened Wrappers

  datatype Member = Member(name: string, value: Json)

  datatype Json =
    | JNull
    | JBool(b: bool)
    | JNum(n: int)
    | JStr(s: string)
    | JArr(items: seq<Json>)
    | JObj(members: seq<Member>)

  datatype Parsed<T> = Parsed(value: T, rest: string)

  predicate IsWs(c: char) {
    c == ' ' || c == '\n' || c == '\r' || c == '\t'
  }

  predicate AllWs(s: string) {
    forall c :: c in s ==> IsWs(c)
  }

  predicate IsDigit(c: char) {
    '0' <= c <= '9'
  }

  function SkipWs(s: string): (r: string)
    ensures |r| <= |s|
  {
    if s != "" && IsWs(s[0]) then SkipWs(s[1..]) else s
  }

  function HexDigit(c: char): Option<nat> {
    if '0' <= c <= '9' then Some(c as int - '0' as int)
    else if 'a' <= c <= 'f' then Some(c as int - 'a' as int + 10)
    else if 'A' <= c <= 'F' then Some(c as int - 'A' as int + 10)
    else None
  }

  /** The character behind a backslash and what it consumes; `s` starts behind the backslash. */
  function Unescape(s: string): (r: Option<Parsed<char>>)
    ensures r.Some? ==> |r.value.rest| < |s|
  {
    if s == "" then None
    else match s[0]
      case '\"' => Some(Parsed('\"', s[1..]))
      case '\\' => Some(Parsed('\\', s[1..]))
      case '/' => Some(Parsed('/', s[1..]))
      case 'b' => Some(Parsed(8 as char, s[1..]))
      case 'f' => Some(Parsed(12 as char, s[1..]))
      case 'n' => Some(Parsed('\n', s[1..]))
      case 'r' => Some(Parsed('\r', s[1..]))
      case 't' => Some(Parsed('\t', s[1..]))
      case 'u' =>
        if |s| < 5 || s[1] != '0' || s[2] != '0' || HexDigit(s[3]) == None || HexDigit(s[4]) == None then None
        else
          var v := HexDigit(s[3]).value * 16 + HexDigit(s[4]).value;
          if v < 128 then Some(Parsed(v as char, s[5..])) else None
      case _ => None
  }

  /** `s` starts behind the opening quote. */
  function ParseString(s: string): (r: Option<Parsed<string>>)
    ensures r.Some? ==> |r.value.rest| < |s|
    decreases |s|
  {
    if s == "" || s[0] < ' ' then None
    else if s[0] == '\"' then Some(Parsed("", s[1..]))
    else if s[0] == '\\' then
      match Unescape(s[1..])
      case None => None
      case Some(p) => Prepended(p.value, ParseString(p.rest))
    else Prepended(s[0], ParseString(s[1..]))
  }

  function Prepended(c: char, r: Option<Parsed<string>>): Option<Parsed<string>> {
    match r
    case None => None
    case Some(p) => Some(Parsed([c] + p.value, p.rest))
  }

  /** `digits` so far, most significant first. */
  function ParseDigits(s: string, sofar: nat): (r: Parsed<nat>)
    ensures |r.rest| <= |s|
  {
    if s != "" && IsDigit(s[0]) then ParseDigits(s[1..], sofar * 10 + (s[0] as int - '0' as int))
    else Parsed(sofar, s)
  }

  /** No leading zero: a digit behind a first 0 is left over. */
  function ParseNat(s: string): (r: Option<Parsed<nat>>)
    ensures r.Some? ==> |r.value.rest| < |s|
  {
    if s == "" || !IsDigit(s[0]) then None
    else if s[0] == '0' then Some(Parsed(0, s[1..]))
    else Some(ParseDigits(s[1..], s[0] as int - '0' as int))
  }

  function ParseNumber(s: string): (r: Option<Parsed<Json>>)
    ensures r.Some? ==> |r.value.rest| < |s|
  {
    if s != "" && s[0] == '-' then
      match ParseNat(s[1..])
      case None => None
      case Some(p) => Some(Parsed(JNum(0 - p.value), p.rest))
    else
      match ParseNat(s)
      case None => None
      case Some(p) => Some(Parsed(JNum(p.value), p.rest))
  }

  function ParseValue(s: string): (r: Option<Parsed<Json>>)
    ensures r.Some? ==> |r.value.rest| < |s|
    decreases |s|, 1
  {
    var t := SkipWs(s);
    if t == "" then None
    else if t[0] == '{' then
      var u := SkipWs(t[1..]);
      if u != "" && u[0] == '}' then Some(Parsed(JObj([]), u[1..]))
      else match ParseMembers(t[1..]) case None => None case Some(p) => Some(Parsed(JObj(p.value), p.rest))
    else if t[0] == '[' then
      var u := SkipWs(t[1..]);
      if u != "" && u[0] == ']' then Some(Parsed(JArr([]), u[1..]))
      else match ParseItems(t[1..]) case None => None case Some(p) => Some(Parsed(JArr(p.value), p.rest))
    else if t[0] == '\"' then
      match ParseString(t[1..]) case None => None case Some(p) => Some(Parsed(JStr(p.value), p.rest))
    else if "null" <= t then Some(Parsed(JNull, t[4..]))
    else if "true" <= t then Some(Parsed(JBool(true), t[4..]))
    else if "false" <= t then Some(Parsed(JBool(false), t[5..]))
    else ParseNumber(t)
  }

  function ParseMembers(s: string): (r: Option<Parsed<seq<Member>>>)
    ensures r.Some? ==> |r.value.rest| < |s|
    decreases |s|, 0
  {
    var t := SkipWs(s);
    if t == "" || t[0] != '\"' then None
    else
      match ParseString(t[1..])
      case None => None
      case Some(name) =>
        var u := SkipWs(name.rest);
        if u == "" || u[0] != ':' then None
        else
          match ParseValue(u[1..])
          case None => None
          case Some(v) =>
            var w := SkipWs(v.rest);
            if w != "" && w[0] == '}' then Some(Parsed([Member(name.value, v.value)], w[1..]))
            else if w != "" && w[0] == ',' then
              match ParseMembers(w[1..])
              case None => None
              case Some(more) => Some(Parsed([Member(name.value, v.value)] + more.value, more.rest))
            else None
  }

  function ParseItems(s: string): (r: Option<Parsed<seq<Json>>>)
    ensures r.Some? ==> |r.value.rest| < |s|
    decreases |s|, 2
  {
    match ParseValue(s)
    case None => None
    case Some(v) =>
      var w := SkipWs(v.rest);
      if w != "" && w[0] == ']' then Some(Parsed([v.value], w[1..]))
      else if w != "" && w[0] == ',' then
        match ParseItems(w[1..])
        case None => None
        case Some(more) => Some(Parsed([v.value] + more.value, more.rest))
      else None
  }

  /** A text is one value with nothing but whitespace around it. */
  function Parse(s: string): Option<Json> {
    match ParseValue(s)
    case None => None
    case Some(p) => if SkipWs(p.rest) == "" then Some(p.value) else None
  }

  // ---- what a piece of text denotes

  /** Where a value may end: not in front of another digit. */
  ghost predicate Ends(rest: string) {
    rest == "" || !IsDigit(rest[0])
  }

  ghost predicate ReadsAs(text: string, rest: string, value: Json) {
    var r := ParseValue(text + rest);
    r.Some? && r.value.value == value && SkipWs(r.value.rest) == SkipWs(rest)
  }

  /** Whatever follows, the text reads as the value, up to whitespace behind it. */
  ghost predicate Denotes(text: string, value: Json) {
    forall rest :: Ends(rest) ==> ReadsAs(text, rest, value)
  }

  predicate Plain(s: string) {
    forall c :: c in s ==> c >= ' ' && c != '\"' && c != '\\'
  }

  lemma {:induction false} SkipSome(w: string, s: string)
    requires AllWs(w)
    ensures SkipWs(w + s) == SkipWs(s)
  {
    if w == "" {
      assert w + s == s;
    } else {
      assert w[0] in w && (w + s)[1..] == w[1..] + s;
      SkipSome(w[1..], s);
    }
  }

  lemma LeadingWs(w: string, s: string)
    requires AllWs(w)
    ensures ParseValue(w + s) == ParseValue(s)
  {
    SkipSome(w, s);
  }

  lemma PaddedReads(w: string, text: string, x: string, rest: string, value: Json)
    requires AllWs(w) && AllWs(x) && ReadsAs(text, x + rest, value)
    ensures ReadsAs(w + text + x, rest, value)
  {
    hide ParseValue, SkipWs, AllWs;
    SkipSome(x, rest);
    LeadingWs(w, text + (x + rest));
    assert (w + text + x) + rest == w + (text + (x + rest));
  }

  /** Whitespace around a text changes nothing. */
  lemma Padded(w: string, text: string, x: string, value: Json)
    requires AllWs(w) && AllWs(x) && Denotes(text, value)
    ensures Denotes(w + text + x, value)
  {
    hide ReadsAs;
    forall rest | Ends(rest)
      ensures ReadsAs(w + text + x, rest, value)
    {
      assert Ends(x + rest) by { assert x != "" ==> x[0] in x; }
      PaddedReads(w, text, x, rest, value);
    }
  }

  lemma ConstantsDenote()
    ensures Denotes("null", JNull) && Denotes("true", JBool(true)) && Denotes("false", JBool(false))
  {
    forall rest | Ends(rest)
      ensures ReadsAs("null", rest, JNull) && ReadsAs("true", rest, JBool(true)) && ReadsAs("false", rest, JBool(false))
    {
      assert ("null" + rest)[4..] == rest && ("true" + rest)[4..] == rest && ("false" + rest)[5..] == rest;
    }
  }

  // ---- strings

  lemma {:induction false} PlainString(s: string, rest: string)
    requires Plain(s)
    ensures ParseString(s + "\"" + rest) == Some(Parsed(s, rest))
  {
    var all := s + "\"" + rest;
    if s == "" {
      assert all[0] == '\"' && all[1..] == rest;
    } else {
      assert s[0] in s && all[0] == s[0] && all[1..] == s[1..] + "\"" + rest;
      assert (forall c :: c in s[1..] ==> c in s) && s == [s[0]] + s[1..];
      PlainString(s[1..], rest);
    }
  }

  lemma StringDenotes(body: string, value: string)
    requires forall rest :: ParseString(body + "\"" + rest) == Some(Parsed(value, rest))
    ensures Denotes("\"" + body + "\"", JStr(value))
  {
    forall rest | Ends(rest)
      ensures ReadsAs("\"" + body + "\"", rest, JStr(value))
    {
      var all := ("\"" + body + "\"") + rest;
      assert all[0] == '\"' && all[1..] == body + "\"" + rest;
    }
  }

  lemma PlainDenotes(s: string)
    requires Plain(s)
    ensures Denotes("\"" + s + "\"", JStr(s))
  {
    forall rest
      ensures ParseString(s + "\"" + rest) == Some(Parsed(s, rest))
    {
      PlainString(s, rest);
    }
    StringDenotes(s, s);
  }

  // ---- numbers

  function DigitText(d: nat): string
    requires d < 10
  {
    [(d + '0' as int) as char]
  }

  /** `%d` of a natural number. */
  function NatText(n: nat): (s: string)
    ensures s != "" && forall c :: c in s ==> IsDigit(c)
  {
    if n < 10 then DigitText(n) else NatText(n / 10) + DigitText(n % 10)
  }

  function IntText(n: int): string {
    if n < 0 then "-" + NatText(0 - n) else NatText(n)
  }

  lemma {:induction false} DigitsRead(n: nat, rest: string)
    requires n > 0
    ensures IsDigit(NatText(n)[0]) && NatText(n)[0] != '0'
    ensures ParseDigits(NatText(n)[1..] + rest, NatText(n)[0] as int - '0' as int) == ParseDigits(rest, n)
  {
    if n >= 10 {
      var front, last := NatText(n / 10), DigitText(n % 10);
      DigitsRead(n / 10, last + rest);
      assert NatText(n)[1..] + rest == front[1..] + (last + rest);
      assert (last + rest)[1..] == rest;
    } else {
      assert DigitText(n)[1..] + rest == rest;
    }
  }

  lemma ZeroReads(rest: string)
    ensures ParseNat(NatText(0) + rest) == Some(Parsed(0, rest))
  {
    var s := NatText(0) + rest;
    assert s[0] == '0' && s[1..] == rest;
  }

  lemma NatReads(n: nat, rest: string)
    requires Ends(rest)
    ensures ParseNat(NatText(n) + rest) == Some(Parsed(n, rest))
  {
    hide NatText;
    if n == 0 {
      ZeroReads(rest);
    } else {
      var s := NatText(n) + rest;
      DigitsRead(n, rest);
      assert s[0] == NatText(n)[0] && s[1..] == NatText(n)[1..] + rest;
    }
  }

  lemma NumberText(s: string)
    requires s != "" && (IsDigit(s[0]) || s[0] == '-')
    ensures ParseValue(s) == ParseNumber(s)
  {
    assert "null"[0] == 'n' && "true"[0] == 't' && "false"[0] == 'f';
  }

  lemma NegativeReads(n: nat, rest: string)
    requires Ends(rest) && n > 0
    ensures ParseNumber("-" + NatText(n) + rest) == Some(Parsed(JNum(0 - n), rest))
    ensures ("-" + NatText(n) + rest)[0] == '-'
  {
    NatReads(n, rest);
    hide NatText, ParseNat;
    assert ("-" + NatText(n) + rest)[1..] == NatText(n) + rest;
  }

  lemma IntReads(n: int, rest: string)
    requires Ends(rest)
    ensures ParseNumber(IntText(n) + rest) == Some(Parsed(JNum(n), rest))
    ensures var s := IntText(n) + rest; s != "" && (IsDigit(s[0]) || s[0] == '-')
  {
    hide NatText, ParseNat, Ends;
    if n < 0 {
      NegativeReads(0 - n, rest);
    } else {
      NatReads(n, rest);
      assert NatText(n)[0] in NatText(n);
    }
  }

  lemma IntDenotes(n: int)
    ensures Denotes(IntText(n), JNum(n))
  {
    forall rest | Ends(rest)
      ensures ReadsAs(IntText(n), rest, JNum(n))
    {
      hide IntText, ParseNumber, ParseValue;
      IntReads(n, rest);
      NumberText(IntText(n) + rest);
    }
  }

  // ---- objects and arrays

  /** A member or item as it is written: its text, and for a member its name. */
  datatype Field = Field(name: string, text: string)

  ghost predicate FieldsDenote(fs: seq<Field>, ms: seq<Member>) {
    && |fs| == |ms|
    && forall i :: 0 <= i < |fs| ==> fs[i].name == ms[i].name && Plain(fs[i].name) && Denotes(fs[i].text, ms[i].value)
  }

  ghost function FieldText(f: Field, pad: string): string {
    pad + "\"" + f.name + "\": " + f.text
  }

  /** `pad` stands in front of every member. */
  ghost function FieldsText(fs: seq<Field>, pad: string): string {
    if fs == [] then ""
    else if |fs| == 1 then FieldText(fs[0], pad)
    else FieldText(fs[0], pad) + ("," + FieldsText(fs[1..], pad))
  }

  lemma QuotedHead(pad: string, x: string)
    requires AllWs(pad)
    ensures SkipWs(pad + "\"" + x) == "\"" + x && ("\"" + x)[0] == '\"' && ("\"" + x)[1..] == x
  {
    assert pad + "\"" + x == pad + ("\"" + x);
    SkipSome(pad, "\"" + x);
  }

  lemma ColonHead(x: string)
    ensures SkipWs(": " + x) == ": " + x && (": " + x)[0] == ':' && (": " + x)[1..] == " " + x
  {
  }

  /** One member, and what stands behind it. */
  ghost predicate MemberAt(s: string, name: string, value: Json, tail: string) {
    var t := SkipWs(s);
    && t != "" && t[0] == '\"'
    && ParseString(t[1..]).Some? && ParseString(t[1..]).value.value == name
    && var u := SkipWs(ParseString(t[1..]).value.rest);
    && u != "" && u[0] == ':'
    && ParseValue(u[1..]).Some? && ParseValue(u[1..]).value.value == value
    && SkipWs(ParseValue(u[1..]).value.rest) == tail
  }

  lemma MemberReads(pad: string, f: Field, tail: string, value: Json)
    requires AllWs(pad) && Plain(f.name) && ReadsAs(f.text, tail, value)
    ensures MemberAt(FieldText(f, pad) + tail, f.name, value, SkipWs(tail))
  {
    hide ParseString, ParseValue, SkipWs;
    var after := ": " + (f.text + tail);
    var inner := f.name + "\"" + after;
    assert FieldText(f, pad) + tail == pad + "\"" + inner;
    QuotedHead(pad, inner);
    PlainString(f.name, after);
    ColonHead(f.text + tail);
    LeadingWs(" ", f.text + tail);
  }

  lemma MembersEnd(s: string, name: string, value: Json, rest: string)
    requires MemberAt(s, name, value, "}" + rest)
    ensures ParseMembers(s) == Some(Parsed([Member(name, value)], rest))
  {
    hide ParseString, ParseValue, SkipWs;
    assert ("}" + rest)[1..] == rest;
  }

  lemma MembersMore(s: string, name: string, value: Json, more: string, ms: seq<Member>, rest: string)
    requires MemberAt(s, name, value, "," + more) && ParseMembers(more) == Some(Parsed(ms, rest))
    ensures ParseMembers(s) == Some(Parsed([Member(name, value)] + ms, rest))
  {
    hide ParseString, ParseValue, SkipWs;
    assert ("," + more)[1..] == more;
  }

  lemma Closing(close: string, c: char, rest: string)
    requires AllWs(close) && !IsWs(c) && !IsDigit(c)
    ensures SkipWs(close + [c] + rest) == [c] + rest && Ends(close + [c] + rest)
  {
    assert close + [c] + rest == close + ([c] + rest);
    SkipSome(close, [c] + rest);
    assert close != "" ==> close[0] in close;
  }

  lemma LastFieldReads(f: Field, m: Member, pad: string, close: string, rest: string)
    requires f.name == m.name && Plain(f.name) && Denotes(f.text, m.value) && AllWs(pad) && AllWs(close)
    ensures ParseMembers(FieldText(f, pad) + close + "}" + rest) == Some(Parsed([m], rest))
  {
    hide *;
    var tail := close + "}" + rest;
    ClosingReads(f.text, m.value, close, rest);
    MemberReads(pad, f, tail, m.value);
    var s := FieldText(f, pad) + close + "}" + rest;
    assert s == FieldText(f, pad) + tail;
    MembersEnd(s, f.name, m.value, rest);
    assert m == Member(f.name, m.value);
  }

  lemma ClosingReads(text: string, value: Json, close: string, rest: string)
    requires Denotes(text, value) && AllWs(close)
    ensures ReadsAs(text, close + "}" + rest, value) && SkipWs(close + "}" + rest) == "}" + rest
  {
    assert !IsWs('}') && !IsDigit('}');
    hide AllWs, IsWs, IsDigit, SkipWs, Ends, ReadsAs;
    Closing(close, '}', rest);
  }

  lemma NextFieldReads(f: Field, m: Member, pad: string, more: string, ms: seq<Member>, rest: string)
    requires f.name == m.name && Plain(f.name) && Denotes(f.text, m.value) && AllWs(pad)
    requires ParseMembers(more) == Some(Parsed(ms, rest))
    ensures ParseMembers(FieldText(f, pad) + ("," + more)) == Some(Parsed([m] + ms, rest))
  {
    OneNewline();
    Closing("", ',', more);
    assert "" + "," + more == "," + more;
    assert ReadsAs(f.text, "," + more, m.value);
    hide *;
    MemberReads(pad, f, "," + more, m.value);
    MembersMore(FieldText(f, pad) + ("," + more), f.name, m.value, more, ms, rest);
  }

  lemma FirstField(fs: seq<Field>, ms: seq<Member>)
    requires FieldsDenote(fs, ms) && fs != []
    ensures |ms| == |fs| && fs[0].name == ms[0].name && Plain(fs[0].name) && Denotes(fs[0].text, ms[0].value)
    ensures FieldsDenote(fs[1..], ms[1..]) && ms == [ms[0]] + ms[1..]
  {
    hide Plain, Denotes;
  }

  lemma Regroup(head: string, more: string, close: string, rest: string)
    ensures (head + ("," + more)) + close + "}" + rest == head + ("," + (more + close + "}" + rest))
  {
  }

  lemma FieldsTextStarts(fs: seq<Field>, pad: string, close: string, rest: string)
    requires fs != []
    ensures FieldsText(fs, pad) + close + "}" + rest ==
      if |fs| == 1 then FieldText(fs[0], pad) + close + "}" + rest
      else FieldText(fs[0], pad) + ("," + (FieldsText(fs[1..], pad) + close + "}" + rest))
  {
    hide FieldText;
    Regroup(FieldText(fs[0], pad), FieldsText(fs[1..], pad), close, rest);
  }

  lemma {:induction false} FieldsRead(fs: seq<Field>, ms: seq<Member>, pad: string, close: string, rest: string)
    requires FieldsDenote(fs, ms) && fs != [] && AllWs(pad) && AllWs(close)
    ensures ParseMembers(FieldsText(fs, pad) + close + "}" + rest) == Some(Parsed(ms, rest))
  {
    hide *;
    FirstField(fs, ms);
    FieldsTextStarts(fs, pad, close, rest);
    if |fs| == 1 {
      LastFieldReads(fs[0], ms[0], pad, close, rest);
      assert ms == [ms[0]];
    } else {
      FieldsRead(fs[1..], ms[1..], pad, close, rest);
      NextFieldReads(fs[0], ms[0], pad, FieldsText(fs[1..], pad) + close + "}" + rest, ms[1..], rest);
    }
  }

  lemma ObjectReads(gap: string, body: string, ms: seq<Member>, rest: string)
    requires AllWs(gap) && ParseMembers(body) == Some(Parsed(ms, rest))
    ensures ParseValue("{" + gap + body) == Some(Parsed(JObj(ms), rest))
  {
    var s := "{" + gap + body;
    assert s[1..] == gap + body && SkipWs(s) == s;
    SkipSome(gap, body);
    hide ParseString, SkipWs;
    assert ParseMembers(gap + body) == ParseMembers(body);
    assert SkipWs(body) != "" && SkipWs(body)[0] == '\"';
  }

  /** Members with any whitespace in front of each and behind the last. */
  lemma ObjectDenotes(fs: seq<Field>, ms: seq<Member>, gap: string, pad: string, close: string)
    requires FieldsDenote(fs, ms) && fs != [] && AllWs(gap) && AllWs(pad) && AllWs(close)
    ensures Denotes("{" + gap + FieldsText(fs, pad) + close + "}", JObj(ms))
  {
    hide ParseMembers, ParseValue, SkipWs, FieldsDenote, AllWs, FieldsText;
    forall rest | Ends(rest)
      ensures ReadsAs("{" + gap + FieldsText(fs, pad) + close + "}", rest, JObj(ms))
    {
      var body := FieldsText(fs, pad) + close + "}" + rest;
      FieldsRead(fs, ms, pad, close, rest);
      ObjectReads(gap, body, ms, rest);
      assert ("{" + gap + FieldsText(fs, pad) + close + "}") + rest == "{" + gap + body;
    }
  }

  ghost predicate ItemsDenote(ts: seq<string>, vs: seq<Json>) {
    |ts| == |vs| && forall i :: 0 <= i < |ts| ==> Denotes(ts[i], vs[i])
  }

  ghost function ItemsText(ts: seq<string>): string {
    if ts == [] then ""
    else if |ts| == 1 then ts[0]
    else ts[0] + ",\n" + ItemsText(ts[1..])
  }

  lemma ItemsEnd(text: string, tail: string, value: Json, rest: string)
    requires ReadsAs(text, tail, value) && SkipWs(tail) == "]" + rest
    ensures ParseItems(text + tail) == Some(Parsed([value], rest))
  {
    hide ParseValue, SkipWs;
    assert ("]" + rest)[1..] == rest;
  }

  lemma ItemsMore(text: string, more: string, value: Json, vs: seq<Json>, rest: string)
    requires ReadsAs(text, "," + more, value) && ParseItems(more) == Some(Parsed(vs, rest))
    ensures ParseItems(text + ("," + more)) == Some(Parsed([value] + vs, rest))
  {
    assert SkipWs("," + more) == "," + more && ("," + more)[1..] == more;
    hide ParseValue, SkipWs;
  }

  lemma ItemsLeadingWs(w: string, s: string)
    requires AllWs(w)
    ensures ParseItems(w + s) == ParseItems(s)
  {
    LeadingWs(w, s);
    hide ParseValue;
  }

  lemma {:induction false} ItemsRead(ts: seq<string>, vs: seq<Json>, close: string, rest: string)
    requires ItemsDenote(ts, vs) && ts != [] && AllWs(close)
    ensures ParseItems(ItemsText(ts) + close + "]" + rest) == Some(Parsed(vs, rest))
  {
    hide ParseItems, ReadsAs, AllWs, SkipWs;
    var s := ItemsText(ts) + close + "]" + rest;
    if |ts| == 1 {
      var tail := close + "]" + rest;
      Closing(close, ']', rest);
      assert ReadsAs(ts[0], tail, vs[0]);
      ItemsEnd(ts[0], tail, vs[0], rest);
      assert s == ts[0] + tail && vs == [vs[0]];
    } else {
      var more := ItemsText(ts[1..]) + close + "]" + rest;
      ItemsRead(ts[1..], vs[1..], close, rest);
      assert AllWs("\n") by { OneNewline(); }
      ItemsLeadingWs("\n", more);
      Closing("", ',', "\n" + more);
      assert "" + "," + ("\n" + more) == "," + ("\n" + more);
      assert ReadsAs(ts[0], "," + ("\n" + more), vs[0]);
      ItemsMore(ts[0], "\n" + more, vs[0], vs[1..], rest);
      assert s == ts[0] + ("," + ("\n" + more)) && vs == [vs[0]] + vs[1..];
    }
  }

  lemma OneNewline()
    ensures AllWs("\n") && AllWs("")
  {
  }

  lemma ArrayReads(gap: string, body: string, vs: seq<Json>, rest: string)
    requires AllWs(gap) && ParseItems(body) == Some(Parsed(vs, rest))
    ensures ParseValue("[" + gap + body) == Some(Parsed(JArr(vs), rest))
  {
    var s := "[" + gap + body;
    assert s[1..] == gap + body && SkipWs(s) == s;
    SkipSome(gap, body);
    ItemsLeadingWs(gap, body);
    NoValueAtBracket(body);
    hide ParseString, SkipWs, ParseItems, ParseMembers;
  }

  lemma NoValueAtBracket(s: string)
    ensures ParseItems(s).Some? ==> SkipWs(s) == "" || SkipWs(s)[0] != ']'
  {
    var t := SkipWs(s);
    if t != "" && t[0] == ']' {
      assert "null"[0] != t[0] && "true"[0] != t[0] && "false"[0] != t[0];
      assert ParseValue(s) == None;
    }
  }

  lemma ArrayDenotes(ts: seq<string>, vs: seq<Json>, gap: string, close: string)
    requires ItemsDenote(ts, vs) && ts != [] && AllWs(gap) && AllWs(close)
    ensures Denotes("[" + gap + ItemsText(ts) + close + "]", JArr(vs))
  {
    hide ParseItems, ParseValue, SkipWs, ItemsDenote, AllWs, ItemsText;
    forall rest | Ends(rest)
      ensures ReadsAs("[" + gap + ItemsText(ts) + close + "]", rest, JArr(vs))
    {
      var body := ItemsText(ts) + close + "]" + rest;
      ItemsRead(ts, vs, close, rest);
      ArrayReads(gap, body, vs, rest);
      assert ("[" + gap + ItemsText(ts) + close + "]") + rest == "[" + gap + body;
    }
  }

  /** A text that denotes a value parses as that value alone. */
  lemma DenotesParses(text: string, value: Json, x: string)
    requires Denotes(text, value) && AllWs(x)
    ensures Parse(text + x) == Some(value)
  {
    assert x + "" == x;
    SkipSome(x, "");
    assert Ends(x) by { assert x != "" ==> x[0] in x; }
    assert ReadsAs(text, x, value);
    hide ParseValue;
  }
}
