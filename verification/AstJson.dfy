/** The JSON dump of a syntax tree (src/ast/ast.c:2267-2483). */
module AstJson {
  import opened Json
  import opened Wrappers

  /** The kinds that are dumped in a way of their own. */
  datatype Kind = Program | Block | UsesClause | VarDecl | ProcedureDecl | FunctionDecl | EnumValue | Number | OtherKind

  /** The names of node, token and variable types: identifiers from constant tables. */
  type Name = s: string | Plain(s) witness ""

  datatype Token = Token(typeName: Name, value: Option<string>)

  /** A node with what its dump mentions; `inRoutine` says that its parent declares a procedure or function. */
  datatype Tree = Tree(kind: Kind, typeName: Name, token: Option<Token>, varType: Name, inRoutine: bool, byRef: bool,
                       iVal: int, isInline: bool, isGlobalScope: bool, units: seq<Option<string>>,
                       left: Option<Tree>, right: Option<Tree>, extra: Option<Tree>, children: seq<Option<Tree>>)

  // ---- what a dump says

  ghost function Text(v: Option<string>): Json {
    match v case None => JNull case Some(s) => JStr(s)
  }

  ghost function Texts(vs: seq<Option<string>>): (js: seq<Json>)
    ensures |js| == |vs| && forall i :: 0 <= i < |vs| ==> js[i] == Text(vs[i])
  {
    seq(|vs|, i requires 0 <= i < |vs| => Text(vs[i]))
  }

  ghost function When<T>(b: bool, x: T): seq<T> {
    if b then [x] else []
  }

  ghost function TokenValue(t: Token): Json {
    JObj([Member("type", JStr(t.typeName)), Member("value", Text(t.value))])
  }

  ghost function TokenMembers(node: Tree): seq<Member> {
    match node.token case None => [] case Some(t) => [Member("token", TokenValue(t))]
  }

  ghost function AttributeMembers(node: Tree): seq<Member> {
    When(node.kind == VarDecl && node.inRoutine, Member("by_ref", JBool(node.byRef)))
    + When(node.kind == EnumValue || node.kind == Number, Member("i_val", JNum(node.iVal)))
    + When(node.kind == ProcedureDecl || node.kind == FunctionDecl, Member("is_inline", JBool(node.isInline)))
  }

  ghost function CommonMembers(node: Tree): seq<Member> {
    [Member("node_type", JStr(node.typeName))]
    + TokenMembers(node)
    + [Member("var_type_annotated", JStr(node.varType))]
    + AttributeMembers(node)
  }

  ghost function Edge(name: string, t: Option<Tree>): seq<Member>
    decreases t
  {
    match t case None => [] case Some(c) => [Member(name, JObj(Members(c)))]
  }

  ghost function Child(t: Option<Tree>): Json
    decreases t
  {
    match t case None => JNull case Some(c) => JObj(Members(c))
  }

  ghost function ChildList(ts: seq<Option<Tree>>): (js: seq<Json>)
    ensures |js| == |ts|
    decreases ts, 0
  {
    if ts == [] then [] else [Child(ts[0])] + ChildList(ts[1..])
  }

  ghost function Children(name: string, ts: seq<Option<Tree>>): seq<Member>
    decreases ts, 1
  {
    if ts == [] then [] else [Member(name, JArr(ChildList(ts)))]
  }

  ghost function NthChild(node: Tree, i: nat): Json
    decreases node, 0
  {
    if i < |node.children| then Child(node.children[i]) else JNull
  }

  ghost function StructureMembers(node: Tree): seq<Member>
    decreases node, 1
  {
    match node.kind
    case Program =>
      Edge("program_name_node", node.left) + Edge("main_block", node.right) + Children("uses_clauses", node.children)
    case Block =>
      [Member("is_global_scope", JBool(node.isGlobalScope)), Member("declarations", NthChild(node, 0)),
       Member("body", NthChild(node, 1))]
    case UsesClause => When(node.units != [], Member("unit_list", JArr(Texts(node.units))))
    case _ =>
      Edge("left", node.left) + Edge("right", node.right) + Edge("extra", node.extra)
      + Children("children", node.children)
  }

  /** The fields of a node in the order of the dump. */
  ghost function Members(node: Tree): seq<Member>
    decreases node, 2
  {
    CommonMembers(node) + StructureMembers(node)
  }

  // ---- strings

  function HexChar(d: nat): char
    requires d < 16
  {
    if d < 10 then (d + '0' as int) as char else (d - 10 + 'a' as int) as char
  }

  function EscapedChar(c: char): string {
    match c
    case '\"' => "\\\""
    case '\\' => "\\\\"
    case '\n' => "\\n"
    case '\r' => "\\r"
    case '\t' => "\\t"
    case _ =>
      if c == 8 as char then "\\b"
      else if c == 12 as char then "\\f"
      else if c < ' ' || c == 127 as char then "\\u00" + [HexChar(c as int / 16), HexChar(c as int % 16)]
      else [c]
  }

  function Escaped(s: string): string {
    if s == "" then "" else EscapedChar(s[0]) + Escaped(s[1..])
  }

  function Quoted(s: string): string {
    "\"" + s + "\""
  }

  function StringText(v: Option<string>): string {
    match v case None => "null" case Some(s) => Quoted(Escaped(s))
  }

  lemma HexReads(d: nat)
    requires d < 16
    ensures HexDigit(HexChar(d)) == Some(d)
  {
  }

  lemma ControlReads(c: char, tail: string)
    requires c < ' ' || c == 127 as char
    ensures Unescape("u00" + [HexChar(c as int / 16), HexChar(c as int % 16)] + tail) == Some(Parsed(c, tail))
  {
    HexReads(c as int / 16);
    HexReads(c as int % 16);
    hide HexDigit, HexChar;
    var s := "u00" + [HexChar(c as int / 16), HexChar(c as int % 16)] + tail;
    assert s[0] == 'u' && s[1] == '0' && s[2] == '0' && s[5..] == tail;
  }

  /** What a backslash and a letter stand for. */
  ghost function Letter(letter: char): char {
    match letter
    case 'b' => 8 as char
    case 'f' => 12 as char
    case 'n' => '\n'
    case 'r' => '\r'
    case 't' => '\t'
    case _ => letter
  }

  lemma BackslashReads(s: string, c: char, tail: string)
    requires Unescape(s) == Some(Parsed(c, tail))
    ensures ParseString("\\" + s) == Prepended(c, ParseString(tail))
  {
    assert ("\\" + s)[1..] == s;
    hide Unescape;
  }

  lemma LetterReads(letter: char, tail: string)
    requires letter in "\"\\bfnrt"
    ensures ParseString(['\\', letter] + tail) == Prepended(Letter(letter), ParseString(tail))
  {
    var s := [letter] + tail;
    assert s[1..] == tail;
    assert Unescape(s) == Some(Parsed(Letter(letter), tail));
    hide Unescape, ParseString, Letter;
    BackslashReads(s, Letter(letter), tail);
    assert ['\\', letter] + tail == "\\" + s;
  }

  lemma ControlCharReads(c: char, tail: string)
    requires c < ' ' || c == 127 as char
    ensures ParseString("\\u00" + [HexChar(c as int / 16), HexChar(c as int % 16)] + tail) ==
      Prepended(c, ParseString(tail))
  {
    hide Unescape, ParseString, HexChar;
    ControlReads(c, tail);
    var hex := "u00" + [HexChar(c as int / 16), HexChar(c as int % 16)] + tail;
    BackslashReads(hex, c, tail);
    assert "\\u00" + [HexChar(c as int / 16), HexChar(c as int % 16)] + tail == "\\" + hex;
  }

  lemma CharReads(c: char, tail: string)
    ensures ParseString(EscapedChar(c) + tail) == Prepended(c, ParseString(tail))
  {
    hide ParseString, Unescape, HexChar;
    match c {
      case '\"' => LetterReads('\"', tail); assert "\\\"" == ['\\', '\"'];
      case '\\' => LetterReads('\\', tail); assert "\\\\" == ['\\', '\\'];
      case '\n' => LetterReads('n', tail); assert "\\n" == ['\\', 'n'];
      case '\r' => LetterReads('r', tail); assert "\\r" == ['\\', 'r'];
      case '\t' => LetterReads('t', tail); assert "\\t" == ['\\', 't'];
      case _ => OtherCharReads(c, tail);
    }
  }

  lemma OtherCharReads(c: char, tail: string)
    requires c !in "\"\\\n\r\t"
    ensures ParseString(EscapedChar(c) + tail) == Prepended(c, ParseString(tail))
  {
    hide ParseString, Unescape, HexChar;
    assert "\"\\\n\r\t" == ['\"', '\\', '\n', '\r', '\t'];
    if c == 8 as char {
      LetterReads('b', tail);
      assert "\\b" == ['\\', 'b'];
    } else if c == 12 as char {
      LetterReads('f', tail);
      assert "\\f" == ['\\', 'f'];
    } else if c < ' ' || c == 127 as char {
      ControlCharReads(c, tail);
    } else {
      PlainCharReads(c, tail);
    }
  }

  lemma PlainCharReads(c: char, tail: string)
    requires c >= ' ' && c != '\"' && c != '\\'
    ensures ParseString([c] + tail) == Prepended(c, ParseString(tail))
  {
    assert ([c] + tail)[1..] == tail;
  }

  lemma EmptyReads(rest: string)
    ensures ParseString(Escaped("") + "\"" + rest) == Some(Parsed("", rest))
  {
    assert Escaped("") + "\"" + rest == "\"" + rest && ("\"" + rest)[1..] == rest;
  }

  /** Un-escaping what was escaped gives back the string. */
  lemma {:induction false} EscapedReads(s: string, rest: string)
    ensures ParseString(Escaped(s) + "\"" + rest) == Some(Parsed(s, rest))
  {
    if s == "" {
      EmptyReads(rest);
    } else {
      var tail := Escaped(s[1..]) + "\"" + rest;
      EscapedReads(s[1..], rest);
      CharReads(s[0], tail);
      hide ParseString, EscapedChar;
      assert Escaped(s) + "\"" + rest == EscapedChar(s[0]) + tail;
      assert [s[0]] + s[1..] == s;
    }
  }

  lemma StringTextDenotes(v: Option<string>)
    ensures Denotes(StringText(v), Text(v))
  {
    hide Denotes;
    match v {
      case None => ConstantsDenote();
      case Some(s) =>
        forall rest
          ensures ParseString(Escaped(s) + "\"" + rest) == Some(Parsed(s, rest))
        {
          EscapedReads(s, rest);
        }
        hide ParseString, Escaped;
        StringDenotes(Escaped(s), s);
    }
  }

  // ---- the text of a node

  function Indent(n: nat): (s: string)
    ensures AllWs(s) && |s| == 2 * n && forall c :: c in s ==> c == ' '
  {
    if n == 0 then "" else "  " + Indent(n - 1)
  }

  /** A line break with the indentation of the next line. */
  function Line(n: nat): (s: string)
    ensures AllWs(s)
  {
    "\n" + Indent(n)
  }

  function BoolText(b: bool): string {
    if b then "true" else "false"
  }

  ghost function TokenFields(t: Token): seq<Field> {
    [Field("type", Quoted(t.typeName)), Field("value", StringText(t.value))]
  }

  ghost function TokenText(t: Token, n: nat): string {
    "{" + "" + FieldsText(TokenFields(t), Line(n + 1) + "  ") + Line(n) + "}"
  }

  ghost function TokenPart(node: Tree, n: nat): seq<Field> {
    match node.token case None => [] case Some(t) => [Field("token", TokenText(t, n))]
  }

  ghost function AttributePart(node: Tree): seq<Field> {
    When(node.kind == VarDecl && node.inRoutine, Field("by_ref", BoolText(node.byRef)))
    + When(node.kind == EnumValue || node.kind == Number, Field("i_val", IntText(node.iVal)))
    + When(node.kind == ProcedureDecl || node.kind == FunctionDecl, Field("is_inline", BoolText(node.isInline)))
  }

  ghost function CommonFields(node: Tree, n: nat): seq<Field> {
    [Field("node_type", Quoted(node.typeName))]
    + TokenPart(node, n)
    + [Field("var_type_annotated", Quoted(node.varType))]
    + AttributePart(node)
  }

  ghost function EdgePart(name: string, t: Option<Tree>, n: nat): seq<Field>
    decreases t
  {
    match t case None => [] case Some(c) => [Field(name, "\n" + NodeText(c, n) + "\n")]
  }

  ghost function ItemText(t: Option<Tree>, n: nat): string
    decreases t
  {
    match t case None => Indent(n) + "null" case Some(c) => NodeText(c, n)
  }

  ghost function ItemTexts(ts: seq<Option<Tree>>, n: nat): (texts: seq<string>)
    ensures |texts| == |ts|
    decreases ts, 0
  {
    if ts == [] then [] else [ItemText(ts[0], n)] + ItemTexts(ts[1..], n)
  }

  ghost function ListText(texts: seq<string>, gap: string, n: nat): string {
    "[" + gap + ItemsText(texts) + Line(n) + "]"
  }

  ghost function ListPart(name: string, ts: seq<Option<Tree>>, n: nat): seq<Field>
    decreases ts, 1
  {
    if ts == [] then [] else [Field(name, ListText(ItemTexts(ts, n + 1), "\n", n))]
  }

  ghost function SlotText(node: Tree, i: nat, n: nat): string
    decreases node, 0
  {
    if i < |node.children| && node.children[i].Some? then "\n" + NodeText(node.children[i].value, n) + "\n" else "null"
  }

  ghost function UnitTexts(vs: seq<Option<string>>, n: nat): (texts: seq<string>)
    ensures |texts| == |vs| && forall i :: 0 <= i < |vs| ==> texts[i] == Indent(n) + StringText(vs[i])
  {
    seq(|vs|, i requires 0 <= i < |vs| => Indent(n) + StringText(vs[i]))
  }

  ghost function StructurePart(node: Tree, n: nat): seq<Field>
    decreases node, 1
  {
    match node.kind
    case Program =>
      EdgePart("program_name_node", node.left, n) + EdgePart("main_block", node.right, n)
      + ListPart("uses_clauses", node.children, n)
    case Block =>
      [Field("is_global_scope", BoolText(node.isGlobalScope)), Field("declarations", SlotText(node, 0, n)),
       Field("body", SlotText(node, 1, n))]
    case UsesClause =>
      When(node.units != [], Field("unit_list", ListText(UnitTexts(node.units, n + 1), "\n\n", n)))
    case _ =>
      EdgePart("left", node.left, n) + EdgePart("right", node.right, n) + EdgePart("extra", node.extra, n)
      + ListPart("children", node.children, n)
  }

  /** From the first brace to the last. */
  ghost function NodeText(node: Tree, n: nat): string
    decreases node, 2
  {
    var fields := CommonFields(node, n + 1) + StructurePart(node, n + 1);
    Indent(n) + ("{" + "\n" + FieldsText(fields, Line(n + 1)) + Line(n) + "}")
  }

  /** What the dump of a child writes: commas stand behind all but the last of a list. */
  ghost function Dumped(t: Option<Tree>, n: nat, isLast: bool): string {
    ItemText(t, n) + (if isLast then "" else ",") + "\n"
  }

  // ---- it denotes what the dump says

  lemma QuotedDenotes(s: Name)
    ensures Denotes(Quoted(s), JStr(s))
  {
    hide Denotes;
    PlainDenotes(s);
  }

  lemma BoolDenotes(b: bool)
    ensures Denotes(BoolText(b), JBool(b))
  {
    hide Denotes;
    ConstantsDenote();
  }

  lemma FieldsDenoteAppend(a: seq<Field>, ma: seq<Member>, b: seq<Field>, mb: seq<Member>)
    requires FieldsDenote(a, ma) && FieldsDenote(b, mb)
    ensures FieldsDenote(a + b, ma + mb)
  {
    hide Denotes, Plain;
    forall i | 0 <= i < |a + b|
      ensures (a + b)[i].name == (ma + mb)[i].name && Plain((a + b)[i].name)
      ensures Denotes((a + b)[i].text, (ma + mb)[i].value)
    {
      if i >= |a| { assert (a + b)[i] == b[i - |a|] && (ma + mb)[i] == mb[i - |a|]; }
    }
  }

  lemma OneFieldDenotes(name: string, text: string, value: Json)
    requires Plain(name) && Denotes(text, value)
    ensures FieldsDenote([Field(name, text)], [Member(name, value)])
  {
  }

  lemma NoFieldDenotes()
    ensures FieldsDenote([], [])
  {
  }

  lemma TokenDenotes(t: Token, n: nat)
    ensures Denotes(TokenText(t, n), TokenValue(t))
  {
    hide Denotes, FieldsDenote;
    QuotedDenotes(t.typeName);
    StringTextDenotes(t.value);
    OneFieldDenotes("type", Quoted(t.typeName), JStr(t.typeName));
    OneFieldDenotes("value", StringText(t.value), Text(t.value));
    var a, ma := [Field("type", Quoted(t.typeName))], [Member("type", JStr(t.typeName))];
    var b, mb := [Field("value", StringText(t.value))], [Member("value", Text(t.value))];
    FieldsDenoteAppend(a, ma, b, mb);
    assert a + b == TokenFields(t) && ma + mb == [Member("type", JStr(t.typeName)), Member("value", Text(t.value))];
    hide FieldsText;
    ObjectDenotes(TokenFields(t), ma + mb, "", Line(n + 1) + "  ", Line(n));
  }

  lemma TokenPartDenotes(node: Tree, n: nat)
    ensures FieldsDenote(TokenPart(node, n), TokenMembers(node))
  {
    hide Denotes, FieldsDenote, TokenText, TokenValue;
    NoFieldDenotes();
    if node.token.Some? {
      TokenDenotes(node.token.value, n);
      OneFieldDenotes("token", TokenText(node.token.value, n), TokenValue(node.token.value));
    }
  }

  lemma WhenDenotes(b: bool, name: string, text: string, value: Json)
    requires Plain(name) && Denotes(text, value)
    ensures FieldsDenote(When(b, Field(name, text)), When(b, Member(name, value)))
  {
    hide Denotes, FieldsDenote, Plain;
    NoFieldDenotes();
    OneFieldDenotes(name, text, value);
  }

  lemma ThreeDenote(a: seq<Field>, ma: seq<Member>, b: seq<Field>, mb: seq<Member>, c: seq<Field>, mc: seq<Member>)
    requires FieldsDenote(a, ma) && FieldsDenote(b, mb) && FieldsDenote(c, mc)
    ensures FieldsDenote(a + b + c, ma + mb + mc)
  {
    hide FieldsDenote;
    FieldsDenoteAppend(a, ma, b, mb);
    FieldsDenoteAppend(a + b, ma + mb, c, mc);
  }

  lemma AttributePartDenotes(node: Tree)
    ensures FieldsDenote(AttributePart(node), AttributeMembers(node))
  {
    hide Denotes, FieldsDenote, BoolText, IntText, When;
    var b1 := node.kind == VarDecl && node.inRoutine;
    var b2 := node.kind == EnumValue || node.kind == Number;
    var b3 := node.kind == ProcedureDecl || node.kind == FunctionDecl;
    BoolDenotes(node.byRef);
    IntDenotes(node.iVal);
    BoolDenotes(node.isInline);
    WhenDenotes(b1, "by_ref", BoolText(node.byRef), JBool(node.byRef));
    WhenDenotes(b2, "i_val", IntText(node.iVal), JNum(node.iVal));
    WhenDenotes(b3, "is_inline", BoolText(node.isInline), JBool(node.isInline));
    ThreeDenote(When(b1, Field("by_ref", BoolText(node.byRef))), When(b1, Member("by_ref", JBool(node.byRef))),
                When(b2, Field("i_val", IntText(node.iVal))), When(b2, Member("i_val", JNum(node.iVal))),
                When(b3, Field("is_inline", BoolText(node.isInline))),
                When(b3, Member("is_inline", JBool(node.isInline))));
  }

  lemma CommonDenotes(node: Tree, n: nat)
    ensures FieldsDenote(CommonFields(node, n), CommonMembers(node))
  {
    hide Denotes, FieldsDenote, TokenPart, AttributePart, TokenMembers, AttributeMembers, Quoted;
    TokenPartDenotes(node, n);
    AttributePartDenotes(node);
    TypeNamesDenote(node);
    var a, ma := [Field("node_type", Quoted(node.typeName))], [Member("node_type", JStr(node.typeName))];
    var c := [Field("var_type_annotated", Quoted(node.varType))];
    var mc := [Member("var_type_annotated", JStr(node.varType))];
    var t, mt := TokenPart(node, n), TokenMembers(node);
    ThreeDenote(a, ma, t, mt, c, mc);
    FieldsDenoteAppend(a + t + c, ma + mt + mc, AttributePart(node), AttributeMembers(node));
  }

  lemma TypeNamesDenote(node: Tree)
    ensures FieldsDenote([Field("node_type", Quoted(node.typeName))], [Member("node_type", JStr(node.typeName))])
    ensures FieldsDenote([Field("var_type_annotated", Quoted(node.varType))],
                         [Member("var_type_annotated", JStr(node.varType))])
  {
    hide Denotes, FieldsDenote, Quoted;
    QuotedDenotes(node.typeName);
    QuotedDenotes(node.varType);
    OneFieldDenotes("node_type", Quoted(node.typeName), JStr(node.typeName));
    OneFieldDenotes("var_type_annotated", Quoted(node.varType), JStr(node.varType));
  }

  lemma BreaksAround(text: string, value: Json)
    requires Denotes(text, value)
    ensures Denotes("\n" + text + "\n", value)
  {
    OneNewline();
    hide Denotes, AllWs;
    Padded("\n", text, "\n", value);
  }

  lemma IndentBefore(text: string, value: Json, n: nat)
    requires Denotes(text, value)
    ensures Denotes(Indent(n) + text, value)
  {
    OneNewline();
    hide Denotes, AllWs;
    Padded(Indent(n), text, "", value);
    assert Indent(n) + text + "" == Indent(n) + text;
  }

  lemma {:induction false} EdgeDenotes(name: string, t: Option<Tree>, n: nat)
    requires Plain(name)
    ensures FieldsDenote(EdgePart(name, t, n), Edge(name, t))
    decreases t
  {
    hide Denotes, FieldsDenote, NodeText, Members, Plain;
    NoFieldDenotes();
    if t.Some? {
      NodeDenotes(t.value, n);
      BreaksAround(NodeText(t.value, n), JObj(Members(t.value)));
      OneFieldDenotes(name, "\n" + NodeText(t.value, n) + "\n", JObj(Members(t.value)));
    }
  }

  lemma {:induction false} ItemDenotes(t: Option<Tree>, n: nat)
    ensures Denotes(ItemText(t, n), Child(t))
    decreases t
  {
    hide Denotes, NodeText, Members;
    if t.Some? {
      NodeDenotes(t.value, n);
    } else {
      ConstantsDenote();
      IndentBefore("null", JNull, n);
    }
  }

  lemma {:induction false} ItemsAllDenote(ts: seq<Option<Tree>>, n: nat)
    ensures ItemsDenote(ItemTexts(ts, n), ChildList(ts))
    decreases ts, 0
  {
    hide Denotes, ItemText, Child;
    if ts != [] {
      ItemDenotes(ts[0], n);
      ItemsAllDenote(ts[1..], n);
      MoreItems(ItemText(ts[0], n), Child(ts[0]), ItemTexts(ts[1..], n), ChildList(ts[1..]));
    }
  }

  lemma MoreItems(text: string, value: Json, texts: seq<string>, values: seq<Json>)
    requires Denotes(text, value) && ItemsDenote(texts, values)
    ensures ItemsDenote([text] + texts, [value] + values)
  {
    hide Denotes;
  }

  lemma ListDenotes(texts: seq<string>, values: seq<Json>, gap: string, n: nat)
    requires ItemsDenote(texts, values) && texts != [] && AllWs(gap)
    ensures Denotes(ListText(texts, gap, n), JArr(values))
  {
    hide Denotes, ItemsDenote, ItemsText, Line, AllWs;
    ArrayDenotes(texts, values, gap, Line(n));
  }

  lemma {:induction false} ListPartDenotes(name: string, ts: seq<Option<Tree>>, n: nat)
    requires Plain(name)
    ensures FieldsDenote(ListPart(name, ts, n), Children(name, ts))
    decreases ts, 1
  {
    OneNewline();
    hide Denotes, FieldsDenote, ItemsDenote, ListText, ItemTexts, ChildList, Plain, AllWs;
    NoFieldDenotes();
    if ts != [] {
      ItemsAllDenote(ts, n + 1);
      ListDenotes(ItemTexts(ts, n + 1), ChildList(ts), "\n", n);
      OneFieldDenotes(name, ListText(ItemTexts(ts, n + 1), "\n", n), JArr(ChildList(ts)));
    }
  }

  lemma {:induction false} SlotDenotes(node: Tree, i: nat, n: nat)
    ensures Denotes(SlotText(node, i, n), NthChild(node, i))
    decreases node, 0
  {
    hide Denotes, NodeText, Members;
    ConstantsDenote();
    if i < |node.children| && node.children[i].Some? {
      var c := node.children[i].value;
      NodeDenotes(c, n);
      BreaksAround(NodeText(c, n), JObj(Members(c)));
    }
  }

  lemma UnitsDenote(vs: seq<Option<string>>, n: nat)
    ensures ItemsDenote(UnitTexts(vs, n), Texts(vs))
  {
    hide Denotes, StringText, Text;
    forall i | 0 <= i < |vs|
      ensures Denotes(UnitTexts(vs, n)[i], Texts(vs)[i])
    {
      StringTextDenotes(vs[i]);
      IndentBefore(StringText(vs[i]), Text(vs[i]), n);
    }
  }

  lemma UnitPartDenotes(node: Tree, n: nat)
    ensures FieldsDenote(When(node.units != [], Field("unit_list", ListText(UnitTexts(node.units, n + 1), "\n\n", n))),
                         When(node.units != [], Member("unit_list", JArr(Texts(node.units)))))
  {
    hide Denotes, FieldsDenote, ItemsDenote, ListText, AllWs, UnitTexts, Texts, Plain;
    if node.units != [] {
      UnitListDenotes(node.units, n);
      PlainName();
      WhenDenotes(true, "unit_list", ListText(UnitTexts(node.units, n + 1), "\n\n", n), JArr(Texts(node.units)));
    } else {
      NoFieldDenotes();
    }
  }

  lemma PlainName()
    ensures Plain("unit_list")
  {
  }

  lemma UnitListDenotes(units: seq<Option<string>>, n: nat)
    requires units != []
    ensures Denotes(ListText(UnitTexts(units, n + 1), "\n\n", n), JArr(Texts(units)))
  {
    assert AllWs("\n\n") && UnitTexts(units, n + 1) != [];
    hide *;
    UnitsDenote(units, n + 1);
    ListDenotes(UnitTexts(units, n + 1), Texts(units), "\n\n", n);
  }

  lemma {:induction false} BlockPartDenotes(node: Tree, n: nat)
    ensures FieldsDenote(
      [Field("is_global_scope", BoolText(node.isGlobalScope)), Field("declarations", SlotText(node, 0, n)),
       Field("body", SlotText(node, 1, n))],
      [Member("is_global_scope", JBool(node.isGlobalScope)), Member("declarations", NthChild(node, 0)),
       Member("body", NthChild(node, 1))])
    decreases node, 1
  {
    hide Denotes, FieldsDenote, BoolText, SlotText, NthChild;
    BoolDenotes(node.isGlobalScope);
    SlotDenotes(node, 0, n);
    SlotDenotes(node, 1, n);
    OneFieldDenotes("is_global_scope", BoolText(node.isGlobalScope), JBool(node.isGlobalScope));
    OneFieldDenotes("declarations", SlotText(node, 0, n), NthChild(node, 0));
    OneFieldDenotes("body", SlotText(node, 1, n), NthChild(node, 1));
    var a, ma := [Field("is_global_scope", BoolText(node.isGlobalScope))],
      [Member("is_global_scope", JBool(node.isGlobalScope))];
    var b, mb := [Field("declarations", SlotText(node, 0, n))], [Member("declarations", NthChild(node, 0))];
    var c, mc := [Field("body", SlotText(node, 1, n))], [Member("body", NthChild(node, 1))];
    ThreeDenote(a, ma, b, mb, c, mc);
    assert a + b + c == [a[0], b[0], c[0]] && ma + mb + mc == [ma[0], mb[0], mc[0]];
  }

  lemma {:induction false} StructureDenotes(node: Tree, n: nat)
    ensures FieldsDenote(StructurePart(node, n), StructureMembers(node))
    decreases node, 2
  {
    hide Denotes, FieldsDenote, EdgePart, Edge, ListPart, Children, NthChild, SlotText, BoolText, ListText, UnitTexts;
    hide When;
    match node.kind {
      case Program =>
        EdgeDenotes("program_name_node", node.left, n);
        EdgeDenotes("main_block", node.right, n);
        ListPartDenotes("uses_clauses", node.children, n);
        ThreeDenote(EdgePart("program_name_node", node.left, n), Edge("program_name_node", node.left),
                    EdgePart("main_block", node.right, n), Edge("main_block", node.right),
                    ListPart("uses_clauses", node.children, n), Children("uses_clauses", node.children));
      case Block => BlockPartDenotes(node, n);
      case UsesClause => UnitPartDenotes(node, n);
      case _ => EdgesDenote(node, n);
    }
  }

  lemma {:induction false} EdgesDenote(node: Tree, n: nat)
    ensures FieldsDenote(
      EdgePart("left", node.left, n) + EdgePart("right", node.right, n) + EdgePart("extra", node.extra, n)
      + ListPart("children", node.children, n),
      Edge("left", node.left) + Edge("right", node.right) + Edge("extra", node.extra)
      + Children("children", node.children))
    decreases node, 1
  {
    hide FieldsDenote, EdgePart, Edge, ListPart, Children;
    EdgeDenotes("left", node.left, n);
    EdgeDenotes("right", node.right, n);
    EdgeDenotes("extra", node.extra, n);
    ListPartDenotes("children", node.children, n);
    var l, ml := EdgePart("left", node.left, n), Edge("left", node.left);
    var r, mr := EdgePart("right", node.right, n), Edge("right", node.right);
    var e, me := EdgePart("extra", node.extra, n), Edge("extra", node.extra);
    ThreeDenote(l, ml, r, mr, e, me);
    FieldsDenoteAppend(l + r + e, ml + mr + me, ListPart("children", node.children, n),
                       Children("children", node.children));
  }

  /** The text of a node is an object with the members of the node. */
  lemma {:induction false} NodeDenotes(node: Tree, n: nat)
    ensures Denotes(NodeText(node, n), JObj(Members(node)))
    decreases node, 3
  {
    var fs := CommonFields(node, n + 1) + StructurePart(node, n + 1);
    CommonDenotes(node, n + 1);
    StructureDenotes(node, n + 1);
    assert fs != [];
    assert Members(node) == CommonMembers(node) + StructureMembers(node);
    OneNewline();
    hide Denotes, FieldsDenote, CommonFields, CommonMembers, StructurePart, StructureMembers, Members, FieldsText;
    hide AllWs, Line;
    FieldsDenoteAppend(CommonFields(node, n + 1), CommonMembers(node),
                       StructurePart(node, n + 1), StructureMembers(node));
    ObjectDenotes(fs, Members(node), "\n", Line(n + 1), Line(n));
    IndentBefore("{" + "\n" + FieldsText(fs, Line(n + 1)) + Line(n) + "}", JObj(Members(node)), n);
  }

  /** For every tree, the whole dump parses as one value, and its fields are those of the tree. */
  lemma DumpParses(node: Tree)
    ensures Parse(Dumped(Some(node), 0, true) + "\n") == Some(JObj(Members(node)))
  {
    assert AllWs("\n\n");
    hide *;
    NodeDenotes(node, 0);
    DumpedText(node);
    DenotesParses(NodeText(node, 0), JObj(Members(node)), "\n\n");
  }

  lemma DumpedText(node: Tree)
    ensures Dumped(Some(node), 0, true) + "\n" == NodeText(node, 0) + "\n\n"
  {
    hide NodeText;
  }
}
