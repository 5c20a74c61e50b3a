/** The dump as it is written, piece by piece (src/ast/ast.c:2267-2483). */
module AstJsonPrinter {
  import opened Json
  import opened AstJson
  import opened AstJsonFields
  import opened Wrappers

  class Output {
    var text: string

    constructor ()
      ensures text == ""
    {
      text := "";
    }

    method Put(s: string)
      modifies this
      ensures text == old(text) + s
    {
      text := text + s;
    }
  }

  method PrintIndent(out: Output, n: nat)
    modifies out
    ensures out.text == old(out.text) + Indent(n)
  {
    for i := 0 to n
      invariant out.text == old(out.text) + Indent(i)
    {
      out.Put("  ");
      IndentMore(i);
    }
  }

  lemma {:induction false} IndentMore(n: nat)
    ensures Indent(n + 1) == Indent(n) + "  "
  {
    if n > 0 {
      IndentMore(n - 1);
    }
  }

  lemma {:induction false} EscapedSnoc(s: string, c: char)
    ensures Escaped(s + [c]) == Escaped(s) + EscapedChar(c)
  {
    hide EscapedChar;
    if s == "" {
      assert "" + [c] == [c] && [c][1..] == "";
    } else {
      EscapedSnoc(s[1..], c);
      assert (s + [c])[1..] == s[1..] + [c];
    }
  }

  method EscapeChars(out: Output, s: string)
    modifies out
    ensures out.text == old(out.text) + Escaped(s)
  {
    hide Escaped, EscapedChar;
    assert s[..0] == "" && Escaped("") == "" by { NoEscapes(); }
    for i := 0 to |s|
      invariant out.text == old(out.text) + Escaped(s[..i])
    {
      assert s[..i + 1] == s[..i] + [s[i]];
      EscapedSnoc(s[..i], s[i]);
      out.Put(EscapedChar(s[i]));
    }
    assert s[..|s|] == s;
  }

  lemma NoEscapes()
    ensures Escaped("") == ""
  {
  }

  method EscapeJSONString(out: Output, v: Option<string>)
    modifies out
    ensures out.text == old(out.text) + StringText(v)
  {
    hide Escaped;
    if v.None? {
      out.Put("null");
      return;
    }
    out.Put("\"");
    EscapeChars(out, v.value);
    out.Put("\"");
    assert StringText(v) == "\"" + Escaped(v.value) + "\"";
  }

  // ---- the fields written so far

  ghost predicate Wrote(text: string, base: string, fs: seq<Field>, n: nat) {
    text == base + FieldsText(fs, Line(n))
  }

  lemma {:induction false} FieldsSnoc(fs: seq<Field>, f: Field, pad: string)
    ensures FieldsText(fs + [f], pad) == FieldsText(fs, pad) + (if fs == [] then "" else ",") + FieldText(f, pad)
  {
    hide FieldText;
    if fs == [] {
      assert [] + [f] == [f];
    } else {
      FieldsSnoc(fs[1..], f, pad);
      assert (fs + [f])[1..] == fs[1..] + [f];
      var a, g := FieldText(fs[0], pad), FieldText(f, pad);
      var more := FieldsText(fs[1..], pad);
      if |fs| == 1 {
        assert fs[1..] == [];
        Regroup1(a, g);
      } else {
        Regroup2(a, more, g);
      }
    }
  }

  lemma Regroup1(a: string, g: string)
    ensures a + ("," + ("" + "" + g)) == a + "," + g
  {
  }

  lemma Regroup2(a: string, more: string, g: string)
    ensures a + ("," + (more + "," + g)) == (a + ("," + more)) + "," + g
  {
  }

  /** The text in front of a field's value. */
  ghost function Head(printed: bool, name: string, n: nat): string {
    (if printed then "," else "") + Line(n) + "\"" + name + "\": "
  }

  lemma FieldWritten(text: string, base: string, fs: seq<Field>, name: string, value: string, n: nat)
    requires Wrote(text, base, fs, n)
    ensures Wrote(text + Head(fs != [], name, n) + value, base, fs + [Field(name, value)], n)
  {
    FieldsSnoc(fs, Field(name, value), Line(n));
    hide FieldsText, Line;
    assert Head(fs != [], name, n) + value == (if fs == [] then "" else ",") + FieldText(Field(name, value), Line(n));
  }

  /** The separator macro, the indentation and the name. */
  method BeginField(out: Output, printed: bool, name: string, n: nat)
    modifies out
    ensures out.text == old(out.text) + Head(printed, name, n)
  {
    if printed {
      out.Put(",\n");
    } else {
      out.Put("\n");
    }
    PrintIndent(out, n);
    out.Put("\"" + name + "\": ");
  }

  method PrintField(out: Output, printed: bool, name: string, value: string, n: nat,
                    ghost base: string, ghost fs: seq<Field>)
    requires Wrote(out.text, base, fs, n) && (printed <==> fs != [])
    modifies out
    ensures Wrote(out.text, base, fs + [Field(name, value)], n)
  {
    hide Wrote, Head;
    FieldWritten(out.text, base, fs, name, value, n);
    BeginField(out, printed, name, n);
    out.Put(value);
  }

  lemma TypeLine(indent: string, name: string)
    ensures FieldText(Field("type", "\"" + name + "\""), "\n" + indent + "  ") ==
      "\n" + indent + ("  \"type\": \"" + name + "\"")
  {
  }

  lemma ValueLine(indent: string, value: string)
    ensures FieldText(Field("value", value), "\n" + indent + "  ") == "\n" + indent + "  \"value\": " + value
  {
  }

  lemma TokenLines(indent: string, a: string, v: string, last: string)
    ensures "{" + "" + (("\n" + indent + a) + ("," + ("\n" + indent + "  \"value\": " + v))) + ("\n" + last) + "}" ==
      "{\n" + indent + a + ",\n" + indent + "  \"value\": " + v + "\n" + last + "}"
  {
  }

  lemma TokenTextIs(t: Token, n: nat)
    ensures TokenText(t, n) ==
      "{\n" + Indent(n + 1) + ("  \"type\": \"" + t.typeName + "\"") + ",\n" + Indent(n + 1) + "  \"value\": "
      + StringText(t.value) + "\n" + Indent(n) + "}"
  {
    var pad := Line(n + 1) + "  ";
    var fs := TokenFields(t);
    assert fs[1..] == [fs[1]];
    hide StringText, Indent, FieldText;
    TypeLine(Indent(n + 1), t.typeName);
    ValueLine(Indent(n + 1), StringText(t.value));
    assert FieldsText(fs, pad) == FieldText(fs[0], pad) + ("," + FieldText(fs[1], pad));
    hide FieldsText;
    TokenLines(Indent(n + 1), "  \"type\": \"" + t.typeName + "\"", StringText(t.value), Indent(n));
  }

  method PrintTokenType(out: Output, t: Token, n: nat)
    modifies out
    ensures out.text == old(out.text) + ("{\n" + Indent(n) + ("  \"type\": \"" + t.typeName + "\""))
  {
    hide Indent;
    out.Put("{\n");
    PrintIndent(out, n);
    out.Put("  \"type\": \"" + t.typeName + "\"");
  }

  method PrintTokenValue(out: Output, t: Token, n: nat)
    modifies out
    ensures out.text == old(out.text) + (",\n" + Indent(n) + "  \"value\": " + StringText(t.value))
  {
    hide Indent, StringText;
    out.Put(",\n");
    PrintIndent(out, n);
    out.Put("  \"value\": ");
    EscapeJSONString(out, t.value);
  }

  method PrintTokenEnd(out: Output, n: nat)
    modifies out
    ensures out.text == old(out.text) + ("\n" + Indent(n) + "}")
  {
    hide Indent;
    out.Put("\n");
    PrintIndent(out, n);
    out.Put("}");
  }

  lemma TokenParts(start: string, i: string, a: string, v: string, last: string)
    ensures start + ("{\n" + i + a) + (",\n" + i + "  \"value\": " + v) + ("\n" + last + "}") ==
      start + ("{\n" + i + a + ",\n" + i + "  \"value\": " + v + "\n" + last + "}")
  {
    var x, y, z := "{\n" + i + a, ",\n" + i + "  \"value\": " + v, "\n" + last + "}";
    assert x + y + z == "{\n" + i + a + ",\n" + i + "  \"value\": " + v + "\n" + last + "}";
    assert start + x + y + z == start + (x + y + z);
  }

  method PrintTokenBody(out: Output, t: Token, n: nat)
    modifies out
    ensures out.text == old(out.text) + TokenText(t, n)
  {
    hide Indent, StringText, TokenText;
    PrintTokenType(out, t, n + 1);
    PrintTokenValue(out, t, n + 1);
    PrintTokenEnd(out, n);
    TokenTextIs(t, n);
    TokenParts(old(out.text), Indent(n + 1), "  \"type\": \"" + t.typeName + "\"", StringText(t.value), Indent(n));
  }

  method PrintToken(out: Output, node: Tree, n: nat, ghost base: string, ghost fs: seq<Field>)
    requires Wrote(out.text, base, fs, n) && fs != []
    modifies out
    ensures Wrote(out.text, base, fs + TokenPart(node, n), n)
  {
    hide Wrote, Head, TokenText;
    if node.token.None? {
      assert fs + [] == fs;
      return;
    }
    FieldWritten(out.text, base, fs, "token", TokenText(node.token.value, n), n);
    BeginField(out, true, "token", n);
    PrintTokenBody(out, node.token.value, n);
  }

  method PrintCommon(out: Output, node: Tree, n: nat, ghost base: string)
    requires Wrote(out.text, base, [], n)
    modifies out
    ensures Wrote(out.text, base, CommonFields(node, n), n)
  {
    hide Wrote, TokenPart, BoolText, IntText, Quoted;
    ghost var fs := [Field("node_type", Quoted(node.typeName))];
    assert [] + fs == fs;
    PrintField(out, false, "node_type", Quoted(node.typeName), n, base, []);
    PrintToken(out, node, n, base, fs);
    fs := fs + TokenPart(node, n);
    PrintField(out, true, "var_type_annotated", Quoted(node.varType), n, base, fs);
    fs := fs + [Field("var_type_annotated", Quoted(node.varType))];
    PrintAttributes(out, node, n, base, fs);
  }

  method PrintAttributes(out: Output, node: Tree, n: nat, ghost base: string, ghost fs: seq<Field>)
    requires Wrote(out.text, base, fs, n) && fs != []
    modifies out
    ensures Wrote(out.text, base, fs + AttributePart(node), n)
  {
    hide Wrote, BoolText, IntText;
    ghost var now := fs;
    if node.kind == VarDecl && node.inRoutine {
      PrintField(out, true, "by_ref", BoolText(node.byRef), n, base, now);
      now := now + [Field("by_ref", BoolText(node.byRef))];
    }
    if node.kind == EnumValue || node.kind == Number {
      PrintField(out, true, "i_val", IntText(node.iVal), n, base, now);
      now := now + [Field("i_val", IntText(node.iVal))];
    }
    if node.kind == ProcedureDecl || node.kind == FunctionDecl {
      PrintField(out, true, "is_inline", BoolText(node.isInline), n, base, now);
      now := now + [Field("is_inline", BoolText(node.isInline))];
    }
    assert now == fs + AttributePart(node);
  }

  // ---- lists

  lemma {:induction false} ItemsSnoc(ts: seq<string>, t: string)
    ensures ItemsText(ts + [t]) == (if ts == [] then "" else ItemsText(ts) + ",\n") + t
  {
    if ts == [] {
      assert [] + [t] == [t];
    } else {
      ItemsSnoc(ts[1..], t);
      assert (ts + [t])[1..] == ts[1..] + [t];
    }
  }

  lemma {:induction false} ItemTextAt(ts: seq<Option<Tree>>, n: nat, i: nat)
    requires i < |ts|
    ensures ItemTexts(ts, n)[i] == ItemText(ts[i], n)
  {
    hide ItemText;
    if i > 0 {
      ItemTextAt(ts[1..], n, i - 1);
    }
  }

  /** What stands behind the first i items of a list of m. */
  ghost function ItemsSoFar(texts: seq<string>, i: nat): string
    requires i <= |texts|
  {
    if i == 0 then "" else ItemsText(texts[..i]) + (if i < |texts| then ",\n" else "\n")
  }

  lemma ItemsGo(texts: seq<string>, i: nat)
    requires i < |texts|
    ensures ItemsSoFar(texts, i + 1) ==
      ItemsSoFar(texts, i) + (texts[i] + (if i == |texts| - 1 then "" else ",") + "\n")
  {
    assert texts[..i + 1] == texts[..i] + [texts[i]];
    ItemsSnoc(texts[..i], texts[i]);
    hide ItemsText;
  }

  lemma ItemsDone(texts: seq<string>, n: nat)
    requires texts != []
    ensures "[\n" + ItemsSoFar(texts, |texts|) + Indent(n) + "]" == ListText(texts, "\n", n)
  {
    assert texts[..|texts|] == texts;
    hide ItemsText, Indent;
  }

  method PrintItems(out: Output, ts: seq<Option<Tree>>, n: nat)
    modifies out
    ensures out.text == old(out.text) + ItemsSoFar(ItemTexts(ts, n), |ts|)
    decreases ts, 0
  {
    hide ItemTexts, ItemText, ItemsSoFar;
    ghost var texts := ItemTexts(ts, n);
    assert ItemsSoFar(texts, 0) == "" by { NoItems(texts); }
    for i := 0 to |ts|
      invariant out.text == old(out.text) + ItemsSoFar(texts, i)
    {
      ItemTextAt(ts, n, i);
      ItemsGo(texts, i);
      DumpNode(out, ts[i], n, i == |ts| - 1);
    }
  }

  lemma NoItems(texts: seq<string>)
    ensures ItemsSoFar(texts, 0) == ""
  {
  }

  method PrintList(out: Output, name: string, ts: seq<Option<Tree>>, n: nat, ghost base: string, ghost fs: seq<Field>)
    requires Wrote(out.text, base, fs, n) && fs != []
    modifies out
    ensures Wrote(out.text, base, fs + ListPart(name, ts, n), n)
    decreases ts, 1
  {
    hide Wrote, Head, ItemTexts, ItemsSoFar, ListText, Indent;
    if |ts| == 0 {
      assert fs + [] == fs;
      return;
    }
    ghost var texts := ItemTexts(ts, n + 1);
    FieldWritten(out.text, base, fs, name, ListText(texts, "\n", n), n);
    ItemsDone(texts, n);
    BeginField(out, true, name, n);
    ghost var start := out.text;
    out.Put("[\n");
    PrintItems(out, ts, n + 1);
    PrintIndent(out, n);
    out.Put("]");
    assert out.text == start + ListText(texts, "\n", n);
  }

  lemma UnitsDone(texts: seq<string>, n: nat)
    requires texts != []
    ensures "[\n" + ("\n" + ItemsText(texts)) + "\n" + Indent(n) + "]" == ListText(texts, "\n\n", n)
  {
    hide ItemsText, Indent;
  }

  method PrintUnitItems(out: Output, units: seq<Option<string>>, n: nat)
    requires units != []
    modifies out
    ensures out.text == old(out.text) + "\n" + ItemsText(UnitTexts(units, n))
  {
    hide ItemsText, Indent, StringText;
    ghost var texts := UnitTexts(units, n);
    for i := 0 to |units|
      invariant out.text == old(out.text) + if i == 0 then "" else "\n" + ItemsText(texts[..i])
    {
      assert texts[..i + 1] == texts[..i] + [texts[i]];
      ItemsSnoc(texts[..i], texts[i]);
      if i != 0 {
        out.Put(",\n");
      } else {
        out.Put("\n");
      }
      PrintIndent(out, n);
      EscapeJSONString(out, units[i]);
    }
    assert texts[..|texts|] == texts;
  }

  method PrintUnits(out: Output, node: Tree, n: nat, ghost base: string, ghost fs: seq<Field>)
    requires Wrote(out.text, base, fs, n) && fs != []
    modifies out
    ensures Wrote(out.text, base,
      fs + When(node.units != [], Field("unit_list", ListText(UnitTexts(node.units, n + 1), "\n\n", n))), n)
  {
    hide Wrote, Head, UnitTexts, ItemsText, ListText, Indent;
    if |node.units| == 0 {
      assert fs + [] == fs;
      return;
    }
    ghost var texts := UnitTexts(node.units, n + 1);
    FieldWritten(out.text, base, fs, "unit_list", ListText(texts, "\n\n", n), n);
    UnitsDone(texts, n);
    BeginField(out, true, "unit_list", n);
    ghost var start := out.text;
    out.Put("[\n");
    PrintUnitItems(out, node.units, n + 1);
    out.Put("\n");
    PrintIndent(out, n);
    out.Put("]");
    assert out.text == start + ListText(texts, "\n\n", n);
  }

  // ---- nodes

  method PrintEdge(out: Output, name: string, t: Option<Tree>, n: nat, ghost base: string, ghost fs: seq<Field>)
    requires Wrote(out.text, base, fs, n) && fs != []
    modifies out
    ensures Wrote(out.text, base, fs + EdgePart(name, t, n), n)
    decreases t, 2
  {
    hide Wrote, Head, NodeText;
    if t.None? {
      assert fs + [] == fs;
      return;
    }
    ghost var value := "\n" + NodeText(t.value, n) + "\n";
    FieldWritten(out.text, base, fs, name, value, n);
    BeginField(out, true, name, n);
    ghost var start := out.text;
    out.Put("\n");
    DumpNode(out, t, n, true);
    assert out.text == start + value;
  }

  method PrintSlot(out: Output, name: string, node: Tree, i: nat, n: nat, ghost base: string, ghost fs: seq<Field>)
    requires Wrote(out.text, base, fs, n) && fs != []
    modifies out
    ensures Wrote(out.text, base, fs + [Field(name, SlotText(node, i, n))], n)
    decreases node, 0
  {
    hide Wrote, Head, NodeText;
    FieldWritten(out.text, base, fs, name, SlotText(node, i, n), n);
    BeginField(out, true, name, n);
    ghost var start := out.text;
    if |node.children| > i && node.children[i].Some? {
      out.Put("\n");
      DumpNode(out, node.children[i], n, true);
    } else {
      out.Put("null");
    }
    assert out.text == start + SlotText(node, i, n);
  }

  method PrintProgram(out: Output, node: Tree, n: nat, ghost base: string, ghost fs: seq<Field>)
    requires Wrote(out.text, base, fs, n) && fs != []
    modifies out
    ensures Wrote(out.text, base,
      fs + (EdgePart("program_name_node", node.left, n) + EdgePart("main_block", node.right, n)
            + ListPart("uses_clauses", node.children, n)), n)
    decreases node, 0
  {
    hide Wrote, EdgePart, ListPart;
    ghost var name, main := EdgePart("program_name_node", node.left, n), EdgePart("main_block", node.right, n);
    ghost var uses := ListPart("uses_clauses", node.children, n);
    PrintEdge(out, "program_name_node", node.left, n, base, fs);
    PrintEdge(out, "main_block", node.right, n, base, fs + name);
    PrintList(out, "uses_clauses", node.children, n, base, fs + name + main);
    assert fs + name + main + uses == fs + (name + main + uses);
  }

  method PrintBlock(out: Output, node: Tree, n: nat, ghost base: string, ghost fs: seq<Field>)
    requires Wrote(out.text, base, fs, n) && fs != []
    modifies out
    ensures Wrote(out.text, base,
      fs + [Field("is_global_scope", BoolText(node.isGlobalScope)), Field("declarations", SlotText(node, 0, n)),
            Field("body", SlotText(node, 1, n))], n)
    decreases node, 1
  {
    hide Wrote, SlotText, BoolText;
    ghost var scope := Field("is_global_scope", BoolText(node.isGlobalScope));
    ghost var declarations, body := Field("declarations", SlotText(node, 0, n)), Field("body", SlotText(node, 1, n));
    PrintField(out, true, "is_global_scope", BoolText(node.isGlobalScope), n, base, fs);
    PrintSlot(out, "declarations", node, 0, n, base, fs + [scope]);
    PrintSlot(out, "body", node, 1, n, base, fs + [scope] + [declarations]);
    assert fs + [scope] + [declarations] + [body] == fs + [scope, declarations, body];
  }

  method PrintEdges(out: Output, node: Tree, n: nat, ghost base: string, ghost fs: seq<Field>)
    requires Wrote(out.text, base, fs, n) && fs != []
    modifies out
    ensures Wrote(out.text, base,
      fs + (EdgePart("left", node.left, n) + EdgePart("right", node.right, n) + EdgePart("extra", node.extra, n)
            + ListPart("children", node.children, n)), n)
    decreases node, 0
  {
    hide Wrote, EdgePart, ListPart;
    ghost var left, right := EdgePart("left", node.left, n), EdgePart("right", node.right, n);
    ghost var extra, children := EdgePart("extra", node.extra, n), ListPart("children", node.children, n);
    PrintEdge(out, "left", node.left, n, base, fs);
    PrintEdge(out, "right", node.right, n, base, fs + left);
    PrintEdge(out, "extra", node.extra, n, base, fs + left + right);
    PrintList(out, "children", node.children, n, base, fs + left + right + extra);
    assert fs + left + right + extra + children == fs + (left + right + extra + children);
  }

  method PrintStructure(out: Output, node: Tree, n: nat, ghost base: string, ghost fs: seq<Field>)
    requires Wrote(out.text, base, fs, n) && fs != []
    modifies out
    ensures Wrote(out.text, base, fs + StructurePart(node, n), n)
    decreases node, 2
  {
    hide Wrote, EdgePart, ListPart, SlotText, BoolText, ListText, UnitTexts;
    match node.kind {
      case Program => PrintProgram(out, node, n, base, fs);
      case Block => PrintBlock(out, node, n, base, fs);
      case UsesClause => PrintUnits(out, node, n, base, fs);
      case _ => PrintEdges(out, node, n, base, fs);
    }
  }

  /** A node, or null, with a comma unless it is the last of its list, and a line break. */
  method DumpNode(out: Output, t: Option<Tree>, n: nat, isLast: bool)
    modifies out
    ensures out.text == old(out.text) + Dumped(t, n, isLast)
    decreases t, 1
  {
    hide NodeText, Indent;
    if t.None? {
      PrintIndent(out, n);
      out.Put("null");
    } else {
      PrintNode(out, t.value, n);
    }
    if !isLast {
      out.Put(",");
    }
    out.Put("\n");
  }

  method PrintNode(out: Output, node: Tree, n: nat)
    modifies out
    ensures out.text == old(out.text) + NodeText(node, n)
    decreases node, 3
  {
    hide Wrote, CommonFields, StructurePart, FieldsText;
    PrintIndent(out, n);
    out.Put("{\n");
    ghost var base := out.text;
    ghost var fs := CommonFields(node, n + 1) + StructurePart(node, n + 1);
    Nothing(base, n + 1);
    PrintCommon(out, node, n + 1, base);
    SomeCommon(node, n + 1);
    PrintStructure(out, node, n + 1, base, CommonFields(node, n + 1));
    Written(out.text, base, fs, n + 1);
    out.Put("\n");
    PrintIndent(out, n);
    out.Put("}");
    NodeTextIs(node, n);
  }

  lemma Nothing(base: string, n: nat)
    ensures Wrote(base, base, [], n)
  {
    assert base + "" == base;
  }

  lemma SomeCommon(node: Tree, n: nat)
    ensures CommonFields(node, n) != []
  {
  }

  lemma Written(text: string, base: string, fs: seq<Field>, n: nat)
    requires Wrote(text, base, fs, n)
    ensures text == base + FieldsText(fs, Line(n))
  {
  }

  lemma NodeTextIs(node: Tree, n: nat)
    ensures NodeText(node, n) == Indent(n) + "{\n"
      + FieldsText(CommonFields(node, n + 1) + StructurePart(node, n + 1), Line(n + 1)) + "\n" + Indent(n) + "}"
  {
    hide CommonFields, StructurePart, FieldsText, Indent;
  }

  /** The dump of a tree is a JSON text that says what the tree holds. */
  method DumpASTJSON(out: Output, t: Option<Tree>)
    modifies out
    ensures t == None ==> out.text == old(out.text) + "null"
    ensures t.Some? ==> exists s :: out.text == old(out.text) + s && Parse(s) == Some(JObj(Members(t.value)))
    ensures t.Some? ==> exists s :: out.text == old(out.text) + s && Parse(s).Some? && Shows(Parse(s).value, t.value)
  {
    hide *;
    if t.None? {
      out.Put("null");
      return;
    }
    DumpNode(out, t, 0, true);
    out.Put("\n");
    DumpParses(t.value);
    DumpShows(t.value);
    assert out.text == old(out.text) + (Dumped(t, 0, true) + "\n");
  }
}
