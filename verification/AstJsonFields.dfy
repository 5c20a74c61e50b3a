/** Looking the fields of a dump up by their names (src/ast/ast.c:2314-2483). */
module AstJsonFields {
  import opened AstJson
  import opened Json
  import opened Wrappers

  ghost function FieldOf(ms: seq<Member>, name: string): Option<Json> {
    if ms == [] then None
    else if ms[0].name == name then Some(ms[0].value)
    else FieldOf(ms[1..], name)
  }

  /** Some of the names, each at most once, in their order. */
  ghost predicate InOrder(ms: seq<Member>, names: seq<string>)
    decreases |names|
  {
    if ms == [] then true
    else if names == [] then false
    else if ms[0].name == names[0] then InOrder(ms[1..], names[1..])
    else InOrder(ms, names[1..])
  }

  // ---- what a reader of the dump finds

  /** Behind the fields every node may have. */
  ghost function NamesOf(kind: Kind): seq<string> {
    match kind
    case Program => ["program_name_node", "main_block", "uses_clauses"]
    case Block => ["is_global_scope", "declarations", "body"]
    case UsesClause => ["unit_list"]
    case _ => ["left", "right", "extra", "children"]
  }

  ghost function AllNames(kind: Kind): seq<string> {
    ["node_type", "token", "var_type_annotated", "by_ref", "i_val", "is_inline"] + NamesOf(kind)
  }

  ghost predicate ShowsText(j: Json, v: Option<string>) {
    match v case None => j == JNull case Some(s) => j == JStr(s)
  }

  ghost predicate ShowsToken(o: Option<Json>, token: Option<Token>) {
    match token
    case None => o == None
    case Some(t) =>
      && o.Some? && o.value.JObj? && InOrder(o.value.members, ["type", "value"])
      && FieldOf(o.value.members, "type") == Some(JStr(t.typeName))
      && FieldOf(o.value.members, "value").Some? && ShowsText(FieldOf(o.value.members, "value").value, t.value)
  }

  ghost predicate ShowsCommon(ms: seq<Member>, node: Tree) {
    && FieldOf(ms, "node_type") == Some(JStr(node.typeName))
    && ShowsToken(FieldOf(ms, "token"), node.token)
    && FieldOf(ms, "var_type_annotated") == Some(JStr(node.varType))
    && FieldOf(ms, "by_ref") == (if node.kind == VarDecl && node.inRoutine then Some(JBool(node.byRef)) else None)
    && FieldOf(ms, "i_val") == (if node.kind == EnumValue || node.kind == Number then Some(JNum(node.iVal)) else None)
    && FieldOf(ms, "is_inline") ==
      (if node.kind == ProcedureDecl || node.kind == FunctionDecl then Some(JBool(node.isInline)) else None)
  }

  ghost predicate ShowsEdge(o: Option<Json>, t: Option<Tree>)
    decreases t
  {
    match t case None => o == None case Some(c) => o.Some? && Shows(o.value, c)
  }

  ghost predicate ShowsSlot(j: Json, t: Option<Tree>)
    decreases t
  {
    match t case None => j == JNull case Some(c) => Shows(j, c)
  }

  ghost predicate ShowsList(o: Option<Json>, ts: seq<Option<Tree>>)
    decreases ts, 1
  {
    if ts == [] then o == None
    else
      && o.Some? && o.value.JArr? && |o.value.items| == |ts|
      && forall i :: 0 <= i < |ts| ==> ShowsSlot(o.value.items[i], ts[i])
  }

  ghost predicate ShowsNth(o: Option<Json>, node: Tree, i: nat)
    decreases node, 0
  {
    o.Some? && if i < |node.children| then ShowsSlot(o.value, node.children[i]) else o.value == JNull
  }

  ghost predicate ShowsUnits(o: Option<Json>, units: seq<Option<string>>) {
    if units == [] then o == None
    else
      && o.Some? && o.value.JArr? && |o.value.items| == |units|
      && forall i :: 0 <= i < |units| ==> ShowsText(o.value.items[i], units[i])
  }

  ghost predicate ShowsStructure(ms: seq<Member>, node: Tree)
    decreases node, 1
  {
    match node.kind
    case Program =>
      && ShowsEdge(FieldOf(ms, "program_name_node"), node.left) && ShowsEdge(FieldOf(ms, "main_block"), node.right)
      && ShowsList(FieldOf(ms, "uses_clauses"), node.children)
    case Block =>
      && FieldOf(ms, "is_global_scope") == Some(JBool(node.isGlobalScope))
      && ShowsNth(FieldOf(ms, "declarations"), node, 0) && ShowsNth(FieldOf(ms, "body"), node, 1)
    case UsesClause => ShowsUnits(FieldOf(ms, "unit_list"), node.units)
    case _ =>
      && ShowsEdge(FieldOf(ms, "left"), node.left) && ShowsEdge(FieldOf(ms, "right"), node.right)
      && ShowsEdge(FieldOf(ms, "extra"), node.extra) && ShowsList(FieldOf(ms, "children"), node.children)
  }

  /** The object tells of the node all that the dump is to tell, down to the leaves, and nothing else. */
  ghost predicate Shows(j: Json, node: Tree)
    decreases node, 2
  {
    && j.JObj? && InOrder(j.members, AllNames(node.kind))
    && ShowsCommon(j.members, node) && ShowsStructure(j.members, node)
  }

  // ---- fields of a list put together

  lemma {:induction false} FieldAbsent(ms: seq<Member>, names: seq<string>, name: string)
    requires InOrder(ms, names) && name !in names
    ensures FieldOf(ms, name) == None
    decreases |names|
  {
    if ms != [] {
      if ms[0].name == names[0] {
        FieldAbsent(ms[1..], names[1..], name);
      } else {
        FieldAbsent(ms, names[1..], name);
      }
    }
  }

  lemma {:induction false} FieldOfConcat(a: seq<Member>, b: seq<Member>, name: string)
    ensures FieldOf(a + b, name) == if FieldOf(a, name).Some? then FieldOf(a, name) else FieldOf(b, name)
  {
    if a == [] {
      assert a + b == b;
    } else {
      assert (a + b)[1..] == a[1..] + b;
      FieldOfConcat(a[1..], b, name);
    }
  }

  lemma {:induction false} MoreNames(ms: seq<Member>, front: seq<string>, names: seq<string>)
    requires InOrder(ms, names) && ms != [] && ms[0].name !in front
    ensures InOrder(ms, front + names)
    decreases |front|
  {
    if front == [] {
      assert front + names == names;
    } else {
      assert (front + names)[1..] == front[1..] + names;
      MoreNames(ms, front[1..], names);
    }
  }

  lemma {:induction false} InOrderNames(ms: seq<Member>, names: seq<string>)
    requires InOrder(ms, names)
    ensures forall m :: m in ms ==> m.name in names
    decreases |names|
  {
    if ms != [] {
      assert names == [names[0]] + names[1..];
      if ms[0].name == names[0] {
        InOrderNames(ms[1..], names[1..]);
        assert ms == [ms[0]] + ms[1..];
      } else {
        InOrderNames(ms, names[1..]);
      }
    }
  }

  lemma {:induction false} InOrderConcat(a: seq<Member>, x: seq<string>, b: seq<Member>, y: seq<string>)
    requires InOrder(a, x) && InOrder(b, y) && forall n :: n in x ==> n !in y
    ensures InOrder(a + b, x + y)
    decreases |x|
  {
    if x == [] {
      assert a == [] && a + b == b && x + y == y;
    } else if a == [] {
      assert a + b == b;
      if b != [] {
        InOrderNames(b, y);
        assert b[0] in b;
        MoreNames(b, x, y);
      }
    } else {
      assert (x + y)[1..] == x[1..] + y;
      if a[0].name == x[0] {
        assert (a + b)[1..] == a[1..] + b;
        InOrderConcat(a[1..], x[1..], b, y);
      } else {
        InOrderConcat(a, x[1..], b, y);
      }
    }
  }

  lemma FrontField(a: seq<Member>, b: seq<Member>, y: seq<string>, name: string)
    requires InOrder(b, y) && name !in y
    ensures FieldOf(a + b, name) == FieldOf(a, name)
  {
    FieldOfConcat(a, b, name);
    FieldAbsent(b, y, name);
  }

  lemma BackField(a: seq<Member>, x: seq<string>, b: seq<Member>, name: string)
    requires InOrder(a, x) && name !in x
    ensures FieldOf(a + b, name) == FieldOf(b, name)
  {
    FieldOfConcat(a, b, name);
    FieldAbsent(a, x, name);
  }

  lemma TwoParts(a: seq<Member>, x: string, b: seq<Member>, y: string)
    requires InOrder(a, [x]) && InOrder(b, [y]) && x != y
    ensures InOrder(a + b, [x, y])
    ensures FieldOf(a + b, x) == FieldOf(a, x) && FieldOf(a + b, y) == FieldOf(b, y)
  {
    hide InOrder, FieldOf;
    InOrderConcat(a, [x], b, [y]);
    assert [x] + [y] == [x, y];
    FrontField(a, b, [y], x);
    BackField(a, [x], b, y);
  }

  lemma ThreeParts(a: seq<Member>, x: string, b: seq<Member>, y: string, c: seq<Member>, z: string)
    requires InOrder(a, [x]) && InOrder(b, [y]) && InOrder(c, [z]) && x != y && x != z && y != z
    ensures var ms := a + b + c;
      && InOrder(ms, [x, y, z])
      && FieldOf(ms, x) == FieldOf(a, x) && FieldOf(ms, y) == FieldOf(b, y) && FieldOf(ms, z) == FieldOf(c, z)
  {
    hide InOrder, FieldOf;
    TwoParts(a, x, b, y);
    InOrderConcat(a + b, [x, y], c, [z]);
    assert [x, y] + [z] == [x, y, z];
    FrontField(a + b, c, [z], x);
    FrontField(a + b, c, [z], y);
    BackField(a + b, [x, y], c, z);
  }

  lemma FourParts(a: seq<Member>, x: string, b: seq<Member>, y: string, c: seq<Member>, z: string,
                  d: seq<Member>, w: string)
    requires InOrder(a, [x]) && InOrder(b, [y]) && InOrder(c, [z]) && InOrder(d, [w])
    requires x != y && x != z && y != z && x != w && y != w && z != w
    ensures var ms := a + b + c + d;
      && InOrder(ms, [x, y, z, w])
      && FieldOf(ms, x) == FieldOf(a, x) && FieldOf(ms, y) == FieldOf(b, y)
      && FieldOf(ms, z) == FieldOf(c, z) && FieldOf(ms, w) == FieldOf(d, w)
  {
    hide InOrder, FieldOf;
    ThreeParts(a, x, b, y, c, z);
    InOrderConcat(a + b + c, [x, y, z], d, [w]);
    assert [x, y, z] + [w] == [x, y, z, w];
    FrontField(a + b + c, d, [w], x);
    FrontField(a + b + c, d, [w], y);
    FrontField(a + b + c, d, [w], z);
    BackField(a + b + c, [x, y, z], d, w);
  }

  lemma OnePart(name: string, value: Json)
    ensures InOrder([Member(name, value)], [name]) && FieldOf([Member(name, value)], name) == Some(value)
    ensures InOrder([], [name]) && FieldOf([], name) == None
  {
    assert [Member(name, value)][1..] == [];
  }

  // ---- the members of the model are what a reader finds

  ghost predicate Maybe(ms: seq<Member>, name: string, o: Option<Json>) {
    InOrder(ms, [name]) && FieldOf(ms, name) == o
  }

  lemma WhenMaybe(b: bool, name: string, value: Json)
    ensures Maybe(When(b, Member(name, value)), name, if b then Some(value) else None)
  {
    OnePart(name, value);
    hide InOrder, FieldOf;
  }

  lemma AttributesShown(node: Tree)
    ensures var ms := AttributeMembers(node);
      && InOrder(ms, ["by_ref", "i_val", "is_inline"])
      && FieldOf(ms, "by_ref") == (if node.kind == VarDecl && node.inRoutine then Some(JBool(node.byRef)) else None)
      && FieldOf(ms, "i_val") ==
        (if node.kind == EnumValue || node.kind == Number then Some(JNum(node.iVal)) else None)
      && FieldOf(ms, "is_inline") ==
        (if node.kind == ProcedureDecl || node.kind == FunctionDecl then Some(JBool(node.isInline)) else None)
  {
    var b := When(node.kind == VarDecl && node.inRoutine, Member("by_ref", JBool(node.byRef)));
    var i := When(node.kind == EnumValue || node.kind == Number, Member("i_val", JNum(node.iVal)));
    var l := When(node.kind == ProcedureDecl || node.kind == FunctionDecl, Member("is_inline", JBool(node.isInline)));
    assert AttributeMembers(node) == b + i + l;
    WhenMaybe(node.kind == VarDecl && node.inRoutine, "by_ref", JBool(node.byRef));
    WhenMaybe(node.kind == EnumValue || node.kind == Number, "i_val", JNum(node.iVal));
    WhenMaybe(node.kind == ProcedureDecl || node.kind == FunctionDecl, "is_inline", JBool(node.isInline));
    hide InOrder, FieldOf, When, AttributeMembers;
    ThreeParts(b, "by_ref", i, "i_val", l, "is_inline");
  }

  lemma TokenShown(node: Tree)
    ensures InOrder(TokenMembers(node), ["token"]) && ShowsToken(FieldOf(TokenMembers(node), "token"), node.token)
  {
    OnePart("token", if node.token.Some? then TokenValue(node.token.value) else JNull);
    if node.token.Some? {
      var t := node.token.value;
      var a, b := [Member("type", JStr(t.typeName))], [Member("value", Text(t.value))];
      OnePart("type", JStr(t.typeName));
      OnePart("value", Text(t.value));
      hide InOrder, FieldOf;
      TwoParts(a, "type", b, "value");
      assert a + b == TokenValue(t).members;
    }
  }

  const FIRST: seq<string> := ["node_type", "token", "var_type_annotated"]
  const SECOND: seq<string> := ["by_ref", "i_val", "is_inline"]

  lemma HeadShown(node: Tree)
    ensures var ms := [Member("node_type", JStr(node.typeName))] + TokenMembers(node)
                      + [Member("var_type_annotated", JStr(node.varType))];
      && InOrder(ms, FIRST)
      && FieldOf(ms, "node_type") == Some(JStr(node.typeName)) && ShowsToken(FieldOf(ms, "token"), node.token)
      && FieldOf(ms, "var_type_annotated") == Some(JStr(node.varType))
  {
    var n, v := [Member("node_type", JStr(node.typeName))], [Member("var_type_annotated", JStr(node.varType))];
    OnePart("node_type", JStr(node.typeName));
    OnePart("var_type_annotated", JStr(node.varType));
    TokenShown(node);
    hide InOrder, FieldOf, ShowsToken, TokenMembers;
    ThreeParts(n, "node_type", TokenMembers(node), "token", v, "var_type_annotated");
  }

  lemma CommonApart()
    ensures forall n :: n in FIRST ==> n !in SECOND
  {
  }

  lemma CommonShown(node: Tree)
    ensures ShowsCommon(CommonMembers(node), node) && InOrder(CommonMembers(node), FIRST + SECOND)
  {
    var h := [Member("node_type", JStr(node.typeName))] + TokenMembers(node)
             + [Member("var_type_annotated", JStr(node.varType))];
    var a := AttributeMembers(node);
    HeadShown(node);
    AttributesShown(node);
    CommonApart();
    assert CommonMembers(node) == h + a;
    assert "node_type" in FIRST && "token" in FIRST && "var_type_annotated" in FIRST;
    assert "by_ref" in SECOND && "i_val" in SECOND && "is_inline" in SECOND;
    assert InOrder(a, SECOND);
    hide InOrder, FieldOf, ShowsToken, TokenMembers, AttributeMembers, CommonMembers, FIRST, SECOND;
    InOrderConcat(h, FIRST, a, SECOND);
    FrontField(h, a, SECOND, "node_type");
    FrontField(h, a, SECOND, "token");
    FrontField(h, a, SECOND, "var_type_annotated");
    BackField(h, FIRST, a, "by_ref");
    BackField(h, FIRST, a, "i_val");
    BackField(h, FIRST, a, "is_inline");
  }

  lemma {:induction false} EdgeShown(name: string, t: Option<Tree>)
    ensures InOrder(Edge(name, t), [name]) && ShowsEdge(FieldOf(Edge(name, t), name), t)
    decreases t
  {
    match t {
      case None => OnePart(name, JNull);
      case Some(c) =>
        NodeShown(c);
        OnePart(name, JObj(Members(c)));
        hide InOrder, FieldOf, Shows, Members;
    }
  }

  lemma {:induction false} ChildrenShown(name: string, ts: seq<Option<Tree>>)
    ensures InOrder(Children(name, ts), [name]) && ShowsList(FieldOf(Children(name, ts), name), ts)
    decreases ts, 1
  {
    OnePart(name, JArr(ChildList(ts)));
    hide InOrder, FieldOf, ShowsSlot, ChildList;
    ChildListShown(ts);
  }

  lemma {:induction false} ChildListShown(ts: seq<Option<Tree>>)
    ensures forall i :: 0 <= i < |ts| ==> ShowsSlot(ChildList(ts)[i], ts[i])
    decreases ts, 0
  {
    if ts != [] {
      ChildShown(ts[0]);
      ChildListShown(ts[1..]);
      hide ShowsSlot, Child;
      var js, rest := ChildList(ts), ChildList(ts[1..]);
      forall i | 0 <= i < |ts|
        ensures ShowsSlot(js[i], ts[i])
      {
        if i > 0 { assert js[i] == rest[i - 1] && ts[i] == ts[1..][i - 1]; }
      }
    }
  }

  lemma {:induction false} ChildShown(t: Option<Tree>)
    ensures ShowsSlot(Child(t), t)
    decreases t
  {
    if t.Some? {
      NodeShown(t.value);
      hide Shows, Members;
    }
  }

  lemma UnitsShown(units: seq<Option<string>>)
    ensures var ms := When(units != [], Member("unit_list", JArr(Texts(units))));
      InOrder(ms, ["unit_list"]) && ShowsUnits(FieldOf(ms, "unit_list"), units)
  {
    WhenMaybe(units != [], "unit_list", JArr(Texts(units)));
    hide InOrder, FieldOf;
  }

  lemma {:induction false} NthShown(node: Tree, i: nat)
    ensures ShowsNth(Some(NthChild(node, i)), node, i)
    decreases node, 0
  {
    if i < |node.children| { ChildShown(node.children[i]); }
    hide ShowsSlot;
  }

  lemma {:induction false} BlockShown(node: Tree)
    requires node.kind == Block
    ensures InOrder(StructureMembers(node), ["is_global_scope", "declarations", "body"])
    ensures ShowsStructure(StructureMembers(node), node)
    decreases node, 1
  {
    var g, d := [Member("is_global_scope", JBool(node.isGlobalScope))], [Member("declarations", NthChild(node, 0))];
    var b := [Member("body", NthChild(node, 1))];
    assert StructureMembers(node) == g + d + b;
    OnePart("is_global_scope", JBool(node.isGlobalScope));
    OnePart("declarations", NthChild(node, 0));
    OnePart("body", NthChild(node, 1));
    NthShown(node, 0);
    NthShown(node, 1);
    hide InOrder, FieldOf, ShowsNth, NthChild, StructureMembers;
    ThreeParts(g, "is_global_scope", d, "declarations", b, "body");
  }

  lemma {:induction false} ProgramShown(node: Tree)
    requires node.kind == Program
    ensures InOrder(StructureMembers(node), ["program_name_node", "main_block", "uses_clauses"])
    ensures ShowsStructure(StructureMembers(node), node)
    decreases node, 1
  {
    var l, r := Edge("program_name_node", node.left), Edge("main_block", node.right);
    var c := Children("uses_clauses", node.children);
    assert StructureMembers(node) == l + r + c;
    EdgeShown("program_name_node", node.left);
    EdgeShown("main_block", node.right);
    ChildrenShown("uses_clauses", node.children);
    hide InOrder, FieldOf, ShowsEdge, ShowsList, Edge, Children, StructureMembers;
    ThreeParts(l, "program_name_node", r, "main_block", c, "uses_clauses");
  }

  lemma {:induction false} EdgesShown(node: Tree)
    requires node.kind != Program && node.kind != Block && node.kind != UsesClause
    ensures InOrder(StructureMembers(node), ["left", "right", "extra", "children"])
    ensures ShowsStructure(StructureMembers(node), node)
    decreases node, 1
  {
    var l, r, e := Edge("left", node.left), Edge("right", node.right), Edge("extra", node.extra);
    var c := Children("children", node.children);
    assert StructureMembers(node) == l + r + e + c;
    EdgeShown("left", node.left);
    EdgeShown("right", node.right);
    EdgeShown("extra", node.extra);
    ChildrenShown("children", node.children);
    hide InOrder, FieldOf, ShowsEdge, ShowsList, Edge, Children, StructureMembers;
    FourParts(l, "left", r, "right", e, "extra", c, "children");
  }

  lemma {:induction false} StructureShown(node: Tree)
    ensures InOrder(StructureMembers(node), NamesOf(node.kind))
    ensures ShowsStructure(StructureMembers(node), node)
    decreases node, 2
  {
    match node.kind {
      case Program => ProgramShown(node);
      case Block => BlockShown(node);
      case UsesClause => UnitsShown(node.units);
      case _ => EdgesShown(node);
    }
    hide InOrder, FieldOf, ShowsEdge, ShowsList, ShowsNth, ShowsUnits, Edge, Children, When;
  }

  lemma NamesApart(kind: Kind)
    ensures forall n :: n in FIRST + SECOND ==> n !in NamesOf(kind)
  {
  }

  lemma CommonKept(a: seq<Member>, b: seq<Member>, node: Tree)
    requires InOrder(b, NamesOf(node.kind)) && ShowsCommon(a, node)
    ensures ShowsCommon(a + b, node)
  {
    NamesApart(node.kind);
    var y, all := NamesOf(node.kind), FIRST + SECOND;
    assert all[0] == "node_type" && all[1] == "token" && all[2] == "var_type_annotated";
    assert all[3] == "by_ref" && all[4] == "i_val" && all[5] == "is_inline";
    hide InOrder, FieldOf, ShowsToken, NamesOf, FIRST, SECOND;
    FrontField(a, b, y, "node_type");
    FrontField(a, b, y, "token");
    FrontField(a, b, y, "var_type_annotated");
    FrontField(a, b, y, "by_ref");
    FrontField(a, b, y, "i_val");
    FrontField(a, b, y, "is_inline");
  }

  lemma NotCommon(kind: Kind, name: string)
    requires name in NamesOf(kind)
    ensures name !in FIRST + SECOND
  {
    NamesApart(kind);
    hide NamesOf, FIRST, SECOND;
  }

  lemma StructureKept(a: seq<Member>, b: seq<Member>, node: Tree)
    requires InOrder(a, FIRST + SECOND) && ShowsStructure(b, node)
    ensures ShowsStructure(a + b, node)
  {
    var y := NamesOf(node.kind);
    forall name | name in y
      ensures FieldOf(a + b, name) == FieldOf(b, name)
    {
      NotCommon(node.kind, name);
      hide NamesOf, FIRST, SECOND, InOrder, FieldOf;
      BackField(a, FIRST + SECOND, b, name);
    }
    hide FIRST, SECOND, InOrder, FieldOf, ShowsEdge, ShowsList, ShowsNth, ShowsUnits;
    assert y[0] in y;
    match node.kind {
      case Program => assert y[1] in y && y[2] in y;
      case Block => assert y[1] in y && y[2] in y;
      case UsesClause =>
      case _ => assert y[1] in y && y[2] in y && y[3] in y;
    }
  }

  lemma {:induction false} NodeShown(node: Tree)
    ensures Shows(JObj(Members(node)), node)
    decreases node, 3
  {
    CommonShown(node);
    StructureShown(node);
    NamesApart(node.kind);
    var a, b := CommonMembers(node), StructureMembers(node);
    assert Members(node) == a + b && AllNames(node.kind) == FIRST + SECOND + NamesOf(node.kind);
    hide FIRST, SECOND, InOrder, FieldOf, ShowsCommon, ShowsStructure, CommonMembers, StructureMembers, NamesOf;
    InOrderConcat(a, FIRST + SECOND, b, NamesOf(node.kind));
    CommonKept(a, b, node);
    StructureKept(a, b, node);
  }

  /** For every tree, what parsing the dump gives back shows the tree. */
  lemma DumpShows(node: Tree)
    ensures var j := Parse(Dumped(Some(node), 0, true) + "\n"); j.Some? && Shows(j.value, node)
  {
    hide *;
    DumpParses(node);
    NodeShown(node);
  }
}
