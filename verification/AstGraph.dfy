/** The syntax tree of src/ast/ast.h: heap nodes that other nodes point at through
    three single edges and a list of children.  A `Graph` is a snapshot of a set of
    nodes, so that the lemmas about copying and freeing need no heap. */
module AstGraph {
  import opened Wrappers

  /** Only the node types on which copying and freeing branch are told apart. */
  datatype Kind = TypeDecl | TypeReference | UsesClause | OtherKind(code: int)

  /** The scalar fields a copy takes over one by one. */
  datatype Attrs = Attrs(varType: int, byRef: int, isGlobalScope: bool, isInline: bool,
                         isForwardDecl: bool, isVirtual: bool, iVal: int, symbolTable: int)

  const NO_ATTRS := Attrs(0, 0, false, false, false, false, 0, 0)

  /** The list of unit names a `uses` clause points at. */
  class UnitList {
    var names: seq<string>

    constructor (names: seq<string>) {
      this.names := names;
    }
  }

  /** What a node carries besides its links to other nodes. */
  datatype Info = Info(kind: Kind, token: Option<string>, attrs: Attrs, isExported: bool, unitList: UnitList?)

  /** Every field of a node except `parent`. */
  datatype Shape = Shape(info: Info, left: Node?, right: Node?, extra: Node?, children: seq<Node?>,
                         typeDef: Node?, freed: bool)

  type Graph = map<Node, Shape>

  class Node {
    var info: Info
    var left: Node?
    var right: Node?
    var extra: Node?
    var children: seq<Node?>
    var typeDef: Node?
    var freed: bool
    var parent: Node?

    constructor (kind: Kind, token: Option<string>)
      ensures Snapshot() == Shape(Info(kind, token, NO_ATTRS, false, null), null, null, null, [], null, false)
      ensures parent == null
    {
      info := Info(kind, token, NO_ATTRS, false, null);
      left, right, extra, parent, typeDef := null, null, null, null, null;
      children, freed := [], false;
    }

    ghost function Snapshot(): (s: Shape)
      reads this
    {
      Shape(info, left, right, extra, children, typeDef, freed)
    }
  }

  /** `g` is what the heap holds at the nodes it lists. */
  ghost predicate Depicts(g: Graph)
    reads g.Keys
  {
    forall n :: n in g ==> n.Snapshot() == g[n]
  }

  /** The copy of a node with shape `s` descends into `t`: a type reference keeps its right edge. */
  ghost predicate Follows(s: Shape, older t: Node)
  {
    t == s.left || t == s.extra || (t == s.right && s.info.kind != TypeReference) || t in s.children
  }

  ghost predicate Closed(g: Graph)
  {
    forall n, t :: n in g && Follows(g[n], t) ==> t in g
  }
}
