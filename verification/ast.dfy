/**
 * An abstract Python syntax tree. Each node carries a `uid` standing for the
 * identity of the Python object, its node class, and its children in the
 * order `ast.iter_child_nodes` yields them. For a `Call` the first child is
 * its callee (`func`), followed by the arguments and keywords.
 */
module Ast {

  datatype Kind =
    | Call
    | Name(id: string)
    | Attribute(attr: string)
    | If
    | For
    | While
    | Return
    | FunctionDef(name: string)
    | ClassDef(name: string)
    /** Any other node class, by name; never one of the names the constructors above stand for. */
    | Other(typeName: string)

  datatype Node = Node(uid: int, kind: Kind, children: seq<Node>)

  /** `type(node).__name__`. */
  function TypeName(k: Kind): string
  {
    match k
    case Call => "Call"
    case Name(_) => "Name"
    case Attribute(_) => "Attribute"
    case If => "If"
    case For => "For"
    case While => "While"
    case Return => "Return"
    case FunctionDef(_) => "FunctionDef"
    case ClassDef(_) => "ClassDef"
    case Other(t) => t
  }

  /** `d` lies strictly below `n`: a child of `n` or below one. */
  predicate Below(d: Node, n: Node)
    decreases n
  {
    exists i :: 0 <= i < |n.children| && (d == n.children[i] || Below(d, n.children[i]))
  }

  /** `d` is `n` itself or lies below it (what `ast.walk` visits). */
  predicate Within(d: Node, n: Node)
  {
    d == n || Below(d, n)
  }

  /** Number of nodes in the tree. */
  function Size(n: Node): nat
    decreases n
  {
    1 + SizeAll(n.children)
  }

  function SizeAll(ns: seq<Node>): nat
    decreases ns
  {
    if |ns| == 0 then 0 else Size(ns[0]) + SizeAll(ns[1..])
  }
}
