/**
 * `get_ast_nodes_dfs`: the node classes of a syntax tree in pre-order,
 * upper-cased and joined by single spaces. The inner `dfs` threads one
 * queue through the walk: each node appends its own token, then hands the
 * queue to its children in order.
 */
module AstEnc {
  import opened Ast
  import opened Text

  /** `type(node).__name__.upper()`. */
  function Token(n: Node): (t: string)
    ensures |t| == |TypeName(n.kind)|
    ensures forall i :: 0 <= i < |t| ==> t[i] == (var c := TypeName(n.kind)[i]; if 'a' <= c <= 'z' then UpperOf(c) else c)
    ensures forall i :: 0 <= i < |t| ==> !('a' <= t[i] <= 'z')
  {
    Upper(TypeName(n.kind))
  }

  /** An `If` node is written `IF`. */
  lemma TokenIf(uid: int, children: seq<Node>)
    ensures Token(Node(uid, If, children)) == "IF"
  {
    var t := Token(Node(uid, If, children));
    assert TypeName(If) == "If";
    assert t[0] == 'I' && t[1] == UpperOf('f') == 'F';
  }

  /** A `Return` node is written `RETURN`. */
  lemma TokenReturn(uid: int, children: seq<Node>)
    ensures Token(Node(uid, Return, children)) == "RETURN"
  {
    var t := Token(Node(uid, Return, children));
    assert TypeName(Return) == "Return";
    assert t[0] == 'R' && t[1] == UpperOf('e') == 'E' && t[2] == UpperOf('t') == 'T';
    assert t[3] == UpperOf('u') == 'U' && t[4] == UpperOf('r') == 'R' && t[5] == UpperOf('n') == 'N';
  }

  /** The reference order: a node's token, then its subtrees' tokens left to right. */
  function Tokens(n: Node): seq<string>
    decreases n
  {
    [Token(n)] + TokensAll(n.children)
  }

  function TokensAll(ns: seq<Node>): seq<string>
    decreases ns
  {
    if |ns| == 0 then [] else Tokens(ns[0]) + TokensAll(ns[1..])
  }

  /** `dfs(node, queue)`: the queue after visiting `node` and everything below it. */
  function Dfs(n: Node, queue: seq<string>): seq<string>
    decreases n
  {
    DfsChildren(n.children, queue + [Token(n)])
  }

  /** The `for child in ast.iter_child_nodes(node)` loop, threading the queue. */
  function DfsChildren(ns: seq<Node>, queue: seq<string>): seq<string>
    decreases ns
  {
    if |ns| == 0 then queue else DfsChildren(ns[1..], Dfs(ns[0], queue))
  }

  /** `get_ast_nodes_dfs(tree)`: a fresh queue per call, joined by spaces. */
  function GetAstNodesDfs(tree: Node): string
  {
    Join(Dfs(tree, []), ' ')
  }

  /** The threaded walk only ever appends: it leaves the queue followed by the subtree's pre-order. */
  lemma {:induction false} DfsTokens(n: Node, queue: seq<string>)
    ensures Dfs(n, queue) == queue + Tokens(n)
    decreases n
  {
    DfsChildrenTokens(n.children, queue + [Token(n)]);
    assert queue + [Token(n)] + TokensAll(n.children) == queue + ([Token(n)] + TokensAll(n.children));
  }

  lemma {:induction false} DfsChildrenTokens(ns: seq<Node>, queue: seq<string>)
    ensures DfsChildren(ns, queue) == queue + TokensAll(ns)
    decreases ns
  {
    if |ns| == 0 {
      assert queue + [] == queue;
    } else {
      var head := Tokens(ns[0]);
      var rest := TokensAll(ns[1..]);
      DfsTokens(ns[0], queue);
      DfsChildrenTokens(ns[1..], queue + head);
      assert TokensAll(ns) == head + rest;
      assert queue + head + rest == queue + (head + rest);
    }
  }

  /** One token per node, and the root's comes first. */
  lemma {:induction false} TokenCount(n: Node)
    ensures |Tokens(n)| == Size(n)
    ensures Tokens(n)[0] == Token(n)
    decreases n
  {
    TokenCountAll(n.children);
  }

  lemma {:induction false} TokenCountAll(ns: seq<Node>)
    ensures |TokensAll(ns)| == SizeAll(ns)
    decreases ns
  {
    if |ns| > 0 {
      TokenCount(ns[0]);
      TokenCountAll(ns[1..]);
    }
  }

  /** Every node class in the tree is written without a space, as Python class names are. */
  predicate Plain(n: Node)
    decreases n
  {
    ' ' !in TypeName(n.kind) && forall i :: 0 <= i < |n.children| ==> Plain(n.children[i])
  }

  lemma {:induction false} UpperKeepsSpaceless(s: string)
    requires ' ' !in s
    ensures ' ' !in Upper(s)
    decreases |s|
  {
    if |s| > 0 {
      UpperKeepsSpaceless(s[1..]);
    }
  }

  lemma {:induction false} PlainTokens(n: Node)
    requires Plain(n)
    ensures forall k :: 0 <= k < |Tokens(n)| ==> ' ' !in Tokens(n)[k]
    decreases n
  {
    UpperKeepsSpaceless(TypeName(n.kind));
    PlainTokensAll(n.children);
  }

  lemma {:induction false} PlainTokensAll(ns: seq<Node>)
    requires forall i :: 0 <= i < |ns| ==> Plain(ns[i])
    ensures forall k :: 0 <= k < |TokensAll(ns)| ==> ' ' !in TokensAll(ns)[k]
    decreases ns
  {
    if |ns| > 0 {
      PlainTokens(ns[0]);
      PlainTokensAll(ns[1..]);
    }
  }

  /** Splitting the encoding on spaces gives back the pre-order token list, one per node. */
  lemma EncodingSplits(tree: Node)
    requires Plain(tree)
    ensures Split(GetAstNodesDfs(tree), ' ') == Tokens(tree)
    ensures |Split(GetAstNodesDfs(tree), ' ')| == Size(tree)
  {
    DfsTokens(tree, []);
    assert [] + Tokens(tree) == Tokens(tree);
    PlainTokens(tree);
    TokenCount(tree);
    SplitJoin(Tokens(tree), ' ');
  }
}
