/**
 * One basic block of a function's control-flow graph, built from the raw
 * block the CFG builder produced: its successor identifiers, the single
 * control-flow statement it may hold, and the callee expressions of every
 * call found in its statements.
 */
module Blocks {
  import opened Outcomes
  import opened Ast

  /** The statement classes that mark a block's control flow. */
  datatype Ctrl = If | For | While | Return

  /** A raw basic block: identifier, statements, exit target identifiers in exit order. */
  datatype RawBlock = RawBlock(id: int, statements: seq<Node>, exits: seq<int>)

  datatype Block = Block(identifier: int, controlFlow: Option<Ctrl>, relations: seq<int>, callsAst: set<Node>)

  /** The summary a block reports once its calls are reduced to identifiers. */
  datatype BlockDict = BlockDict(identifier: int, controlFlow: Option<Ctrl>, relations: seq<int>, nCalls: nat)

  /** The assertion that a block holds at most one control-flow statement failed. */
  datatype BlockError = SeveralControlFlowStatements

  /** The class name a control-flow tag is reported under. */
  function CtrlName(c: Ctrl): string
  {
    match c
    case If => "If"
    case For => "For"
    case While => "While"
    case Return => "Return"
  }

  /** `__isctrlflow`, together with the class it found. */
  function CtrlOf(stmt: Node): Option<Ctrl>
  {
    match stmt.kind
    case If => Some(Ctrl.If)
    case For => Some(Ctrl.For)
    case While => Some(Ctrl.While)
    case Return => Some(Ctrl.Return)
    case _ => None
  }

  // ---------------------------------------------------------------------
  // Call extraction

  /** What a node contributes by itself: the callee of a call. */
  function CalleeOf(n: Node): set<Node>
  {
    if n.kind.Call? && |n.children| > 0 then {n.children[0]} else {}
  }

  /** `__get_calls`: callees of the calls strictly below `stmt`. */
  function GetCalls(stmt: Node): set<Node>
    decreases stmt, 1
  {
    GetCallsAll(stmt.children)
  }

  /** The loop of `__get_calls` over a list of children. */
  function GetCallsAll(cs: seq<Node>): set<Node>
    decreases cs, 0
  {
    if |cs| == 0 then {} else CalleeOf(cs[0]) + GetCalls(cs[0]) + GetCallsAll(cs[1..])
  }

  predicate IsDefinition(stmt: Node)
  {
    stmt.kind.FunctionDef? || stmt.kind.ClassDef?
  }

  /**
   * `__get_calls_main`: a definition statement yields nothing; any other
   * statement is searched exactly as by `__get_calls`, which does not stop
   * at deeper definitions.
   */
  function GetCallsMain(stmt: Node): (r: set<Node>)
    ensures IsDefinition(stmt) ==> r == {}
    ensures !IsDefinition(stmt) ==> forall c :: c in r <==> exists d :: Below(d, stmt) && c in CalleeOf(d)
  {
    if IsDefinition(stmt) then {}
    else
      GetCallsSpec(stmt);
      GetCalls(stmt)
  }

  function StatementCalls(stmt: Node, inMain: bool): set<Node>
  {
    if inMain then GetCallsMain(stmt) else GetCalls(stmt)
  }

  /** Extraction finds the callee of every call strictly below the statement, and nothing else. */
  lemma {:induction false} GetCallsSpec(stmt: Node)
    ensures forall c :: c in GetCalls(stmt) <==> exists d :: Below(d, stmt) && c in CalleeOf(d)
    decreases stmt, 1
  {
    GetCallsAllSpec(stmt.children);
    forall c ensures c in GetCalls(stmt) <==> exists d :: Below(d, stmt) && c in CalleeOf(d) {
      if c in GetCalls(stmt) {
        assert c in GetCallsAll(stmt.children);
        var k, d :| 0 <= k < |stmt.children| && Within(d, stmt.children[k]) && c in CalleeOf(d);
        assert Below(d, stmt);
      }
      if exists d :: Below(d, stmt) && c in CalleeOf(d) {
        var d :| Below(d, stmt) && c in CalleeOf(d);
        var k :| 0 <= k < |stmt.children| && (d == stmt.children[k] || Below(d, stmt.children[k]));
        assert Within(d, stmt.children[k]);
      }
    }
  }

  lemma {:induction false} GetCallsAllSpec(cs: seq<Node>)
    ensures forall c :: c in GetCallsAll(cs) <==>
      exists k, d :: 0 <= k < |cs| && Within(d, cs[k]) && c in CalleeOf(d)
    decreases cs, 0
  {
    if |cs| > 0 {
      GetCallsSpec(cs[0]);
      GetCallsAllSpec(cs[1..]);
      forall c ensures c in GetCallsAll(cs) <==>
        exists k, d :: 0 <= k < |cs| && Within(d, cs[k]) && c in CalleeOf(d)
      {
        if c in CalleeOf(cs[0]) {
          assert Within(cs[0], cs[0]);
        } else if c in GetCalls(cs[0]) {
          var d :| Below(d, cs[0]) && c in CalleeOf(d);
          assert Within(d, cs[0]);
        } else if c in GetCallsAll(cs[1..]) {
          var k, d :| 0 <= k < |cs[1..]| && Within(d, cs[1..][k]) && c in CalleeOf(d);
          assert Within(d, cs[k + 1]);
        }
        if exists k, d :: 0 <= k < |cs| && Within(d, cs[k]) && c in CalleeOf(d) {
          var k, d :| 0 <= k < |cs| && Within(d, cs[k]) && c in CalleeOf(d);
          if k > 0 {
            assert cs[1..][k - 1] == cs[k];
          }
        }
      }
    }
  }

  /** In module mode a definition nested inside another statement is still searched. */
  lemma NestedDefinitionsSearchedInMain(stmt: Node, def: Node, c: Node)
    requires !IsDefinition(stmt) && IsDefinition(def)
    requires Below(def, stmt) && Below(c, def) && c.kind.Call? && |c.children| > 0
    ensures c.children[0] in StatementCalls(stmt, true)
  {
    BelowTransitive(c, def, stmt);
    assert c.children[0] in CalleeOf(c);
  }

  lemma {:induction false} BelowTransitive(a: Node, b: Node, c: Node)
    requires Below(a, b) && Below(b, c)
    ensures Below(a, c)
    decreases c
  {
    var i :| 0 <= i < |c.children| && (b == c.children[i] || Below(b, c.children[i]));
    if b == c.children[i] {
    } else {
      BelowTransitive(a, b, c.children[i]);
    }
  }

  // ---------------------------------------------------------------------
  // Block construction

  /** Union of the calls of all statements, as the constructor's loop accumulates it. */
  function BlockCalls(stmts: seq<Node>, inMain: bool): (r: set<Node>)
    ensures forall c :: c in r <==> exists i :: 0 <= i < |stmts| && c in StatementCalls(stmts[i], inMain)
  {
    if |stmts| == 0 then {}
    else
      var prefix := stmts[..|stmts| - 1];
      var r := BlockCalls(prefix, inMain) + StatementCalls(stmts[|stmts| - 1], inMain);
      assert forall i :: 0 <= i < |prefix| ==> prefix[i] == stmts[i];
      r
  }

  /** `ctrlflow_count`: the number of control-flow statements. */
  function CtrlCount(stmts: seq<Node>): nat
  {
    if |stmts| == 0 then 0
    else CtrlCount(stmts[..|stmts| - 1]) + (if CtrlOf(stmts[|stmts| - 1]).Some? then 1 else 0)
  }

  /** The tag the loop leaves in `control_flow`: that of the last control-flow statement. */
  function LastCtrl(stmts: seq<Node>): Option<Ctrl>
  {
    if |stmts| == 0 then None
    else if CtrlOf(stmts[|stmts| - 1]).Some? then CtrlOf(stmts[|stmts| - 1])
    else LastCtrl(stmts[..|stmts| - 1])
  }

  predicate TwoCtrl(stmts: seq<Node>)
  {
    exists i, j :: 0 <= i < j < |stmts| && CtrlOf(stmts[i]).Some? && CtrlOf(stmts[j]).Some?
  }

  lemma {:induction false} CtrlCountFacts(stmts: seq<Node>)
    ensures CtrlCount(stmts) > 1 <==> TwoCtrl(stmts)
    ensures CtrlCount(stmts) == 0 <==> forall i :: 0 <= i < |stmts| ==> CtrlOf(stmts[i]).None?
    ensures CtrlCount(stmts) <= 1 ==> forall i :: 0 <= i < |stmts| && CtrlOf(stmts[i]).Some? ==> LastCtrl(stmts) == CtrlOf(stmts[i])
    ensures LastCtrl(stmts).None? <==> CtrlCount(stmts) == 0
  {
    if |stmts| > 0 {
      var n := |stmts| - 1;
      var prefix := stmts[..n];
      CtrlCountFacts(prefix);
      assert forall i :: 0 <= i < n ==> prefix[i] == stmts[i];
      if TwoCtrl(stmts) {
        var i, j :| 0 <= i < j < |stmts| && CtrlOf(stmts[i]).Some? && CtrlOf(stmts[j]).Some?;
        if j < n {
          assert TwoCtrl(prefix);
        } else {
          assert CtrlOf(prefix[i]).Some?;
        }
      }
      if CtrlCount(stmts) > 1 {
        if CtrlCount(prefix) > 1 {
          var i, j :| 0 <= i < j < |prefix| && CtrlOf(prefix[i]).Some? && CtrlOf(prefix[j]).Some?;
          assert CtrlOf(stmts[i]).Some? && CtrlOf(stmts[j]).Some?;
        } else {
          var i :| 0 <= i < n && CtrlOf(prefix[i]).Some?;
          assert CtrlOf(stmts[i]).Some? && CtrlOf(stmts[n]).Some?;
        }
      }
    }
  }

  /**
   * The `Block` constructor. Fails exactly when two statements of the block
   * are control-flow statements.
   */
  function BuildBlock(raw: RawBlock, inMain: bool): (r: Result<Block, BlockError>)
    ensures r.Err? <==> TwoCtrl(raw.statements)
    ensures r.Ok? ==> r.value.identifier == raw.id && r.value.relations == raw.exits
    ensures r.Ok? ==> (r.value.controlFlow.None? <==> forall i :: 0 <= i < |raw.statements| ==> CtrlOf(raw.statements[i]).None?)
    ensures r.Ok? ==> forall i :: 0 <= i < |raw.statements| && CtrlOf(raw.statements[i]).Some? ==> r.value.controlFlow == CtrlOf(raw.statements[i])
    ensures r.Ok? ==> forall c :: c in r.value.callsAst <==> exists i :: 0 <= i < |raw.statements| && c in StatementCalls(raw.statements[i], inMain)
  {
    CtrlCountFacts(raw.statements);
    var calls := BlockCalls(raw.statements, inMain);
    if CtrlCount(raw.statements) <= 1 then
      Ok(Block(raw.id, LastCtrl(raw.statements), raw.exits, calls))
    else
      Err(SeveralControlFlowStatements)
  }

  // ---------------------------------------------------------------------
  // Reducing callees to identifiers

  /** The identifier a callee reduces to: `attr` of an attribute, `id` of a name. */
  function CalleeName(n: Node): Option<string>
  {
    match n.kind
    case Attribute(a) => Some(a)
    case Name(id) => Some(id)
    case _ => None
  }

  /** The callees of `s` that reduce to `name`. */
  function Named(s: set<Node>, name: string): set<Node>
  {
    set n | n in s && CalleeName(n) == Some(name)
  }

  /** The callees of `s` that reduce to some identifier. */
  function Reducible(s: set<Node>): set<Node>
  {
    set n | n in s && CalleeName(n).Some?
  }

  /** `len(calls)` once a block's calls are reduced. */
  function NCalls(callsAst: set<Node>): (n: nat)
    ensures n <= |callsAst|
  {
    assert Reducible(callsAst) <= callsAst;
    SubsetCard(Reducible(callsAst), callsAst);
    |Reducible(callsAst)|
  }

  lemma SubsetCard<T>(a: set<T>, b: set<T>)
    requires a <= b
    ensures |a| <= |b|
  {
    assert b == a + (b - a);
  }

  /**
   * `calls_to_identifiers`: walks the call set in whatever order the set
   * yields (here: any order), appending the identifier of each name or
   * attribute callee and skipping every other shape.
   */
  method CallsToIdentifiers(callsAst: set<Node>) returns (calls: seq<string>)
    ensures |calls| == NCalls(callsAst) && |calls| <= |callsAst|
    ensures forall name :: multiset(calls)[name] == |Named(callsAst, name)|
  {
    calls := [];
    var rest := callsAst;
    ghost var done: set<Node> := {};
    while rest != {}
      invariant done + rest == callsAst && done !! rest
      invariant |calls| == |Reducible(done)|
      invariant forall name :: multiset(calls)[name] == |Named(done, name)|
      decreases rest
    {
      var x :| x in rest;
      AddOne(done, x);
      if CalleeName(x).Some? {
        calls := calls + [CalleeName(x).value];
      }
      rest := rest - {x};
      done := done + {x};
    }
    assert done == callsAst;
  }

  /** Adding one callee to the walked part adds it to the counts of its own identifier only. */
  lemma AddOne(done: set<Node>, x: Node)
    requires x !in done
    ensures |Reducible(done + {x})| == |Reducible(done)| + (if CalleeName(x).Some? then 1 else 0)
    ensures forall name :: |Named(done + {x}, name)| == |Named(done, name)| + (if CalleeName(x) == Some(name) then 1 else 0)
  {
    if CalleeName(x).Some? {
      assert Reducible(done + {x}) == Reducible(done) + {x};
    } else {
      assert Reducible(done + {x}) == Reducible(done);
    }
    forall name ensures |Named(done + {x}, name)| == |Named(done, name)| + (if CalleeName(x) == Some(name) then 1 else 0) {
      AddOneNamed(done, x, name);
    }
  }

  lemma AddOneNamed(done: set<Node>, x: Node, name: string)
    requires x !in done
    ensures |Named(done + {x}, name)| == |Named(done, name)| + (if CalleeName(x) == Some(name) then 1 else 0)
  {
    if CalleeName(x) == Some(name) {
      assert Named(done + {x}, name) == Named(done, name) + {x};
    } else {
      assert Named(done + {x}, name) == Named(done, name);
    }
  }

  /**
   * `Block.to_dict`: `n_calls` is `len(calls)`, the number of callees that
   * reduce to an identifier; it is the size of the call set exactly when
   * every callee is a name or an attribute.
   */
  function ToDict(b: Block): (d: BlockDict)
    ensures d.identifier == b.identifier && d.controlFlow == b.controlFlow && d.relations == b.relations
    ensures d.nCalls == |set n | n in b.callsAst && CalleeName(n).Some?|
    ensures d.nCalls <= |b.callsAst|
    ensures d.nCalls == |b.callsAst| <==> forall n :: n in b.callsAst ==> CalleeName(n).Some?
  {
    AllReducible(b.callsAst);
    BlockDict(b.identifier, b.controlFlow, b.relations, NCalls(b.callsAst))
  }

  /** Every callee is counted exactly when every callee reduces to an identifier. */
  lemma AllReducible(s: set<Node>)
    ensures NCalls(s) == |s| <==> forall n :: n in s ==> CalleeName(n).Some?
  {
    if exists n :: n in s && CalleeName(n).None? {
      var n :| n in s && CalleeName(n).None?;
      assert Reducible(s) <= s - {n};
      SubsetCard(Reducible(s), s - {n});
    } else {
      assert Reducible(s) == s;
    }
  }
}
