/**
 * `Graph`: the functions of one source unit. The parser and the CFG builder
 * are inputs: the parsed tree (`None` when the text does not parse) and the
 * builder's named units in its iteration order (`None` when it raised).
 */
module Graphs {
  import opened Outcomes
  import opened Ast
  import opened Text
  import opened Functions

  /** One entry of the builder's result: its key and the raw CFG unit. */
  datatype Unit = Unit(key: string, fn: RawFunction)

  datatype Graph = Graph(functions: seq<Function>)

  datatype GraphDict = GraphDict(functions: seq<FunctionDict>)

  datatype GraphError =
    | SyntaxError
    | ScalpelError
    | FunctionFailed(error: FunctionError)

  /** The qualification the builder puts in front of names. */
  const ModulePrefix := "mod."
  /** The key of the unit holding the module's top-level code. */
  const ModuleUnit := "mod"

  /** `Graph.__parse_scalpel_name`: every `mod.` is removed, wherever it occurs. */
  function ParseScalpelName(key: string): string
  {
    RemoveAll(key, ModulePrefix)
  }

  lemma ParseScalpelNameFacts(key: string)
    ensures ParseScalpelName(ModulePrefix + key) == ParseScalpelName(key)
    ensures (forall i :: !OccursAt(key, ModulePrefix, i)) ==> ParseScalpelName(key) == key
    ensures |ParseScalpelName(key)| == |key| - 4 * CountOcc(key, ModulePrefix)
  {
    assert (ModulePrefix + key)[..|ModulePrefix|] == ModulePrefix;
    assert (ModulePrefix + key)[|ModulePrefix|..] == key;
    if forall i :: !OccursAt(key, ModulePrefix, i) {
      RemoveAllAbsent(key, ModulePrefix);
    }
    RemoveAllLength(key, ModulePrefix);
  }

  /** `Graph.__mainfunction`. */
  predicate IsMainFunction(name: string)
  {
    name == ModuleUnit
  }

  // ---------------------------------------------------------------------
  // Class names

  /** `Graph.__classes`: names of the class definitions anywhere in the tree. */
  function ClassNames(tree: Node): set<string>
    decreases tree, 1
  {
    (if tree.kind.ClassDef? then {tree.kind.name} else {}) + ClassNamesAll(tree.children)
  }

  function ClassNamesAll(ns: seq<Node>): set<string>
    decreases ns, 0
  {
    if |ns| == 0 then {} else ClassNames(ns[0]) + ClassNamesAll(ns[1..])
  }

  lemma {:induction false} ClassNamesSpec(tree: Node)
    ensures forall name :: name in ClassNames(tree) <==> exists d :: Within(d, tree) && d.kind == ClassDef(name)
    decreases tree, 1
  {
    ClassNamesAllSpec(tree.children);
    forall name ensures name in ClassNames(tree) <==> exists d :: Within(d, tree) && d.kind == ClassDef(name) {
      if name in ClassNamesAll(tree.children) {
        var k, d :| 0 <= k < |tree.children| && Within(d, tree.children[k]) && d.kind == ClassDef(name);
        assert Below(d, tree);
      }
      if tree.kind.ClassDef? && tree.kind.name == name {
        assert Within(tree, tree);
      }
      if exists d :: Within(d, tree) && d.kind == ClassDef(name) {
        var d :| Within(d, tree) && d.kind == ClassDef(name);
        if d != tree {
          var k :| 0 <= k < |tree.children| && (d == tree.children[k] || Below(d, tree.children[k]));
          assert Within(d, tree.children[k]);
        }
      }
    }
  }

  lemma {:induction false} ClassNamesAllSpec(ns: seq<Node>)
    ensures forall name :: name in ClassNamesAll(ns) <==>
      exists k, d :: 0 <= k < |ns| && Within(d, ns[k]) && d.kind == ClassDef(name)
    decreases ns, 0
  {
    if |ns| > 0 {
      ClassNamesSpec(ns[0]);
      ClassNamesAllSpec(ns[1..]);
      forall name ensures name in ClassNamesAll(ns) <==>
        exists k, d :: 0 <= k < |ns| && Within(d, ns[k]) && d.kind == ClassDef(name)
      {
        if name in ClassNamesAll(ns[1..]) {
          var k, d :| 0 <= k < |ns[1..]| && Within(d, ns[1..][k]) && d.kind == ClassDef(name);
          assert Within(d, ns[k + 1]);
        }
        if exists k, d :: 0 <= k < |ns| && Within(d, ns[k]) && d.kind == ClassDef(name) {
          var k, d :| 0 <= k < |ns| && Within(d, ns[k]) && d.kind == ClassDef(name);
          if k > 0 {
            assert ns[1..][k - 1] == ns[k];
          }
        }
      }
    }
  }

  // ---------------------------------------------------------------------
  // The unit loop

  predicate AllWellFormed(units: seq<Unit>)
  {
    forall i :: 0 <= i < |units| ==> WellFormed(units[i].fn)
  }

  function Names(units: seq<Unit>): (names: seq<string>)
    ensures |names| == |units| && forall i :: 0 <= i < |units| ==> names[i] == ParseScalpelName(units[i].key)
  {
    seq(|units|, i requires 0 <= i < |units| => ParseScalpelName(units[i].key))
  }

  /** A unit that becomes a class marker. */
  predicate IsMarker(name: string, classes: set<string>)
  {
    !IsMainFunction(name) && name in classes
  }

  /** A unit that yields a `Function`. */
  predicate Emits(name: string, classes: set<string>)
  {
    !IsMainFunction(name) && name !in classes
  }

  /** How the loop builds one unit under the marker in force: the `Function` constructor. */
  type Builder = (RawFunction, Option<string>) --> Result<Function, FunctionError>

  /** `build` can be applied to every unit of the list, under any marker. */
  ghost predicate Accepts(build: Builder, units: seq<Unit>)
  {
    forall i, tag :: 0 <= i < |units| ==> build.requires(units[i].fn, tag)
  }

  /** `Function(...)`, defined on the well-formed units the CFG builder yields. */
  const Build: Builder := (raw: RawFunction, tag: Option<string>) requires WellFormed(raw) => BuildFunction(raw, tag)

  lemma BuildAccepts(units: seq<Unit>)
    requires AllWellFormed(units)
    ensures Accepts(Build, units)
  {
  }

  /**
   * The constructor's loop, from a given class marker on: skips the module
   * unit, lets a class name replace the marker, and builds one `Function`
   * per other unit, tagged with the current marker. The first failing
   * `Function` aborts the loop.
   */
  function Collect(build: Builder, units: seq<Unit>, classes: set<string>, prefix: Option<string>): Result<seq<Function>, GraphError>
    requires Accepts(build, units)
  {
    if |units| == 0 then Ok([])
    else
      var name := ParseScalpelName(units[0].key);
      AcceptsTail(build, units);
      if IsMainFunction(name) then Collect(build, units[1..], classes, prefix)
      else if name in classes then Collect(build, units[1..], classes, Some(name))
      else
        match build(units[0].fn, prefix)
        case Err(e) => Err(FunctionFailed(e))
        case Ok(f) =>
          match Collect(build, units[1..], classes, prefix)
          case Err(e) => Err(e)
          case Ok(fs) => Ok([f] + fs)
  }

  /** The loop only ever fails through a `Function` that fails. */
  lemma {:induction false} CollectErrorKind(build: Builder, units: seq<Unit>, classes: set<string>, prefix: Option<string>)
    requires Accepts(build, units)
    ensures Collect(build, units, classes, prefix).Err? ==> Collect(build, units, classes, prefix).error.FunctionFailed?
    decreases |units|
  {
    if |units| > 0 {
      var name := ParseScalpelName(units[0].key);
      AcceptsTail(build, units);
      CollectErrorKind(build, units[1..], classes, if !IsMainFunction(name) && name in classes then Some(name) else prefix);
    }
  }

  lemma AcceptsTail(build: Builder, units: seq<Unit>)
    requires Accepts(build, units) && |units| > 0
    ensures Accepts(build, units[1..])
  {
    forall i, tag | 0 <= i < |units[1..]| ensures build.requires(units[1..][i].fn, tag) {
      assert units[1..][i] == units[i + 1];
    }
  }

  /** The `Graph` constructor. */
  function BuildGraph(tree: Option<Node>, units: Option<seq<Unit>>): (r: Result<Graph, GraphError>)
    requires units.Some? ==> AllWellFormed(units.value)
    ensures tree.None? ==> r == Err(SyntaxError)
    ensures tree.Some? && units.None? ==> r == Err(ScalpelError)
    ensures r.Ok? ==> tree.Some? && units.Some?
    ensures tree.Some? && units.Some? ==>
      && Accepts(Build, units.value)
      && (r.Ok? <==> Collect(Build, units.value, ClassNames(tree.value), None).Ok?)
      && (r.Ok? ==> r.value.functions == Collect(Build, units.value, ClassNames(tree.value), None).value)
      && (r.Err? ==> r.error == Collect(Build, units.value, ClassNames(tree.value), None).error)
    ensures tree.Some? && units.Some? && r.Err? ==> r.error.FunctionFailed?
  {
    match tree
    case None => Err(SyntaxError)
    case Some(t) =>
      var classes := ClassNames(t);
      match units
      case None => Err(ScalpelError)
      case Some(us) =>
        BuildAccepts(us);
        CollectErrorKind(Build, us, classes, None);
        match Collect(Build, us, classes, None)
        case Err(e) => Err(e)
        case Ok(fs) => Ok(Graph(fs))
  }

  /** `Graph.to_dict`. */
  function ToDict(g: Graph): (d: GraphDict)
    ensures |d.functions| == |g.functions|
    ensures forall i :: 0 <= i < |g.functions| ==> d.functions[i] == Functions.ToDict(g.functions[i])
  {
    GraphDict(seq(|g.functions|, i requires 0 <= i < |g.functions| => Functions.ToDict(g.functions[i])))
  }

  // ---------------------------------------------------------------------
  // A reference description of the loop

  function Shift(s: seq<nat>): (r: seq<nat>)
    ensures |r| == |s| && forall k :: 0 <= k < |s| ==> r[k] == s[k] + 1
  {
    seq(|s|, k requires 0 <= k < |s| => s[k] + 1)
  }

  /** The positions of the units that yield a `Function`, in order. */
  function EmittedIndices(names: seq<string>, classes: set<string>): (e: seq<nat>)
    ensures forall k :: 0 <= k < |e| ==> e[k] < |names|
  {
    if |names| == 0 then []
    else (if Emits(names[0], classes) then [0] else []) + Shift(EmittedIndices(names[1..], classes))
  }

  /** Exactly the emitting positions, each once, in increasing order. */
  lemma {:induction false} EmittedIndicesSpec(names: seq<string>, classes: set<string>)
    ensures forall k :: 0 <= k < |EmittedIndices(names, classes)| ==>
      Emits(names[EmittedIndices(names, classes)[k]], classes)
    ensures forall k, l :: 0 <= k < l < |EmittedIndices(names, classes)| ==>
      EmittedIndices(names, classes)[k] < EmittedIndices(names, classes)[l]
    ensures forall i :: 0 <= i < |names| && Emits(names[i], classes) ==> i in EmittedIndices(names, classes)
  {
    if |names| > 0 {
      var tail := names[1..];
      EmittedIndicesSpec(tail, classes);
      EmittedStep(names, classes, EmittedIndices(tail, classes), EmittedIndices(names, classes));
    }
  }

  lemma EmittedStep(names: seq<string>, classes: set<string>, rest: seq<nat>, e: seq<nat>)
    requires |names| > 0
    requires forall k :: 0 <= k < |rest| ==> rest[k] < |names[1..]| && Emits(names[1..][rest[k]], classes)
    requires forall k, l :: 0 <= k < l < |rest| ==> rest[k] < rest[l]
    requires forall i :: 0 <= i < |names[1..]| && Emits(names[1..][i], classes) ==> i in rest
    requires e == (if Emits(names[0], classes) then [0] else []) + Shift(rest)
    ensures forall k :: 0 <= k < |e| ==> e[k] < |names| && Emits(names[e[k]], classes)
    ensures forall k, l :: 0 <= k < l < |e| ==> e[k] < e[l]
    ensures forall i :: 0 <= i < |names| && Emits(names[i], classes) ==> i in e
  {
    var lead := if Emits(names[0], classes) then 1 else 0;
    LeadShape(rest, e, lead);
    EmittedStepSound(names, classes, rest, e, lead);
    EmittedStepComplete(names, classes, rest, e, lead);
    EmittedStepOrdered(rest, e, lead);
  }

  /** Prepending `[0]` or nothing to a shifted list, entry by entry. */
  lemma LeadShape(rest: seq<nat>, e: seq<nat>, lead: nat)
    requires lead <= 1 && e == (if lead == 1 then [0] else []) + Shift(rest)
    ensures |e| == lead + |rest| && (lead == 1 ==> e[0] == 0)
    ensures forall k :: lead <= k < |e| ==> e[k] == rest[k - lead] + 1
  {
  }

  lemma EmittedStepOrdered(rest: seq<nat>, e: seq<nat>, lead: nat)
    requires lead <= 1 && forall k, l :: 0 <= k < l < |rest| ==> rest[k] < rest[l]
    requires |e| == lead + |rest| && (lead == 1 ==> e[0] == 0)
    requires forall k :: lead <= k < |e| ==> e[k] == rest[k - lead] + 1
    ensures forall k, l :: 0 <= k < l < |e| ==> e[k] < e[l]
  {
    forall k, l | 0 <= k < l < |e| ensures e[k] < e[l] {
      if k >= lead {
        assert rest[k - lead] < rest[l - lead];
      }
    }
  }

  lemma EmittedStepSound(names: seq<string>, classes: set<string>, rest: seq<nat>, e: seq<nat>, lead: nat)
    requires |names| > 0 && lead == (if Emits(names[0], classes) then 1 else 0)
    requires forall k :: 0 <= k < |rest| ==> rest[k] < |names[1..]| && Emits(names[1..][rest[k]], classes)
    requires |e| == lead + |rest| && (lead == 1 ==> e[0] == 0)
    requires forall k :: lead <= k < |e| ==> e[k] == rest[k - lead] + 1
    ensures forall k :: 0 <= k < |e| ==> e[k] < |names| && Emits(names[e[k]], classes)
  {
    forall k | 0 <= k < |e| ensures e[k] < |names| && Emits(names[e[k]], classes) {
      if k >= lead {
        assert names[1..][rest[k - lead]] == names[e[k]];
      }
    }
  }

  lemma EmittedStepComplete(names: seq<string>, classes: set<string>, rest: seq<nat>, e: seq<nat>, lead: nat)
    requires |names| > 0 && lead == (if Emits(names[0], classes) then 1 else 0)
    requires forall i :: 0 <= i < |names[1..]| && Emits(names[1..][i], classes) ==> i in rest
    requires |e| == lead + |rest| && (lead == 1 ==> e[0] == 0)
    requires forall k :: lead <= k < |e| ==> e[k] == rest[k - lead] + 1
    ensures forall i :: 0 <= i < |names| && Emits(names[i], classes) ==> i in e
  {
    forall i | 0 <= i < |names| && Emits(names[i], classes) ensures i in e {
      if i > 0 {
        assert names[1..][i - 1] == names[i];
        var k :| 0 <= k < |rest| && rest[k] == i - 1;
        assert e[k + lead] == i;
      }
    }
  }

  /** The marker after looking at one more name. */
  function NextTag(tag: Option<string>, name: string, classes: set<string>): Option<string>
  {
    if IsMarker(name, classes) then Some(name) else tag
  }

  /** The marker in force just before position `i`: the last class marker before it, else `start`. */
  function TagBefore(names: seq<string>, classes: set<string>, start: Option<string>, i: nat): Option<string>
    requires i <= |names|
  {
    if i == 0 then start
    else if IsMarker(names[i - 1], classes) then Some(names[i - 1])
    else TagBefore(names, classes, start, i - 1)
  }

  lemma {:induction false} TagBeforeShift(names: seq<string>, classes: set<string>, start: Option<string>, i: nat)
    requires 0 < |names| && i < |names|
    ensures TagBefore(names, classes, start, i + 1) == TagBefore(names[1..], classes, NextTag(start, names[0], classes), i)
  {
    if i > 0 {
      TagBeforeShift(names, classes, start, i - 1);
      assert names[1..][i - 1] == names[i];
    }
  }

  /**
   * The marker is never reset: it is `None` exactly when no class marker
   * came before, and otherwise it is the most recent one.
   */
  lemma {:induction false} TagBeforeSpec(names: seq<string>, classes: set<string>, i: nat)
    requires i <= |names|
    ensures TagBefore(names, classes, None, i).None? <==> forall j :: 0 <= j < i ==> !IsMarker(names[j], classes)
    ensures TagBefore(names, classes, None, i).Some? ==>
      exists j :: 0 <= j < i && IsMarker(names[j], classes) && TagBefore(names, classes, None, i) == Some(names[j])
        && forall l :: j < l < i ==> !IsMarker(names[l], classes)
  {
    if i > 0 {
      TagBeforeSpec(names, classes, i - 1);
    }
  }

  /**
   * The `Function` the unit at position `i` builds: the loop carries the
   * marker along the units before it.
   */
  function BuildAt(build: Builder, units: seq<Unit>, classes: set<string>, prefix: Option<string>, i: nat): Result<Function, FunctionError>
    requires Accepts(build, units) && i < |units|
    decreases i
  {
    if i == 0 then build(units[0].fn, prefix)
    else
      AcceptsTail(build, units);
      BuildAt(build, units[1..], classes, NextTag(prefix, ParseScalpelName(units[0].key), classes), i - 1)
  }

  lemma BuildAtShift(build: Builder, units: seq<Unit>, classes: set<string>, prefix: Option<string>, i: nat)
    requires Accepts(build, units) && i + 1 < |units|
    ensures Accepts(build, units[1..])
    ensures BuildAt(build, units, classes, prefix, i + 1)
      == BuildAt(build, units[1..], classes, NextTag(prefix, Names(units)[0], classes), i)
  {
    AcceptsTail(build, units);
  }

  /** Position `i` is built with the most recent class marker before it, or the starting one. */
  lemma {:induction false} BuildAtMeaning(build: Builder, units: seq<Unit>, classes: set<string>, prefix: Option<string>, i: nat)
    requires Accepts(build, units) && i < |units|
    ensures build.requires(units[i].fn, TagBefore(Names(units), classes, prefix, i))
    ensures BuildAt(build, units, classes, prefix, i) == build(units[i].fn, TagBefore(Names(units), classes, prefix, i))
    decreases i
  {
    if i > 0 {
      var next := NextTag(prefix, Names(units)[0], classes);
      BuildAtShift(build, units, classes, prefix, i - 1);
      BuildAtMeaning(build, units[1..], classes, next, i - 1);
      assert Names(units[1..]) == Names(units)[1..];
      TagBeforeShift(Names(units), classes, prefix, i - 1);
      assert units[1..][i - 1] == units[i];
    }
  }

  /**
   * The loop fails exactly when one of the units that is neither the module
   * unit nor a class name fails to build with the marker in force there.
   */
  lemma {:induction false} CollectFails(build: Builder, units: seq<Unit>, classes: set<string>, prefix: Option<string>)
    requires Accepts(build, units)
    ensures Collect(build, units, classes, prefix).Err? <==>
      exists i :: 0 <= i < |units| && Emits(Names(units)[i], classes) && BuildAt(build, units, classes, prefix, i).Err?
  {
    if |units| > 0 {
      var names := Names(units);
      var rest := units[1..];
      var next := NextTag(prefix, names[0], classes);
      assert Names(rest) == names[1..];
      AcceptsTail(build, units);
      CollectFails(build, rest, classes, next);
      if Collect(build, rest, classes, next).Err? {
        var i :| 0 <= i < |rest| && Emits(Names(rest)[i], classes) && BuildAt(build, rest, classes, next, i).Err?;
        BuildAtShift(build, units, classes, prefix, i);
        assert Emits(names[i + 1], classes);
      }
      if exists i :: 0 <= i < |units| && Emits(names[i], classes) && BuildAt(build, units, classes, prefix, i).Err? {
        var i :| 0 <= i < |units| && Emits(names[i], classes) && BuildAt(build, units, classes, prefix, i).Err?;
        if i > 0 {
          BuildAtShift(build, units, classes, prefix, i - 1);
          assert Emits(Names(rest)[i - 1], classes);
        }
      }
    }
  }

  /** One step of the loop, when it succeeds. */
  lemma CollectStep(build: Builder, units: seq<Unit>, classes: set<string>, prefix: Option<string>)
    requires Accepts(build, units) && |units| > 0 && Collect(build, units, classes, prefix).Ok?
    ensures Accepts(build, units[1..])
    ensures Collect(build, units[1..], classes, NextTag(prefix, Names(units)[0], classes)).Ok?
    ensures !Emits(Names(units)[0], classes) ==>
      Collect(build, units, classes, prefix).value
        == Collect(build, units[1..], classes, NextTag(prefix, Names(units)[0], classes)).value
    ensures Emits(Names(units)[0], classes) ==>
      && BuildAt(build, units, classes, prefix, 0).Ok?
      && Collect(build, units, classes, prefix).value
         == [BuildAt(build, units, classes, prefix, 0).value] + Collect(build, units[1..], classes, prefix).value
  {
    AcceptsTail(build, units);
  }

  /**
   * On success the loop yields, in order, one `Function` per unit that is
   * neither the module unit nor a class name, tagged with the marker in force
   * at that unit.
   */
  lemma {:induction false} CollectBuilds(build: Builder, units: seq<Unit>, classes: set<string>, prefix: Option<string>)
    requires Accepts(build, units) && Collect(build, units, classes, prefix).Ok?
    ensures |Collect(build, units, classes, prefix).value| == |EmittedIndices(Names(units), classes)|
    ensures forall k :: 0 <= k < |EmittedIndices(Names(units), classes)| ==>
      BuildAt(build, units, classes, prefix, EmittedIndices(Names(units), classes)[k])
        == Ok(Collect(build, units, classes, prefix).value[k])
  {
    if |units| > 0 {
      var names := Names(units);
      var rest := units[1..];
      var next := NextTag(prefix, names[0], classes);
      assert Names(rest) == names[1..];
      CollectStep(build, units, classes, prefix);
      CollectBuilds(build, rest, classes, next);
      var e := EmittedIndices(names, classes);
      var e' := EmittedIndices(Names(rest), classes);
      var c := Collect(build, units, classes, prefix).value;
      var c' := Collect(build, rest, classes, next).value;
      ShiftedBuilds(build, units, classes, prefix, e', c');
      if Emits(names[0], classes) {
        assert e == [0] + Shift(e');
        assert c == [BuildAt(build, units, classes, prefix, 0).value] + c';
      } else {
        assert e == Shift(e');
      }
    }
  }

  /** The builds the rest of the loop matched, seen from one unit earlier. */
  lemma ShiftedBuilds(build: Builder, units: seq<Unit>, classes: set<string>, prefix: Option<string>, e': seq<nat>, c': seq<Function>)
    requires Accepts(build, units) && |units| > 0 && Accepts(build, units[1..])
    requires e' == EmittedIndices(Names(units[1..]), classes) && |c'| == |e'|
    requires forall k :: 0 <= k < |e'| ==>
      BuildAt(build, units[1..], classes, NextTag(prefix, Names(units)[0], classes), e'[k]) == Ok(c'[k])
    ensures forall k :: 0 <= k < |e'| ==>
      Shift(e')[k] < |units| && BuildAt(build, units, classes, prefix, Shift(e')[k]) == Ok(c'[k])
  {
    forall k | 0 <= k < |e'|
      ensures Shift(e')[k] < |units| && BuildAt(build, units, classes, prefix, Shift(e')[k]) == Ok(c'[k])
    {
      assert e'[k] < |Names(units[1..])| == |units| - 1;
      assert Shift(e')[k] == e'[k] + 1;
      BuildAtShift(build, units, classes, prefix, e'[k]);
    }
  }

  /** The number of functions a graph holds: the units neither `mod` nor a class name. */
  lemma GraphFunctionCount(tree: Node, units: seq<Unit>)
    requires AllWellFormed(units) && BuildGraph(Some(tree), Some(units)).Ok?
    ensures |BuildGraph(Some(tree), Some(units)).value.functions| == |EmittedIndices(Names(units), ClassNames(tree))|
  {
    BuildAccepts(units);
    CollectBuilds(Build, units, ClassNames(tree), None);
  }
}
