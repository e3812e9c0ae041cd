/**
 * `SkeletonEncoder`: runs the graph construction over a list of sources,
 * keeps the graphs that were built, counts the failures by kind, and the
 * single-function variant with its textual pre-filter. The parser, the CFG
 * builder and the wall clock are collaborators passed in as a `Pipeline`.
 */
module Encoder {
  import opened Outcomes
  import opened Text
  import opened Ast
  import opened Functions
  import opened Graphs
  import opened Batches
  import opened Blocks

  /**
   * The part of `Graph(src)` that is running when the time limit expires:
   * parsing and collecting the class names, the CFG builder, or the loop
   * over the builder's units.
   */
  datatype Stage = Parsing | Building | Shaping

  /**
   * The collaborators of one source: the parser, the CFG builder and the
   * timeout, which says where, if at all, the time limit cuts `Graph(src)`
   * short.
   */
  datatype Pipeline = Pipeline(
    parse: string -> Option<Node>,
    build: string -> Option<seq<Unit>>,
    timesOut: string -> Option<Stage>)

  /** The builder yields well-formed raw graphs (unique block ids, known exit targets). */
  ghost predicate Valid(p: Pipeline)
  {
    forall src :: p.build(src).Some? ==> AllWellFormed(p.build(src).value)
  }

  type ValidPipeline = p: Pipeline | Valid(p)
    witness Pipeline(_ => None, _ => None, _ => None)

  /** How the `try` around `__get_cfg` ends for one source. */
  datatype Outcome =
    | Built(graph: GraphDict)
    | SyntaxFailure
    | ScalpelFailure
    | TimeoutFailure
    | AssertionFailure

  /** How a finished `Graph(src)` call ends: its graph, or the kind of exception it raised. */
  function Classify(r: Result<Graph, GraphError>): (o: Outcome)
    ensures o.Built? <==> r.Ok?
    ensures r.Ok? ==> o.graph == Graphs.ToDict(r.value)
    ensures o == SyntaxFailure <==> r == Err(SyntaxError)
    ensures o == ScalpelFailure <==> r == Err(ScalpelError)
    ensures o == AssertionFailure <==> r.Err? && r.error.FunctionFailed?
  {
    match r
    case Ok(g) => Built(Graphs.ToDict(g))
    case Err(SyntaxError) => SyntaxFailure
    case Err(ScalpelError) => ScalpelFailure
    case Err(FunctionFailed(_)) => AssertionFailure
  }

  /**
   * `Graph(src)` under the time limit, with a timeout counted as a timeout
   * wherever it strikes. A timeout ends the attempt whatever the graph would
   * have been; a failed `Function` surfaces as the `AssertionError` of its
   * constructor.
   */
  function Attempt(p: ValidPipeline, src: string): Outcome
  {
    if p.timesOut(src).Some? then TimeoutFailure
    else Classify(BuildGraph(p.parse(src), p.build(src)))
  }

  /**
   * `__get_cfg` as written. The decorator's timeout exception derives from
   * `AssertionError`, not from the builtin `TimeoutError` the handler names,
   * so it never reaches the timeout branch: inside the CFG builder the
   * `except Exception` of the graph constructor turns it into a
   * `ScalpelError`, and anywhere else it is counted as an assertion error.
   */
  function AttemptAsWritten(p: ValidPipeline, src: string): (o: Outcome)
    ensures o != TimeoutFailure
    ensures p.timesOut(src).None? ==> o == Attempt(p, src)
    ensures p.timesOut(src) == Some(Building) ==> o == ScalpelFailure
    ensures p.timesOut(src).Some? && p.timesOut(src) != Some(Building) ==> o == AssertionFailure
  {
    match p.timesOut(src)
    case Some(Building) => ScalpelFailure
    case Some(_) => AssertionFailure
    case None => Classify(BuildGraph(p.parse(src), p.build(src)))
  }


  /**
   * Each kind of outcome happens exactly in its own situation: a timeout, no
   * parse, no raw graph, a unit that fails to build, or none of these; a
   * built graph holds one function per emitting unit.
   */
  lemma AttemptCases(p: ValidPipeline, src: string)
    ensures Attempt(p, src) == TimeoutFailure <==> p.timesOut(src).Some?
    ensures Attempt(p, src) == SyntaxFailure <==> p.timesOut(src).None? && p.parse(src).None?
    ensures Attempt(p, src) == ScalpelFailure <==>
      p.timesOut(src).None? && p.parse(src).Some? && p.build(src).None?
    ensures Attempt(p, src) == AssertionFailure <==>
      && p.timesOut(src).None? && p.parse(src).Some? && p.build(src).Some?
      && exists i :: 0 <= i < |p.build(src).value|
           && Emits(Names(p.build(src).value)[i], ClassNames(p.parse(src).value))
           && BuildAt(Build, p.build(src).value, ClassNames(p.parse(src).value), None, i).Err?
    ensures Attempt(p, src).Built? ==>
      |Attempt(p, src).graph.functions|
        == |EmittedIndices(Names(p.build(src).value), ClassNames(p.parse(src).value))|
  {
    if p.timesOut(src).None? && p.parse(src).Some? && p.build(src).Some? {
      var units := p.build(src).value;
      var classes := ClassNames(p.parse(src).value);
      BuildAccepts(units);
      CollectFails(Build, units, classes, None);
      if Collect(Build, units, classes, None).Ok? {
        CollectBuilds(Build, units, classes, None);
      }
    }
  }

  /** What the runners see of the pipeline: one outcome per source. */
  type Runner = string -> Outcome

  function Runs(p: ValidPipeline): Runner
  {
    src => Attempt(p, src)
  }

  function RunsAsWritten(p: ValidPipeline): Runner
  {
    src => AttemptAsWritten(p, src)
  }

  // ---------------------------------------------------------------------
  // `from_sources`

  /** What one source adds to the result list: `(src, G.to_dict())`, or nothing. */
  function Kept(run: Runner, src: string): seq<(string, GraphDict)>
  {
    match run(src)
    case Built(d) => [(src, d)]
    case _ => []
  }

  /** The result list of `from_sources`. */
  function KeptAll(run: Runner, srcs: seq<string>): seq<(string, GraphDict)>
  {
    FlatMap(srcs, src => Kept(run, src))
  }

  /** The four error counters. */
  datatype Tally = Tally(syntax: nat, scalpel: nat, timeout: nat, assertion: nat)

  function Total(t: Tally): nat
  {
    t.syntax + t.scalpel + t.timeout + t.assertion
  }

  /** The counters after one more outcome. */
  function Count(t: Tally, o: Outcome): Tally
  {
    match o
    case Built(_) => t
    case SyntaxFailure => t.(syntax := t.syntax + 1)
    case ScalpelFailure => t.(scalpel := t.scalpel + 1)
    case TimeoutFailure => t.(timeout := t.timeout + 1)
    case AssertionFailure => t.(assertion := t.assertion + 1)
  }

  /** The counters after the whole list. */
  function Tallied(run: Runner, srcs: seq<string>): Tally
  {
    if |srcs| == 0 then Tally(0, 0, 0, 0)
    else Count(Tallied(run, srcs[..|srcs| - 1]), run(srcs[|srcs| - 1]))
  }

  /** One more source extends the result by its own contribution and the counters by its outcome. */
  lemma KeptStep(run: Runner, srcs: seq<string>, i: nat)
    requires i < |srcs|
    ensures KeptAll(run, srcs[..i + 1]) == KeptAll(run, srcs[..i]) + Kept(run, srcs[i])
    ensures Tallied(run, srcs[..i + 1]) == Count(Tallied(run, srcs[..i]), run(srcs[i]))
  {
    assert srcs[..i + 1] == srcs[..i] + [srcs[i]];
    assert srcs[..i + 1][..i] == srcs[..i];
    FlatMapAppend(srcs[..i], [srcs[i]], s => Kept(run, s));
    assert FlatMap([srcs[i]], s => Kept(run, s)) == Kept(run, srcs[i]) by {
      assert [srcs[i]][1..] == [];
    }
  }

  /** `from_sources`: one pass, keeping the built graphs and counting the failures. */
  method FromSources(run: Runner, srcs: seq<string>) returns (result: seq<(string, GraphDict)>, tally: Tally)
    ensures result == KeptAll(run, srcs)
    ensures tally == Tallied(run, srcs)
  {
    result := [];
    tally := Tally(0, 0, 0, 0);
    for i := 0 to |srcs|
      invariant result == KeptAll(run, srcs[..i])
      invariant tally == Tallied(run, srcs[..i])
    {
      var src := srcs[i];
      KeptStep(run, srcs, i);
      match run(src)
      case SyntaxFailure =>
        tally := tally.(syntax := tally.syntax + 1);
      case ScalpelFailure =>
        tally := tally.(scalpel := tally.scalpel + 1);
      case TimeoutFailure =>
        tally := tally.(timeout := tally.timeout + 1);
      case AssertionFailure =>
        tally := tally.(assertion := tally.assertion + 1);
      case Built(d) =>
        result := result + [(src, d)];
    }
    assert srcs[..|srcs|] == srcs;
  }

  /**
   * The result list of the written loop is the intended one, but its
   * timeout counter never moves: every timeout is counted as a Scalpel or
   * an assertion error instead, and the syntax counter is unaffected.
   */
  lemma {:induction false} TimeoutsMiscounted(p: ValidPipeline, srcs: seq<string>)
    ensures KeptAll(RunsAsWritten(p), srcs) == KeptAll(Runs(p), srcs)
    ensures Tallied(RunsAsWritten(p), srcs).timeout == 0
    ensures Tallied(RunsAsWritten(p), srcs).syntax == Tallied(Runs(p), srcs).syntax
    ensures Tallied(RunsAsWritten(p), srcs).scalpel + Tallied(RunsAsWritten(p), srcs).assertion ==
      Tallied(Runs(p), srcs).scalpel + Tallied(Runs(p), srcs).timeout + Tallied(Runs(p), srcs).assertion
    decreases |srcs|
  {
    if |srcs| > 0 {
      var n := |srcs| - 1;
      TimeoutsMiscounted(p, srcs[..n]);
      KeptStep(RunsAsWritten(p), srcs, n);
      KeptStep(Runs(p), srcs, n);
      assert srcs[..n + 1] == srcs;
    }
  }

  /** Every source is either kept or counted, exactly once. */
  lemma {:induction false} KeptOrCounted(run: Runner, srcs: seq<string>)
    ensures |KeptAll(run, srcs)| + Total(Tallied(run, srcs)) == |srcs|
    decreases |srcs|
  {
    if |srcs| > 0 {
      var n := |srcs| - 1;
      KeptOrCounted(run, srcs[..n]);
      KeptStep(run, srcs, n);
      assert srcs[..n + 1] == srcs;
    }
  }

  /** A pair is in the result exactly when its source is in the list and was built into that graph. */
  lemma {:induction false} KeptMembers(run: Runner, srcs: seq<string>, src: string, d: GraphDict)
    ensures (src, d) in KeptAll(run, srcs) <==> src in srcs && run(src) == Built(d)
    decreases |srcs|
  {
    if |srcs| > 0 {
      KeptMembers(run, srcs[1..], src, d);
      assert srcs == [srcs[0]] + srcs[1..];
    }
  }

  /** The result keeps the sources' order: kept items appear as their sources do. */
  lemma KeptSplits(run: Runner, a: seq<string>, b: seq<string>)
    ensures KeptAll(run, a + b) == KeptAll(run, a) + KeptAll(run, b)
  {
    FlatMapAppend(a, b, s => Kept(run, s));
  }

  // ---------------------------------------------------------------------
  // `from_sources_parallel`

  /** `from_sources_parallel`: `from_sources` per bucket, results concatenated bucket by bucket. */
  function FromSourcesParallel(run: Runner, srcs: seq<string>, n: int): Option<seq<(string, GraphDict)>>
  {
    Parallel(srcs, n, src => Kept(run, src))
  }

  /**
   * The parallel result holds the same pairs as the sequential one, in
   * round-robin order; with one process it is the sequential result itself.
   */
  lemma ParallelSources(run: Runner, srcs: seq<string>, n: int)
    ensures FromSourcesParallel(run, srcs, n).Some? <==> n > 0 || |srcs| == 0
    ensures FromSourcesParallel(run, srcs, n).Some? ==>
      multiset(FromSourcesParallel(run, srcs, n).value) == multiset(KeptAll(run, srcs))
    ensures n == 1 ==> FromSourcesParallel(run, srcs, n) == Some(KeptAll(run, srcs))
  {
    if FromSourcesParallel(run, srcs, n).Some? {
      ParallelPermutation(srcs, n, src => Kept(run, src));
    }
    if n == 1 {
      ParallelSingle(srcs, src => Kept(run, src));
    }
  }

  // ---------------------------------------------------------------------
  // The sanity check

  const DefKeyword := "def "
  const ClassKeyword := "class "

  /** `function_sanity_check`: exactly one `def ` and no `class ` in the text. */
  predicate Sane(src: string)
  {
    CountOcc(src, DefKeyword) == 1 && CountOcc(src, ClassKeyword) == 0
  }

  /** A sane text mentions `def ` and never mentions `class `. */
  lemma SaneMeaning(src: string)
    ensures Sane(src) ==> (exists i :: OccursAt(src, DefKeyword, i)) && forall i :: !OccursAt(src, ClassKeyword, i)
    ensures (forall i :: !OccursAt(src, DefKeyword, i)) ==> !Sane(src)
  {
    CountOccZeroIff(src, DefKeyword);
    CountOccZeroIff(src, ClassKeyword);
  }

  /** `functions_sanity_check`: the texts that pass and the texts that do not, each in input order. */
  function SanityCheck(fs: seq<string>): (r: (seq<string>, seq<string>))
    ensures forall i :: 0 <= i < |r.0| ==> Sane(r.0[i])
    ensures forall i :: 0 <= i < |r.1| ==> !Sane(r.1[i])
    ensures multiset(r.0) + multiset(r.1) == multiset(fs)
  {
    SelectSpec(fs, Sane, true);
    SelectSpec(fs, Sane, false);
    PartitionCount(fs, Sane);
    Partition(fs, Sane)
  }

  /** Both parts keep input order: checking two lists in turn is checking each and concatenating. */
  lemma SanityCheckOrder(a: seq<string>, b: seq<string>)
    ensures SanityCheck(a + b).0 == SanityCheck(a).0 + SanityCheck(b).0
    ensures SanityCheck(a + b).1 == SanityCheck(a).1 + SanityCheck(b).1
  {
    SelectAppend(a, b, Sane, true);
    SelectAppend(a, b, Sane, false);
  }

  const FunctionBody := "f(x): return x"
  const SampleFunction := DefKeyword + FunctionBody
  const SampleClass := ClassKeyword + "A:\n    def f(self): pass"
  const SampleTwo := DefKeyword + "f(): pass\n" + DefKeyword + "g(): pass"
  const SampleNoFunction := "s = '" + DefKeyword + "'"

  /** A plain function passes. */
  lemma SaneFunction()
    ensures Sane(SampleFunction)
  {
    assert 'd' !in FunctionBody && 'c' !in FunctionBody;
    SaneDefinition(FunctionBody);
  }

  /** One `def ` followed by text holding neither a `d` nor a `c` passes. */
  lemma SaneDefinition(body: string)
    requires 'd' !in body && 'c' !in body
    ensures Sane(DefKeyword + body)
  {
    CountOccLead(DefKeyword, body);
    CountOccAbsent(body, DefKeyword);
    assert 'c' !in DefKeyword;
    CountOccAbsent(DefKeyword + body, ClassKeyword);
  }

  /** A class is refused, even around a single method. */
  lemma ClassRefused()
    ensures !Sane(SampleClass)
  {
    CountOccLead(ClassKeyword, "A:\n    def f(self): pass");
  }

  /** Two definitions are refused. */
  lemma TwoRefused()
    ensures CountOcc(SampleTwo, DefKeyword) == 2 && !Sane(SampleTwo)
  {
    var second := DefKeyword + "g(): pass";
    assert SampleTwo == DefKeyword + ("f(): pass\n" + second);
    CountOccLead(DefKeyword, "f(): pass\n" + second);
    CountOccSkip("f(): pass\n", second, DefKeyword);
    CountOccLead(DefKeyword, "g(): pass");
    CountOccAbsent("g(): pass", DefKeyword);
  }

  /** The check is textual: a `def ` inside a string literal passes it. */
  lemma SaneNoFunction()
    ensures Sane(SampleNoFunction)
  {
    assert SampleNoFunction == "s = '" + (DefKeyword + "'");
    CountOccSkip("s = '", DefKeyword + "'", DefKeyword);
    CountOccLead(DefKeyword, "'");
    CountOccAbsent("'", DefKeyword);
    CountOccAbsent(SampleNoFunction, ClassKeyword);
  }

  // ---------------------------------------------------------------------
  // `from_single_functions`

  /**
   * The shaping step of `from_single_functions` as written: the first
   * function of every kept graph. A graph without functions makes
   * `['functions'][0]` raise, which nothing catches.
   */
  function FirstFunctions(kept: seq<(string, GraphDict)>): Option<seq<(string, FunctionDict)>>
  {
    if |kept| == 0 then Some([])
    else if |kept[0].1.functions| == 0 then None
    else
      match FirstFunctions(kept[1..])
      case None => None
      case Some(rest) => Some([(kept[0].0, kept[0].1.functions[0])] + rest)
  }

  /**
   * The shaping fails exactly when some kept graph has no function, and
   * otherwise pairs each source with its graph's first function.
   */
  lemma {:induction false} FirstFunctionsSpec(kept: seq<(string, GraphDict)>)
    ensures FirstFunctions(kept).None? <==> exists i :: 0 <= i < |kept| && |kept[i].1.functions| == 0
    ensures FirstFunctions(kept).Some? ==>
      && |FirstFunctions(kept).value| == |kept|
      && forall i :: 0 <= i < |kept| ==>
           |kept[i].1.functions| > 0 && FirstFunctions(kept).value[i] == (kept[i].0, kept[i].1.functions[0])
    decreases |kept|
  {
    if |kept| > 0 {
      var tail := kept[1..];
      FirstFunctionsSpec(tail);
      if FirstFunctions(tail).None? {
        var i :| 0 <= i < |tail| && |tail[i].1.functions| == 0;
        assert kept[i + 1] == tail[i];
      }
    }
  }

  /** Shaping two lists is shaping each and concatenating, failing if either fails. */
  lemma {:induction false} FirstFunctionsAppend(a: seq<(string, GraphDict)>, b: seq<(string, GraphDict)>)
    ensures FirstFunctions(a + b) ==
      if FirstFunctions(a).Some? && FirstFunctions(b).Some?
      then Some(FirstFunctions(a).value + FirstFunctions(b).value)
      else None
    decreases |a|
  {
    if |a| == 0 {
      assert a + b == b;
      if FirstFunctions(b).Some? {
        assert [] + FirstFunctions(b).value == FirstFunctions(b).value;
      }
    } else {
      assert (a + b)[0] == a[0];
      assert (a + b)[1..] == a[1..] + b;
      FirstFunctionsAppend(a[1..], b);
      if |a[0].1.functions| > 0 && FirstFunctions(a[1..]).Some? && FirstFunctions(b).Some? {
        var h := (a[0].0, a[0].1.functions[0]);
        assert FirstFunctions(a).value == [h] + FirstFunctions(a[1..]).value;
        assert FirstFunctions(a + b).value == [h] + FirstFunctions(a[1..] + b).value;
        var a', b' := FirstFunctions(a[1..]).value, FirstFunctions(b).value;
        assert [h] + (a' + b') == ([h] + a') + b';
      }
    }
  }

  /** `from_single_functions` as written. */
  function FromSingleFunctionsAsWritten(run: Runner, fs: seq<string>): Option<seq<(string, FunctionDict)>>
  {
    FirstFunctions(KeptAll(run, SanityCheck(fs).0))
  }

  /** What one text adds to the corrected result: its first function, when it has one. */
  function SingleOne(run: Runner, src: string): seq<(string, FunctionDict)>
  {
    if !Sane(src) then []
    else
      match run(src)
      case Built(d) => if |d.functions| > 0 then [(src, d.functions[0])] else []
      case _ => []
  }

  /** `from_single_functions` with texts that yield no function dropped like any other failure. */
  function FromSingleFunctions(run: Runner, fs: seq<string>): seq<(string, FunctionDict)>
  {
    FlatMap(fs, src => SingleOne(run, src))
  }

  /** A text the written version cannot shape: it passes the check and builds a graph without functions. */
  predicate Unshapeable(run: Runner, src: string)
  {
    Sane(src) && run(src).Built? && |run(src).graph.functions| == 0
  }

  /** One sane text: the written shaping fails on it exactly when it is unshapeable. */
  lemma FirstFunctionsOfOne(run: Runner, src: string)
    requires Sane(src)
    ensures FirstFunctions(Kept(run, src)) ==
      if Unshapeable(run, src) then None else Some(SingleOne(run, src))
  {
    if run(src).Built? {
      var d := run(src).graph;
      assert Kept(run, src) == [(src, d)];
      assert Kept(run, src)[1..] == [];
      if |d.functions| > 0 {
        assert FirstFunctions(Kept(run, src)) == Some([(src, d.functions[0])] + []);
        assert [(src, d.functions[0])] + [] == [(src, d.functions[0])];
        assert SingleOne(run, src) == [(src, d.functions[0])];
      }
    }
  }

  /**
   * The written version fails exactly when some text passes the check but
   * builds a graph without functions; otherwise it agrees with the
   * corrected version.
   */
  lemma {:induction false} SingleFunctionsAsWritten(run: Runner, fs: seq<string>)
    ensures FromSingleFunctionsAsWritten(run, fs) ==
      if exists i :: 0 <= i < |fs| && Unshapeable(run, fs[i])
      then None
      else Some(FromSingleFunctions(run, fs))
    decreases |fs|
  {
    if |fs| > 0 {
      var x, rest := fs[0], fs[1..];
      SingleFunctionsAsWritten(run, rest);
      var ok := SanityCheck(rest).0;
      var exRest := exists i :: 0 <= i < |rest| && Unshapeable(run, rest[i]);
      ExistsStep(run, fs);
      assert FromSingleFunctions(run, fs) == SingleOne(run, x) + FromSingleFunctions(run, rest);
      assert FromSingleFunctionsAsWritten(run, rest) == FirstFunctions(KeptAll(run, ok));
      if Sane(x) {
        assert SanityCheck(fs).0 == [x] + ok;
        assert KeptAll(run, [x] + ok) == Kept(run, x) + KeptAll(run, ok) by {
          assert ([x] + ok)[0] == x;
          assert ([x] + ok)[1..] == ok;
        }
        FirstFunctionsAppend(Kept(run, x), KeptAll(run, ok));
        FirstFunctionsOfOne(run, x);
        assert FromSingleFunctionsAsWritten(run, fs) == FirstFunctions(Kept(run, x) + KeptAll(run, ok));
        if !Unshapeable(run, x) && !exRest {
          assert FromSingleFunctionsAsWritten(run, fs) == Some(SingleOne(run, x) + FromSingleFunctions(run, rest));
        }
      } else {
        assert SanityCheck(fs).0 == ok;
        assert SingleOne(run, x) == [];
        assert FromSingleFunctionsAsWritten(run, fs) == FromSingleFunctionsAsWritten(run, rest);
        assert !Unshapeable(run, x);
        assert FromSingleFunctions(run, fs) == FromSingleFunctions(run, rest);
      }
    }
  }

  /** Some text of a non-empty list is unshapeable exactly when the first one is or a later one is. */
  lemma ExistsStep(run: Runner, fs: seq<string>)
    requires |fs| > 0
    ensures (exists i :: 0 <= i < |fs| && Unshapeable(run, fs[i])) <==>
      Unshapeable(run, fs[0]) || exists i :: 0 <= i < |fs[1..]| && Unshapeable(run, fs[1..][i])
  {
    if exists i :: 0 <= i < |fs[1..]| && Unshapeable(run, fs[1..][i]) {
      var i :| 0 <= i < |fs[1..]| && Unshapeable(run, fs[1..][i]);
      assert fs[i + 1] == fs[1..][i];
    }
    if exists i :: 0 <= i < |fs| && Unshapeable(run, fs[i]) {
      var i :| 0 <= i < |fs| && Unshapeable(run, fs[i]);
      if i > 0 {
        assert fs[1..][i - 1] == fs[i];
      }
    }
  }

  /** A pair is in the corrected result exactly when its text passed and its graph's first function is that one. */
  lemma {:induction false} SingleFunctionsMembers(run: Runner, fs: seq<string>, src: string, f: FunctionDict)
    ensures (src, f) in FromSingleFunctions(run, fs) <==>
      && src in fs && Sane(src) && run(src).Built?
      && |run(src).graph.functions| > 0 && run(src).graph.functions[0] == f
    decreases |fs|
  {
    if |fs| > 0 {
      SingleFunctionsMembers(run, fs[1..], src, f);
      assert fs == [fs[0]] + fs[1..];
    }
  }

  // ---------------------------------------------------------------------
  // `from_single_functions_parallel`

  /** The corrected single-function runner split over `n` buckets. */
  function FromSingleFunctionsParallel(run: Runner, fs: seq<string>, n: int): Option<seq<(string, FunctionDict)>>
  {
    Parallel(fs, n, src => SingleOne(run, src))
  }

  /** Same pairs as the sequential corrected runner; the same list with one process. */
  lemma ParallelSingleFunctions(run: Runner, fs: seq<string>, n: int)
    ensures FromSingleFunctionsParallel(run, fs, n).Some? <==> n > 0 || |fs| == 0
    ensures FromSingleFunctionsParallel(run, fs, n).Some? ==>
      multiset(FromSingleFunctionsParallel(run, fs, n).value) == multiset(FromSingleFunctions(run, fs))
    ensures n == 1 ==> FromSingleFunctionsParallel(run, fs, n) == Some(FromSingleFunctions(run, fs))
  {
    if FromSingleFunctionsParallel(run, fs, n).Some? {
      ParallelPermutation(fs, n, src => SingleOne(run, src));
    }
    if n == 1 {
      ParallelSingle(fs, src => SingleOne(run, src));
    }
  }

  /**
   * `from_single_functions_parallel` as written: every bucket runs the
   * written `from_single_functions`, and `future.result()` re-raises the
   * `IndexError` of a bucket that holds an unshapeable text.
   */
  function FromSingleFunctionsParallelAsWritten(run: Runner, fs: seq<string>, n: int): Option<seq<(string, FunctionDict)>>
  {
    ParallelOrRaise(fs, n, b => FromSingleFunctionsAsWritten(run, b))
  }

  /**
   * The written parallel runner fails exactly when the split fails or some
   * text anywhere is unshapeable; otherwise it returns what the corrected
   * parallel runner does.
   */
  lemma ParallelSingleFunctionsAsWritten(run: Runner, fs: seq<string>, n: int)
    ensures FromSingleFunctionsParallelAsWritten(run, fs, n) ==
      if exists i :: 0 <= i < |fs| && Unshapeable(run, fs[i]) then None
      else FromSingleFunctionsParallel(run, fs, n)
    ensures FromSingleFunctionsParallelAsWritten(run, fs, n).None? <==>
      (n <= 0 && |fs| > 0) || exists i :: 0 <= i < |fs| && Unshapeable(run, fs[i])
  {
    var bad := src => Unshapeable(run, src);
    var g := src => SingleOne(run, src);
    var h := b => FromSingleFunctionsAsWritten(run, b);
    forall b ensures h(b) == if AnyOf(b, bad) then None else Some(FlatMap(b, g)) {
      SingleFunctionsAsWritten(run, b);
    }
    ParallelOrRaiseSpec(fs, n, h, bad, g);
    ParallelSingleFunctions(run, fs, n);
  }

  // ---------------------------------------------------------------------
  // A text that passes the check but holds no function

  /** A module with nothing in it: no classes, and only the module-level unit. */
  const EmptyModule := Node(0, Other("Module"), [])
  const ModuleOnly := [Unit(ModuleUnit, RawFunction(TopLevelName, 0, [RawBlock(0, [], [])]))]

  lemma ModuleOnlyWellFormed()
    ensures AllWellFormed(ModuleOnly)
  {
    assert WellFormed(ModuleOnly[0].fn);
  }

  /** A pipeline that parses every text into an empty module. */
  function ModulePipeline(): ValidPipeline
  {
    ModuleOnlyWellFormed();
    Pipeline(_ => Some(EmptyModule), _ => Some(ModuleOnly), _ => None)
  }

  /** The empty module's graph holds no function: its one unit is the module itself. */
  lemma ModuleGraph()
    ensures AllWellFormed(ModuleOnly)
    ensures BuildGraph(Some(EmptyModule), Some(ModuleOnly)) == Ok(Graph([]))
  {
    ModuleOnlyWellFormed();
    assert ClassNames(EmptyModule) == {};
    assert IsMainFunction(ParseScalpelName(ModuleOnly[0].key));
    BuildAccepts(ModuleOnly);
    assert Collect(Build, ModuleOnly, {}, None) == Ok([]);
  }

  /**
   * `s = 'def '` passes the textual check, yet its graph holds no function:
   * the written version fails on it, the corrected version drops it.
   */
  lemma NoFunctionCounterexample()
    ensures Unshapeable(Runs(ModulePipeline()), SampleNoFunction)
    ensures FromSingleFunctionsAsWritten(Runs(ModulePipeline()), [SampleNoFunction]).None?
    ensures FromSingleFunctions(Runs(ModulePipeline()), [SampleNoFunction]) == []
  {
    var run := Runs(ModulePipeline());
    SaneNoFunction();
    ModuleGraph();
    assert run(SampleNoFunction) == Built(GraphDict([]));
    SingleFunctionsAsWritten(run, [SampleNoFunction]);
    assert [SampleNoFunction][0] == SampleNoFunction;
    assert SingleOne(run, SampleNoFunction) == [];
    assert [SampleNoFunction][1..] == [];
    assert FromSingleFunctions(run, [SampleNoFunction]) == [] + FromSingleFunctions(run, []);
  }
}
