# funcskeleton in Dafny

funcskeleton turns Python source code into a "skeleton" of each function's
control-flow graph (CFG). A skeleton is one short line of text per function:
the control-flow tag of every basic block, the block's successors, and the
number of calls it makes. This project models the canonicalisation core of
that pipeline as pure Dafny functions over immutable datatypes, and proves
what the core promises about them.

The modelled core:

- **Ast** (`ast.dfy`): an abstract syntax tree. Every node has an identity
  (`uid`), a node class and ordered children. Call sets are sets of nodes,
  so two calls to the same name stay distinct.
- **Blocks** (`blocks.dfy`): the `Block` constructor, covering successors,
  the single control-flow statement and the union of the callees of every
  statement. It also models call extraction in normal mode and in module
  mode, `calls_to_identifiers` and `to_dict`.
- **Pruning** (`pruning.dfy`): `Function.__prune_calls`, the recursive walk
  that stops at blocks already on the current path. The call sets are a map
  from block identifier to set, threaded through the walk as explicit
  state. Termination on cyclic graphs is proved with an explicit measure.
- **Functions** (`functions.dfy`): the `Function` constructor. It builds the
  blocks, finds the entry block, prunes from it and renumbers the blocks
  `0..N-1`, mapping identifiers and relations through the same table. It
  also models `to_dict`.
- **Graphs** (`graphs.dfy`): the `Graph` constructor. It collects class
  names and resolves unit names. Its loop over the builder's units skips
  the module unit, treats each class name as a sticky marker and emits one
  `Function` per other unit. It also models `to_dict`.
- **Serializer** (`serializer.dfy`): `serialize_function` and
  `serialize_functions`, plus a reader for the text they produce. The
  round trip through the reader is proved.
- **Batches** and **Encoder** (`batches.dfy`, `encoder.dfy`):
  - the round-robin bucket split;
  - concatenation of the per-bucket results;
  - the outcome and error-tally loop of `from_sources`;
  - the textual sanity check and its partition;
  - `from_single_functions`;
  - the `*_parallel` runners, including a bucket that raises.
  Where the code's behaviour is evidently unintended, both the code as
  written and the corrected behaviour are modelled (see "## Findings").
- **AstEnc** (`astenc.dfy`): `get_ast_nodes_dfs`, the pre-order token
  encoding of a syntax tree.
- **Text** (`text.dfy`) and **Outcomes** (`outcomes.dfy`): shared helpers.
  They cover substring counting and removal, decimal text of integers,
  upper-casing, join and split, and `Option`/`Result`.

Some collaborators become inputs:

- The Python parser becomes an `Option<Node>`; `None` stands for a
  `SyntaxError`.
- The CFG builder becomes a list of named raw units, or `None` when it
  raises.
- The time limit becomes an input that says whether, and in which part of
  `Graph(src)`, the limit cuts a source short.
- In the encoder, these three are bundled as a `Pipeline`.
- The batch functions take a `Runner`, the outcome of each source.

Facts about the code that the model keeps:

- The control-flow tags are written as the Python class names `If`, `For`,
  `While` and `Return`, and a block without one as `None`. For example, a three-block
  function with two parameters reads
  `[2];[If][None][Return];[1,2][][];[1][0][2]`.
- A serialized function holds two `;` separators, or three when a parameter
  count is written.
- Module mode for call extraction is chosen by the parsed name being
  `__main__`. So a raw unit named `__main__` is built in module mode, as
  well as one named `cfg`.
- The unit named `mod` is tested before the class names.

## Model

| member | source | states |
|---|---|---|
| Blocks.BuildBlock | funcskeleton/cfg/block.py:5-27 | The constructor fails exactly when two statements of the block are control-flow statements. Otherwise the identifier is the raw id and the relations are the exit targets in exit order. The tag is absent exactly when no statement is a control-flow statement, and otherwise it is that statement's class. The call set holds exactly the callees extracted from some statement of the block, not only the first. |
| Blocks.BlockCalls | funcskeleton/cfg/block.py:16-19 | The accumulated call set contains a callee exactly when some statement of the block yields it. |
| Blocks.CtrlCountFacts | funcskeleton/cfg/block.py:21-27 | `ctrlflow_count` exceeds one exactly when two statements are control-flow statements. It is zero exactly when none is. When it is at most one, the recorded tag is that of the one control-flow statement. |
| Blocks.GetCallsSpec | funcskeleton/cfg/block.py:29-37 | `__get_calls` yields the callee of every call strictly below the statement, however deeply nested, and nothing else. |
| Blocks.GetCallsMain | funcskeleton/cfg/block.py:39-53 | In module mode a function or class definition statement yields nothing. Any other statement yields exactly the callees of the calls below it. |
| Blocks.NestedDefinitionsSearchedInMain | funcskeleton/cfg/block.py:45-51 | A definition nested inside another statement is not skipped in module mode: the calls inside it are collected. |
| Blocks.CallsToIdentifiers | funcskeleton/cfg/block.py:60-71 | The identifier list holds, for every name, as many entries as there are callees that reduce to it (`attr` of an attribute, `id` of a name). Other callee shapes are dropped, so the list is no longer than the call set. |
| Blocks.ToDict | funcskeleton/cfg/block.py:73-79 | The dictionary keeps identifier, tag and relations. `n_calls` is exactly the number of callees in the call set that are a name or an attribute, the length of the list `calls_to_identifiers` builds. It equals the size of the call set exactly when every callee has one of those two shapes. |
| Functions.ParseName | funcskeleton/cfg/function.py:35-37 | A raw name `cfg` is reported as `__main__` and every other name is kept, so no function is ever reported under the name `cfg`. |
| Functions.InMain | funcskeleton/cfg/function.py:11-19 | Blocks are built in module mode exactly when the raw name is `cfg` or `__main__`. |
| Functions.InMainIff | funcskeleton/cfg/function.py:16-19 | The module-mode switch, stated as a lemma: it is on exactly for the raw names `cfg` and `__main__`. |
| Functions.BuildBlocks | funcskeleton/cfg/function.py:18-25 | The block loop fails exactly when some raw block fails. Otherwise block `i` is the block built from raw block `i`. |
| Functions.FindEntry | funcskeleton/cfg/function.py:21-22 | There is no entry exactly when no block carries the entry identifier. Otherwise the entry is the last block that carries it. |
| Functions.BuildFunctionFails | funcskeleton/cfg/function.py:14-27 | Construction fails exactly when some block holds two control-flow statements or no block has the entry identifier. |
| Functions.BuildFunctionSpec | funcskeleton/cfg/function.py:5-33 | A built function has the parsed name, the given class and, as entry, the block with the entry identifier. Block `i` is numbered `i`, keeps its tag and has a subset of its built calls. Its `k`-th relation is the position of the block its `k`-th exit targets. |
| Functions.IndexMap | funcskeleton/cfg/function.py:66-71 | `old2new` sends every identifier to a position that holds it. Filling the map in order lets a later duplicate win. |
| Functions.Renumber | funcskeleton/cfg/function.py:62-80 | Renumbering keeps the number of blocks, each block's tag and calls, and the length of each relation list. Every new identifier and relation is the position of a block with the old value. With unique identifiers block `i` becomes `i`. |
| Functions.RenumberLockStep | funcskeleton/cfg/function.py:73-80 | A relation and the identifier it named are renumbered to the same value. |
| Functions.PrunedCalls | funcskeleton/cfg/function.py:29 | Pruning from the entry keeps one call set per block identifier, and no set grows. |
| Functions.Canonicalize | funcskeleton/cfg/function.py:29-33 | After pruning and renumbering, block `i` is numbered `i` and keeps its tag. Its calls are exactly its pruned calls, a subset of its built calls. Its relations point at the positions of the old targets. |
| Functions.UnreachableKeepsCalls | funcskeleton/cfg/function.py:47-53 | A block outside a successor-closed set that contains the entry keeps every call it was built with. |
| Functions.CanonicalNumbering | funcskeleton/cfg/function.py:82-87 | The reported blocks are numbered `0..N-1` in order. Every relation lies in `0..N-1`. No block reports more calls than it was built with. |
| Functions.ToDict | funcskeleton/cfg/function.py:82-87 | The dictionary keeps name and class, and reports every block through `Block.to_dict`, in order. |
| Pruning.CallersGrow | funcskeleton/cfg/function.py:50-53 | Recursing into a successor not on the path, with the current block added to the path, strictly lowers the termination measure. |
| Pruning.Prune | funcskeleton/cfg/function.py:39-56 | `__prune_calls(b)` returns `b`'s call set as it was on entry. The state it leaves has the same blocks and no larger call set. |
| Pruning.StepsShrink | funcskeleton/cfg/function.py:47-54 | Each later step of the loop over relations only shrinks what the earlier steps left. |
| Pruning.PruneDisjoint | funcskeleton/cfg/function.py:53-54 | When `__prune_calls(b)` returns, `b`'s calls share nothing with the set returned by any successor it recursed into. |
| Pruning.PruneSelfLoop | funcskeleton/cfg/function.py:47-54 | A block with an edge to itself, entered off the path, ends with no calls. |
| Pruning.PruneFrame | funcskeleton/cfg/function.py:47-53 | Blocks outside a successor-closed set that contains the starting block keep their calls. |
| Pruning.PruneSettles | funcskeleton/cfg/function.py:39-56 | The state the walk leaves is settled: every edge the walk follows joins blocks with disjoint call sets. |
| Pruning.SettledFixed | funcskeleton/cfg/function.py:39-56 | Walking a settled state changes nothing. |
| Pruning.PruneIdempotent | funcskeleton/cfg/function.py:39-56 | Pruning an already pruned state leaves it unchanged, on cyclic graphs too. |
| Graphs.ParseScalpelNameFacts | funcskeleton/cfg/graph.py:63-65 | Every occurrence of `mod.` is removed, not only a leading one. A name without it is unchanged. The length drops by four per occurrence. |
| Graphs.ClassNamesSpec | funcskeleton/cfg/graph.py:45-61 | `__classes` yields exactly the names of the class definitions at any depth of the tree. |
| Graphs.BuildGraph | funcskeleton/cfg/graph.py:8-36 | A text that does not parse gives `SyntaxError` before any CFG work. A builder failure gives `ScalpelError`. For a source that parses and builds, the result is a graph exactly when the unit loop succeeds, holding the loop's functions. Otherwise it is the loop's error, always a failing `Function`. |
| Graphs.CollectErrorKind | funcskeleton/cfg/graph.py:26-36 | The unit loop fails only through a `Function` that fails. |
| Graphs.CollectFails | funcskeleton/cfg/graph.py:26-36 | The unit loop fails exactly when some unit that is neither `mod` nor a class name fails to build under the class marker in force at it. |
| Graphs.CollectBuilds | funcskeleton/cfg/graph.py:26-36 | On success the loop yields, in unit order, exactly one `Function` per unit that is neither `mod` nor a class name, each built under the marker in force at that unit. |
| Graphs.EmittedIndicesSpec | funcskeleton/cfg/graph.py:29-35 | The reference list of emitting positions holds exactly the units that are neither `mod` nor a class name, each once, in increasing order. |
| Graphs.TagBeforeSpec | funcskeleton/cfg/graph.py:24-33 | The class marker is absent until a class name has been seen. After that it is the most recent class name and never returns to absent. |
| Graphs.BuildAtMeaning | funcskeleton/cfg/graph.py:24-35 | The unit at position `i` is built under the most recent class marker before it, or the starting one. |
| Graphs.GraphFunctionCount | funcskeleton/cfg/graph.py:26-36 | A built graph holds as many functions as there are units that are neither `mod` nor a class name. |
| Graphs.ToDict | funcskeleton/cfg/graph.py:71-74 | The dictionary lists every function through `Function.to_dict`, in order. |
| Serializer.CtrlText | funcskeleton/serializer/serializer.py:9-11 | A tag is written as letters only and reads back as the same tag, `None` included. |
| Serializer.RelationTextCompact | funcskeleton/serializer/serializer.py:14-16 | `str(relations)` with its spaces removed is the comma-joined numbers in brackets. |
| Serializer.PrefixRoundTrip | funcskeleton/serializer/serializer.py:6-7 | The `[n]` prefix holds no `;` and reads back as the count. |
| Serializer.SplitSerialized | funcskeleton/serializer/serializer.py:3-23 | Cutting the text at `;` gives the prefix, present exactly when the count is truthy, followed by the tag, relation and call sections. |
| Serializer.SerializeRoundTrip | funcskeleton/serializer/serializer.py:3-23 | Reading the text back gives the parameter count exactly when a truthy one was given, and every block's tag, relations and call count, in block order. |
| Serializer.SectionCount | funcskeleton/serializer/serializer.py:4-23 | The text has three `;`-separated sections, four when a count is written. |
| Serializer.EmptyFunctionText | funcskeleton/serializer/serializer.py:4-23 | A function without blocks and without a count is written `;;`. |
| Serializer.SerializeExample | funcskeleton/serializer/serializer.py:3-23 | A three-block function with two parameters is written `[2];[If][None][Return];[1,2][][];[1][0][2]`. |
| Serializer.SerializeFunctions | funcskeleton/serializer/serializer.py:26-36 | With a non-empty count list the output is as long as the shorter of the two lists. Otherwise there is one string per function. |
| Serializer.SerializeFunctionsRoundTrip | funcskeleton/serializer/serializer.py:26-36 | The `i`-th string reads back as the `i`-th function under the `i`-th count, or without a count when no list was given. |
| Batches.Buckets | funcskeleton/encoder/encoder.py:187-198 | There are exactly `n` buckets for positive `n`. For `n <= 0` the split fails unless the list is empty. |
| Batches.SplitBuckets | funcskeleton/encoder/encoder.py:187-198 | The source's loop produces exactly the buckets described by the round-robin definition. |
| Batches.BucketStrided | funcskeleton/encoder/encoder.py:192-196 | Bucket `k` holds the items at positions `k`, `k+n`, `k+2n`, ... in order, and misses none of them. |
| Batches.BucketsPermutation | funcskeleton/encoder/encoder.py:192-196 | The buckets together hold every item exactly as often as the input does. |
| Batches.SingleBucket | funcskeleton/encoder/encoder.py:192-196 | With one process the only bucket is the input itself. |
| Batches.ParallelPermutation | funcskeleton/encoder/encoder.py:72-80 | Concatenating the per-bucket results gives a reordering of the sequential result. |
| Batches.ParallelSingle | funcskeleton/encoder/encoder.py:72-80 | With one process the concatenated result is the sequential result, in the same order. |
| Batches.SelectAppend | funcskeleton/encoder/encoder.py:215-219 | Filtering keeps input order: filtering two lists in turn is filtering each and concatenating. |
| Encoder.Classify | funcskeleton/encoder/encoder.py:35-50 | A built graph is kept as its dictionary, and each kind of failure is reported as its own outcome. |
| Encoder.AttemptCases | funcskeleton/encoder/encoder.py:35-50 | Under the intended reading of the handlers, a source times out, fails to parse, fails in the builder, fails in a `Function`, or is built, each exactly in its own situation. A built graph holds one function per emitting unit. |
| Encoder.AttemptAsWritten | funcskeleton/encoder/encoder.py:35-48 | As written, a source is never reported as a timeout. A timeout inside the CFG builder is reported as a Scalpel error and one anywhere else as an assertion error. Without a timeout the outcome is the intended one. |
| Encoder.TimeoutsMiscounted | funcskeleton/encoder/encoder.py:29-50 | As written, the loop keeps the same results, but the timeout counter stays at zero. Every timeout is added to the Scalpel and assertion counters instead, and the syntax counter is unaffected. |
| Encoder.FromSources | funcskeleton/encoder/encoder.py:19-62 | The loop's result is every built source paired with its graph, in input order. The four counters are the failures of each kind. |
| Encoder.KeptOrCounted | funcskeleton/encoder/encoder.py:29-50 | Every source is either kept or counted under exactly one counter, so results plus counters equal the number of sources. |
| Encoder.KeptMembers | funcskeleton/encoder/encoder.py:31-50 | A pair is in the result exactly when its source is in the list and was built into that graph. |
| Encoder.KeptSplits | funcskeleton/encoder/encoder.py:31-50 | The result keeps input order: the result for two lists is the two results concatenated. |
| Encoder.ParallelSources | funcskeleton/encoder/encoder.py:65-80 | The parallel runner fails only for a non-positive process count with a non-empty list. Otherwise it returns the same pairs as the sequential one, and with one process the same list. |
| Encoder.SaneMeaning | funcskeleton/encoder/encoder.py:200-207 | A text that passes contains `def ` and never `class `, and a text without `def ` fails. |
| Encoder.SaneFunction | funcskeleton/encoder/encoder.py:207 | A plain one-function text passes the check. |
| Encoder.ClassRefused | funcskeleton/encoder/encoder.py:207 | A class with a single method is refused. |
| Encoder.TwoRefused | funcskeleton/encoder/encoder.py:207 | Two definitions count twice and are refused. |
| Encoder.SaneNoFunction | funcskeleton/encoder/encoder.py:207 | The count is textual: `def ` inside a string literal passes the check. |
| Encoder.SanityCheck | funcskeleton/encoder/encoder.py:209-221 | Every accepted text passes the check and every refused text fails it. Together the two parts hold every input text exactly as often as the input does. |
| Encoder.SanityCheckOrder | funcskeleton/encoder/encoder.py:215-221 | Both parts keep input order. |
| Encoder.FirstFunctionsSpec | funcskeleton/encoder/encoder.py:98 | The final shaping fails exactly when some kept graph has no function. Otherwise it pairs each source with its graph's first function, in order. |
| Encoder.SingleFunctionsAsWritten | funcskeleton/encoder/encoder.py:83-98 | The function as written fails exactly when some text passes the check but builds a graph without functions. Otherwise it equals the corrected version. |
| Encoder.SingleFunctionsMembers | funcskeleton/encoder/encoder.py:83-98 | A pair is in the corrected result exactly when its text passed the check and was built, and the function is the first function of its graph. |
| Encoder.NoFunctionCounterexample | funcskeleton/encoder/encoder.py:98 | For `s = 'def '` parsed as a module without functions, the version as written fails and the corrected version returns nothing. |
| Encoder.ParallelSingleFunctions | funcskeleton/encoder/encoder.py:101-117 | The corrected parallel single-function runner fails only for a non-positive process count with a non-empty list. Otherwise it returns the same pairs as the sequential one, and with one process the same list. |
| Encoder.ParallelSingleFunctionsAsWritten | funcskeleton/encoder/encoder.py:109-117 | As written, the parallel runner fails exactly when the split fails or some text anywhere in the list is unshapeable, because `future.result()` re-raises that bucket's `IndexError`. Otherwise it returns what the corrected parallel runner does. |
| Batches.ParallelOrRaiseSpec | funcskeleton/encoder/encoder.py:109-117 | A parallel runner whose per-bucket function raises on a bad item fails exactly when the split fails or some item is bad. Otherwise it returns the concatenated per-bucket results. |
| Text.Upper | datasets/astenc.py:6 | Upper-casing keeps the length. Each lower-case ASCII letter becomes its own upper-case letter (`a` to `A`, ..., `z` to `Z`), and every other character is kept. |
| AstEnc.Token | datasets/astenc.py:6 | A node's token is its class name with each lower-case letter replaced by its upper-case letter and every other character kept. |
| AstEnc.TokenIf | datasets/astenc.py:6 | An `If` node is written `IF`. |
| AstEnc.TokenReturn | datasets/astenc.py:6 | A `Return` node is written `RETURN`. |
| AstEnc.DfsTokens | datasets/astenc.py:5-9 | The threaded walk only appends. It leaves the queue it was given followed by the node's token and then its subtrees' tokens, left to right. |
| AstEnc.TokenCount | datasets/astenc.py:5-9 | There is one token per node, and the root's comes first. |
| AstEnc.EncodingSplits | datasets/astenc.py:4-11 | Splitting the encoding at single spaces gives back the pre-order token list, one per node. |

## Left out

- I/O: the `from_files*` functions only read files and delegate, and are not modelled.
- The process pool and the time limit are not modelled as such.
  - Each bucket is processed in turn and the results are concatenated in bucket order.
  - The 30-second timeout becomes the input `timesOut`. It says whether the limit cuts a source short, and in which part of `Graph(src)`.
- The parallel runners drop the per-bucket error counters, as the source does. The model returns results only.
- Verbose progress printing and error logging are console output and are not modelled.
- `n_params` and the dataset-building script are outside the core.
- Python's parser and the CFG builder are inputs, not implementations.
  - A parse failure is `None`.
  - The builder's units are a list in its iteration order.
- Functions.WellFormed: raw units must have unique block identifiers, and every exit must target a block of the same unit. This is what the CFG builder produces.
  - Unique identifiers are assumed as a guarantee of the builder. With duplicates, the source would not fail: `blockmap` and `old2new` would keep the later block and the output would repeat identifiers. That case is not modelled.
  - An exit whose target is missing would make `__prune_calls` or `__change_block_identifiers` raise an uncaught `KeyError`. That case is not modelled either.
- Blocks.CalleeOf: a `Call` node without children contributes no callee. A parser never produces one.
- Pruning.Prune: the walk recurses one Python frame per block on the current path. `Blocks.GetCalls`, `Graphs.ClassNames` and `AstEnc.Dfs` recurse one frame per tree level. A path or tree deeper than the interpreter's recursion limit (1000 frames by default) raises `RecursionError`, for example a function of several hundred consecutive `if` statements. The model has no such limit: these functions always return.
- Encoder.FromSources: `RecursionError` is not among the handled exceptions, so in the source it aborts the whole list, and `future.result()` re-raises it in the parallel runners. The model's runners always return, because the recursion limit is not modelled (see `Pruning.Prune` above).
- Ast.Kind: `Other` stands for every node class not named by its own constructor. It never carries `Call`, `Name`, `Attribute`, `If`, `For`, `While`, `Return`, `FunctionDef` or `ClassDef`. So a node's class name determines its constructor.
- Ast.Node: Python's node identity is modelled by the `uid` field. Input trees are taken to carry distinct uids, as distinct Python objects are distinct. Two different calls given the same uid and the same subtree would merge in a call set and lower `n_calls`.
- Text.Upper: only ASCII letters are upper-cased. Python's full Unicode case mapping is not modelled.
- Blocks.CallsToIdentifiers: Python's set iteration order is unspecified. The method takes the callees in an arbitrary order, and its contract states the identifier list up to order.
- AstEnc.EncodingSplits: assumes that node class names contain no space, as Python class names never do.
- Graphs.BuildGraph: the `Function` constructor is passed to the unit loop as a parameter, so that the loop's lemmas hold for any constructor. `Graphs.Build` instantiates it with the real constructor.
- Encoder: a timeout is decided before the graph is built. Which partial work a real timeout interrupts is not modelled.

## Findings

| source | as written | input that shows it | evidently intended | confidence | as-written member | corrected member |
|---|---|---|---|---|---|---|
| funcskeleton/encoder/encoder.py:98 | `_[1]['functions'][0]` is taken for every kept source. A text that passes the textual check but whose graph holds no function makes it raise `IndexError`, and nothing catches it. | `s = 'def '`: one `def `, no `class `, parses to a module whose only unit is `mod` | drop such a text like any other source that yields no function | not executed | Encoder.FromSingleFunctionsAsWritten, Encoder.NoFunctionCounterexample | Encoder.FromSingleFunctions, Encoder.SingleFunctionsAsWritten, Encoder.SingleFunctionsMembers |
| funcskeleton/encoder/encoder.py:109-117 | Every bucket runs the `from_single_functions` of line 98, and `future.result()` re-raises a bucket's `IndexError`. So the whole call fails when any bucket holds such a text. | `s = 'def '` in any bucket, parsed as above | drop such a text in every bucket and concatenate the rest | not executed | Encoder.FromSingleFunctionsParallelAsWritten, Encoder.ParallelSingleFunctionsAsWritten | Encoder.FromSingleFunctionsParallel, Encoder.ParallelSingleFunctions |
| funcskeleton/encoder/encoder.py:43 | `except TimeoutError` names Python's builtin `TimeoutError`. The exception raised by the timeout decorator of line 223 derives from `AssertionError`, not from the builtin. So a timeout is counted by line 47 as an assertion error, or as a `ScalpelError` when it strikes inside the builder (graph.py:17-22), and `timeout_errors` never moves. The decorator's exception class is not defined in this repository. | any source whose `Graph(src)` runs past 30 seconds | count a timeout under `timeout_errors` | not executed | Encoder.AttemptAsWritten, Encoder.TimeoutsMiscounted | Encoder.Attempt, Encoder.AttemptCases |
