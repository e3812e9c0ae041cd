/**
 * `Function`: the blocks of one CFG unit, built from the raw blocks, pruned
 * from the entry block, reduced to call counts and renumbered `0..N-1`.
 */
module Functions {
  import opened Outcomes
  import opened Ast
  import opened Blocks
  import Pruning

  /** A raw CFG unit: the builder's name for it, its entry block's identifier and its blocks. */
  datatype RawFunction = RawFunction(name: string, entryId: int, blocks: seq<RawBlock>)

  datatype Function = Function(identifier: string, containingClass: Option<string>, entry: nat, blocks: seq<Block>)

  datatype FunctionDict = FunctionDict(identifier: string, containingClass: Option<string>, blocks: seq<BlockDict>)

  datatype FunctionError =
    | BlockFailed(error: BlockError)
    | NoEntryBlock

  /** The name the builder gives the top-level code of a module. */
  const TopLevelName := "cfg"
  /** The name such code is reported under. */
  const MainName := "__main__"

  function RawIds(raws: seq<RawBlock>): set<int>
  {
    set i | 0 <= i < |raws| :: raws[i].id
  }

  /**
   * What the CFG builder guarantees: block identifiers are unique and every
   * exit targets a block of the same unit (the walk and the renumbering look
   * every target up and would otherwise raise).
   */
  predicate WellFormed(raw: RawFunction)
  {
    && (forall i, j :: 0 <= i < j < |raw.blocks| ==> raw.blocks[i].id != raw.blocks[j].id)
    && (forall i, k :: 0 <= i < |raw.blocks| && 0 <= k < |raw.blocks[i].exits| ==> raw.blocks[i].exits[k] in RawIds(raw.blocks))
  }

  /** `__parse_scalpel_name`. */
  function ParseName(name: string): (r: string)
    ensures name == TopLevelName ==> r == MainName
    ensures name != TopLevelName ==> r == name
    ensures r != TopLevelName
  {
    if name == TopLevelName then MainName else name
  }

  /** Blocks are built in module mode when the parsed name is `__main__`. */
  function InMain(name: string): (b: bool)
    ensures b <==> name == TopLevelName || name == MainName
  {
    ParseName(name) == MainName
  }

  lemma InMainIff(name: string)
    ensures InMain(name) <==> name == TopLevelName || name == MainName
  {
  }

  function Ids(bs: seq<Block>): set<int>
  {
    set i | 0 <= i < |bs| :: bs[i].identifier
  }

  // ---------------------------------------------------------------------
  // Building the blocks and finding the entry

  /** The constructor's loop over raw blocks; the first failing block aborts it. */
  function BuildBlocks(raws: seq<RawBlock>, inMain: bool): (r: Result<seq<Block>, BlockError>)
    ensures r.Err? <==> exists i :: 0 <= i < |raws| && BuildBlock(raws[i], inMain).Err?
    ensures r.Ok? ==> |r.value| == |raws| && forall i :: 0 <= i < |raws| ==> BuildBlock(raws[i], inMain) == Ok(r.value[i])
  {
    if |raws| == 0 then Ok([])
    else
      match BuildBlock(raws[0], inMain)
      case Err(e) => Err(e)
      case Ok(b) =>
        match BuildBlocks(raws[1..], inMain)
        case Err(e) =>
          var i :| 0 <= i < |raws[1..]| && BuildBlock(raws[1..][i], inMain).Err?;
          assert BuildBlock(raws[i + 1], inMain).Err?;
          Err(e)
        case Ok(bs) =>
          assert forall i :: 1 <= i < |raws| ==> raws[i] == raws[1..][i - 1];
          Ok([b] + bs)
  }

  /** The loop's `if block.identifier == entry_id: self.entry = block`: the last match wins. */
  function FindEntry(bs: seq<Block>, entryId: int): (r: Option<nat>)
    ensures r.None? <==> entryId !in Ids(bs)
    ensures r.Some? ==> r.value < |bs| && bs[r.value].identifier == entryId
    ensures r.Some? ==> forall j :: r.value < j < |bs| ==> bs[j].identifier != entryId
  {
    if |bs| == 0 then None
    else if bs[|bs| - 1].identifier == entryId then Some(|bs| - 1)
    else
      var r := FindEntry(bs[..|bs| - 1], entryId);
      assert Ids(bs) == Ids(bs[..|bs| - 1]) + {bs[|bs| - 1].identifier};
      r
  }

  // ---------------------------------------------------------------------
  // Renumbering

  /**
   * The `old2new` map: each identifier to its position in `ids`. Filling it
   * in order lets a later duplicate overwrite an earlier one.
   */
  function IndexMap(ids: seq<int>): (m: map<int, nat>)
    ensures forall x :: x in m ==> m[x] < |ids| && ids[m[x]] == x
    ensures forall i :: 0 <= i < |ids| ==> ids[i] in m && i <= m[ids[i]]
  {
    if |ids| == 0 then map[]
    else
      var n := |ids| - 1;
      var prev := IndexMap(ids[..n]);
      assert forall i :: 0 <= i < n ==> ids[..n][i] == ids[i];
      prev[ids[n] := n]
  }

  function IdSeq(bs: seq<Block>): (ids: seq<int>)
    ensures |ids| == |bs| && forall i :: 0 <= i < |bs| ==> ids[i] == bs[i].identifier
  {
    seq(|bs|, i requires 0 <= i < |bs| => bs[i].identifier)
  }

  predicate TargetsKnown(bs: seq<Block>)
  {
    forall i, k :: 0 <= i < |bs| && 0 <= k < |bs[i].relations| ==> bs[i].relations[k] in Ids(bs)
  }

  predicate UniqueIds(bs: seq<Block>)
  {
    forall i, j :: 0 <= i < j < |bs| ==> bs[i].identifier != bs[j].identifier
  }

  /**
   * `__change_block_identifiers`: every identifier and every relation goes
   * through the same `old2new` map. Each new value is the position of a
   * block that had the old identifier; with unique identifiers block `i`
   * becomes `i` and each relation names the position of its old target.
   */
  function Renumber(bs: seq<Block>): (r: seq<Block>)
    requires TargetsKnown(bs)
    ensures |r| == |bs|
    ensures forall i {:trigger r[i]} :: 0 <= i < |bs| ==>
      && r[i].controlFlow == bs[i].controlFlow
      && r[i].callsAst == bs[i].callsAst
      && |r[i].relations| == |bs[i].relations|
      && 0 <= r[i].identifier < |bs|
      && bs[r[i].identifier].identifier == bs[i].identifier
    ensures forall i, k {:trigger r[i].relations[k]} :: 0 <= i < |bs| && 0 <= k < |bs[i].relations| ==>
      0 <= r[i].relations[k] < |bs| && bs[r[i].relations[k]].identifier == bs[i].relations[k]
    ensures UniqueIds(bs) ==> forall i :: 0 <= i < |bs| ==> r[i].identifier == i
  {
    var m := IndexMap(IdSeq(bs));
    IndexMapKeys(bs);
    var r := seq(|bs|, i requires 0 <= i < |bs| => RenumberBlock(bs[i], m, |bs|));
    if UniqueIds(bs) then
      IndexMapUnique(bs);
      r
    else r
  }

  /**
   * Identifiers and relations go through the same map: a relation naming a
   * block's old identifier names that block's new one.
   */
  lemma RenumberLockStep(bs: seq<Block>, i: nat, k: nat, j: nat)
    requires TargetsKnown(bs)
    requires i < |bs| && k < |bs[i].relations| && j < |bs| && bs[i].relations[k] == bs[j].identifier
    ensures Renumber(bs)[i].relations[k] == Renumber(bs)[j].identifier
  {
    IndexMapKeys(bs);
    var m := IndexMap(IdSeq(bs));
    assert IdSeq(bs)[j] == bs[j].identifier;
  }

  /** One block of the renumbering loop. */
  function RenumberBlock(b: Block, m: map<int, nat>, n: nat): (r: Block)
    requires b.identifier in m && forall k :: 0 <= k < |b.relations| ==> b.relations[k] in m
    ensures r == b.(identifier := m[b.identifier], relations := r.relations)
    ensures |r.relations| == |b.relations| && forall k :: 0 <= k < |b.relations| ==> r.relations[k] == m[b.relations[k]]
  {
    b.(identifier := m[b.identifier],
       relations := seq(|b.relations|, k requires 0 <= k < |b.relations| => m[b.relations[k]]))
  }

  // ---------------------------------------------------------------------
  // The constructor

  /** The walk's state: call set and relations per block identifier. */
  lemma IndexMapKeys(bs: seq<Block>)
    ensures IndexMap(IdSeq(bs)).Keys == Ids(bs)
  {
    var m := IndexMap(IdSeq(bs));
    forall x | x in m ensures x in Ids(bs) {
      assert bs[m[x]].identifier == x;
    }
    forall x | x in Ids(bs) ensures x in m {
      var i :| 0 <= i < |bs| && bs[i].identifier == x;
      assert IdSeq(bs)[i] == x;
    }
  }

  /** With unique identifiers `old2new` sends each block's identifier to its own position. */
  lemma IndexMapUnique(bs: seq<Block>)
    requires UniqueIds(bs)
    ensures forall i :: 0 <= i < |bs| ==> bs[i].identifier in IndexMap(IdSeq(bs)) && IndexMap(IdSeq(bs))[bs[i].identifier] == i
  {
    var m := IndexMap(IdSeq(bs));
    forall i | 0 <= i < |bs| ensures bs[i].identifier in m && m[bs[i].identifier] == i {
      assert IdSeq(bs)[i] == bs[i].identifier;
      var j := m[bs[i].identifier];
      assert bs[j].identifier == bs[i].identifier;
      assert i <= j;
    }
  }

  function CallState(bs: seq<Block>): (st: map<int, set<Node>>)
    ensures st.Keys == Ids(bs)
    ensures UniqueIds(bs) ==> forall i :: 0 <= i < |bs| ==> st[bs[i].identifier] == bs[i].callsAst
  {
    var m := IndexMap(IdSeq(bs));
    IndexMapKeys(bs);
    var st := map x | x in m :: bs[m[x]].callsAst;
    if UniqueIds(bs) then
      IndexMapUnique(bs);
      st
    else st
  }

  function RelationMap(bs: seq<Block>): (rel: map<int, seq<int>>)
    requires TargetsKnown(bs)
    ensures rel.Keys == Ids(bs) && Pruning.Closed(rel)
    ensures UniqueIds(bs) ==> forall i :: 0 <= i < |bs| ==> rel[bs[i].identifier] == bs[i].relations
  {
    var m := IndexMap(IdSeq(bs));
    IndexMapKeys(bs);
    var rel := map x | x in m :: bs[m[x]].relations;
    RelationsClosed(bs, m);
    if UniqueIds(bs) then
      IndexMapUnique(bs);
      rel
    else rel
  }

  /** Every relation of a block found through `m` names a key of `m`. */
  lemma RelationsClosed(bs: seq<Block>, m: map<int, nat>)
    requires TargetsKnown(bs) && m.Keys == Ids(bs) && forall x :: x in m ==> m[x] < |bs|
    ensures Pruning.Closed(map x | x in m :: bs[m[x]].relations)
  {
    var rel := map x | x in m :: bs[m[x]].relations;
    forall b, k | b in rel && 0 <= k < |rel[b]| ensures rel[b][k] in rel {
      assert rel[b][k] == bs[m[b]].relations[k];
    }
  }

  /** The call sets once `__prune_calls(self.entry)` has run, keyed by block identifier. */
  function PrunedCalls(bs: seq<Block>, entryId: int): (st: map<int, set<Node>>)
    requires TargetsKnown(bs) && entryId in Ids(bs)
    ensures st.Keys == Ids(bs)
    ensures forall x :: x in st ==> st[x] <= CallState(bs)[x]
  {
    Pruning.Prune(RelationMap(bs), entryId, {}, CallState(bs)).1
  }

  /** The call sets of a state written back into the blocks they belong to. */
  function WriteCalls(bs: seq<Block>, st: map<int, set<Node>>): (r: seq<Block>)
    requires Ids(bs) <= st.Keys
    ensures |r| == |bs|
    ensures forall i :: 0 <= i < |bs| ==>
      && r[i].identifier == bs[i].identifier
      && r[i].relations == bs[i].relations
      && r[i].controlFlow == bs[i].controlFlow
      && bs[i].identifier in st
      && r[i].callsAst == st[bs[i].identifier]
  {
    assert forall i :: 0 <= i < |bs| ==> bs[i].identifier in Ids(bs);
    seq(|bs|, i requires 0 <= i < |bs| => bs[i].(callsAst := st[bs[i].identifier]))
  }

  /** With unique identifiers, a state that only shrank the call sets shrinks every block's calls. */
  lemma WrittenCallsShrink(bs: seq<Block>, st: map<int, set<Node>>)
    requires UniqueIds(bs) && st.Keys == Ids(bs)
    requires forall x :: x in st ==> st[x] <= CallState(bs)[x]
    ensures forall i :: 0 <= i < |bs| ==> WriteCalls(bs, st)[i].callsAst <= bs[i].callsAst
  {
    var r := WriteCalls(bs, st);
    forall i | 0 <= i < |bs| ensures r[i].callsAst <= bs[i].callsAst {
      assert r[i].callsAst == st[bs[i].identifier] <= CallState(bs)[bs[i].identifier];
    }
  }

  lemma BuiltBlocksShape(raw: RawFunction, bs: seq<Block>)
    requires WellFormed(raw)
    requires BuildBlocks(raw.blocks, InMain(raw.name)) == Ok(bs)
    ensures |bs| == |raw.blocks|
    ensures forall i :: 0 <= i < |bs| ==> bs[i].identifier == raw.blocks[i].id && bs[i].relations == raw.blocks[i].exits
    ensures UniqueIds(bs) && TargetsKnown(bs) && Ids(bs) == RawIds(raw.blocks)
  {
    assert forall i :: 0 <= i < |bs| ==> bs[i].identifier == raw.blocks[i].id && bs[i].relations == raw.blocks[i].exits;
    assert Ids(bs) == RawIds(raw.blocks);
  }

  lemma SameIds(a: seq<Block>, b: seq<Block>)
    requires |a| == |b| && forall i :: 0 <= i < |a| ==> a[i].identifier == b[i].identifier
    ensures Ids(a) == Ids(b)
  {
    forall x | x in Ids(b) ensures x in Ids(a) {
      var i :| 0 <= i < |b| && b[i].identifier == x;
      assert a[i].identifier == x;
    }
  }

  /** Pruning from the entry, then renumbering, on blocks with unique identifiers. */
  function Canonicalize(bs: seq<Block>, entryId: int): (r: seq<Block>)
    requires UniqueIds(bs) && TargetsKnown(bs) && entryId in Ids(bs)
    ensures |r| == |bs|
    ensures forall i :: 0 <= i < |bs| ==>
      && r[i].identifier == i
      && r[i].controlFlow == bs[i].controlFlow
      && r[i].callsAst <= bs[i].callsAst
      && |r[i].relations| == |bs[i].relations|
    ensures forall i, k {:trigger r[i].relations[k]} :: 0 <= i < |bs| && 0 <= k < |bs[i].relations| ==>
      0 <= r[i].relations[k] < |bs| && bs[r[i].relations[k]].identifier == bs[i].relations[k]
    ensures forall i :: 0 <= i < |bs| ==>
      bs[i].identifier in PrunedCalls(bs, entryId) && r[i].callsAst == PrunedCalls(bs, entryId)[bs[i].identifier]
  {
    var st := PrunedCalls(bs, entryId);
    var pruned := WriteCalls(bs, st);
    WrittenCallsShrink(bs, st);
    CanonicalizeFacts(bs, pruned);
    Renumber(pruned)
  }

  lemma CanonicalizeFacts(bs: seq<Block>, pruned: seq<Block>)
    requires UniqueIds(bs) && TargetsKnown(bs) && |pruned| == |bs|
    requires forall i :: 0 <= i < |bs| ==>
      && pruned[i].identifier == bs[i].identifier
      && pruned[i].relations == bs[i].relations
      && pruned[i].controlFlow == bs[i].controlFlow
      && pruned[i].callsAst <= bs[i].callsAst
    ensures TargetsKnown(pruned)
    ensures var r := Renumber(pruned);
      && |r| == |bs|
      && (forall i :: 0 <= i < |bs| ==>
        && r[i].identifier == i
        && r[i].controlFlow == bs[i].controlFlow
        && r[i].callsAst == pruned[i].callsAst
        && r[i].callsAst <= bs[i].callsAst
        && |r[i].relations| == |bs[i].relations|)
      && (forall i, k {:trigger r[i].relations[k]} :: 0 <= i < |bs| && 0 <= k < |bs[i].relations| ==>
        0 <= r[i].relations[k] < |bs| && bs[r[i].relations[k]].identifier == bs[i].relations[k])
  {
    SameIds(pruned, bs);
    assert UniqueIds(pruned);
    var r := Renumber(pruned);
    forall i, k | 0 <= i < |bs| && 0 <= k < |bs[i].relations|
      ensures 0 <= r[i].relations[k] < |bs| && bs[r[i].relations[k]].identifier == bs[i].relations[k]
    {
      var j := r[i].relations[k];
      assert pruned[j].identifier == bs[j].identifier;
    }
  }

  /**
   * The `Function` constructor: builds the blocks (module mode when the name
   * parses to `__main__`), finds the entry, prunes from it and renumbers.
   */
  function BuildFunction(raw: RawFunction, containingClass: Option<string>): Result<Function, FunctionError>
    requires WellFormed(raw)
  {
    var identifier := ParseName(raw.name);
    match BuildBlocks(raw.blocks, identifier == MainName)
    case Err(e) => Err(BlockFailed(e))
    case Ok(bs) =>
      BuiltBlocksShape(raw, bs);
      match FindEntry(bs, raw.entryId)
      case None => Err(NoEntryBlock)
      case Some(entry) => Ok(Function(identifier, containingClass, entry, Canonicalize(bs, raw.entryId)))
  }

  /**
   * Construction fails exactly when a block holds two control-flow
   * statements or no block has the entry identifier.
   */
  lemma BuildFunctionFails(raw: RawFunction, containingClass: Option<string>)
    requires WellFormed(raw)
    ensures BuildFunction(raw, containingClass).Err? <==>
      (exists i :: 0 <= i < |raw.blocks| && BuildBlock(raw.blocks[i], InMain(raw.name)).Err?) || raw.entryId !in RawIds(raw.blocks)
  {
    var built := BuildBlocks(raw.blocks, InMain(raw.name));
    if built.Ok? {
      BuiltBlocksShape(raw, built.value);
    }
  }

  /**
   * What a function built from `raw` looks like: it has the parsed name, the
   * given class, and as entry the block with the entry identifier. Block `i`
   * is renumbered `i` and keeps its control flow, its calls are a subset of
   * those it was built with, and its `k`-th relation is the position of the
   * block its `k`-th exit targets.
   */
  predicate BuiltFrom(raw: RawFunction, containingClass: Option<string>, f: Function)
  {
    && f.identifier == ParseName(raw.name)
    && f.containingClass == containingClass
    && |f.blocks| == |raw.blocks|
    && f.entry < |raw.blocks| && raw.blocks[f.entry].id == raw.entryId
    && (forall i :: 0 <= i < |raw.blocks| ==>
      && BuildBlock(raw.blocks[i], InMain(raw.name)).Ok?
      && f.blocks[i].identifier == i
      && f.blocks[i].controlFlow == BuildBlock(raw.blocks[i], InMain(raw.name)).value.controlFlow
      && f.blocks[i].callsAst <= BuildBlock(raw.blocks[i], InMain(raw.name)).value.callsAst
      && |f.blocks[i].relations| == |raw.blocks[i].exits|)
    && (forall i, k {:trigger f.blocks[i].relations[k]} :: 0 <= i < |raw.blocks| && 0 <= k < |raw.blocks[i].exits| ==>
      && 0 <= f.blocks[i].relations[k] < |raw.blocks|
      && raw.blocks[f.blocks[i].relations[k]].id == raw.blocks[i].exits[k])
  }

  /** Every function the constructor builds is built from its raw unit in that sense. */
  lemma BuildFunctionSpec(raw: RawFunction, containingClass: Option<string>)
    requires WellFormed(raw) && BuildFunction(raw, containingClass).Ok?
    ensures BuiltFrom(raw, containingClass, BuildFunction(raw, containingClass).value)
  {
    var bs := BuildBlocks(raw.blocks, InMain(raw.name)).value;
    BuiltBlocksShape(raw, bs);
    var entry := FindEntry(bs, raw.entryId).value;
    var f := Function(ParseName(raw.name), containingClass, entry, Canonicalize(bs, raw.entryId));
    assert BuildFunction(raw, containingClass) == Ok(f);
    BuiltFunctionFacts(raw, bs, entry, containingClass);
  }

  lemma BuiltFunctionFacts(raw: RawFunction, bs: seq<Block>, entry: nat, containingClass: Option<string>)
    requires WellFormed(raw) && BuildBlocks(raw.blocks, InMain(raw.name)) == Ok(bs)
    requires UniqueIds(bs) && TargetsKnown(bs) && raw.entryId in Ids(bs)
    requires entry < |bs| && bs[entry].identifier == raw.entryId
    ensures BuiltFrom(raw, containingClass, Function(ParseName(raw.name), containingClass, entry, Canonicalize(bs, raw.entryId)))
  {
    var blocks := Canonicalize(bs, raw.entryId);
    forall i | 0 <= i < |raw.blocks|
      ensures BuildBlock(raw.blocks[i], InMain(raw.name)) == Ok(bs[i])
      ensures blocks[i].controlFlow == bs[i].controlFlow && blocks[i].callsAst <= bs[i].callsAst
    {
    }
    BuiltBlocksShape(raw, bs);
    CanonicalRelations(raw, bs, blocks);
  }

  /** After renumbering, the `k`-th relation of block `i` is the position of the block its `k`-th exit targets. */
  lemma CanonicalRelations(raw: RawFunction, bs: seq<Block>, blocks: seq<Block>)
    requires UniqueIds(bs) && TargetsKnown(bs) && raw.entryId in Ids(bs) && |bs| == |raw.blocks|
    requires forall i :: 0 <= i < |bs| ==> bs[i].identifier == raw.blocks[i].id && bs[i].relations == raw.blocks[i].exits
    requires blocks == Canonicalize(bs, raw.entryId)
    ensures forall i, k {:trigger blocks[i].relations[k]} :: 0 <= i < |raw.blocks| && 0 <= k < |raw.blocks[i].exits| ==>
      0 <= blocks[i].relations[k] < |raw.blocks| && raw.blocks[blocks[i].relations[k]].id == raw.blocks[i].exits[k]
  {
    forall i, k | 0 <= i < |raw.blocks| && 0 <= k < |raw.blocks[i].exits|
      ensures 0 <= blocks[i].relations[k] < |raw.blocks| && raw.blocks[blocks[i].relations[k]].id == raw.blocks[i].exits[k]
    {
      assert bs[i].relations == raw.blocks[i].exits;
      var j := blocks[i].relations[k];
      assert bs[j].identifier == raw.blocks[j].id;
    }
  }

  /**
   * A block no path from the entry reaches keeps every call it was built
   * with: if a successor-closed set of identifiers holds the entry but not
   * the block, pruning leaves the block alone.
   */
  lemma UnreachableKeepsCalls(raw: RawFunction, containingClass: Option<string>, S: set<int>, i: nat)
    requires WellFormed(raw) && BuildFunction(raw, containingClass).Ok?
    requires raw.entryId in S && i < |raw.blocks| && raw.blocks[i].id !in S
    requires forall j, k :: 0 <= j < |raw.blocks| && raw.blocks[j].id in S && 0 <= k < |raw.blocks[j].exits| ==> raw.blocks[j].exits[k] in S
    ensures BuildFunction(raw, containingClass).value.blocks[i].callsAst == BuildBlock(raw.blocks[i], InMain(raw.name)).value.callsAst
  {
    var bs := BuildBlocks(raw.blocks, InMain(raw.name)).value;
    BuiltBlocksShape(raw, bs);
    ClosedOverBlocks(raw, bs, S);
    Pruning.PruneFrame(RelationMap(bs), S, raw.entryId, {}, CallState(bs));
    var blocks := BuildFunction(raw, containingClass).value.blocks;
    assert blocks == Canonicalize(bs, raw.entryId);
    assert blocks[i].callsAst == PrunedCalls(bs, raw.entryId)[bs[i].identifier];
    assert CallState(bs)[bs[i].identifier] == bs[i].callsAst;
  }

  /** A set of identifiers closed under the raw exits is closed under the relation map. */
  lemma ClosedOverBlocks(raw: RawFunction, bs: seq<Block>, S: set<int>)
    requires UniqueIds(bs) && TargetsKnown(bs) && |bs| == |raw.blocks|
    requires forall j :: 0 <= j < |bs| ==> bs[j].identifier == raw.blocks[j].id && bs[j].relations == raw.blocks[j].exits
    requires forall j, k :: 0 <= j < |raw.blocks| && raw.blocks[j].id in S && 0 <= k < |raw.blocks[j].exits| ==> raw.blocks[j].exits[k] in S
    ensures Pruning.SuccessorClosed(RelationMap(bs), S)
  {
    var rel := RelationMap(bs);
    forall x, k | x in S && x in rel && 0 <= k < |rel[x]| ensures rel[x][k] in S {
      var j :| 0 <= j < |bs| && bs[j].identifier == x;
      assert rel[x] == bs[j].relations;
    }
  }

  /** `Function.to_dict`. */
  function ToDict(f: Function): (d: FunctionDict)
    ensures d.identifier == f.identifier && d.containingClass == f.containingClass
    ensures |d.blocks| == |f.blocks| && forall i :: 0 <= i < |f.blocks| ==> d.blocks[i] == Blocks.ToDict(f.blocks[i])
  {
    FunctionDict(f.identifier, f.containingClass, seq(|f.blocks|, i requires 0 <= i < |f.blocks| => Blocks.ToDict(f.blocks[i])))
  }

  /**
   * The reported blocks of a built function are numbered `0..N-1` in order,
   * every relation lies in that range, and no block reports more calls than
   * it was built with.
   */
  lemma CanonicalNumbering(raw: RawFunction, containingClass: Option<string>)
    requires WellFormed(raw) && BuildFunction(raw, containingClass).Ok?
    ensures var d := ToDict(BuildFunction(raw, containingClass).value);
      && |d.blocks| == |raw.blocks|
      && (forall i :: 0 <= i < |d.blocks| ==> d.blocks[i].identifier == i)
      && (forall i, k :: 0 <= i < |d.blocks| && 0 <= k < |d.blocks[i].relations| ==> 0 <= d.blocks[i].relations[k] < |d.blocks|)
      && (forall i :: 0 <= i < |d.blocks| ==> d.blocks[i].nCalls <= |BuildBlock(raw.blocks[i], InMain(raw.name)).value.callsAst|)
  {
    BuildFunctionSpec(raw, containingClass);
    DictNumbering(BuildFunction(raw, containingClass).value, raw);
  }

  /** The dictionary view of blocks numbered in place, with relations in range and fewer calls. */
  lemma DictNumbering(f: Function, raw: RawFunction)
    requires |f.blocks| == |raw.blocks|
    requires forall i :: 0 <= i < |raw.blocks| ==>
      && BuildBlock(raw.blocks[i], InMain(raw.name)).Ok?
      && f.blocks[i].identifier == i
      && f.blocks[i].callsAst <= BuildBlock(raw.blocks[i], InMain(raw.name)).value.callsAst
      && |f.blocks[i].relations| == |raw.blocks[i].exits|
    requires forall i, k {:trigger f.blocks[i].relations[k]} :: 0 <= i < |raw.blocks| && 0 <= k < |raw.blocks[i].exits| ==>
      0 <= f.blocks[i].relations[k] < |raw.blocks|
    ensures var d := ToDict(f);
      && |d.blocks| == |raw.blocks|
      && (forall i :: 0 <= i < |d.blocks| ==> d.blocks[i].identifier == i)
      && (forall i, k :: 0 <= i < |d.blocks| && 0 <= k < |d.blocks[i].relations| ==> 0 <= d.blocks[i].relations[k] < |d.blocks|)
      && (forall i :: 0 <= i < |d.blocks| ==> d.blocks[i].nCalls <= |BuildBlock(raw.blocks[i], InMain(raw.name)).value.callsAst|)
  {
    forall i | 0 <= i < |f.blocks|
      ensures Blocks.ToDict(f.blocks[i]).nCalls <= |BuildBlock(raw.blocks[i], InMain(raw.name)).value.callsAst|
    {
      SubsetCard(f.blocks[i].callsAst, BuildBlock(raw.blocks[i], InMain(raw.name)).value.callsAst);
    }
  }
}
