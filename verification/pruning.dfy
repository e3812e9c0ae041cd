/**
 * `Function.__prune_calls`: removes from a block's call set the calls of the
 * blocks it leads to. The walk is recursive and guarded by `callers`, the
 * identifiers of the blocks on the current path; the call sets live in a map
 * from block identifier to set that the walk threads through as its state.
 */
module Pruning {

  /** Successor lists keyed by block identifier; every successor is itself a key. */
  predicate Closed(rel: map<int, seq<int>>)
  {
    forall b, k :: b in rel && 0 <= k < |rel[b]| ==> rel[b][k] in rel
  }

  /** A state for `rel`: one call set per block. */
  predicate StateFor<T>(rel: map<int, seq<int>>, st: map<int, set<T>>)
  {
    st.Keys == rel.Keys
  }

  /** `after` has the same blocks as `before`, and no block gained a call. */
  predicate Shrunk<T>(after: map<int, set<T>>, before: map<int, set<T>>)
  {
    after.Keys == before.Keys && forall k :: k in before ==> after[k] <= before[k]
  }

  /**
   * Termination measure. `callers + {b}` strictly grows unless `b` is already
   * in `callers`, which happens only right after a block recursed into itself;
   * the extra unit covers that step.
   */
  function Measure(rel: map<int, seq<int>>, b: int, callers: set<int>): nat
  {
    2 * |rel.Keys - callers| + (if b in callers then 1 else 0)
  }

  lemma CallersGrow(rel: map<int, seq<int>>, b: int, n: int, callers: set<int>)
    requires b in rel && n in rel && n !in callers
    ensures Measure(rel, n, callers + {b}) < Measure(rel, b, callers)
  {
    if b !in callers {
      assert rel.Keys - (callers + {b}) == (rel.Keys - callers) - {b};
      assert b in rel.Keys - callers;
    } else {
      assert callers + {b} == callers;
    }
  }

  /**
   * The state after `__prune_calls(b, callers)` has handled the first `i`
   * entries of `b`'s relations.
   */
  function PruneSteps<T>(rel: map<int, seq<int>>, b: int, callers: set<int>, st: map<int, set<T>>, i: nat): (r: map<int, set<T>>)
    requires Closed(rel) && b in rel && StateFor(rel, st) && i <= |rel[b]|
    ensures Shrunk(r, st)
    decreases Measure(rel, b, callers), 0, i
  {
    if i == 0 then st
    else
      var prev := PruneSteps(rel, b, callers, st, i - 1);
      var n := rel[b][i - 1];
      if n in callers then prev
      else
        CallersGrow(rel, b, n, callers);
        var (snapshot, after) := Prune(rel, n, callers + {b}, prev);
        after[b := after[b] - snapshot]
  }

  /**
   * `__prune_calls(b, callers)`: returns `b`'s call set as it was on entry,
   * and the state once every successor outside `callers` has been pruned
   * (with `b` added to the path) and its returned set removed from `b`.
   */
  function Prune<T>(rel: map<int, seq<int>>, b: int, callers: set<int>, st: map<int, set<T>>): (r: (set<T>, map<int, set<T>>))
    requires Closed(rel) && b in rel && StateFor(rel, st)
    ensures r.0 == st[b]
    ensures Shrunk(r.1, st)
    decreases Measure(rel, b, callers), 1, 0
  {
    (st[b], PruneSteps(rel, b, callers, st, |rel[b]|))
  }

  // ---------------------------------------------------------------------
  // Properties of the walk

  lemma ShrunkTrans<T>(a: map<int, set<T>>, b: map<int, set<T>>, c: map<int, set<T>>)
    requires Shrunk(a, b) && Shrunk(b, c)
    ensures Shrunk(a, c)
  {
  }

  /** Later steps of one call only shrink what earlier steps left. */
  lemma {:induction false} StepsShrink<T>(rel: map<int, seq<int>>, b: int, callers: set<int>, st: map<int, set<T>>, i: nat, j: nat)
    requires Closed(rel) && b in rel && StateFor(rel, st) && i <= j <= |rel[b]|
    ensures Shrunk(PruneSteps(rel, b, callers, st, j), PruneSteps(rel, b, callers, st, i))
    decreases j
  {
    if i < j {
      StepsShrink(rel, b, callers, st, i, j - 1);
      StepShrinks(rel, b, callers, st, j);
      ShrunkTrans(PruneSteps(rel, b, callers, st, j), PruneSteps(rel, b, callers, st, j - 1), PruneSteps(rel, b, callers, st, i));
    }
  }

  /** One step of a call only shrinks what the step before it left. */
  lemma StepShrinks<T>(rel: map<int, seq<int>>, b: int, callers: set<int>, st: map<int, set<T>>, j: nat)
    requires Closed(rel) && b in rel && StateFor(rel, st) && 0 < j <= |rel[b]|
    ensures Shrunk(PruneSteps(rel, b, callers, st, j), PruneSteps(rel, b, callers, st, j - 1))
  {
    var prev := PruneSteps(rel, b, callers, st, j - 1);
    var n := rel[b][j - 1];
    if n !in callers {
      CallersGrow(rel, b, n, callers);
      var (snapshot, after) := Prune(rel, n, callers + {b}, prev);
      assert PruneSteps(rel, b, callers, st, j) == after[b := after[b] - snapshot];
    }
  }

  /**
   * Once `Prune(b)` returns, `b`'s calls share nothing with the set returned
   * by any successor it recursed into (the successor's calls when that
   * recursive call started).
   */
  lemma PruneDisjoint<T>(rel: map<int, seq<int>>, b: int, callers: set<int>, st: map<int, set<T>>, j: nat)
    requires Closed(rel) && b in rel && StateFor(rel, st) && j < |rel[b]| && rel[b][j] !in callers
    ensures Prune(rel, b, callers, st).1[b] !! PruneSteps(rel, b, callers, st, j)[rel[b][j]]
  {
    StepsShrink(rel, b, callers, st, j + 1, |rel[b]|);
  }

  /** A block with an edge to itself, entered off the path, ends with no calls at all. */
  lemma PruneSelfLoop<T>(rel: map<int, seq<int>>, b: int, callers: set<int>, st: map<int, set<T>>)
    requires Closed(rel) && b in rel && StateFor(rel, st) && b in rel[b] && b !in callers
    ensures Prune(rel, b, callers, st).1[b] == {}
  {
    var j :| 0 <= j < |rel[b]| && rel[b][j] == b;
    PruneDisjoint(rel, b, callers, st, j);
    StepsShrink(rel, b, callers, st, j, |rel[b]|);
  }

  /** `S` contains every successor of its members. */
  predicate SuccessorClosed(rel: map<int, seq<int>>, S: set<int>)
  {
    forall x, k :: x in S && x in rel && 0 <= k < |rel[x]| ==> rel[x][k] in S
  }

  /**
   * Only blocks reachable from `b` change: any block outside a
   * successor-closed set containing `b` keeps its calls.
   */
  lemma {:induction false} PruneFrame<T>(rel: map<int, seq<int>>, S: set<int>, b: int, callers: set<int>, st: map<int, set<T>>)
    requires Closed(rel) && b in rel && StateFor(rel, st) && SuccessorClosed(rel, S) && b in S
    ensures forall k :: k in st && k !in S ==> Prune(rel, b, callers, st).1[k] == st[k]
    decreases Measure(rel, b, callers), 1, 0
  {
    PruneStepsFrame(rel, S, b, callers, st, |rel[b]|);
  }

  lemma {:induction false} PruneStepsFrame<T>(rel: map<int, seq<int>>, S: set<int>, b: int, callers: set<int>, st: map<int, set<T>>, i: nat)
    requires Closed(rel) && b in rel && StateFor(rel, st) && SuccessorClosed(rel, S) && b in S && i <= |rel[b]|
    ensures forall k :: k in st && k !in S ==> PruneSteps(rel, b, callers, st, i)[k] == st[k]
    decreases Measure(rel, b, callers), 0, i
  {
    if i > 0 {
      PruneStepsFrame(rel, S, b, callers, st, i - 1);
      var prev := PruneSteps(rel, b, callers, st, i - 1);
      var n := rel[b][i - 1];
      if n !in callers {
        CallersGrow(rel, b, n, callers);
        PruneFrame(rel, S, n, callers + {b}, prev);
      }
    }
  }

  // ---------------------------------------------------------------------
  // Idempotence

  /**
   * Every edge the walk from `b` would follow already joins blocks whose
   * call sets are disjoint. The walk depends on `rel` and `callers` only,
   * never on the call sets.
   */
  predicate Settled<T>(rel: map<int, seq<int>>, b: int, callers: set<int>, st: map<int, set<T>>)
    requires Closed(rel) && b in rel && StateFor(rel, st)
    decreases Measure(rel, b, callers), 1, 0
  {
    SettledFrom(rel, b, callers, st, 0)
  }

  predicate SettledFrom<T>(rel: map<int, seq<int>>, b: int, callers: set<int>, st: map<int, set<T>>, i: nat)
    requires Closed(rel) && b in rel && StateFor(rel, st) && i <= |rel[b]|
    decreases Measure(rel, b, callers), 0, |rel[b]| - i
  {
    if i == |rel[b]| then true
    else
      var n := rel[b][i];
      (n in callers ||
        (CallersGrow(rel, b, n, callers);
         st[b] !! st[n] && Settled(rel, n, callers + {b}, st)))
      && SettledFrom(rel, b, callers, st, i + 1)
  }

  /** Pruning a settled state changes nothing. */
  lemma {:induction false} SettledFixed<T>(rel: map<int, seq<int>>, b: int, callers: set<int>, st: map<int, set<T>>)
    requires Closed(rel) && b in rel && StateFor(rel, st) && Settled(rel, b, callers, st)
    ensures Prune(rel, b, callers, st).1 == st
    decreases Measure(rel, b, callers), 1, 0
  {
    SettledStepsFixed(rel, b, callers, st, |rel[b]|);
  }

  lemma {:induction false} SettledStepsFixed<T>(rel: map<int, seq<int>>, b: int, callers: set<int>, st: map<int, set<T>>, i: nat)
    requires Closed(rel) && b in rel && StateFor(rel, st) && Settled(rel, b, callers, st) && i <= |rel[b]|
    ensures PruneSteps(rel, b, callers, st, i) == st
    decreases Measure(rel, b, callers), 0, i
  {
    if i > 0 {
      SettledStepsFixed(rel, b, callers, st, i - 1);
      if rel[b][i - 1] !in callers {
        SettledEdgeFixed(rel, b, callers, st, i - 1);
      }
      StepFixed(rel, b, callers, st, i);
    }
  }

  /** A settled edge leads to a disjoint successor whose own walk changes nothing. */
  lemma SettledEdgeFixed<T>(rel: map<int, seq<int>>, b: int, callers: set<int>, st: map<int, set<T>>, j: nat)
    requires Closed(rel) && b in rel && StateFor(rel, st) && Settled(rel, b, callers, st) && j < |rel[b]|
    requires rel[b][j] !in callers
    ensures st[b] !! st[rel[b][j]]
    ensures Prune(rel, rel[b][j], callers + {b}, st).1 == st
    decreases Measure(rel, b, callers), 0, 0
  {
    SettledFromAt(rel, b, callers, st, 0, j);
    CallersGrow(rel, b, rel[b][j], callers);
    SettledFixed(rel, rel[b][j], callers + {b}, st);
  }

  /**
   * One step leaves the state alone when the steps before it did, and the
   * successor it may recurse into is disjoint from `b` and left alone too.
   */
  lemma StepFixed<T>(rel: map<int, seq<int>>, b: int, callers: set<int>, st: map<int, set<T>>, i: nat)
    requires Closed(rel) && b in rel && StateFor(rel, st) && 0 < i <= |rel[b]|
    requires PruneSteps(rel, b, callers, st, i - 1) == st
    requires rel[b][i - 1] !in callers ==>
      st[b] !! st[rel[b][i - 1]] && Prune(rel, rel[b][i - 1], callers + {b}, st).1 == st
    ensures PruneSteps(rel, b, callers, st, i) == st
  {
    var n := rel[b][i - 1];
    if n !in callers {
      CallersGrow(rel, b, n, callers);
      assert Prune(rel, n, callers + {b}, st) == (st[n], st);
      assert PruneSteps(rel, b, callers, st, i) == st[b := st[b] - st[n]];
      assert st[b] - st[n] == st[b];
      assert st[b := st[b]] == st;
    }
  }

  /** Unfolds `SettledFrom` at a position at or after its start. */
  lemma {:induction false} SettledFromAt<T>(rel: map<int, seq<int>>, b: int, callers: set<int>, st: map<int, set<T>>, i: nat, j: nat)
    requires Closed(rel) && b in rel && StateFor(rel, st) && i <= j < |rel[b]| && SettledFrom(rel, b, callers, st, i)
    requires rel[b][j] !in callers
    ensures st[b] !! st[rel[b][j]]
    ensures Settled(rel, rel[b][j], callers + {b}, st)
    decreases j - i
  {
    CallersGrow(rel, b, rel[b][j], callers);
    if i < j {
      SettledFromAt(rel, b, callers, st, i + 1, j);
    }
  }

  /** Shrinking call sets keeps a settled state settled. */
  lemma {:induction false} SettledShrink<T>(rel: map<int, seq<int>>, b: int, callers: set<int>, st: map<int, set<T>>, st2: map<int, set<T>>)
    requires Closed(rel) && b in rel && StateFor(rel, st) && Shrunk(st2, st) && Settled(rel, b, callers, st)
    ensures Settled(rel, b, callers, st2)
    decreases Measure(rel, b, callers), 1, 0
  {
    SettledFromShrink(rel, b, callers, st, st2, 0);
  }

  lemma {:induction false} SettledFromShrink<T>(rel: map<int, seq<int>>, b: int, callers: set<int>, st: map<int, set<T>>, st2: map<int, set<T>>, i: nat)
    requires Closed(rel) && b in rel && StateFor(rel, st) && Shrunk(st2, st) && i <= |rel[b]|
    requires SettledFrom(rel, b, callers, st, i)
    ensures SettledFrom(rel, b, callers, st2, i)
    decreases Measure(rel, b, callers), 0, |rel[b]| - i
  {
    if i < |rel[b]| {
      var n := rel[b][i];
      if n !in callers {
        CallersGrow(rel, b, n, callers);
        SettledShrink(rel, n, callers + {b}, st, st2);
      }
      SettledFromShrink(rel, b, callers, st, st2, i + 1);
    }
  }

  /** The state `Prune` leaves is settled for the same walk. */
  lemma {:induction false} PruneSettles<T>(rel: map<int, seq<int>>, b: int, callers: set<int>, st: map<int, set<T>>)
    requires Closed(rel) && b in rel && StateFor(rel, st)
    ensures Settled(rel, b, callers, Prune(rel, b, callers, st).1)
    decreases Measure(rel, b, callers), 1, 0
  {
    var fin := Prune(rel, b, callers, st).1;
    forall j | 0 <= j < |rel[b]| && rel[b][j] !in callers
      ensures fin[b] !! fin[rel[b][j]]
      ensures Settled(rel, rel[b][j], callers + {b}, fin)
    {
      PruneSettlesEdge(rel, b, callers, st, j);
    }
    SettledFromAll(rel, b, callers, fin, 0);
  }

  /** The edge handled at step `j` stays settled in the final state. */
  lemma {:induction false} PruneSettlesEdge<T>(rel: map<int, seq<int>>, b: int, callers: set<int>, st: map<int, set<T>>, j: nat)
    requires Closed(rel) && b in rel && StateFor(rel, st) && j < |rel[b]| && rel[b][j] !in callers
    ensures Prune(rel, b, callers, st).1[b] !! Prune(rel, b, callers, st).1[rel[b][j]]
    ensures Settled(rel, rel[b][j], callers + {b}, Prune(rel, b, callers, st).1)
    decreases Measure(rel, b, callers), 0, 0
  {
    var n := rel[b][j];
    var fin := Prune(rel, b, callers, st).1;
    var prev := PruneSteps(rel, b, callers, st, j);
    CallersGrow(rel, b, n, callers);
    var after := Prune(rel, n, callers + {b}, prev).1;
    var next := PruneSteps(rel, b, callers, st, j + 1);
    assert next == after[b := after[b] - prev[n]];
    StepsShrink(rel, b, callers, st, j + 1, |rel[b]|);
    // n's calls after its own walk are within the set it returned
    assert after[n] <= prev[n];
    assert next[n] <= prev[n];
    assert fin[n] <= prev[n];
    PruneSettles(rel, n, callers + {b}, prev);
    assert Shrunk(next, after);
    ShrunkTrans(fin, next, after);
    SettledShrink(rel, n, callers + {b}, after, fin);
  }

  lemma {:induction false} SettledFromAll<T>(rel: map<int, seq<int>>, b: int, callers: set<int>, st: map<int, set<T>>, i: nat)
    requires Closed(rel) && b in rel && StateFor(rel, st) && i <= |rel[b]|
    requires forall j | 0 <= j < |rel[b]| && rel[b][j] !in callers ::
      st[b] !! st[rel[b][j]] && (Settled(rel, rel[b][j], callers + {b}, st))
    ensures SettledFrom(rel, b, callers, st, i)
    decreases |rel[b]| - i
  {
    if i < |rel[b]| {
      SettledFromAll(rel, b, callers, st, i + 1);
    }
  }

  /** Pruning an already pruned state is a no-op, on cyclic graphs too. */
  lemma PruneIdempotent<T>(rel: map<int, seq<int>>, b: int, callers: set<int>, st: map<int, set<T>>)
    requires Closed(rel) && b in rel && StateFor(rel, st)
    ensures Prune(rel, b, callers, Prune(rel, b, callers, st).1).1 == Prune(rel, b, callers, st).1
  {
    PruneSettles(rel, b, callers, st);
    SettledFixed(rel, b, callers, Prune(rel, b, callers, st).1);
  }
}
