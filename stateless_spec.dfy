/*
 * What the stateless engine computes. It keeps no automaton states: each
 * clause is the increasing list of the ids of the automata that include
 * their literal, fixed when a dense model is loaded, and the engine only
 * infers. A clause with an empty list always outputs 0.
 */
module StatelessSpec {
  import opened Inference
  import opened TaList
  import opened DenseCodec
  import opened DenseSpec
  import opened SparseClause
  import opened SparseSpec

  /** Ids strictly increasing, all below `bound`. */
  predicate IdsSorted(ids: seq<nat>, bound: nat)
  {
    (forall a, b :: 0 <= a < b < |ids| ==> ids[a] < ids[b]) && (forall a :: 0 <= a < |ids| ==> ids[a] < bound)
  }

  /** Every clause's ids are sorted and name automata of `numLiterals` literals. */
  predicate AllIdsSorted(lists: seq<seq<nat>>, numLiterals: nat)
  {
    forall c :: 0 <= c < |lists| ==> IdsSorted(lists[c], 2 * numLiterals)
  }

  /**
   * The ids `sltm_load_dense` keeps from the first n automata of a dense
   * clause: those whose state is at least the middle state, in increasing order.
   */
  function PruneIds(cl: seq<int>, mid: int, n: nat): seq<nat>
    requires n <= |cl|
  {
    if n == 0 then [] else PruneIds(cl, mid, n - 1) + (if Includes(cl[n - 1], mid) then [n - 1] else [])
  }

  /** The kept ids are sorted, and an id is kept iff its automaton includes its literal. */
  lemma {:induction false} PruneIdsExact(cl: seq<int>, mid: int, n: nat)
    requires n <= |cl|
    ensures IdsSorted(PruneIds(cl, mid, n), n)
    ensures forall i: nat :: i in PruneIds(cl, mid, n) <==> i < n && Includes(cl[i], mid)
  {
    if n > 0 {
      PruneIdsExact(cl, mid, n - 1);
      var prev := PruneIds(cl, mid, n - 1);
      var last: seq<nat> := if Includes(cl[n - 1], mid) then [n - 1] else [];
      assert PruneIds(cl, mid, n) == prev + last;
      forall i: nat
        ensures i in prev + last <==> i < n && Includes(cl[i], mid)
      {
        assert i in prev + last <==> i in prev || i in last;
      }
    }
  }

  /** The stateless engine keeps the ids of the nodes the sparse engine keeps, in the same order. */
  lemma {:induction false} PruneIdsOfPrune(cl: seq<int>, mid: int, n: nat)
    requires n <= |cl|
    ensures |PruneIds(cl, mid, n)| == |Prune(cl, mid, n)|
    ensures forall a :: 0 <= a < |PruneIds(cl, mid, n)| ==> PruneIds(cl, mid, n)[a] == Prune(cl, mid, n)[a].id
  {
    if n > 0 {
      PruneIdsOfPrune(cl, mid, n - 1);
    }
  }

  /** Every id names an automaton of an input of this length. */
  predicate IdsFitInput(ids: seq<nat>, x: seq<int>)
  {
    forall a :: 0 <= a < |ids| ==> ids[a] < 2 * |x|
  }

  /**
   * The stateless clause output: 0 for an empty list, otherwise 1 iff no
   * id's literal is falsified by the input (`id % 2 == x[id / 2]`).
   */
  predicate IdsFire(ids: seq<nat>, x: seq<int>)
    requires IdsFitInput(ids, x)
  {
    |ids| > 0 && forall a :: 0 <= a < |ids| ==> x[ids[a] / 2] != ids[a] % 2
  }

  /**
   * On the ids kept from a dense clause the stateless rule is the dense
   * inference rule with empty clauses skipped.
   */
  lemma PruneIdsFire(cl: seq<int>, x: seq<int>, mid: int)
    requires |cl| == 2 * |x|
    ensures IdsFitInput(PruneIds(cl, mid, |cl|), x)
    ensures IdsFire(PruneIds(cl, mid, |cl|), x) == Fires(cl, x, mid, true)
  {
    var ids := PruneIds(cl, mid, |cl|);
    PruneIdsExact(cl, mid, |cl|);
    if IdsFire(ids, x) {
      forall i | 0 <= i < |cl|
        ensures !Blocks(cl[i], i, x, mid)
      {
        if Includes(cl[i], mid) {
          assert i in ids;
          var a :| 0 <= a < |ids| && ids[a] == i;
          assert x[ids[a] / 2] != ids[a] % 2;
        }
      }
      assert ids[0] in ids;
      assert !EmptyClause(cl, mid);
    }
    if Fires(cl, x, mid, true) {
      assert !EmptyClause(cl, mid);
      var i :| 0 <= i < |cl| && Includes(cl[i], mid);
      assert i in ids;
      forall a | 0 <= a < |ids|
        ensures x[ids[a] / 2] != ids[a] % 2
      {
        assert ids[a] in ids;
        assert !Blocks(cl[ids[a]], ids[a], x, mid);
      }
    }
  }

  /** The outputs of all clauses on input x. */
  function IdsOutputs(h: Header, lists: seq<seq<nat>>, x: seq<int>): (r: seq<bool>)
    requires |lists| == h.numClauses && |x| == h.numLiterals && AllIdsSorted(lists, |x|)
    ensures |r| == h.numClauses
  {
    seq(h.numClauses, c requires 0 <= c < h.numClauses => IdsFire(lists[c], x))
  }

  /** The lists `sltm_load_dense` builds from the dense states. */
  function LoadedIds(h: Header, states: seq<int>): (r: seq<seq<nat>>)
    requires |states| == StateCount(h)
    ensures |r| == h.numClauses
  {
    seq(h.numClauses, c requires 0 <= c < h.numClauses => PruneIds(Clause(h, states, c), MidState(h), 2 * h.numLiterals))
  }

  /**
   * Loaded list c holds, in increasing order, exactly the ids i < 2 *
   * numLiterals whose dense state is at least the middle state.
   */
  lemma LoadedIdsExact(h: Header, states: seq<int>, c: nat, i: nat)
    requires |states| == StateCount(h) && c < h.numClauses
    ensures IdsSorted(LoadedIds(h, states)[c], 2 * h.numLiterals)
    ensures i in LoadedIds(h, states)[c] <==> i < 2 * h.numLiterals && Includes(Clause(h, states, c)[i], MidState(h))
  {
    PruneIdsExact(Clause(h, states, c), MidState(h), 2 * h.numLiterals);
  }

  lemma LoadedIdsSorted(h: Header, states: seq<int>)
    requires |states| == StateCount(h)
    ensures AllIdsSorted(LoadedIds(h, states), h.numLiterals)
  {
    forall c | 0 <= c < h.numClauses
      ensures IdsSorted(LoadedIds(h, states)[c], 2 * h.numLiterals)
    {
      LoadedIdsExact(h, states, c, 0);
    }
  }

  /** The stateless lists are the ids of the lists the sparse engine loads from the same states. */
  lemma LoadedIdsOfSparse(h: Header, states: seq<int>, c: nat)
    requires |states| == StateCount(h) && c < h.numClauses
    ensures |LoadedIds(h, states)[c]| == |LoadedLists(h, states)[c]|
    ensures forall a :: 0 <= a < |LoadedIds(h, states)[c]| ==> LoadedIds(h, states)[c][a] == LoadedLists(h, states)[c][a].id
  {
    PruneIdsOfPrune(Clause(h, states, c), MidState(h), 2 * h.numLiterals);
  }

  /**
   * A machine loaded from a dense model computes, on every input, the
   * clause outputs the dense engine infers from it.
   */
  lemma LoadedIdsOutputs(h: Header, states: seq<int>, x: seq<int>)
    requires |states| == StateCount(h) && |x| == h.numLiterals
    ensures AllIdsSorted(LoadedIds(h, states), |x|)
    ensures IdsOutputs(h, LoadedIds(h, states), x) == Outputs(h, states, x, true)
  {
    LoadedIdsSorted(h, states);
    forall c | 0 <= c < h.numClauses
      ensures IdsOutputs(h, LoadedIds(h, states), x)[c] == Outputs(h, states, x, true)[c]
    {
      PruneIdsFire(Clause(h, states, c), x, MidState(h));
    }
  }
}
