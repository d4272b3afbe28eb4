/*
 * What the sparse engine computes, as functions of its learned state: the
 * clause lists, the weights and the active-literal rows. Feedback dispatch,
 * class selection and the training loops are those of the dense engine;
 * only the clause update differs (the list walks of `SparseClause`), and a
 * class's active-literal row is read by type II and written by type Ia.
 * The random draws are oracle values as in `DenseSpec`: per clause a gate
 * and per automaton id a coin.
 */
module SparseSpec {
  import opened Utility
  import opened Wrappers
  import opened Inference
  import opened ClassSelection
  import opened Bytes
  import opened TaList
  import opened DenseCodec
  import opened DenseSpec
  import opened SparseClause

  /** The learned state: one list per clause, the weights (clause, class), the active-literal rows. */
  datatype SparseSnapshot = SparseSnapshot(lists: seq<seq<Node>>, weights: seq<int>, active: seq<bv8>)

  /** One row of active-literal bytes per class. */
  function ActiveCount(h: Header): nat
  {
    h.numClasses * AlRowSize(h.numLiterals)
  }

  /** Where class k's active-literal row starts; the row lies inside the active-literal bytes. */
  function Row(h: Header, k: nat): (row: nat)
    requires k < h.numClasses
    ensures row + AlRowSize(h.numLiterals) <= ActiveCount(h)
  {
    MulMonotone(k + 1, h.numClasses, AlRowSize(h.numLiterals));
    k * AlRowSize(h.numLiterals)
  }

  /** Every list is sorted by id, below 2 * numLiterals, with `int8_t` states. */
  predicate ListsSorted(lists: seq<seq<Node>>, numLiterals: nat)
  {
    forall c :: 0 <= c < |lists| ==> SortedBelow(lists[c], 2 * numLiterals) && StatesInt8(lists[c])
  }

  /** The shape of the learned state, and the sorted-list invariant. */
  predicate WellFormed(h: Header, sn: SparseSnapshot)
  {
    |sn.lists| == h.numClauses && |sn.weights| == WeightCount(h) && |sn.active| == ActiveCount(h)
    && ListsSorted(sn.lists, h.numLiterals)
  }

  predicate ListsAtLeast(lists: seq<seq<Node>>, lo: int)
  {
    forall c :: 0 <= c < |lists| ==> StatesAtLeast(lists[c], lo)
  }

  /**
   * The invariant training keeps: well-formed lists, `int16_t` weights,
   * and, when there is room below the middle state, no state below
   * sparse_min_state.
   */
  predicate SparseConsistent(h: Header, sn: SparseSnapshot)
  {
    IsInt8(h.maxState) && IsInt8(h.minState) && WellFormed(h, sn) && AllInt16(sn.weights)
    && (RoomBelowMid(h) ==> ListsAtLeast(sn.lists, SparseMinState(h)))
  }

  /** The outputs of all clauses on input x, by the sparse rule. */
  function SparseOutputs(h: Header, lists: seq<seq<Node>>, x: seq<int>, skipEmpty: bool): (r: seq<bool>)
    requires |lists| == h.numClauses && |x| == h.numLiterals && ListsSorted(lists, |x|)
    ensures |r| == h.numClauses
  {
    seq(h.numClauses, c requires 0 <= c < h.numClauses => ListFires(lists[c], x, MidState(h), skipEmpty))
  }

  /** The list of a clause after one kind of feedback: the walk over every id, or no change. */
  function ClauseAfter(kind: Feedback, h: Header, list: seq<Node>, x: seq<int>, act: seq<bool>,
                       coins: seq<bool>): (r: seq<Node>)
    requires |coins| == 2 * |x| && |act| == |x| && SortedBelow(list, 2 * |x|) && StatesInt8(list)
    ensures SortedBelow(r, 2 * |x|) && StatesInt8(r)
  {
    if kind == NoFeedback then list
    else
      ListAfterSorted(kind, h, list, x, act, coins, 2 * |x|);
      ListAfter(kind, h, list, x, act, coins, 2 * |x|)
  }

  /** The active-literal bytes after one kind of feedback: only type Ia sets bits. */
  function ActiveAfter(kind: Feedback, list: seq<Node>, x: seq<int>, al: seq<bv8>, row: nat): (r: seq<bv8>)
    requires RowFits(al, row, |x|)
    ensures |r| == |al|
  {
    if kind == TypeIa then ActivateMissing(al, row, list, x, 2 * |x|) else al
  }

  /** `stm_apply_feedback` on clause c for class k. */
  function SparseApply(h: Header, sn: SparseSnapshot, c: nat, k: nat, classPositive: bool, fires: bool,
                       x: seq<int>, coins: seq<bool>): (r: SparseSnapshot)
    requires WellFormed(h, sn) && c < h.numClauses && k < h.numClasses
    requires |x| == h.numLiterals && |coins| == 2 * h.numLiterals
    ensures WellFormed(h, r)
  {
    var w := WeightIndex(h, c, k);
    var kind := Dispatch(sn.weights[w], classPositive, fires);
    var row := Row(h, k);
    SparseSnapshot(
      sn.lists[c := ClauseAfter(kind, h, sn.lists[c], x, ActiveRow(sn.active, row, x, |x|), coins)],
      sn.weights[w := WeightAfter(kind, sn.weights[w])],
      ActiveAfter(kind, sn.lists[c], x, sn.active, row))
  }

  /** Feedback for class k to the first n clauses, each in turn if its gate is open. */
  function SparseClassPass(h: Header, sn: SparseSnapshot, k: nat, classPositive: bool, outputs: seq<bool>,
                           x: seq<int>, d: ClassDraws, n: nat): (r: SparseSnapshot)
    requires WellFormed(h, sn) && k < h.numClasses && |outputs| == h.numClauses && |x| == h.numLiterals
    requires DrawsFit(h, d) && n <= h.numClauses
    ensures WellFormed(h, r)
  {
    if n == 0 then sn
    else
      var prev := SparseClassPass(h, sn, k, classPositive, outputs, x, d, n - 1);
      if d.gates[n - 1] then SparseApply(h, prev, n - 1, k, classPositive, outputs[n - 1], x, d.coins[n - 1])
      else prev
  }

  /** `stm_feedback_class_idx`: the label's class as positive class, then a drawn negative class. */
  function SparseFeedbackClassIdx(h: Header, sn: SparseSnapshot, votes: seq<int>, outputs: seq<bool>, x: seq<int>,
                                  target: nat, d: RowDraws): (r: SparseSnapshot)
    requires WellFormed(h, sn) && |votes| == h.numClasses && target < h.numClasses
    requires |outputs| == h.numClauses && |x| == h.numLiterals && RowDrawsFit(h, d)
    ensures WellFormed(h, r)
  {
    var afterPositive := SparseClassPass(h, sn, target, true, outputs, x, d.positive, h.numClauses);
    var negative := Pick(votes, OtherClasses(h.numClasses, target), ToInt32(h.threshold), d.negativePick);
    if negative.None? then afterPositive
    else SparseClassPass(h, afterPositive, negative.value, false, outputs, x, d.negative, h.numClauses)
  }

  /** `stm_feedback_bin_vector`: a drawn marked class as positive class, then a drawn unmarked one. */
  function SparseFeedbackBinVector(h: Header, sn: SparseSnapshot, votes: seq<int>, outputs: seq<bool>, x: seq<int>,
                                   labels: seq<bool>, d: RowDraws): (r: SparseSnapshot)
    requires WellFormed(h, sn) && |votes| == h.numClasses && |labels| == h.numClasses
    requires |outputs| == h.numClauses && |x| == h.numLiterals && RowDrawsFit(h, d)
    ensures WellFormed(h, r)
  {
    var t := ToInt32(h.threshold);
    var positive := Pick(votes, labels, t, d.positivePick);
    var afterPositive :=
      if positive.None? then sn
      else SparseClassPass(h, sn, positive.value, true, outputs, x, d.positive, h.numClauses);
    var negative := Pick(votes, Unmarked(labels), t, d.negativePick);
    if negative.None? then afterPositive
    else SparseClassPass(h, afterPositive, negative.value, false, outputs, x, d.negative, h.numClauses)
  }

  /** One training row: outputs with empty clauses kept, clipped votes, class-index feedback. */
  function SparseTrainRow(h: Header, sn: SparseSnapshot, x: seq<int>, target: nat, d: RowDraws): (r: SparseSnapshot)
    requires WellFormed(h, sn) && |x| == h.numLiterals && target < h.numClasses && RowDrawsFit(h, d)
    ensures WellFormed(h, r)
  {
    var outputs := SparseOutputs(h, sn.lists, x, false);
    var votes := ClassVotes(outputs, sn.weights, h.numClasses, ToInt32(h.threshold));
    SparseFeedbackClassIdx(h, sn, votes, outputs, x, target, d)
  }

  function SparseTrainRows(h: Header, sn: SparseSnapshot, xs: seq<seq<int>>, ys: seq<nat>, ds: seq<RowDraws>, n: nat): (r: SparseSnapshot)
    requires WellFormed(h, sn) && RowsFit(h, xs, ys, ds) && n <= |xs|
    ensures WellFormed(h, r)
  {
    if n == 0 then sn
    else SparseTrainRow(h, SparseTrainRows(h, sn, xs, ys, ds, n - 1), xs[n - 1], ys[n - 1], ds[n - 1])
  }

  function SparseTrainEpochs(h: Header, sn: SparseSnapshot, xs: seq<seq<int>>, ys: seq<nat>,
                             draws: seq<seq<RowDraws>>, n: nat): (r: SparseSnapshot)
    requires WellFormed(h, sn) && n <= |draws|
    requires forall e :: 0 <= e < |draws| ==> RowsFit(h, xs, ys, draws[e])
    ensures WellFormed(h, r)
  {
    if n == 0 then sn
    else SparseTrainRows(h, SparseTrainEpochs(h, sn, xs, ys, draws, n - 1), xs, ys, draws[n - 1], |xs|)
  }

  /** A freshly created machine, all of whose lists are empty, meets the training invariant. */
  lemma EmptyListsConsistent(h: Header, sn: SparseSnapshot)
    requires IsInt8(h.maxState) && IsInt8(h.minState) && AllInt16(sn.weights)
    requires |sn.lists| == h.numClauses && |sn.weights| == WeightCount(h) && |sn.active| == ActiveCount(h)
    requires forall c :: 0 <= c < |sn.lists| ==> sn.lists[c] == []
    ensures SparseConsistent(h, sn)
  {
  }

  /** One feedback step keeps the training invariant. */
  lemma SparseApplyConsistent(h: Header, sn: SparseSnapshot, c: nat, k: nat, classPositive: bool, fires: bool,
                              x: seq<int>, coins: seq<bool>)
    requires SparseConsistent(h, sn) && c < h.numClauses && k < h.numClasses
    requires |x| == h.numLiterals && |coins| == 2 * h.numLiterals
    ensures SparseConsistent(h, SparseApply(h, sn, c, k, classPositive, fires, x, coins))
  {
    var w := WeightIndex(h, c, k);
    var kind := Dispatch(sn.weights[w], classPositive, fires);
    var r := SparseApply(h, sn, c, k, classPositive, fires, x, coins);
    if RoomBelowMid(h) && kind != NoFeedback {
      var act := ActiveRow(sn.active, Row(h, k), x, |x|);
      ListAfterFloor(kind, h, sn.lists[c], x, act, coins, 2 * |x|);
      assert r.lists[c] == ListAfter(kind, h, sn.lists[c], x, act, coins, 2 * |x|);
    }
  }

  lemma {:induction false} SparseClassPassConsistent(h: Header, sn: SparseSnapshot, k: nat, classPositive: bool,
                                                     outputs: seq<bool>, x: seq<int>, d: ClassDraws, n: nat)
    requires SparseConsistent(h, sn) && k < h.numClasses && |outputs| == h.numClauses && |x| == h.numLiterals
    requires DrawsFit(h, d) && n <= h.numClauses
    ensures SparseConsistent(h, SparseClassPass(h, sn, k, classPositive, outputs, x, d, n))
  {
    if n > 0 {
      SparseClassPassConsistent(h, sn, k, classPositive, outputs, x, d, n - 1);
      var prev := SparseClassPass(h, sn, k, classPositive, outputs, x, d, n - 1);
      if d.gates[n - 1] {
        SparseApplyConsistent(h, prev, n - 1, k, classPositive, outputs[n - 1], x, d.coins[n - 1]);
      }
    }
  }

  lemma SparseTrainRowConsistent(h: Header, sn: SparseSnapshot, x: seq<int>, target: nat, d: RowDraws)
    requires SparseConsistent(h, sn) && |x| == h.numLiterals && target < h.numClasses && RowDrawsFit(h, d)
    ensures SparseConsistent(h, SparseTrainRow(h, sn, x, target, d))
  {
    var outputs := SparseOutputs(h, sn.lists, x, false);
    var votes := ClassVotes(outputs, sn.weights, h.numClasses, ToInt32(h.threshold));
    var afterPositive := SparseClassPass(h, sn, target, true, outputs, x, d.positive, h.numClauses);
    SparseClassPassConsistent(h, sn, target, true, outputs, x, d.positive, h.numClauses);
    var negative := Pick(votes, OtherClasses(h.numClasses, target), ToInt32(h.threshold), d.negativePick);
    if negative.Some? {
      SparseClassPassConsistent(h, afterPositive, negative.value, false, outputs, x, d.negative, h.numClauses);
    }
  }

  lemma {:induction false} SparseTrainRowsConsistent(h: Header, sn: SparseSnapshot, xs: seq<seq<int>>, ys: seq<nat>,
                                                     ds: seq<RowDraws>, n: nat)
    requires SparseConsistent(h, sn) && RowsFit(h, xs, ys, ds) && n <= |xs|
    ensures SparseConsistent(h, SparseTrainRows(h, sn, xs, ys, ds, n))
  {
    if n > 0 {
      SparseTrainRowsConsistent(h, sn, xs, ys, ds, n - 1);
      SparseTrainRowConsistent(h, SparseTrainRows(h, sn, xs, ys, ds, n - 1), xs[n - 1], ys[n - 1], ds[n - 1]);
    }
  }

  /**
   * Training keeps every clause list sorted by id with `int8_t` states, the
   * weights within `int16_t`, and (with room below the middle state) every
   * state at or above sparse_min_state, whatever the data and the draws.
   */
  lemma {:induction false} SparseTrainKeepsInvariant(h: Header, sn: SparseSnapshot, xs: seq<seq<int>>, ys: seq<nat>,
                                                     draws: seq<seq<RowDraws>>, n: nat)
    requires SparseConsistent(h, sn) && n <= |draws|
    requires forall e :: 0 <= e < |draws| ==> RowsFit(h, xs, ys, draws[e])
    ensures SparseConsistent(h, SparseTrainEpochs(h, sn, xs, ys, draws, n))
  {
    if n > 0 {
      SparseTrainKeepsInvariant(h, sn, xs, ys, draws, n - 1);
      SparseTrainRowsConsistent(h, SparseTrainEpochs(h, sn, xs, ys, draws, n - 1), xs, ys, draws[n - 1], |xs|);
    }
  }

  /*
   * Loading a dense model (`stm_load_dense`).
   */

  /** The lists `stm_load_dense` builds: each clause of the dense model pruned to its including automata. */
  function LoadedLists(h: Header, states: seq<int>): (r: seq<seq<Node>>)
    requires |states| == StateCount(h)
    ensures |r| == h.numClauses
  {
    seq(h.numClauses, c requires 0 <= c < h.numClauses => Prune(Clause(h, states, c), MidState(h), 2 * h.numLiterals))
  }

  /** Active-literal bytes all zero, as `stm_initialize` leaves them. */
  function NoActiveLiterals(h: Header): (r: seq<bv8>)
    ensures |r| == ActiveCount(h) && forall b :: 0 <= b < |r| ==> r[b] == 0
  {
    seq(ActiveCount(h), _ => 0)
  }

  /** The learned state right after `stm_load_dense` reads a dense model. */
  function Loaded(img: Image): (r: SparseSnapshot)
    requires ValidImage(img)
  {
    SparseSnapshot(LoadedLists(img.header, img.states), img.weights, NoActiveLiterals(img.header))
  }

  /**
   * Clause c's loaded list holds exactly the automata of the dense clause
   * that include their literal, with their states.
   */
  lemma LoadedListExact(h: Header, states: seq<int>, c: nat, i: nat)
    requires |states| == StateCount(h) && c < h.numClauses
    ensures Lookup(LoadedLists(h, states)[c], i) ==
      if i < 2 * h.numLiterals && Includes(Clause(h, states, c)[i], MidState(h)) then Some(Clause(h, states, c)[i]) else None
  {
    PruneLookup(Clause(h, states, c), MidState(h), 2 * h.numLiterals, i);
  }

  /**
   * A loaded dense model is a consistent sparse model: sorted lists, and
   * every kept state is at least the middle state, hence above
   * sparse_min_state.
   */
  lemma LoadedConsistent(img: Image)
    requires ValidImage(img)
    ensures SparseConsistent(img.header, Loaded(img))
  {
    var h := img.header;
    var lists := LoadedLists(h, img.states);
    forall c | 0 <= c < h.numClauses
      ensures SortedBelow(lists[c], 2 * h.numLiterals) && StatesInt8(lists[c])
      ensures RoomBelowMid(h) ==> StatesAtLeast(lists[c], SparseMinState(h))
    {
      var cl := Clause(h, img.states, c);
      ClauseInt8(h, img.states, c);
      PrunedClause(cl, MidState(h));
      if RoomBelowMid(h) {
        SparseThresholds(h);
      }
    }
  }

  /** A clause of `int8_t` states has `int8_t` states. */
  lemma ClauseInt8(h: Header, states: seq<int>, c: nat)
    requires c < h.numClauses && |states| == StateCount(h) && AllInt8(states)
    ensures AllInt8(Clause(h, states, c))
  {
    ClauseBounds(h, c);
    var cl := Clause(h, states, c);
    forall i | 0 <= i < |cl|
      ensures IsInt8(cl[i])
    {
      assert cl[i] == states[c * h.numLiterals * 2 + i];
    }
  }

  /** A pruned clause is sorted, keeps `int8_t` states, and keeps none below the middle state. */
  lemma PrunedClause(cl: seq<int>, mid: int)
    requires AllInt8(cl)
    ensures SortedBelow(Prune(cl, mid, |cl|), |cl|) && StatesInt8(Prune(cl, mid, |cl|))
    ensures StatesAtLeast(Prune(cl, mid, |cl|), mid)
  {
    PruneExact(cl, mid, |cl|);
  }

  /**
   * The loaded sparse model computes every clause output as the dense model
   * does, for inference and for training: pruning keeps inference exact.
   */
  lemma LoadedOutputsAgree(img: Image, x: seq<int>, skipEmpty: bool)
    requires ValidImage(img) && |x| == img.header.numLiterals
    ensures ListsSorted(Loaded(img).lists, |x|)
    ensures SparseOutputs(img.header, Loaded(img).lists, x, skipEmpty) == Outputs(img.header, img.states, x, skipEmpty)
  {
    var h := img.header;
    LoadedConsistent(img);
    forall c | 0 <= c < h.numClauses
      ensures SparseOutputs(h, Loaded(img).lists, x, skipEmpty)[c] == Outputs(h, img.states, x, skipEmpty)[c]
    {
      PruneFires(Clause(h, img.states, c), x, MidState(h), skipEmpty);
    }
  }
}
