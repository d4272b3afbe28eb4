/*
 * The stateless engine: per clause a singly-linked list of the ids of the
 * automata that include their literal (sorted), the weights (clause,
 * class), and scratch arrays for the clause outputs and class votes. It is
 * built from a dense model file and only infers; each clause's list is a
 * sequence the machine reassigns.
 */
module StatelessMachine {
  import opened Utility
  import opened Wrappers
  import opened Bytes
  import opened Inference
  import opened TaList
  import opened DenseCodec
  import opened DenseSpec
  import opened StatelessSpec
  import opened StatelessCodec
  import DenseMachine
  import SparseCodec

  class StatelessTsetlinMachine {
    const numClasses: nat
    const threshold: nat
    const numLiterals: nat
    const numClauses: nat
    const maxState: int
    const minState: int
    const boost: nat
    const midState: int
    /** The id list of each clause, from its head. */
    const lists: array<seq<nat>>
    const weights: array<int>
    const clauseOutput: array<bool>
    const votes: array<int>

    /** The machine's parameters, as the model file header stores them. */
    function Params(): Header
    {
      Header(threshold, numLiterals, numClauses, numClasses, maxState, minState, boost)
    }

    /** Sizes of the arrays, the state range and the middle state. */
    ghost predicate Shape()
    {
      IsInt8(maxState) && IsInt8(minState) && IsUint8(boost) && midState == MidState(Params())
      && lists.Length == numClauses && weights.Length == WeightCount(Params())
      && clauseOutput.Length == numClauses && votes.Length == numClasses && Separate()
    }

    /** The arrays are distinct objects, so writing one leaves the others alone. */
    ghost predicate Separate()
    {
      weights != votes && lists as object != weights && lists as object != clauseOutput
      && lists as object != votes && weights as object != clauseOutput && clauseOutput as object != votes
    }

    /** The shape, a header the model file can hold, and sorted id lists. */
    ghost predicate Valid()
      reads lists
    {
      Shape() && ValidHeader(Params()) && AllIdsSorted(lists[..], numLiterals)
    }

    /**
     * `sltm_create`: allocate the arrays with every list empty (NULL) and
     * initialise (`sltm_initialize`), which sets the middle state. The
     * weights are allocated and not written: nothing is known of them.
     */
    constructor (numClasses: nat, threshold: nat, numLiterals: nat, numClauses: nat,
                 maxState: int, minState: int, boost: nat)
      requires ValidHeader(Header(threshold, numLiterals, numClauses, numClasses, maxState, minState, boost))
      ensures Valid() && Params() == Header(threshold, numLiterals, numClauses, numClasses, maxState, minState, boost)
      ensures fresh(lists) && fresh(weights) && fresh(clauseOutput) && fresh(votes)
      ensures forall c :: 0 <= c < lists.Length ==> lists[c] == []
    {
      this.numClasses := numClasses;
      this.threshold := threshold;
      this.numLiterals := numLiterals;
      this.numClauses := numClauses;
      this.maxState := maxState;
      this.minState := minState;
      this.boost := boost;
      midState := HalfTowardZero(maxState + minState);
      lists := new seq<nat>[numClauses](_ => []);
      weights := new int[numClauses * numClasses];
      clauseOutput := new bool[numClauses];
      votes := new int[numClasses];
    }

    /** `sltm_free_state_llists`: remove the head of every list until it is empty. */
    method FreeLists()
      modifies lists
      ensures forall c :: 0 <= c < lists.Length ==> lists[c] == []
    {
      var c := 0;
      while c < lists.Length
        invariant 0 <= c <= lists.Length
        invariant forall j :: 0 <= j < c ==> lists[j] == []
      {
        while lists[c] != []
          invariant forall j :: 0 <= j < c ==> lists[j] == []
          decreases |lists[c]|
        {
          lists[c] := RemoveAfter(lists[c], None);
        }
        c := c + 1;
      }
    }

    /**
     * The list `sltm_load_dense` builds from one dense clause: the id of each
     * automaton that includes its literal is inserted after the last one inserted.
     */
    method PruneClause(cl: seq<int>) returns (ids: seq<nat>)
      ensures ids == PruneIds(cl, midState, |cl|)
    {
      ids := [];
      var prev: Option<nat> := None;
      var i := 0;
      while i < |cl|
        invariant 0 <= i <= |cl| && ids == PruneIds(cl, midState, i) && prev == PrevOf(|ids|)
      {
        if Includes(cl[i], midState) {
          WalkInsert(ids, [], i);
          assert ids + [] == ids;
          ids := InsertAfter(ids, prev, i);
          prev := Some(Slot(prev));
        }
        i := i + 1;
      }
    }

    /** The clause loop of `sltm_load_dense`: every list pruned from the dense states read. */
    method LoadLists(states: seq<int>)
      requires |states| == StateCount(Params()) && lists.Length == numClauses && midState == MidState(Params())
      modifies lists
      ensures lists[..] == LoadedIds(Params(), states)
    {
      var c := 0;
      while c < numClauses
        invariant 0 <= c <= numClauses
        invariant forall j :: 0 <= j < c ==> lists[j] == LoadedIds(Params(), states)[j]
      {
        var ids := PruneClause(Clause(Params(), states, c));
        lists[c] := ids;
        c := c + 1;
      }
    }

    /**
     * `sltm_load_dense`: read a dense model file's header, create a machine,
     * read the weights, then the dense states, keeping in each clause's list
     * the ids of the automata that include their literal. A short read fails
     * with the part being read.
     */
    static method LoadDense(bytes: seq<Byte>) returns (r: Result<StatelessTsetlinMachine, LoadError>)
      ensures r.Err? <==> Decode(bytes).Err?
      ensures r.Err? ==> r.error == Decode(bytes).error
      ensures r.Ok? ==> fresh(r.value) && r.value.Valid() && r.value.Params() == Decode(bytes).value.header
      ensures r.Ok? ==> r.value.weights[..] == Decode(bytes).value.weights
      ensures r.Ok? ==> r.value.lists[..] == LoadedIds(Decode(bytes).value.header, Decode(bytes).value.states)
    {
      if |bytes| < HEADER_SIZE {
        return Err(ShortMetadata);
      }
      var h := DecodeHeader(bytes);
      var sltm := new StatelessTsetlinMachine(h.numClasses, h.threshold, h.numLiterals, h.numClauses,
                                              h.maxState, h.minState, h.boost);
      var body := bytes[HEADER_SIZE..];
      if |body| < 2 * WeightCount(h) {
        return Err(ShortWeights);
      }
      var ws := DecodeInt16s(body, WeightCount(h));
      DenseMachine.CopyInto(sltm.weights, ws);
      if |body| - 2 * WeightCount(h) < StateCount(h) {
        return Err(ShortStates);
      }
      var states := DecodeInt8s(body[2 * WeightCount(h)..], StateCount(h));
      sltm.FreeLists();
      sltm.LoadLists(states);
      LoadedIdsSorted(h, states);
      return Ok(sltm);
    }

    /** The ids of one list as `sltm_save` writes them. */
    method SaveIds(ids: seq<nat>) returns (bytes: seq<Byte>)
      requires IdsWritable(ids)
      ensures bytes == EncodeIds(ids)
    {
      bytes := [];
      var a := 0;
      while a < |ids|
        invariant 0 <= a <= |ids| && IdsWritable(ids[..a])
        invariant bytes == EncodeIds(ids[..a])
      {
        assert ids[..a + 1] == ids[..a] + [ids[a]];
        EncodeIdsSnoc(ids[..a], ids[a]);
        bytes := bytes + U32(ids[a]);
        a := a + 1;
      }
      assert ids[..|ids|] == ids;
    }

    /**
     * `sltm_save`: the header fields, the `s` bytes (opaque here), the
     * weights, then each clause's ids closed by the delimiter.
     */
    method Save(s: seq<Byte>) returns (bytes: seq<Byte>)
      requires Valid() && |s| == S_SIZE && AllInt16(weights[..]) && IsUint32(2 * numLiterals)
      ensures AllIdsWritable(lists[..]) && bytes == EncodeIdModel(Params(), s, weights[..], lists[..])
    {
      bytes := EncodeHeader(Params(), s);
      var i := 0;
      while i < weights.Length
        invariant 0 <= i <= weights.Length
        invariant bytes == EncodeHeader(Params(), s) + EncodeInt16s(weights[..i])
      {
        assert weights[..i + 1] == weights[..i] + [weights[i]];
        EncodeInt16sSnoc(weights[..i], weights[i]);
        bytes := bytes + I16(weights[i]);
        i := i + 1;
      }
      assert weights[..weights.Length] == weights[..];
      var listBytes := SaveIdLists();
      bytes := bytes + listBytes;
    }

    /** The list part of `sltm_save`: each clause's ids, then the delimiter. */
    method SaveIdLists() returns (bytes: seq<Byte>)
      requires AllIdsSorted(lists[..], numLiterals) && IsUint32(2 * numLiterals)
      ensures AllIdsWritable(lists[..]) && bytes == EncodeIdLists(lists[..])
    {
      bytes := [];
      var c := 0;
      while c < lists.Length
        invariant 0 <= c <= lists.Length && AllIdsWritable(lists[..c])
        invariant bytes == EncodeIdLists(lists[..c])
      {
        assert IdsWritable(lists[c]) by {
          assert IdsSorted(lists[..][c], 2 * numLiterals);
        }
        assert lists[..c + 1] == lists[..c] + [lists[c]];
        EncodeIdListsSnoc(lists[..c], lists[c]);
        var idBytes := SaveIds(lists[c]);
        bytes := bytes + idBytes + U32(SparseCodec.DELIMITER);
        c := c + 1;
      }
      assert lists[..lists.Length] == lists[..];
    }

    /**
     * `calculate_clause_output`: each clause starts at 1, is set to 0 by the
     * first id whose literal the input falsifies, and is set to 0 when its
     * list is empty.
     */
    method CalculateClauseOutput(x: seq<int>)
      requires Valid() && |x| == numLiterals
      modifies clauseOutput
      ensures clauseOutput[..] == IdsOutputs(Params(), lists[..], x)
    {
      var c := 0;
      while c < numClauses
        invariant 0 <= c <= numClauses
        invariant forall j :: 0 <= j < c ==> IdsFitInput(lists[j], x) && clauseOutput[j] == IdsFire(lists[j], x)
      {
        assert IdsSorted(lists[..][c], 2 * numLiterals);
        var fires := ClauseFires(lists[c], x);
        clauseOutput[c] := fires;
        c := c + 1;
      }
    }

    /** The list walk of one clause in `calculate_clause_output`. */
    method ClauseFires(ids: seq<nat>, x: seq<int>) returns (fires: bool)
      requires IdsFitInput(ids, x)
      ensures fires == IdsFire(ids, x)
    {
      fires := true;
      var empty := true;
      var a := 0;
      while a < |ids|
        invariant 0 <= a <= |ids| && (empty <==> a == 0)
        invariant forall b :: 0 <= b < a ==> x[ids[b] / 2] != ids[b] % 2
      {
        empty := false;
        if ids[a] % 2 == x[ids[a] / 2] {
          return false;
        }
        a := a + 1;
      }
      if empty {
        fires := false;
      }
    }

    /** The votes of input x. */
    ghost function PredictVotes(x: seq<int>): (v: seq<int>)
      requires Valid() && |x| == numLiterals
      reads lists, weights
    {
      ClassVotes(IdsOutputs(Params(), lists[..], x), weights[..], numClasses, ToInt32(threshold))
    }

    /**
     * `sltm_predict` with the class-index output: per row, clause outputs,
     * votes, and the lowest class of maximal vote.
     */
    method Predict(xs: seq<seq<int>>) returns (predictions: seq<nat>)
      requires Valid() && numClasses > 0
      requires forall r :: 0 <= r < |xs| ==> |xs[r]| == numLiterals
      modifies clauseOutput, votes
      ensures |predictions| == |xs|
      ensures forall r :: 0 <= r < |xs| ==> predictions[r] == ArgMax(PredictVotes(xs[r]))
    {
      predictions := [];
      var r := 0;
      while r < |xs|
        invariant 0 <= r <= |xs| && |predictions| == r
        invariant forall j :: 0 <= j < r ==> predictions[j] == ArgMax(PredictVotes(xs[j]))
      {
        CalculateClauseOutput(xs[r]);
        SumVotes(clauseOutput, weights, votes, threshold);
        var best := ClassIdx(votes);
        predictions := predictions + [best];
        r := r + 1;
      }
    }

    /**
     * `sltm_predict` with the binary-vector output: per row, class k is
     * predicted iff its vote exceeds the middle state.
     */
    method PredictBinVector(xs: seq<seq<int>>) returns (predictions: seq<seq<bool>>)
      requires Valid()
      requires forall r :: 0 <= r < |xs| ==> |xs[r]| == numLiterals
      modifies clauseOutput, votes
      ensures |predictions| == |xs|
      ensures forall r :: 0 <= r < |xs| ==> |predictions[r]| == numClasses
      ensures forall r, k :: 0 <= r < |xs| && 0 <= k < numClasses ==> (predictions[r][k] <==> PredictVotes(xs[r])[k] > midState)
    {
      predictions := [];
      var r := 0;
      while r < |xs|
        invariant 0 <= r <= |xs| && |predictions| == r
        invariant forall j :: 0 <= j < r ==> |predictions[j]| == numClasses
        invariant forall j, k :: 0 <= j < r && 0 <= k < numClasses ==> (predictions[j][k] <==> PredictVotes(xs[j])[k] > midState)
      {
        CalculateClauseOutput(xs[r]);
        SumVotes(clauseOutput, weights, votes, threshold);
        var y := BinVector(votes, midState);
        predictions := predictions + [y];
        r := r + 1;
      }
    }
  }
}
