/*
 * The sparse engine: per clause a singly-linked list of the automata that
 * are kept (id and state, sorted by id), per class a row of active-literal
 * bits, the weights (clause, class), and scratch arrays for the clause
 * outputs and class votes. Each clause's list is a sequence the machine
 * reassigns; the feedback walks go over every automaton id with a cursor
 * into the list and a pointer to the node before it, as the engine does.
 */
module SparseMachine {
  import opened Utility
  import opened Wrappers
  import opened Bytes
  import opened FastPrng
  import opened Inference
  import opened ClassSelection
  import opened TaList
  import opened DenseCodec
  import opened DenseSpec
  import opened SparseClause
  import opened SparseCodec
  import opened SparseSpec
  import opened SparseWalk
  import DenseMachine

  class SparseTsetlinMachine {
    const numClasses: nat
    const threshold: nat
    const numLiterals: nat
    const numClauses: nat
    const maxState: int
    const minState: int
    const boost: nat
    const midState: int
    const sparseMinState: int
    const sparseInitState: int
    const alRowSize: nat
    /** The list of each clause, from its head. */
    const lists: array<seq<Node>>
    const activeLiterals: array<bv8>
    const weights: array<int>
    const clauseOutput: array<bool>
    const votes: array<int>
    const rng: Prng

    /** The machine's parameters, as the model file header stores them. */
    function Params(): Header
    {
      Header(threshold, numLiterals, numClauses, numClasses, maxState, minState, boost)
    }

    /** The thresholds derived from the state range. */
    ghost predicate Thresholds()
    {
      midState == MidState(Params()) && sparseMinState == SparseMinState(Params())
      && sparseInitState == SparseInitState(Params())
    }

    /** Sizes of the arrays, the state range and the derived thresholds. */
    ghost predicate Shape()
    {
      IsInt8(maxState) && IsInt8(minState) && IsUint8(boost) && Thresholds() && alRowSize == AlRowSize(numLiterals)
      && lists.Length == numClauses && activeLiterals.Length == ActiveCount(Params())
      && weights.Length == WeightCount(Params()) && clauseOutput.Length == numClauses && votes.Length == numClasses
      && Separate()
    }

    /** The arrays are distinct objects, so writing one leaves the others alone. */
    ghost predicate Separate()
    {
      weights != votes && lists as object != activeLiterals && lists as object != weights
      && lists as object != clauseOutput && lists as object != votes && activeLiterals as object != weights
      && activeLiterals as object != clauseOutput && activeLiterals as object != votes
      && weights as object != clauseOutput && clauseOutput as object != votes
    }

    /** The learned state: lists, weights and active-literal bytes. */
    ghost function Snap(): SparseSnapshot
      reads lists, weights, activeLiterals
    {
      SparseSnapshot(lists[..], weights[..], activeLiterals[..])
    }

    /** The shape, a header the model file can hold, and the training invariant. */
    ghost predicate Valid()
      reads lists, weights, activeLiterals
    {
      Shape() && ValidHeader(Params()) && SparseConsistent(Params(), Snap())
    }

    /**
     * `stm_create`: allocate the arrays with every list empty (NULL), seed
     * the generator and initialise (`stm_initialize`). The derived
     * thresholds, which `stm_initialize` computes, are set here; the row size
     * is the one the active literals need (see `AlRowSizeWraps` for the
     * stored `uint8_t` value).
     */
    constructor (numClasses: nat, threshold: nat, numLiterals: nat, numClauses: nat,
                 maxState: int, minState: int, boost: nat, seed: bv32)
      requires ValidHeader(Header(threshold, numLiterals, numClauses, numClasses, maxState, minState, boost))
      ensures Valid() && Params() == Header(threshold, numLiterals, numClauses, numClasses, maxState, minState, boost)
      ensures fresh(lists) && fresh(activeLiterals) && fresh(weights) && fresh(clauseOutput) && fresh(votes) && fresh(rng)
      ensures forall c :: 0 <= c < lists.Length ==> lists[c] == []
      ensures forall b :: 0 <= b < activeLiterals.Length ==> activeLiterals[b] == 0
      ensures forall i :: 0 <= i < weights.Length ==> weights[i] == DenseMachine.InitWeight(SeedState(seed), i)
      ensures rng.state == Advance(SeedState(seed), numClauses * numClasses)
    {
      this.numClasses := numClasses;
      this.threshold := threshold;
      this.numLiterals := numLiterals;
      this.numClauses := numClauses;
      this.maxState := maxState;
      this.minState := minState;
      this.boost := boost;
      midState := HalfTowardZero(maxState + minState);
      sparseMinState := ToInt8(HalfTowardZero(maxState + minState) - 40);
      sparseInitState := ToInt8(ToInt8(HalfTowardZero(maxState + minState) - 40) + 5);
      var rowSize := AlRowSize(numLiterals);
      alRowSize := rowSize;
      lists := new seq<Node>[numClauses](_ => []);
      activeLiterals := new bv8[numClasses * rowSize];
      weights := new int[numClauses * numClasses];
      clauseOutput := new bool[numClauses];
      votes := new int[numClasses];
      rng := new Prng(seed);
      new;
      assert forall c :: 0 <= c < lists.Length ==> lists[c] == [];
      Initialize();
      EmptyListsConsistent(Params(), Snap());
    }

    /** `stm_initialize`: clear the active literals, then draw every weight as -1 or 1. */
    method Initialize()
      requires weights.Length == WeightCount(Params()) && activeLiterals as object != weights
      modifies activeLiterals, weights, rng
      ensures forall b :: 0 <= b < activeLiterals.Length ==> activeLiterals[b] == 0
      ensures AllInt16(weights[..])
      ensures forall i :: 0 <= i < weights.Length ==> weights[i] == DenseMachine.InitWeight(old(rng.state), i)
      ensures rng.state == Advance(old(rng.state), numClauses * numClasses)
    {
      var b := 0;
      while b < activeLiterals.Length
        invariant 0 <= b <= activeLiterals.Length
        modifies activeLiterals
        invariant forall b' :: 0 <= b' < b ==> activeLiterals[b'] == 0
      {
        activeLiterals[b] := 0;
        b := b + 1;
      }
      InitializeWeights();
    }

    /** The weight loop of `stm_initialize`: weight i is -1 iff draw i + 1 is at most one half. */
    method InitializeWeights()
      requires weights.Length == WeightCount(Params())
      modifies weights, rng
      ensures AllInt16(weights[..])
      ensures forall i :: 0 <= i < weights.Length ==> weights[i] == DenseMachine.InitWeight(old(rng.state), i)
      ensures rng.state == Advance(old(rng.state), numClauses * numClasses)
    {
      ghost var s1 := rng.state;
      var c := 0;
      while c < numClauses
        invariant 0 <= c <= numClauses
        invariant rng.state == Advance(s1, c * numClasses)
        invariant forall i :: 0 <= i < c * numClasses ==> weights[i] == DenseMachine.InitWeight(s1, i)
        modifies weights, rng
      {
        var base := c * numClasses;
        DenseMachine.NextClauseBase(c, numClauses, numClasses);
        InitializeClauseWeights(base, s1);
        c := c + 1;
      }
    }

    /** The inner loop of the weight loop: the weights base .. base + numClasses - 1. */
    method InitializeClauseWeights(base: nat, ghost s1: bv32)
      requires base + numClasses <= weights.Length && rng.state == Advance(s1, base)
      requires forall i :: 0 <= i < base ==> weights[i] == DenseMachine.InitWeight(s1, i)
      modifies weights, rng
      ensures rng.state == Advance(s1, base + numClasses)
      ensures forall i :: 0 <= i < base + numClasses ==> weights[i] == DenseMachine.InitWeight(s1, i)
    {
      var k := 0;
      while k < numClasses
        invariant 0 <= k <= numClasses
        invariant rng.state == Advance(s1, base + k)
        invariant forall i :: 0 <= i < base + k ==> weights[i] == DenseMachine.InitWeight(s1, i)
        modifies weights, rng
      {
        var m := rng.NextFloat();
        weights[base + k] := 1 - 2 * (if AtMostHalf(m) then 1 else 0);
        k := k + 1;
      }
    }

    /** `stm_clear_llists`: remove the head of every list until it is empty. */
    method ClearLists()
      modifies lists
      ensures forall c :: 0 <= c < lists.Length ==> lists[c] == []
    {
      var c := 0;
      while c < lists.Length
        invariant 0 <= c <= lists.Length
        invariant forall j :: 0 <= j < c ==> lists[j] == []
      {
        while lists[c] != []
          invariant forall j :: 0 <= j < c ==> lists[j] == []
          decreases |lists[c]|
        {
          lists[c] := RemoveAfter(lists[c], None);
        }
        c := c + 1;
      }
    }

    /**
     * The list `stm_load_dense` builds from one dense clause: each automaton
     * that includes its literal is inserted after the last node inserted.
     */
    method PruneClause(cl: seq<int>) returns (list: seq<Node>)
      ensures list == Prune(cl, midState, |cl|)
    {
      list := [];
      var prev: Option<nat> := None;
      var i := 0;
      while i < |cl|
        invariant 0 <= i <= |cl| && list == Prune(cl, midState, i) && prev == PrevOf(|list|)
      {
        if Includes(cl[i], midState) {
          WalkInsert(list, [], Node(i, cl[i]));
          assert list + [] == list;
          list := InsertAfter(list, prev, Node(i, cl[i]));
          prev := Some(Slot(prev));
        } else {
          assert list + [] == list;
        }
        i := i + 1;
      }
    }

    /** The clause loop of `stm_load_dense`: every list pruned from the dense states read. */
    method LoadLists(states: seq<int>)
      requires Shape() && |states| == StateCount(Params())
      modifies lists
      ensures lists[..] == LoadedLists(Params(), states)
    {
      var c := 0;
      while c < numClauses
        invariant 0 <= c <= numClauses
        invariant forall j :: 0 <= j < c ==> lists[j] == LoadedLists(Params(), states)[j]
      {
        var list := PruneClause(Clause(Params(), states, c));
        lists[c] := list;
        c := c + 1;
      }
    }

    /**
     * `stm_load_dense`: read a dense model file's header, create a machine
     * with seed 42, read the weights over its initial ones, then the dense
     * states, keeping in each clause's list the automata that include their
     * literal. A short read fails with the part being read.
     */
    static method LoadDense(bytes: seq<Byte>) returns (r: Result<SparseTsetlinMachine, LoadError>)
      ensures r.Err? <==> Decode(bytes).Err?
      ensures r.Err? ==> r.error == Decode(bytes).error
      ensures r.Ok? ==> fresh(r.value) && r.value.Valid() && r.value.Params() == Decode(bytes).value.header
      ensures r.Ok? ==> r.value.Snap() == Loaded(Decode(bytes).value)
    {
      if |bytes| < HEADER_SIZE {
        return Err(ShortMetadata);
      }
      var h := DecodeHeader(bytes);
      var stm := new SparseTsetlinMachine(h.numClasses, h.threshold, h.numLiterals, h.numClauses,
                                          h.maxState, h.minState, h.boost, DenseMachine.LOAD_SEED);
      var body := bytes[HEADER_SIZE..];
      if |body| < 2 * WeightCount(h) {
        return Err(ShortWeights);
      }
      var ws := DecodeInt16s(body, WeightCount(h));
      DenseMachine.CopyInto(stm.weights, ws);
      if |body| - 2 * WeightCount(h) < StateCount(h) {
        return Err(ShortStates);
      }
      var states := DecodeInt8s(body[2 * WeightCount(h)..], StateCount(h));
      stm.ClearLists();
      stm.LoadLists(states);
      LoadedConsistent(Decode(bytes).value);
      return Ok(stm);
    }

    /** The nodes of one list as `stm_save` writes them: id, then state. */
    method SaveList(list: seq<Node>) returns (bytes: seq<Byte>)
      requires Writable(list)
      ensures bytes == EncodeList(list)
    {
      bytes := [];
      var a := 0;
      while a < |list|
        invariant 0 <= a <= |list| && Writable(list[..a])
        invariant bytes == EncodeList(list[..a])
      {
        assert list[..a + 1] == list[..a] + [list[a]];
        EncodeListSnoc(list[..a], list[a]);
        bytes := bytes + U32(list[a].id) + I8(list[a].state);
        a := a + 1;
      }
      assert list[..|list|] == list;
    }

    /**
     * `stm_save`: the header fields, the `s` bytes (opaque here), the
     * weights, then each clause's nodes closed by the delimiter.
     */
    method Save(s: seq<Byte>) returns (bytes: seq<Byte>)
      requires Valid() && |s| == S_SIZE && IsUint32(2 * numLiterals)
      ensures AllWritable(lists[..]) && bytes == EncodeModel(Params(), s, weights[..], lists[..])
    {
      bytes := EncodeHeader(Params(), s);
      var i := 0;
      while i < weights.Length
        invariant 0 <= i <= weights.Length
        invariant bytes == EncodeHeader(Params(), s) + EncodeInt16s(weights[..i])
      {
        assert weights[..i + 1] == weights[..i] + [weights[i]];
        EncodeInt16sSnoc(weights[..i], weights[i]);
        bytes := bytes + I16(weights[i]);
        i := i + 1;
      }
      assert weights[..weights.Length] == weights[..];
      var listBytes := SaveLists();
      bytes := bytes + listBytes;
    }

    /** The list part of `stm_save`: each clause's nodes, then the delimiter. */
    method SaveLists() returns (bytes: seq<Byte>)
      requires ListsSorted(lists[..], numLiterals) && IsUint32(2 * numLiterals)
      ensures AllWritable(lists[..]) && bytes == EncodeLists(lists[..])
    {
      bytes := [];
      var c := 0;
      while c < lists.Length
        invariant 0 <= c <= lists.Length && AllWritable(lists[..c])
        invariant bytes == EncodeLists(lists[..c])
      {
        assert Writable(lists[c]) by {
          assert SortedBelow(lists[..][c], 2 * numLiterals) && StatesInt8(lists[..][c]);
        }
        assert lists[..c + 1] == lists[..c] + [lists[c]];
        EncodeListsSnoc(lists[..c], lists[c]);
        var nodes := SaveList(lists[c]);
        bytes := bytes + nodes + U32(DELIMITER);
        c := c + 1;
      }
      assert lists[..lists.Length] == lists[..];
    }

    /**
     * `calculate_clause_output`: each clause starts at 1, is set to 0 by the
     * first node that includes its literal and is falsified by the input,
     * and an empty clause is set to 0 when empty clauses are skipped.
     */
    method CalculateClauseOutput(x: seq<int>, skipEmpty: bool)
      requires Valid() && |x| == numLiterals
      modifies clauseOutput
      ensures clauseOutput[..] == SparseOutputs(Params(), lists[..], x, skipEmpty)
    {
      var c := 0;
      while c < numClauses
        invariant 0 <= c <= numClauses
        invariant forall j :: 0 <= j < c ==> IdsFit(lists[j], x) && clauseOutput[j] == ListFires(lists[j], x, midState, skipEmpty)
      {
        assert SortedBelow(lists[..][c], 2 * numLiterals);
        var fires := ClauseFires(lists[c], x, skipEmpty);
        clauseOutput[c] := fires;
        c := c + 1;
      }
    }

    /** The list walk of one clause in `calculate_clause_output`. */
    method ClauseFires(list: seq<Node>, x: seq<int>, skipEmpty: bool) returns (fires: bool)
      requires IdsFit(list, x)
      ensures fires == ListFires(list, x, midState, skipEmpty)
    {
      fires := true;
      var empty := true;
      var a := 0;
      while a < |list|
        invariant 0 <= a <= |list|
        invariant empty <==> forall b :: 0 <= b < a ==> !Includes(list[b].state, midState)
        invariant forall b :: 0 <= b < a ==> !Blocks(list[b].state, list[b].id, x, midState)
      {
        if Includes(list[a].state, midState) {
          empty := false;
          if list[a].id % 2 == x[list[a].id / 2] {
            assert Blocks(list[a].state, list[a].id, x, midState);
            return false;
          }
        }
        a := a + 1;
      }
      if empty && skipEmpty {
        fires := false;
      }
    }

    /**
     * The walk of `type_1a_feedback` over clause list `list0`, for the class
     * whose row starts at `row`; `act` is that row's active flags, which this
     * walk does not read.
     */
    method TypeIaWalk(x: seq<int>, list0: seq<Node>, row: nat, ghost act: seq<bool>, coins: seq<bool>)
      returns (list: seq<Node>)
      requires Thresholds() && |x| == numLiterals && |coins| == 2 * |x| && |act| == |x|
      requires RowFits(activeLiterals[..], row, |x|) && SortedBelow(list0, 2 * |x|)
      modifies activeLiterals
      ensures list == ListAfter(TypeIa, Params(), list0, x, act, coins, 2 * |x|)
      ensures activeLiterals[..] == ActivateMissing(old(activeLiterals[..]), row, list0, x, 2 * |x|)
    {
      ghost var al0 := activeLiterals[..];
      WalkStart(TypeIa, Params(), list0, x, act, coins);
      list := list0;
      var j := 0;
      var prev: Option<nat> := None;
      ghost var m := 0;
      var i := 0;
      while i < 2 * |x|
        invariant 0 <= i <= 2 * |x| && prev == PrevOf(j)
        invariant Walked(TypeIa, Params(), list0, x, act, coins, i, m, list, j)
        invariant activeLiterals[..] == ActivateMissing(al0, row, list0, x, i)
      {
        list, j, prev, m := TypeIaStep(x, list0, row, act, coins, al0, i, m, list, j, prev);
        i := i + 1;
      }
      assert i == 2 * |x|;
      WalkDone(TypeIa, Params(), list0, x, act, coins, m, list, j);
    }

    /**
     * One id of the walk of `type_1a_feedback`: with no node for id i, mark
     * its literal active if i is positive and the input is 1; otherwise raise
     * the node if the input satisfies its literal, else lower it and remove
     * it below sparse_min_state.
     */
    method TypeIaStep(x: seq<int>, ghost list0: seq<Node>, row: nat, ghost act: seq<bool>, coins: seq<bool>,
                      ghost al0: seq<bv8>, i: nat, ghost m: nat, list: seq<Node>, j: nat, prev: Option<nat>)
      returns (list': seq<Node>, j': nat, prev': Option<nat>, ghost m': nat)
      requires Thresholds() && |x| == numLiterals && |coins| == 2 * |x| && |act| == |x| && i < 2 * |x|
      requires RowFits(al0, row, |x|) && SortedBelow(list0, 2 * |x|)
      requires prev == PrevOf(j) && Walked(TypeIa, Params(), list0, x, act, coins, i, m, list, j)
      requires activeLiterals[..] == ActivateMissing(al0, row, list0, x, i)
      modifies activeLiterals
      ensures prev' == PrevOf(j') && Walked(TypeIa, Params(), list0, x, act, coins, i + 1, m', list', j')
      ensures activeLiterals[..] == ActivateMissing(al0, row, list0, x, i + 1)
    {
      ghost var h := Params();
      var l := i / 2;
      WalkCursor(TypeIa, h, list0, x, act, coins, i, m, list, j);
      if j == |list| || list[j].id != i {
        if i % 2 == 0 && x[l] == 1 {
          MarkActive(row, l);
        }
        WalkSkip(TypeIa, h, list0, x, act, coins, i, m, list, j);
        return list, j, prev, m;
      }
      var s := list[j].state;
      var v: int;
      if i % 2 != x[l] {
        v := Raise(s, maxState, boost == 1 || coins[i]);
      } else {
        v := SparseLower(s, minState, coins[i]);
        if v < sparseMinState {
          WalkDrop(TypeIa, h, list0, x, act, coins, i, m, list, j);
          list' := RemoveAfter(list, prev);
          return list', j, prev, m + 1;
        }
      }
      WalkKeep(TypeIa, h, list0, x, act, coins, i, m, list, j, v);
      return list[j := Node(i, v)], j + 1, Some(j), m + 1;
    }

    /** Set literal l's bit in the row starting at `row`, unless it is set already. */
    method MarkActive(row: nat, l: nat)
      requires row + l / 8 < activeLiterals.Length
      modifies activeLiterals
      ensures activeLiterals[..] == Activate(old(activeLiterals[..]), row, l)
    {
      var isActive := activeLiterals[row + l / 8] & Mask(l) != 0;
      if !isActive {
        activeLiterals[row + l / 8] := activeLiterals[row + l / 8] | Mask(l);
      } else {
        ActivateActive(activeLiterals[..], row, l);
      }
    }

    /** The walk of `type_1b_feedback` over clause list `list0`. */
    method TypeIbWalk(ghost x: seq<int>, list0: seq<Node>, ghost act: seq<bool>, coins: seq<bool>) returns (list: seq<Node>)
      requires Thresholds() && |x| == numLiterals && |coins| == 2 * |x| && |act| == |x| && SortedBelow(list0, 2 * |x|)
      ensures list == ListAfter(TypeIb, Params(), list0, x, act, coins, 2 * |x|)
    {
      WalkStart(TypeIb, Params(), list0, x, act, coins);
      list := list0;
      var j := 0;
      var prev: Option<nat> := None;
      ghost var m := 0;
      var i := 0;
      while i < 2 * numLiterals
        invariant 0 <= i <= 2 * |x| && prev == PrevOf(j)
        invariant Walked(TypeIb, Params(), list0, x, act, coins, i, m, list, j)
      {
        list, j, prev, m := TypeIbStep(x, list0, act, coins, i, m, list, j, prev);
        i := i + 1;
      }
      assert i == 2 * |x|;
      WalkDone(TypeIb, Params(), list0, x, act, coins, m, list, j);
    }

    /** One id of the walk of `type_1b_feedback`: lower the node for id i, if any, and remove it below sparse_min_state. */
    method TypeIbStep(ghost x: seq<int>, ghost list0: seq<Node>, ghost act: seq<bool>, coins: seq<bool>, i: nat,
                      ghost m: nat, list: seq<Node>, j: nat, prev: Option<nat>)
      returns (list': seq<Node>, j': nat, prev': Option<nat>, ghost m': nat)
      requires Thresholds() && |x| == numLiterals && |coins| == 2 * |x| && |act| == |x| && i < 2 * |x|
      requires SortedBelow(list0, 2 * |x|)
      requires prev == PrevOf(j) && Walked(TypeIb, Params(), list0, x, act, coins, i, m, list, j)
      ensures prev' == PrevOf(j') && Walked(TypeIb, Params(), list0, x, act, coins, i + 1, m', list', j')
    {
      ghost var h := Params();
      WalkCursor(TypeIb, h, list0, x, act, coins, i, m, list, j);
      if j == |list| || list[j].id != i {
        WalkSkip(TypeIb, h, list0, x, act, coins, i, m, list, j);
        return list, j, prev, m;
      }
      var v := SparseLower(list[j].state, minState, coins[i]);
      if v < sparseMinState {
        WalkDrop(TypeIb, h, list0, x, act, coins, i, m, list, j);
        list' := RemoveAfter(list, prev);
        return list', j, prev, m + 1;
      }
      WalkKeep(TypeIb, h, list0, x, act, coins, i, m, list, j, v);
      return list[j := Node(i, v)], j + 1, Some(j), m + 1;
    }

    /** The walk of `type_2_feedback` over clause list `list0`, for the class whose row starts at `row`. */
    method TypeIIWalk(x: seq<int>, list0: seq<Node>, row: nat, ghost coins: seq<bool>) returns (list: seq<Node>)
      requires Thresholds() && |x| == numLiterals && |coins| == 2 * |x|
      requires RowFits(activeLiterals[..], row, |x|) && SortedBelow(list0, 2 * |x|)
      ensures list == ListAfter(TypeII, Params(), list0, x, ActiveRow(activeLiterals[..], row, x, |x|), coins, 2 * |x|)
    {
      ghost var act := ActiveRow(activeLiterals[..], row, x, |x|);
      WalkStart(TypeII, Params(), list0, x, act, coins);
      list := list0;
      var j := 0;
      var prev: Option<nat> := None;
      ghost var m := 0;
      var i := 0;
      while i < 2 * |x|
        invariant 0 <= i <= 2 * |x| && prev == PrevOf(j)
        invariant Walked(TypeII, Params(), list0, x, act, coins, i, m, list, j)
      {
        list, j, prev, m := TypeIIStep(x, list0, row, act, coins, i, m, list, j, prev);
        i := i + 1;
      }
      assert i == 2 * |x|;
      WalkDone(TypeII, Params(), list0, x, act, coins, m, list, j);
    }

    /**
     * One id of the walk of `type_2_feedback`: with no node for id i, insert
     * one at sparse_init_state if the literal is active and i is positive or
     * the input is 1; otherwise raise the node if it excludes its literal and
     * the input falsifies that literal.
     */
    method TypeIIStep(x: seq<int>, ghost list0: seq<Node>, row: nat, ghost act: seq<bool>, ghost coins: seq<bool>,
                      i: nat, ghost m: nat, list: seq<Node>, j: nat, prev: Option<nat>)
      returns (list': seq<Node>, j': nat, prev': Option<nat>, ghost m': nat)
      requires Thresholds() && |x| == numLiterals && |coins| == 2 * |x| && i < 2 * |x|
      requires RowFits(activeLiterals[..], row, |x|) && act == ActiveRow(activeLiterals[..], row, x, |x|)
      requires SortedBelow(list0, 2 * |x|)
      requires prev == PrevOf(j) && Walked(TypeII, Params(), list0, x, act, coins, i, m, list, j)
      ensures prev' == PrevOf(j') && Walked(TypeII, Params(), list0, x, act, coins, i + 1, m', list', j')
    {
      ghost var h := Params();
      var l := i / 2;
      var isActive := LiteralActive(x, row, l);
      ActiveRowAt(activeLiterals[..], row, x, |x|, l);
      WalkCursor(TypeII, h, list0, x, act, coins, i, m, list, j);
      if j == |list| || list[j].id != i {
        list', j', prev' := TypeIIMissing(x, list0, act, coins, i, m, list, j, prev, isActive);
        return list', j', prev', m;
      }
      var s := list[j].state;
      var v := Raise(s, maxState, !Includes(s, midState) && i % 2 == x[l]);
      WalkKeep(TypeII, h, list0, x, act, coins, i, m, list, j, v);
      return list[j := Node(i, v)], j + 1, Some(j), m + 1;
    }

    /**
     * Type II at an id the list lacks: insert the node at sparse_init_state
     * when the literal is active and either the automaton is a positive one
     * (even id) or the literal's input is 1, else move on.
     */
    method TypeIIMissing(x: seq<int>, ghost list0: seq<Node>, ghost act: seq<bool>, ghost coins: seq<bool>,
                         i: nat, ghost m: nat, list: seq<Node>, j: nat, prev: Option<nat>, isActive: bool)
      returns (list': seq<Node>, j': nat, prev': Option<nat>)
      requires Thresholds() && |x| == numLiterals && |coins| == 2 * |x| && |act| == |x| && i < 2 * |x|
      requires SortedBelow(list0, 2 * |x|) && isActive == act[i / 2]
      requires prev == PrevOf(j) && Walked(TypeII, Params(), list0, x, act, coins, i, m, list, j)
      requires !(j < |list| && list[j].id == i)
      ensures prev' == PrevOf(j') && Walked(TypeII, Params(), list0, x, act, coins, i + 1, m, list', j')
    {
      WalkCursor(TypeII, Params(), list0, x, act, coins, i, m, list, j);
      if isActive && (i % 2 == 0 || x[i / 2] == 1) {
        WalkAdd(TypeII, Params(), list0, x, act, coins, i, m, list, j, sparseInitState);
        list' := InsertAfter(list, prev, Node(i, sparseInitState));
        return list', j + 1, Some(Slot(prev));
      }
      WalkSkip(TypeII, Params(), list0, x, act, coins, i, m, list, j);
      return list, j, prev;
    }

    /** `active_literals[row + (l >> 3)] & (1 << (l & 7))`: whether literal l is active in the row. */
    method LiteralActive(ghost x: seq<int>, row: nat, l: nat) returns (active: bool)
      requires RowFits(activeLiterals[..], row, |x|) && l < |x|
      ensures active == ActiveAt(activeLiterals[..], row, x, l)
    {
      AlRowSizeFits(|x|, l);
      active := activeLiterals[row + l / 8] & Mask(l) != 0;
    }

    /** `type_1a_feedback`: reinforce the weight of (c, k), then walk clause c's list. */
    method TypeIaFeedback(x: seq<int>, c: nat, k: nat, coins: seq<bool>)
      requires Thresholds() && alRowSize == AlRowSize(numLiterals) && lists.Length == numClauses && Separate()
      requires activeLiterals.Length == ActiveCount(Params()) && weights.Length == WeightCount(Params())
      requires ListsSorted(lists[..], numLiterals)
      requires |x| == numLiterals && c < numClauses && k < numClasses && |coins| == 2 * |x|
      modifies lists, weights, activeLiterals
      ensures weights[..] == old(weights[..])[WeightIndex(Params(), c, k) := Reinforce(old(weights[WeightIndex(Params(), c, k)]))]
      ensures lists[..] == old(lists[..])[c := ListAfter(TypeIa, Params(), old(lists[c]), x,
                                                         ActiveRow(old(activeLiterals[..]), Row(Params(), k), x, |x|), coins, 2 * |x|)]
      ensures activeLiterals[..] == ActivateMissing(old(activeLiterals[..]), Row(Params(), k), old(lists[c]), x, 2 * |x|)
    {
      ghost var al0, list0 := activeLiterals[..], lists[c];
      assert SortedBelow(lists[..][c], 2 * numLiterals);
      ReinforceWeight(WeightIndex(Params(), c, k));
      ghost var weights1 := weights[..];
      assert activeLiterals[..] == al0 && lists[c] == list0;
      var row := ClassRow(k);
      ghost var act := ActiveRow(al0, row, x, |x|);
      var list := TypeIaWalk(x, lists[c], row, act, coins);
      assert weights[..] == weights1;
      lists[c] := list;
      assert activeLiterals[..] == ActivateMissing(al0, row, list0, x, 2 * |x|);
    }

    /** `type_1b_feedback`: walk clause c's list, lowering every node; the weight is left alone. */
    method TypeIbFeedback(c: nat, ghost k: nat, ghost x: seq<int>, coins: seq<bool>)
      requires Thresholds() && lists.Length == numClauses && activeLiterals.Length == ActiveCount(Params()) && Separate()
      requires ListsSorted(lists[..], numLiterals)
      requires |x| == numLiterals && c < numClauses && k < numClasses && |coins| == 2 * |x|
      modifies lists
      ensures lists[..] == old(lists[..])[c := ListAfter(TypeIb, Params(), old(lists[c]), x,
                                                         ActiveRow(activeLiterals[..], Row(Params(), k), x, |x|), coins, 2 * |x|)]
    {
      ghost var act := ActiveRow(activeLiterals[..], Row(Params(), k), x, |x|);
      assert SortedBelow(lists[..][c], 2 * numLiterals);
      var list := TypeIbWalk(x, lists[c], act, coins);
      lists[c] := list;
      assert activeLiterals[..] == old(activeLiterals[..]);
    }

    /** `type_2_feedback`: move the weight of (c, k) toward zero, then walk clause c's list. */
    method TypeIIFeedback(x: seq<int>, c: nat, k: nat, ghost coins: seq<bool>)
      requires Thresholds() && alRowSize == AlRowSize(numLiterals) && lists.Length == numClauses && Separate()
      requires activeLiterals.Length == ActiveCount(Params()) && weights.Length == WeightCount(Params())
      requires ListsSorted(lists[..], numLiterals)
      requires |x| == numLiterals && c < numClauses && k < numClasses && |coins| == 2 * |x|
      modifies lists, weights
      ensures weights[..] == old(weights[..])[WeightIndex(Params(), c, k) := Weaken(old(weights[WeightIndex(Params(), c, k)]))]
      ensures lists[..] == old(lists[..])[c := ListAfter(TypeII, Params(), old(lists[c]), x,
                                                         ActiveRow(activeLiterals[..], Row(Params(), k), x, |x|), coins, 2 * |x|)]
    {
      ghost var list0 := lists[c];
      assert SortedBelow(lists[..][c], 2 * numLiterals);
      WeakenWeight(WeightIndex(Params(), c, k));
      ghost var weights1 := weights[..];
      assert activeLiterals[..] == old(activeLiterals[..]) && lists[c] == list0;
      var row := ClassRow(k);
      var list := TypeIIWalk(x, lists[c], row, coins);
      lists[c] := list;
      assert activeLiterals[..] == old(activeLiterals[..]) && weights[..] == weights1;
    }

    /** The type Ia weight update: one step away from zero, saturating at the `int16_t` bounds. */
    method ReinforceWeight(w: nat)
      requires w < weights.Length
      modifies weights
      ensures weights[..] == old(weights[..])[w := Reinforce(old(weights[w]))]
    {
      if weights[w] >= 0 {
        weights[w] := ToInt16(weights[w] + Min(1, SHRT_MAX - weights[w]));
      } else {
        weights[w] := ToInt16(weights[w] - Min(1, -(SHRT_MIN - weights[w])));
      }
    }

    /** The type II weight update: one step toward zero. */
    method WeakenWeight(w: nat)
      requires w < weights.Length
      modifies weights
      ensures weights[..] == old(weights[..])[w := Weaken(old(weights[w]))]
    {
      weights[w] := ToInt16(weights[w] + (if weights[w] >= 0 then -1 else 1));
    }

    /** `class_id * al_row_size`: where class k's active-literal row starts. */
    method ClassRow(k: nat) returns (row: nat)
      requires alRowSize == AlRowSize(numLiterals) && activeLiterals.Length == ActiveCount(Params()) && k < numClasses
      ensures row == Row(Params(), k) && RowFits(activeLiterals[..], row, numLiterals)
    {
      row := k * alRowSize;
    }

    /** `stm_apply_feedback`: the kind of feedback clause c gets for class k, by its weight's sign and output. */
    method ApplyFeedback(c: nat, k: nat, classPositive: bool, x: seq<int>, coins: seq<bool>)
      requires Valid() && |x| == numLiterals && c < numClauses && k < numClasses && |coins| == 2 * numLiterals
      modifies lists, weights, activeLiterals
      ensures Valid()
      ensures Snap() == SparseApply(Params(), old(Snap()), c, k, classPositive, clauseOutput[c], x, coins)
    {
      SparseApplyConsistent(Params(), Snap(), c, k, classPositive, clauseOutput[c], x, coins);
      var w := WeightIndex(Params(), c, k);
      var votePositive := weights[w] >= 0;
      if votePositive == classPositive {
        if clauseOutput[c] {
          TypeIaFeedback(x, c, k, coins);
        } else {
          TypeIbFeedback(c, k, x, coins);
          assert weights[..] == old(weights[..])[w := old(weights[w])];
        }
      } else if clauseOutput[c] {
        TypeIIFeedback(x, c, k, coins);
      } else {
        assert lists[..] == old(lists[..])[c := old(lists[c])];
        assert weights[..] == old(weights[..])[w := old(weights[w])];
      }
    }

    /** One feedback pass for class k over all clauses, each clause only if its gate is open. */
    method FeedbackPass(k: nat, classPositive: bool, x: seq<int>, d: ClassDraws)
      requires Valid() && |x| == numLiterals && k < numClasses && DrawsFit(Params(), d)
      modifies lists, weights, activeLiterals
      ensures Valid()
      ensures Snap() == SparseClassPass(Params(), old(Snap()), k, classPositive, clauseOutput[..], x, d, numClauses)
    {
      ghost var start := Snap();
      var c := 0;
      while c < numClauses
        invariant 0 <= c <= numClauses && Valid()
        invariant Snap() == SparseClassPass(Params(), start, k, classPositive, clauseOutput[..], x, d, c)
      {
        GatedFeedback(c, k, classPositive, x, d, start);
        c := c + 1;
      }
    }

    /** Clause c's turn in a feedback pass: feedback when its gate is open. */
    method GatedFeedback(c: nat, k: nat, classPositive: bool, x: seq<int>, d: ClassDraws, ghost start: SparseSnapshot)
      requires Valid() && |x| == numLiterals && c < numClauses && k < numClasses && DrawsFit(Params(), d)
      requires WellFormed(Params(), start) && Snap() == SparseClassPass(Params(), start, k, classPositive, clauseOutput[..], x, d, c)
      modifies lists, weights, activeLiterals
      ensures Valid()
      ensures Snap() == SparseClassPass(Params(), start, k, classPositive, clauseOutput[..], x, d, c + 1)
    {
      if d.gates[c] {
        ApplyFeedback(c, k, classPositive, x, d.coins[c]);
      }
    }

    /**
     * `stm_feedback_class_idx`: feedback for the label's class as positive
     * class, then for a negative class drawn by the roulette among the others.
     */
    method FeedbackClassIdx(x: seq<int>, target: nat, d: RowDraws)
      requires Valid() && |x| == numLiterals && target < numClasses && RowDrawsFit(Params(), d)
      modifies lists, weights, activeLiterals
      ensures Valid()
      ensures Snap() == SparseFeedbackClassIdx(Params(), old(Snap()), votes[..], clauseOutput[..], x, target, d)
    {
      FeedbackPass(target, true, x, d.positive);
      var negative := PickWeighted(votes, OtherClasses(numClasses, target), ToInt32(threshold), d.negativePick);
      if negative.None? {
        return;
      }
      FeedbackPass(negative.value, false, x, d.negative);
    }

    /**
     * `stm_feedback_bin_vector`: feedback for a positive class drawn among the
     * classes the label marks, then for a negative class drawn among the rest.
     */
    method FeedbackBinVector(x: seq<int>, labels: seq<bool>, d: RowDraws)
      requires Valid() && |x| == numLiterals && |labels| == numClasses && RowDrawsFit(Params(), d)
      modifies lists, weights, activeLiterals
      ensures Valid()
      ensures Snap() == SparseFeedbackBinVector(Params(), old(Snap()), votes[..], clauseOutput[..], x, labels, d)
    {
      var t := ToInt32(threshold);
      var positive := PickWeighted(votes, labels, t, d.positivePick);
      if positive.Some? {
        FeedbackPass(positive.value, true, x, d.positive);
      }
      var negative := PickWeighted(votes, Unmarked(labels), t, d.negativePick);
      if negative.Some? {
        FeedbackPass(negative.value, false, x, d.negative);
      }
    }

    /**
     * `stm_train`: for each epoch and each row, compute the clause outputs
     * keeping empty clauses, sum the votes and apply class-index feedback.
     */
    method Train(xs: seq<seq<int>>, ys: seq<nat>, epochs: nat, draws: seq<seq<RowDraws>>)
      requires Valid() && |draws| == epochs
      requires forall e :: 0 <= e < epochs ==> RowsFit(Params(), xs, ys, draws[e])
      modifies lists, weights, activeLiterals, clauseOutput, votes
      ensures Valid()
      ensures Snap() == SparseTrainEpochs(Params(), old(Snap()), xs, ys, draws, epochs)
    {
      var e := 0;
      while e < epochs
        invariant 0 <= e <= epochs && Valid()
        invariant Snap() == SparseTrainEpochs(Params(), old(Snap()), xs, ys, draws, e)
      {
        ghost var start := Snap();
        var r := 0;
        while r < |xs|
          invariant 0 <= r <= |xs| && Valid()
          invariant Snap() == SparseTrainRows(Params(), start, xs, ys, draws[e], r)
        {
          TrainRow(xs[r], ys[r], draws[e][r]);
          r := r + 1;
        }
        e := e + 1;
      }
    }

    /**
     * One row of training: clause outputs with empty clauses kept, the
     * clipped votes, then class-index feedback.
     */
    method TrainRow(x: seq<int>, target: nat, d: RowDraws)
      requires Valid() && |x| == numLiterals && target < numClasses && RowDrawsFit(Params(), d)
      modifies lists, weights, activeLiterals, clauseOutput, votes
      ensures Valid()
      ensures Snap() == SparseSpec.SparseTrainRow(Params(), old(Snap()), x, target, d)
    {
      CalculateClauseOutput(x, false);
      SumVotes(clauseOutput, weights, votes, threshold);
      FeedbackClassIdx(x, target, d);
    }

    /** The votes of input x as inference computes them (empty clauses skipped). */
    ghost function PredictVotes(x: seq<int>): (v: seq<int>)
      requires Valid() && |x| == numLiterals
      reads lists, weights, activeLiterals
    {
      ClassVotes(SparseOutputs(Params(), lists[..], x, true), weights[..], numClasses, ToInt32(threshold))
    }

    /**
     * `stm_predict` with the class-index output: per row, clause outputs with
     * empty clauses skipped, votes, and the lowest class of maximal vote.
     */
    method Predict(xs: seq<seq<int>>) returns (predictions: seq<nat>)
      requires Valid() && numClasses > 0
      requires forall r :: 0 <= r < |xs| ==> |xs[r]| == numLiterals
      modifies clauseOutput, votes
      ensures |predictions| == |xs|
      ensures forall r :: 0 <= r < |xs| ==> predictions[r] == ArgMax(PredictVotes(xs[r]))
    {
      predictions := [];
      var r := 0;
      while r < |xs|
        invariant 0 <= r <= |xs| && |predictions| == r
        invariant forall j :: 0 <= j < r ==> predictions[j] == ArgMax(PredictVotes(xs[j]))
      {
        var best := PredictRow(xs[r]);
        predictions := predictions + [best];
        r := r + 1;
      }
    }

    /** One row of `stm_predict` with the class-index output. */
    method PredictRow(x: seq<int>) returns (best: nat)
      requires Valid() && numClasses > 0 && |x| == numLiterals
      modifies clauseOutput, votes
      ensures best == ArgMax(PredictVotes(x))
    {
      CalculateClauseOutput(x, true);
      SumVotes(clauseOutput, weights, votes, threshold);
      best := ClassIdx(votes);
    }

    /**
     * `stm_predict` with the binary-vector output: per row, class k is
     * predicted iff its vote exceeds the middle state.
     */
    method PredictBinVector(xs: seq<seq<int>>) returns (predictions: seq<seq<bool>>)
      requires Valid()
      requires forall r :: 0 <= r < |xs| ==> |xs[r]| == numLiterals
      modifies clauseOutput, votes
      ensures |predictions| == |xs|
      ensures forall r :: 0 <= r < |xs| ==> |predictions[r]| == numClasses
      ensures forall r, k :: 0 <= r < |xs| && 0 <= k < numClasses ==> (predictions[r][k] <==> PredictVotes(xs[r])[k] > midState)
    {
      predictions := [];
      var r := 0;
      while r < |xs|
        invariant 0 <= r <= |xs| && |predictions| == r
        invariant forall j :: 0 <= j < r ==> |predictions[j]| == numClasses
        invariant forall j, k :: 0 <= j < r && 0 <= k < numClasses ==> (predictions[j][k] <==> PredictVotes(xs[j])[k] > midState)
      {
        CalculateClauseOutput(xs[r], true);
        SumVotes(clauseOutput, weights, votes, threshold);
        var y := BinVector(votes, midState);
        predictions := predictions + [y];
        r := r + 1;
      }
    }
  }
}
