/*
 * The inference rule the three engine variants share: which clauses fire on
 * an input, how the weights of the firing clauses add up to clipped class
 * votes, and how the votes become a prediction. A clause over n literals is
 * the states of its 2n automata, automaton 2l standing for literal l and
 * automaton 2l+1 for its negation; the dense engine stores them in this
 * order, and the sparse and stateless engines use the same numbering as
 * their automaton ids.
 */
module Inference {
  import opened Utility

  /** `action`: an automaton includes its literal iff its state is at least the middle state. */
  predicate Includes(state: int, mid: int)
  {
    state >= mid
  }

  /**
   * Automaton i blocks input x when it includes its literal and literal
   * i / 2 of x has the value that falsifies it: 0 for a positive literal
   * (i even), 1 for a negated one (i odd).
   */
  predicate Blocks(state: int, i: nat, x: seq<int>, mid: int)
    requires i / 2 < |x|
  {
    Includes(state, mid) && x[i / 2] == i % 2
  }

  /** A clause none of whose automata includes its literal. */
  predicate EmptyClause(cl: seq<int>, mid: int)
  {
    forall i :: 0 <= i < |cl| ==> !Includes(cl[i], mid)
  }

  /**
   * The output of a clause: 1 iff no automaton blocks the input, except
   * that an empty clause outputs 0 when empty clauses are skipped (as in
   * inference; training keeps them).
   */
  predicate Fires(cl: seq<int>, x: seq<int>, mid: int, skipEmpty: bool)
    requires |cl| == 2 * |x|
  {
    (forall i :: 0 <= i < |cl| ==> !Blocks(cl[i], i, x, mid)) && !(skipEmpty && EmptyClause(cl, mid))
  }

  /** Cell (row, col) of a row-major matrix with `cols` columns lies inside it. */
  lemma CellInRange(row: nat, col: nat, rows: nat, cols: nat)
    requires row < rows && col < cols
    ensures row * cols + col < rows * cols
  {
    assert (row + 1) * cols <= rows * cols by {
      MulMonotone(row + 1, rows, cols);
    }
  }

  lemma MulMonotone(a: nat, b: nat, c: nat)
    requires a <= b
    ensures a * c <= b * c
  {
  }

  /**
   * The unclipped vote for class k of the first n clauses: the sum of the
   * weights `weights[c * numClasses + k]` of the clauses c < n that fire.
   */
  function VoteSum(outputs: seq<bool>, weights: seq<int>, numClasses: nat, k: nat, n: nat): int
    requires n <= |outputs| && k < numClasses && |weights| == |outputs| * numClasses
  {
    if n == 0 then 0
    else
      CellInRange(n - 1, k, |outputs|, numClasses);
      VoteSum(outputs, weights, numClasses, k, n - 1)
        + (if outputs[n - 1] then weights[(n - 1) * numClasses + k] else 0)
  }

  /** The votes of all classes, each sum clipped to the threshold. */
  function ClassVotes(outputs: seq<bool>, weights: seq<int>, numClasses: nat, t: int): (r: seq<int>)
    requires |weights| == |outputs| * numClasses
    ensures |r| == numClasses
    ensures t >= 0 ==> forall k :: 0 <= k < numClasses ==> -t <= r[k] <= t
  {
    seq(numClasses, k requires 0 <= k < numClasses => Clip(VoteSum(outputs, weights, numClasses, k, |outputs|), t))
  }

  /** Clauses that do not fire add nothing: with no clause firing, every vote is 0. */
  lemma {:induction false} SilentClausesVoteZero(outputs: seq<bool>, weights: seq<int>, numClasses: nat, k: nat, n: nat)
    requires n <= |outputs| && k < numClasses && |weights| == |outputs| * numClasses
    requires forall c :: 0 <= c < n ==> !outputs[c]
    ensures VoteSum(outputs, weights, numClasses, k, n) == 0
  {
    if n > 0 {
      SilentClausesVoteZero(outputs, weights, numClasses, k, n - 1);
    }
  }

  /**
   * `sum_votes`: reset the votes, add the weight row of every firing clause,
   * then clip each vote to the threshold (the `uint32_t` threshold is read
   * as `int32_t`).
   */
  method SumVotes(outputs: array<bool>, weights: array<int>, votes: array<int>, threshold: int)
    requires weights.Length == outputs.Length * votes.Length
    requires votes != weights
    modifies votes
    ensures votes[..] == ClassVotes(outputs[..], weights[..], votes.Length, ToInt32(threshold))
  {
    var numClasses := votes.Length;
    var k := 0;
    while k < numClasses
      invariant 0 <= k <= numClasses
      invariant forall j :: 0 <= j < k ==> votes[j] == 0
    {
      votes[k] := 0;
      k := k + 1;
    }
    var c := 0;
    while c < outputs.Length
      invariant 0 <= c <= outputs.Length
      invariant forall j :: 0 <= j < numClasses ==> votes[j] == VoteSum(outputs[..], weights[..], numClasses, j, c)
    {
      if outputs[c] {
        k := 0;
        while k < numClasses
          invariant 0 <= k <= numClasses
          invariant forall j :: 0 <= j < k ==> votes[j] == VoteSum(outputs[..], weights[..], numClasses, j, c + 1)
          invariant forall j :: k <= j < numClasses ==> votes[j] == VoteSum(outputs[..], weights[..], numClasses, j, c)
        {
          CellInRange(c, k, outputs.Length, numClasses);
          votes[k] := votes[k] + weights[c * numClasses + k];
          k := k + 1;
        }
      }
      c := c + 1;
    }
    var t := ToInt32(threshold);
    k := 0;
    while k < numClasses
      invariant 0 <= k <= numClasses
      invariant forall j :: 0 <= j < k ==> votes[j] == Clip(VoteSum(outputs[..], weights[..], numClasses, j, outputs.Length), t)
      invariant forall j :: k <= j < numClasses ==> votes[j] == VoteSum(outputs[..], weights[..], numClasses, j, outputs.Length)
    {
      votes[k] := Clip(votes[k], t);
      k := k + 1;
    }
    assert outputs[..][..outputs.Length] == outputs[..];
  }

  /** The lowest index of a maximal vote. */
  function ArgMax(votes: seq<int>): (r: nat)
    requires |votes| > 0
    ensures r < |votes|
    ensures forall k :: 0 <= k < |votes| ==> votes[k] <= votes[r]
    ensures forall k :: 0 <= k < r ==> votes[k] < votes[r]
  {
    if |votes| == 1 then 0
    else
      var best := ArgMax(votes[..|votes| - 1]);
      if votes[best] < votes[|votes| - 1] then |votes| - 1 else best
  }

  /** `tm_oa_class_idx`: scan the votes, moving to a class only when it beats the best so far. */
  method ClassIdx(votes: array<int>) returns (best: nat)
    requires votes.Length > 0
    ensures best == ArgMax(votes[..])
  {
    best := 0;
    var maxScore := votes[0];
    var k := 1;
    while k < votes.Length
      invariant 1 <= k <= votes.Length
      invariant best == ArgMax(votes[..k]) && maxScore == votes[best]
    {
      assert votes[..k + 1][..k] == votes[..k];
      if maxScore < votes[k] {
        maxScore := votes[k];
        best := k;
      }
      k := k + 1;
    }
    assert votes[..votes.Length] == votes[..];
  }

  /** `tm_oa_bin_vector`: class k is predicted iff its vote exceeds the middle state. */
  method BinVector(votes: array<int>, mid: int) returns (y: seq<bool>)
    ensures |y| == votes.Length
    ensures forall k :: 0 <= k < |y| ==> (y[k] <==> votes[k] > mid)
  {
    y := [];
    var k := 0;
    while k < votes.Length
      invariant 0 <= k <= votes.Length && |y| == k
      invariant forall j :: 0 <= j < k ==> (y[j] <==> votes[j] > mid)
    {
      y := y + [votes[k] > mid];
      k := k + 1;
    }
  }

  /** The clause-output test: two literals, input 11; clause 0 includes x0 and x1, clause 1 their negations. */
  lemma ClauseOutputExample()
    ensures Fires([100, -100, 100, -100], [1, 1], 0, true)
    ensures !Fires([-100, 100, -100, 100], [1, 1], 0, true)
  {
    assert [100, -100, 100, -100][0] >= 0;
    assert Blocks([-100, 100, -100, 100][1], 1, [1, 1], 0);
  }

  /** The vote-sum test: clause 0 fires with weights (5, -2), clause 1 is silent. */
  lemma SumVotesExample()
    ensures ClassVotes([true, false], [5, -2, -3, 10], 2, 100) == [5, -2]
  {
    var v := ClassVotes([true, false], [5, -2, -3, 10], 2, 100);
    assert VoteSum([true, false], [5, -2, -3, 10], 2, 0, 2) == 5;
    assert VoteSum([true, false], [5, -2, -3, 10], 2, 1, 2) == -2;
    assert v[0] == 5 && v[1] == -2;
  }
}
