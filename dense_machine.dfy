/*
 * The dense engine: a machine whose automaton states (clause, literal,
 * polarity) and weights (clause, class) live in flat arrays that training
 * updates in place, with scratch arrays for the clause outputs and class
 * votes of the current row, and an embedded xorshift32 generator.
 */
module DenseMachine {
  import opened Utility
  import opened Wrappers
  import opened Bytes
  import opened FastPrng
  import opened Inference
  import opened ClassSelection
  import opened DenseCodec
  import opened DenseSpec

  /** The seed `tm_load` passes to `tm_create`. */
  const LOAD_SEED: bv32 := 42

  /**
   * State i right after initialisation: draw i / 2 + 1 decides the pair of
   * literal i / 2; at most one half puts (mid - 1, mid), otherwise (mid, mid - 1).
   */
  function InitState(s0: bv32, mid: int, i: nat): (r: int)
    ensures IsInt8(mid) ==> IsInt8(r)
  {
    if (i % 2 == 0) == AtMostHalf(Mantissa(Advance(s0, i / 2 + 1))) then ToInt8(mid - 1) else mid
  }

  /** Weight i right after initialisation from generator state s1 (the state after the state draws): -1 or 1. */
  function InitWeight(s1: bv32, i: nat): (r: int)
    ensures r == -1 || r == 1
  {
    if AtMostHalf(Mantissa(Advance(s1, i + 1))) then -1 else 1
  }

  /**
   * Right after initialisation each literal has exactly one of its two
   * automata including it (when mid - 1 does not wrap around), so no clause
   * starts out empty.
   */
  lemma InitialPairsIncludeOne(s0: bv32, mid: int, l: nat)
    requires IsInt8(mid) && mid > INT8_MIN
    ensures Includes(InitState(s0, mid, 2 * l), mid) != Includes(InitState(s0, mid, 2 * l + 1), mid)
  {
    assert (2 * l) / 2 == l && (2 * l + 1) / 2 == l;
    assert (2 * l) % 2 == 0 && (2 * l + 1) % 2 == 1;
  }

  /** The two states of literal pair p, as the one draw p + 1 sets them. */
  lemma InitPair(s0: bv32, mid: int, p: nat)
    ensures InitState(s0, mid, 2 * p) == if AtMostHalf(Mantissa(Advance(s0, p + 1))) then ToInt8(mid - 1) else mid
    ensures InitState(s0, mid, 2 * p + 1) == if AtMostHalf(Mantissa(Advance(s0, p + 1))) then mid else ToInt8(mid - 1)
  {
    assert (2 * p) / 2 == p && (2 * p + 1) / 2 == p;
    assert (2 * p) % 2 == 0 && (2 * p + 1) % 2 == 1;
  }

  /** Clause c + 1 starts numLiterals pairs after clause c, and still within numClauses clauses. */
  lemma NextClauseBase(c: nat, numClauses: nat, numLiterals: nat)
    requires c < numClauses
    ensures (c + 1) * numLiterals == c * numLiterals + numLiterals
    ensures c * numLiterals + numLiterals <= numClauses * numLiterals
  {
    MulMonotone(c + 1, numClauses, numLiterals);
  }

  /** The state array holds two automata per (clause, literal) pair. */
  lemma StateCountTwice(h: Header)
    ensures StateCount(h) == 2 * (h.numClauses * h.numLiterals)
  {
  }

  class TsetlinMachine {
    const numClasses: nat
    const threshold: nat
    const numLiterals: nat
    const numClauses: nat
    const maxState: int
    const minState: int
    const boost: nat
    const midState: int
    const taState: array<int>
    const weights: array<int>
    const clauseOutput: array<bool>
    const votes: array<int>
    const rng: Prng

    /** The machine's parameters, as the model file header stores them. */
    function Params(): Header
    {
      Header(threshold, numLiterals, numClauses, numClasses, maxState, minState, boost)
    }

    /**
     * Sizes of the arrays, the state range and the derived middle state (the
     * 32-bit bounds of the counts are left to `Valid`).
     */
    ghost predicate Shape()
    {
      IsInt8(maxState) && IsInt8(minState) && IsUint8(boost) && midState == MidState(Params())
      && taState.Length == StateCount(Params()) && weights.Length == WeightCount(Params())
      && clauseOutput.Length == numClauses && votes.Length == numClasses
      && taState != weights && taState != votes && weights != votes
    }

    ghost predicate Valid()
      reads taState, weights
    {
      Shape() && ValidHeader(Params()) && AllInt8(taState[..]) && AllInt16(weights[..])
    }

    /** The learned arrays. */
    ghost function Snap(): Snapshot
      reads taState, weights
    {
      Snapshot(taState[..], weights[..])
    }

    /** The content a model file of this machine holds. */
    ghost function Contents(): DenseCodec.Image
      reads taState, weights
    {
      DenseCodec.Image(Params(), weights[..], taState[..])
    }

    /**
     * `tm_create`: allocate the arrays, seed the generator and initialise
     * (`tm_initialize`) the states pairwise and the weights to -1 or 1 from
     * the generator's draws.
     */
    constructor (numClasses: nat, threshold: nat, numLiterals: nat, numClauses: nat,
                 maxState: int, minState: int, boost: nat, seed: bv32)
      requires ValidHeader(Header(threshold, numLiterals, numClauses, numClasses, maxState, minState, boost))
      ensures Valid() && Params() == Header(threshold, numLiterals, numClauses, numClasses, maxState, minState, boost)
      ensures fresh(taState) && fresh(weights) && fresh(clauseOutput) && fresh(votes) && fresh(rng)
      ensures forall i :: 0 <= i < taState.Length ==> taState[i] == InitState(SeedState(seed), midState, i)
      ensures forall i :: 0 <= i < weights.Length ==>
        weights[i] == InitWeight(Advance(SeedState(seed), numClauses * numLiterals), i)
      ensures rng.state == Advance(Advance(SeedState(seed), numClauses * numLiterals), numClauses * numClasses)
    {
      this.numClasses := numClasses;
      this.threshold := threshold;
      this.numLiterals := numLiterals;
      this.numClauses := numClauses;
      this.maxState := maxState;
      this.minState := minState;
      this.boost := boost;
      midState := HalfTowardZero(maxState + minState);
      taState := new int[numClauses * numLiterals * 2];
      weights := new int[numClauses * numClasses];
      clauseOutput := new bool[numClauses];
      votes := new int[numClasses];
      rng := new Prng(seed);
      new;
      Initialize();
    }

    /**
     * `tm_initialize`: first the automaton states, then the weights, each
     * from the generator's next draws.
     */
    method Initialize()
      requires Shape() && ValidHeader(Params())
      modifies taState, weights, rng
      ensures Valid()
      ensures forall i :: 0 <= i < taState.Length ==> taState[i] == InitState(old(rng.state), midState, i)
      ensures forall i :: 0 <= i < weights.Length ==>
        weights[i] == InitWeight(Advance(old(rng.state), numClauses * numLiterals), i)
      ensures rng.state == Advance(Advance(old(rng.state), numClauses * numLiterals), numClauses * numClasses)
    {
      StateCountTwice(Params());
      InitializeStates();
      InitializeWeights();
    }

    /**
     * The first loop of `tm_initialize`: for each (clause, literal) in order
     * one draw picks which of the pair gets mid - 1 and which mid.
     */
    method InitializeStates()
      requires IsInt8(maxState) && IsInt8(minState) && IsInt8(midState)
      requires taState.Length == 2 * (numClauses * numLiterals)
      modifies taState, rng
      ensures AllInt8(taState[..])
      ensures forall i :: 0 <= i < taState.Length ==> taState[i] == InitState(old(rng.state), midState, i)
      ensures rng.state == Advance(old(rng.state), numClauses * numLiterals)
    {
      ghost var s0 := rng.state;
      var c := 0;
      while c < numClauses
        invariant 0 <= c <= numClauses
        invariant rng.state == Advance(s0, c * numLiterals)
        invariant forall i :: 0 <= i < 2 * (c * numLiterals) ==> taState[i] == InitState(s0, midState, i)
        modifies taState, rng
      {
        var base := c * numLiterals;
        NextClauseBase(c, numClauses, numLiterals);
        InitializeClauseStates(base, s0);
        c := c + 1;
      }
    }

    /** The inner loop of the first loop of `tm_initialize`: the pairs base .. base + numLiterals - 1. */
    method InitializeClauseStates(base: nat, ghost s0: bv32)
      requires IsInt8(maxState) && IsInt8(minState) && IsInt8(midState)
      requires 2 * (base + numLiterals) <= taState.Length && rng.state == Advance(s0, base)
      requires forall i :: 0 <= i < 2 * base ==> taState[i] == InitState(s0, midState, i)
      modifies taState, rng
      ensures rng.state == Advance(s0, base + numLiterals)
      ensures forall i :: 0 <= i < 2 * (base + numLiterals) ==> taState[i] == InitState(s0, midState, i)
    {
      var l := 0;
      while l < numLiterals
        invariant 0 <= l <= numLiterals
        invariant rng.state == Advance(s0, base + l)
        invariant forall i :: 0 <= i < 2 * (base + l) ==> taState[i] == InitState(s0, midState, i)
        modifies taState, rng
      {
        InitializePair(base + l, s0);
        l := l + 1;
      }
    }

    /** The body of that inner loop: draw p + 1 sets states 2p and 2p + 1 of literal pair p. */
    method InitializePair(p: nat, ghost s0: bv32)
      requires 2 * p + 2 <= taState.Length && rng.state == Advance(s0, p)
      modifies taState, rng
      ensures rng.state == Advance(s0, p + 1)
      ensures taState[2 * p] == InitState(s0, midState, 2 * p)
      ensures taState[2 * p + 1] == InitState(s0, midState, 2 * p + 1)
      ensures forall i :: 0 <= i < 2 * p ==> taState[i] == old(taState[i])
    {
      var m := rng.NextFloat();
      InitPair(s0, midState, p);
      var low := ToInt8(midState - 1);
      taState[2 * p] := if AtMostHalf(m) then low else midState;
      taState[2 * p + 1] := if AtMostHalf(m) then midState else low;
    }

    /**
     * The second loop of `tm_initialize`: one draw per (clause, class) sets
     * the weight to -1 (draw at most one half) or 1.
     */
    method InitializeWeights()
      requires weights.Length == numClauses * numClasses
      modifies weights, rng
      ensures AllInt16(weights[..])
      ensures forall i :: 0 <= i < weights.Length ==> weights[i] == InitWeight(old(rng.state), i)
      ensures rng.state == Advance(old(rng.state), numClauses * numClasses)
    {
      ghost var s1 := rng.state;
      var c := 0;
      while c < numClauses
        invariant 0 <= c <= numClauses
        invariant rng.state == Advance(s1, c * numClasses)
        invariant forall i :: 0 <= i < c * numClasses ==> weights[i] == InitWeight(s1, i)
        modifies weights, rng
      {
        var base := c * numClasses;
        NextClauseBase(c, numClauses, numClasses);
        InitializeClauseWeights(base, s1);
        c := c + 1;
      }
    }

    /** The inner loop of the second loop of `tm_initialize`: the weights base .. base + numClasses - 1. */
    method InitializeClauseWeights(base: nat, ghost s1: bv32)
      requires base + numClasses <= weights.Length && rng.state == Advance(s1, base)
      requires forall i :: 0 <= i < base ==> weights[i] == InitWeight(s1, i)
      modifies weights, rng
      ensures rng.state == Advance(s1, base + numClasses)
      ensures forall i :: 0 <= i < base + numClasses ==> weights[i] == InitWeight(s1, i)
    {
      var k := 0;
      while k < numClasses
        invariant 0 <= k <= numClasses
        invariant rng.state == Advance(s1, base + k)
        invariant forall i :: 0 <= i < base + k ==> weights[i] == InitWeight(s1, i)
        modifies weights, rng
      {
        var m := rng.NextFloat();
        weights[base + k] := 1 - 2 * (if AtMostHalf(m) then 1 else 0);
        k := k + 1;
      }
    }

    /**
     * `calculate_clause_output`: each clause starts at 1, is set to 0 by the
     * first literal whose included automaton the input falsifies, and an
     * empty clause is set to 0 when empty clauses are skipped.
     */
    method CalculateClauseOutput(x: seq<int>, skipEmpty: bool)
      requires Shape() && |x| == numLiterals
      modifies clauseOutput
      ensures clauseOutput[..] == Outputs(Params(), taState[..], x, skipEmpty)
    {
      var c := 0;
      while c < numClauses
        invariant 0 <= c <= numClauses
        invariant forall j :: 0 <= j < c ==> clauseOutput[j] == Fires(Clause(Params(), taState[..], j), x, midState, skipEmpty)
      {
        ClauseBounds(Params(), c);
        var fires := ClauseFires(x, c * numLiterals * 2, skipEmpty);
        clauseOutput[c] := fires;
        c := c + 1;
      }
    }

    /** The output of the clause whose automata start at `base`, as the body of the clause loop computes it. */
    method ClauseFires(x: seq<int>, base: nat, skipEmpty: bool) returns (fires: bool)
      requires |x| == numLiterals && base + 2 * numLiterals <= taState.Length
      ensures fires == Fires(taState[base .. base + 2 * numLiterals], x, midState, skipEmpty)
    {
      ghost var cl := taState[base .. base + 2 * numLiterals];
      fires := true;
      var empty := true;
      var l := 0;
      while l < numLiterals
        invariant 0 <= l <= numLiterals && fires
        invariant empty <==> forall i :: 0 <= i < 2 * l ==> !Includes(cl[i], midState)
        invariant forall i :: 0 <= i < 2 * l ==> !Blocks(cl[i], i, x, midState)
      {
        var i0 := base + l * 2;
        assert cl[2 * l] == taState[i0] && cl[2 * l + 1] == taState[i0 + 1];
        assert (2 * l) / 2 == l && (2 * l + 1) / 2 == l && (2 * l) % 2 == 0 && (2 * l + 1) % 2 == 1;
        var includePositive := Includes(taState[i0], midState);
        var includeNegated := Includes(taState[i0 + 1], midState);
        empty := empty && !(includePositive || includeNegated);
        if (includePositive && x[l] == 0) || (includeNegated && x[l] == 1) {
          assert Blocks(cl[2 * l], 2 * l, x, midState) || Blocks(cl[2 * l + 1], 2 * l + 1, x, midState);
          fires := false;
          break;
        }
        l := l + 1;
      }
      if empty && skipEmpty {
        fires := false;
      }
    }

    /** `type_1a_feedback`: reinforce the weight of (c, k), then the automata of clause c. */
    method TypeIaFeedback(x: seq<int>, c: nat, k: nat, coins: seq<bool>)
      requires Shape() && |x| == numLiterals && c < numClauses && k < numClasses && |coins| == 2 * numLiterals
      modifies taState, weights
      ensures taState[..] == ClauseFeedback(TypeIa, Params(), old(taState[..]), ClauseStart(Params(), c), x, coins)
      ensures weights[..] == old(weights[..])[WeightIndex(Params(), c, k) := Reinforce(old(weights[WeightIndex(Params(), c, k)]))]
    {
      var w := WeightIndex(Params(), c, k);
      if weights[w] >= 0 {
        weights[w] := ToInt16(weights[w] + Min(1, SHRT_MAX - weights[w]));
      } else {
        weights[w] := ToInt16(weights[w] - Min(1, -(SHRT_MIN - weights[w])));
      }
      var base := c * numLiterals * 2;
      assert base == ClauseStart(Params(), c);
      TypeIaLiterals(x, base, coins);
    }

    /** The literal loop of `type_1a_feedback`. */
    method TypeIaLiterals(x: seq<int>, base: nat, coins: seq<bool>)
      requires |x| == numLiterals && |coins| == 2 * numLiterals && base + 2 * numLiterals <= taState.Length
      modifies taState
      ensures taState[..] == ClauseFeedback(TypeIa, Params(), old(taState[..]), base, x, coins)
    {
      ghost var S := taState[..];
      ghost var vals := ClauseUpdates(TypeIa, Params(), S, base, x, coins, numLiterals);
      var l := 0;
      while l < numLiterals
        invariant 0 <= l <= numLiterals
        invariant taState[..] == ClauseWrite(S, base, vals, l)
      {
        ClauseUpdatesAt(TypeIa, Params(), S, base, x, coins, numLiterals, l);
        TypeIaLiteral(x, base, l, coins, S, vals);
        l := l + 1;
      }
    }

    /** One literal of `type_1a_feedback`: the pair at base + 2l gets its new states. */
    method TypeIaLiteral(x: seq<int>, base: nat, l: nat, coins: seq<bool>, ghost S: seq<int>, ghost vals: seq<int>)
      requires |x| == numLiterals && l < numLiterals && |coins| == 2 * numLiterals
      requires |S| == taState.Length && |vals| == 2 * numLiterals && base + 2 * numLiterals <= taState.Length
      requires taState[..] == ClauseWrite(S, base, vals, l)
      requires vals[2 * l] == TaAfter(TypeIa, Params(), S[base + 2 * l], 0, x[l], coins[2 * l])
      requires vals[2 * l + 1] == TaAfter(TypeIa, Params(), S[base + 2 * l + 1], 1, x[l], coins[2 * l + 1])
      modifies taState
      ensures taState[..] == ClauseWrite(S, base, vals, l + 1)
    {
      var i0 := base + 2 * l;
      ClauseWriteOutside(S, base, vals, l, i0);
      ClauseWriteOutside(S, base, vals, l, i0 + 1);
      var positive, negated := TypeIaPair(x[l], taState[i0], taState[i0 + 1], coins[2 * l], coins[2 * l + 1]);
      SetPair(i0, positive, negated);
    }

    /**
     * The type Ia step of one literal with input value xl: input 1 raises the
     * positive automaton (always with boosting) and lowers the negated one;
     * any other input raises the negated automaton and lowers the positive
     * one, each on its own coin.
     */
    method TypeIaPair(xl: int, sp: int, sn: int, cp: bool, cn: bool) returns (positive: int, negated: int)
      ensures positive == TaAfter(TypeIa, Params(), sp, 0, xl, cp)
      ensures negated == TaAfter(TypeIa, Params(), sn, 1, xl, cn)
    {
      if xl == 1 {
        positive := Raise(sp, maxState, boost == 1 || cp);
        negated := Lower(sn, minState, cn);
      } else {
        negated := Raise(sn, maxState, cn);
        positive := Lower(sp, minState, cp);
      }
    }

    /** `type_1b_feedback`: every automaton of clause c is lowered on its coin. */
    method TypeIbFeedback(c: nat, ghost x: seq<int>, coins: seq<bool>)
      requires Shape() && |x| == numLiterals && c < numClauses && |coins| == 2 * numLiterals
      modifies taState
      ensures taState[..] == ClauseFeedback(TypeIb, Params(), old(taState[..]), ClauseStart(Params(), c), x, coins)
    {
      var base := c * numLiterals * 2;
      assert base == ClauseStart(Params(), c);
      TypeIbLiterals(x, base, coins);
    }

    /** The literal loop of `type_1b_feedback`. */
    method TypeIbLiterals(ghost x: seq<int>, base: nat, coins: seq<bool>)
      requires |x| == numLiterals && |coins| == 2 * numLiterals && base + 2 * numLiterals <= taState.Length
      modifies taState
      ensures taState[..] == ClauseFeedback(TypeIb, Params(), old(taState[..]), base, x, coins)
    {
      ghost var S := taState[..];
      ghost var vals := ClauseUpdates(TypeIb, Params(), S, base, x, coins, numLiterals);
      var l := 0;
      while l < numLiterals
        invariant 0 <= l <= numLiterals
        invariant taState[..] == ClauseWrite(S, base, vals, l)
      {
        ClauseUpdatesAt(TypeIb, Params(), S, base, x, coins, numLiterals, l);
        TypeIbLiteral(x, base, l, coins, S, vals);
        l := l + 1;
      }
    }

    /** One literal of `type_1b_feedback`: both automata are lowered, each on its coin. */
    method TypeIbLiteral(ghost x: seq<int>, base: nat, l: nat, coins: seq<bool>, ghost S: seq<int>, ghost vals: seq<int>)
      requires |x| == numLiterals && l < numLiterals && |coins| == 2 * numLiterals
      requires |S| == taState.Length && |vals| == 2 * numLiterals && base + 2 * numLiterals <= taState.Length
      requires taState[..] == ClauseWrite(S, base, vals, l)
      requires vals[2 * l] == TaAfter(TypeIb, Params(), S[base + 2 * l], 0, x[l], coins[2 * l])
      requires vals[2 * l + 1] == TaAfter(TypeIb, Params(), S[base + 2 * l + 1], 1, x[l], coins[2 * l + 1])
      modifies taState
      ensures taState[..] == ClauseWrite(S, base, vals, l + 1)
    {
      var i0 := base + 2 * l;
      ClauseWriteOutside(S, base, vals, l, i0);
      ClauseWriteOutside(S, base, vals, l, i0 + 1);
      var positive := Lower(taState[i0], minState, coins[2 * l]);
      var negated := Lower(taState[i0 + 1], minState, coins[2 * l + 1]);
      SetPair(i0, positive, negated);
    }

    /**
     * `type_2_feedback`: weaken the weight of (c, k), then raise each
     * excluded automaton of clause c whose literal would block the clause.
     */
    method TypeIIFeedback(x: seq<int>, c: nat, k: nat, ghost coins: seq<bool>)
      requires Shape() && |x| == numLiterals && c < numClauses && k < numClasses && |coins| == 2 * numLiterals
      modifies taState, weights
      ensures taState[..] == ClauseFeedback(TypeII, Params(), old(taState[..]), ClauseStart(Params(), c), x, coins)
      ensures weights[..] == old(weights[..])[WeightIndex(Params(), c, k) := Weaken(old(weights[WeightIndex(Params(), c, k)]))]
    {
      var w := WeightIndex(Params(), c, k);
      weights[w] := ToInt16(weights[w] + (if weights[w] >= 0 then -1 else 1));
      var base := c * numLiterals * 2;
      assert base == ClauseStart(Params(), c);
      TypeIILiterals(x, base, coins);
    }

    /** The literal loop of `type_2_feedback`. */
    method TypeIILiterals(x: seq<int>, base: nat, ghost coins: seq<bool>)
      requires midState == MidState(Params()) && |x| == numLiterals && |coins| == 2 * numLiterals && base + 2 * numLiterals <= taState.Length
      modifies taState
      ensures taState[..] == ClauseFeedback(TypeII, Params(), old(taState[..]), base, x, coins)
    {
      ghost var S := taState[..];
      ghost var vals := ClauseUpdates(TypeII, Params(), S, base, x, coins, numLiterals);
      var l := 0;
      while l < numLiterals
        invariant 0 <= l <= numLiterals
        invariant taState[..] == ClauseWrite(S, base, vals, l)
      {
        ClauseUpdatesAt(TypeII, Params(), S, base, x, coins, numLiterals, l);
        TypeIILiteral(x, base, l, coins, S, vals);
        l := l + 1;
      }
    }

    /** One literal of `type_2_feedback`: an excluded automaton whose literal the input falsifies is raised. */
    method TypeIILiteral(x: seq<int>, base: nat, l: nat, ghost coins: seq<bool>, ghost S: seq<int>, ghost vals: seq<int>)
      requires midState == MidState(Params()) && |x| == numLiterals && l < numLiterals && |coins| == 2 * numLiterals
      requires |S| == taState.Length && |vals| == 2 * numLiterals && base + 2 * numLiterals <= taState.Length
      requires taState[..] == ClauseWrite(S, base, vals, l)
      requires vals[2 * l] == TaAfter(TypeII, Params(), S[base + 2 * l], 0, x[l], coins[2 * l])
      requires vals[2 * l + 1] == TaAfter(TypeII, Params(), S[base + 2 * l + 1], 1, x[l], coins[2 * l + 1])
      modifies taState
      ensures taState[..] == ClauseWrite(S, base, vals, l + 1)
    {
      var i0 := base + 2 * l;
      ClauseWriteOutside(S, base, vals, l, i0);
      ClauseWriteOutside(S, base, vals, l, i0 + 1);
      var positive := Raise(taState[i0], maxState, !Includes(taState[i0], midState) && 0 == x[l]);
      var negated := Raise(taState[i0 + 1], maxState, !Includes(taState[i0 + 1], midState) && 1 == x[l]);
      SetPair(i0, positive, negated);
    }

    /** Store the new states of the pair of automata at i0 and i0 + 1. */
    method SetPair(i0: nat, positive: int, negated: int)
      requires i0 + 1 < taState.Length
      modifies taState
      ensures taState[..] == old(taState[..])[i0 := positive][i0 + 1 := negated]
    {
      taState[i0] := positive;
      taState[i0 + 1] := negated;
    }

    /** `tm_apply_feedback`: the kind of feedback clause c gets for class k, by its weight's sign and output. */
    method ApplyFeedback(c: nat, k: nat, classPositive: bool, x: seq<int>, coins: seq<bool>)
      requires Valid() && |x| == numLiterals && c < numClauses && k < numClasses && |coins| == 2 * numLiterals
      modifies taState, weights
      ensures Valid()
      ensures Snap() == ApplyToClause(Params(), old(Snap()), c, k, classPositive, clauseOutput[c], x, coins)
    {
      var w := WeightIndex(Params(), c, k);
      var votePositive := weights[w] >= 0;
      ghost var kind := Dispatch(weights[w], classPositive, clauseOutput[c]);
      if kind != NoFeedback {
        ClauseFeedbackWithin(kind, Params(), taState[..], ClauseStart(Params(), c), x, coins);
      }
      if votePositive == classPositive {
        if clauseOutput[c] {
          TypeIaFeedback(x, c, k, coins);
        } else {
          TypeIbFeedback(c, x, coins);
          assert weights[..] == old(weights[..])[w := old(weights[w])];
        }
      } else if clauseOutput[c] {
        TypeIIFeedback(x, c, k, coins);
      }
    }

    /** One feedback pass for class k over all clauses, each clause only if its gate is open. */
    method FeedbackPass(k: nat, classPositive: bool, x: seq<int>, d: ClassDraws)
      requires Valid() && |x| == numLiterals && k < numClasses && DrawsFit(Params(), d)
      modifies taState, weights
      ensures Valid()
      ensures Snap() == ClassPass(Params(), old(Snap()), k, classPositive, clauseOutput[..], x, d, numClauses)
    {
      ghost var start := Snap();
      var c := 0;
      while c < numClauses
        invariant 0 <= c <= numClauses && Valid()
        invariant Snap() == ClassPass(Params(), start, k, classPositive, clauseOutput[..], x, d, c)
      {
        GatedFeedback(c, k, classPositive, x, d, start);
        c := c + 1;
      }
    }

    /** Clause c's turn in a feedback pass: feedback when its gate is open. */
    method GatedFeedback(c: nat, k: nat, classPositive: bool, x: seq<int>, d: ClassDraws, ghost start: Snapshot)
      requires Valid() && |x| == numLiterals && c < numClauses && k < numClasses && DrawsFit(Params(), d)
      requires Shaped(Params(), start) && Snap() == ClassPass(Params(), start, k, classPositive, clauseOutput[..], x, d, c)
      modifies taState, weights
      ensures Valid()
      ensures Snap() == ClassPass(Params(), start, k, classPositive, clauseOutput[..], x, d, c + 1)
    {
      if d.gates[c] {
        ApplyFeedback(c, k, classPositive, x, d.coins[c]);
      }
    }

    /**
     * `tm_feedback_class_idx`: feedback for the label's class as positive
     * class, then for a negative class drawn by the roulette among the others,
     * using the clause outputs and votes of the current row.
     */
    method FeedbackClassIdx(x: seq<int>, target: nat, d: RowDraws)
      requires Valid() && |x| == numLiterals && target < numClasses && RowDrawsFit(Params(), d)
      modifies taState, weights
      ensures Valid()
      ensures Snap() == DenseSpec.FeedbackClassIdx(Params(), old(Snap()), votes[..], clauseOutput[..], x, target, d)
    {
      FeedbackPass(target, true, x, d.positive);
      var negative := PickWeighted(votes, OtherClasses(numClasses, target), ToInt32(threshold), d.negativePick);
      if negative.None? {
        return;
      }
      FeedbackPass(negative.value, false, x, d.negative);
    }

    /**
     * `tm_feedback_bin_vector`: feedback for a positive class drawn among the
     * classes the label marks, then for a negative class drawn among the rest.
     */
    method FeedbackBinVector(x: seq<int>, labels: seq<bool>, d: RowDraws)
      requires Valid() && |x| == numLiterals && |labels| == numClasses && RowDrawsFit(Params(), d)
      modifies taState, weights
      ensures Valid()
      ensures Snap() == DenseSpec.FeedbackBinVector(Params(), old(Snap()), votes[..], clauseOutput[..], x, labels, d)
    {
      var t := ToInt32(threshold);
      var positive := PickWeighted(votes, labels, t, d.positivePick);
      if positive.Some? {
        FeedbackPass(positive.value, true, x, d.positive);
      }
      var negative := PickWeighted(votes, Unmarked(labels), t, d.negativePick);
      if negative.Some? {
        FeedbackPass(negative.value, false, x, d.negative);
      }
    }

    /**
     * `tm_train`: for each epoch and each row, compute the clause outputs
     * keeping empty clauses, sum the votes and apply class-index feedback.
     */
    method Train(xs: seq<seq<int>>, ys: seq<nat>, epochs: nat, draws: seq<seq<RowDraws>>)
      requires Valid() && |draws| == epochs
      requires forall e :: 0 <= e < epochs ==> RowsFit(Params(), xs, ys, draws[e])
      modifies taState, weights, clauseOutput, votes
      ensures Valid()
      ensures Snap() == TrainEpochs(Params(), old(Snap()), xs, ys, draws, epochs)
    {
      var e := 0;
      while e < epochs
        invariant 0 <= e <= epochs && Valid()
        invariant Snap() == TrainEpochs(Params(), old(Snap()), xs, ys, draws, e)
      {
        ghost var start := Snap();
        var r := 0;
        while r < |xs|
          invariant 0 <= r <= |xs| && Valid()
          invariant Snap() == TrainRows(Params(), start, xs, ys, draws[e], r)
        {
          TrainRow(xs[r], ys[r], draws[e][r]);
          r := r + 1;
        }
        e := e + 1;
      }
    }

    /**
     * One row of training: clause outputs with empty clauses kept, the
     * clipped votes, then class-index feedback.
     */
    method TrainRow(x: seq<int>, target: nat, d: RowDraws)
      requires Valid() && |x| == numLiterals && target < numClasses && RowDrawsFit(Params(), d)
      modifies taState, weights, clauseOutput, votes
      ensures Valid()
      ensures Snap() == DenseSpec.TrainRow(Params(), old(Snap()), x, target, d)
    {
      CalculateClauseOutput(x, false);
      SumVotes(clauseOutput, weights, votes, threshold);
      FeedbackClassIdx(x, target, d);
    }

    /** The votes of input x as inference computes them (empty clauses skipped). */
    ghost function PredictVotes(x: seq<int>): (v: seq<int>)
      requires Valid() && |x| == numLiterals
      reads taState, weights
    {
      ClassVotes(Outputs(Params(), taState[..], x, true), weights[..], numClasses, ToInt32(threshold))
    }

    /**
     * `tm_predict` with the class-index output: per row, clause outputs with
     * empty clauses skipped, votes, and the lowest class of maximal vote.
     */
    method Predict(xs: seq<seq<int>>) returns (predictions: seq<nat>)
      requires Valid() && numClasses > 0
      requires forall r :: 0 <= r < |xs| ==> |xs[r]| == numLiterals
      modifies clauseOutput, votes
      ensures |predictions| == |xs|
      ensures forall r :: 0 <= r < |xs| ==> predictions[r] == ArgMax(PredictVotes(xs[r]))
    {
      predictions := [];
      var r := 0;
      while r < |xs|
        invariant 0 <= r <= |xs| && |predictions| == r
        invariant forall j :: 0 <= j < r ==> predictions[j] == ArgMax(PredictVotes(xs[j]))
      {
        var best := PredictRow(xs[r]);
        predictions := predictions + [best];
        r := r + 1;
      }
    }

    /** One row of `tm_predict` with the class-index output. */
    method PredictRow(x: seq<int>) returns (best: nat)
      requires Valid() && numClasses > 0 && |x| == numLiterals
      modifies clauseOutput, votes
      ensures best == ArgMax(PredictVotes(x))
    {
      CalculateClauseOutput(x, true);
      SumVotes(clauseOutput, weights, votes, threshold);
      best := ClassIdx(votes);
    }

    /**
     * `tm_predict` with the binary-vector output: per row, class k is
     * predicted iff its vote exceeds the middle state.
     */
    method PredictBinVector(xs: seq<seq<int>>) returns (predictions: seq<seq<bool>>)
      requires Valid()
      requires forall r :: 0 <= r < |xs| ==> |xs[r]| == numLiterals
      modifies clauseOutput, votes
      ensures |predictions| == |xs|
      ensures forall r :: 0 <= r < |xs| ==> |predictions[r]| == numClasses
      ensures forall r, k :: 0 <= r < |xs| && 0 <= k < numClasses ==> (predictions[r][k] <==> PredictVotes(xs[r])[k] > midState)
    {
      predictions := [];
      var r := 0;
      while r < |xs|
        invariant 0 <= r <= |xs| && |predictions| == r
        invariant forall j :: 0 <= j < r ==> |predictions[j]| == numClasses
        invariant forall j, k :: 0 <= j < r && 0 <= k < numClasses ==> (predictions[j][k] <==> PredictVotes(xs[j])[k] > midState)
      {
        CalculateClauseOutput(xs[r], true);
        SumVotes(clauseOutput, weights, votes, threshold);
        var y := BinVector(votes, midState);
        predictions := predictions + [y];
        r := r + 1;
      }
    }

    /**
     * `tm_save`: the header fields, the `s` bytes (opaque here), the weights,
     * then the automaton states.
     */
    method Save(s: seq<Byte>) returns (bytes: seq<Byte>)
      requires Valid() && |s| == S_SIZE
      ensures bytes == Encode(Contents(), s)
    {
      bytes := EncodeHeader(Params(), s);
      var i := 0;
      while i < weights.Length
        invariant 0 <= i <= weights.Length
        invariant bytes == EncodeHeader(Params(), s) + EncodeInt16s(weights[..i])
      {
        assert weights[..i + 1] == weights[..i] + [weights[i]];
        EncodeInt16sSnoc(weights[..i], weights[i]);
        bytes := bytes + I16(weights[i]);
        i := i + 1;
      }
      assert weights[..weights.Length] == weights[..];
      i := 0;
      while i < taState.Length
        invariant 0 <= i <= taState.Length
        invariant bytes == EncodeHeader(Params(), s) + EncodeInt16s(weights[..]) + EncodeInt8s(taState[..i])
      {
        assert taState[..i + 1] == taState[..i] + [taState[i]];
        EncodeInt8sSnoc(taState[..i], taState[i]);
        bytes := bytes + I8(taState[i]);
        i := i + 1;
      }
      assert taState[..taState.Length] == taState[..];
    }

    /**
     * `tm_load`: read the header, create a machine with seed 42, then read
     * the weights and the states over its initial ones; any short read
     * fails with the part being read.
     */
    static method Load(bytes: seq<Byte>) returns (r: Result<TsetlinMachine, LoadError>)
      ensures r.Err? <==> Decode(bytes).Err?
      ensures r.Err? ==> r.error == Decode(bytes).error
      ensures r.Ok? ==> fresh(r.value) && r.value.Valid() && r.value.Contents() == Decode(bytes).value
      ensures r.Ok? ==> var h := Decode(bytes).value.header;
        r.value.rng.state == Advance(Advance(SeedState(LOAD_SEED), h.numClauses * h.numLiterals), h.numClauses * h.numClasses)
    {
      if |bytes| < HEADER_SIZE {
        return Err(ShortMetadata);
      }
      var h := DecodeHeader(bytes);
      var tm := new TsetlinMachine(h.numClasses, h.threshold, h.numLiterals, h.numClauses,
                                   h.maxState, h.minState, h.boost, LOAD_SEED);
      var body := bytes[HEADER_SIZE..];
      if |body| < 2 * WeightCount(h) {
        return Err(ShortWeights);
      }
      var ws := DecodeInt16s(body, WeightCount(h));
      CopyInto(tm.weights, ws);
      if |body| - 2 * WeightCount(h) < StateCount(h) {
        return Err(ShortStates);
      }
      var ss := DecodeInt8s(body[2 * WeightCount(h)..], StateCount(h));
      CopyInto(tm.taState, ss);
      return Ok(tm);
    }
  }

  /** Fill an array from the values read for it. */
  method CopyInto(a: array<int>, vs: seq<int>)
    requires a.Length == |vs|
    modifies a
    ensures a[..] == vs
  {
    var i := 0;
    while i < a.Length
      invariant 0 <= i <= a.Length
      invariant a[..i] == vs[..i]
    {
      a[i] := vs[i];
      i := i + 1;
    }
    assert a[..] == a[..a.Length];
  }
}
