/*
 * What the dense engine computes, as functions of its parameters (the file
 * header) and of a snapshot of its two learned arrays: the per-automaton and
 * per-weight feedback steps, the feedback dispatch, one feedback pass over
 * the clauses for a class, the class-index and binary-vector feedback, and
 * training over rows and epochs. The engine's methods are proved to compute
 * these; the lemmas here say what they guarantee.
 *
 * Every float draw the engine compares with a probability is an oracle
 * boolean here: per clause a gate (is the clause updated for the class?) and
 * per automaton of the clause a coin. The uint32 draws of the class roulette
 * are oracle numbers.
 */
module DenseSpec {
  import opened Utility
  import opened Wrappers
  import opened Inference
  import opened ClassSelection
  import opened DenseCodec
  import opened Bytes

  /** `mid_state = (max_state + min_state) / 2`, with C's truncating division. */
  function MidState(h: Header): (m: int)
    ensures IsInt8(h.maxState) && IsInt8(h.minState) ==> IsInt8(m)
    ensures h.minState <= h.maxState ==> h.minState <= m <= h.maxState
  {
    HalfTowardZero(h.maxState + h.minState)
  }

  /** Clause c occupies the automata `c * numLiterals * 2` up to the next clause. */
  lemma ClauseBounds(h: Header, c: nat)
    requires c < h.numClauses
    ensures c * h.numLiterals * 2 + 2 * h.numLiterals <= StateCount(h)
  {
    MulMonotone(c + 1, h.numClauses, h.numLiterals);
  }

  /** The 2 * numLiterals automaton states of clause c. */
  function Clause(h: Header, states: seq<int>, c: nat): (cl: seq<int>)
    requires c < h.numClauses && |states| == StateCount(h)
    ensures |cl| == 2 * h.numLiterals
  {
    ClauseBounds(h, c);
    states[c * h.numLiterals * 2 .. c * h.numLiterals * 2 + 2 * h.numLiterals]
  }

  /** The outputs of all clauses on input x. */
  function Outputs(h: Header, states: seq<int>, x: seq<int>, skipEmpty: bool): (r: seq<bool>)
    requires |states| == StateCount(h) && |x| == h.numLiterals
    ensures |r| == h.numClauses
  {
    seq(h.numClauses, c requires 0 <= c < h.numClauses => Fires(Clause(h, states, c), x, MidState(h), skipEmpty))
  }

  /**
   * `s += min(max_state - s, 1) * gate`, stored back into `int8_t`: when the
   * gate is open, one step up, never above the maximum.
   */
  function Raise(s: int, maxState: int, gate: bool): (r: int)
    ensures IsInt8(r)
    ensures IsInt8(s) && IsInt8(maxState) ==>
      r == (if !gate then s else if s < maxState then s + 1 else maxState)
  {
    ToInt8(s + Min(maxState - s, 1) * (if gate then 1 else 0))
  }

  /**
   * `s -= min(-(min_state - s), 1) * gate`, stored back into `int8_t`: when
   * the gate is open, one step down, never below the minimum.
   */
  function Lower(s: int, minState: int, gate: bool): (r: int)
    ensures IsInt8(r)
    ensures IsInt8(s) && IsInt8(minState) ==>
      r == (if !gate then s else if s > minState then s - 1 else minState)
  {
    ToInt8(s - Min(-(minState - s), 1) * (if gate then 1 else 0))
  }

  function Abs(x: int): nat
  {
    if x < 0 then -x else x
  }

  /**
   * The type Ia weight step, away from zero: `w += min(1, SHRT_MAX - w)` for
   * w >= 0 and `w -= min(1, -(SHRT_MIN - w))` otherwise. The sign is kept and
   * the magnitude grows by one, except at the `int16_t` limits.
   */
  function Reinforce(w: int): (r: int)
    ensures IsInt16(r)
    ensures IsInt16(w) ==> (r >= 0 <==> w >= 0)
    ensures IsInt16(w) ==> Abs(r) == if w == SHRT_MAX || w == SHRT_MIN then Abs(w) else Abs(w) + 1
  {
    if w >= 0 then ToInt16(w + Min(1, SHRT_MAX - w)) else ToInt16(w - Min(1, -(SHRT_MIN - w)))
  }

  /**
   * The type II weight step, toward zero: `w += w >= 0 ? -1 : 1`. A zero
   * weight counts as a positive vote and so becomes -1.
   */
  function Weaken(w: int): (r: int)
    ensures IsInt16(r)
    ensures IsInt16(w) && w != 0 ==> Abs(r) == Abs(w) - 1 && (w > 0 ==> r >= 0) && (w < 0 ==> r <= 0)
    ensures w == 0 ==> r == -1
  {
    ToInt16(w + (if w >= 0 then -1 else 1))
  }

  datatype Feedback = TypeIa | TypeIb | TypeII | NoFeedback

  /**
   * `tm_apply_feedback`: a clause whose weight sign agrees with the class's
   * role gets type Ia if it fired and type Ib if not; one that disagrees gets
   * type II if it fired and nothing otherwise.
   */
  function Dispatch(weight: int, classPositive: bool, fires: bool): Feedback
  {
    if (weight >= 0) == classPositive then (if fires then TypeIa else TypeIb)
    else if fires then TypeII
    else NoFeedback
  }

  /**
   * Type Ia on the automaton of polarity p (0 positive, 1 negated) of a
   * literal whose input value is xl. Input 1: the positive automaton is
   * raised (always when true-positive boosting is on, otherwise on its coin)
   * and the negated one lowered on its coin. Any other input: the negated
   * automaton is raised and the positive one lowered, each on its coin.
   */
  function TypeIaTa(h: Header, s: int, p: nat, xl: int, coin: bool): int
    requires p < 2
  {
    if xl == 1 then
      if p == 0 then Raise(s, h.maxState, h.boost == 1 || coin) else Lower(s, h.minState, coin)
    else
      if p == 1 then Raise(s, h.maxState, coin) else Lower(s, h.minState, coin)
  }

  /**
   * Type II on the automaton of polarity p of a literal with input value xl:
   * raised by one iff it excludes its literal and xl is the value that would
   * make it block the clause (0 for a positive literal, 1 for a negated one).
   */
  function TypeIITa(h: Header, s: int, p: nat, xl: int): int
    requires p < 2
  {
    Raise(s, h.maxState, !Includes(s, MidState(h)) && xl == p)
  }

  /**
   * Type II moves an automaton below the maximum up by exactly one when it
   * excludes its literal and the input would make it block the clause, and
   * leaves it alone otherwise: it never touches an included automaton.
   */
  lemma TypeIIRaisesOnlyBlockers(h: Header, s: int, p: nat, xl: int)
    requires p < 2 && IsInt8(s) && IsInt8(h.maxState) && s < h.maxState
    ensures TypeIITa(h, s, p, xl) == if !Includes(s, MidState(h)) && xl == p then s + 1 else s
  {
  }

  function WeightAfter(kind: Feedback, w: int): (r: int)
    ensures IsInt16(w) ==> IsInt16(r)
  {
    match kind
    case TypeIa => Reinforce(w)
    case TypeII => Weaken(w)
    case _ => w
  }

  /** The two learned arrays: weights (clause, class) and automaton states (clause, literal, polarity). */
  datatype Snapshot = Snapshot(states: seq<int>, weights: seq<int>)

  predicate Shaped(h: Header, sn: Snapshot)
  {
    |sn.states| == StateCount(h) && |sn.weights| == WeightCount(h)
  }

  predicate StatesWithin(states: seq<int>, minState: int, maxState: int)
  {
    forall i :: 0 <= i < |states| ==> minState <= states[i] <= maxState
  }

  /**
   * The invariant training keeps: the arrays have the header's shape, every
   * state lies in [min_state, max_state] and every weight is an `int16_t`.
   */
  predicate Consistent(h: Header, sn: Snapshot)
  {
    IsInt8(h.maxState) && IsInt8(h.minState) && Shaped(h, sn) && StatesWithin(sn.states, h.minState, h.maxState)
    && AllInt16(sn.weights)
  }

  /** One automaton under a kind of feedback; type Ib lowers every automaton of the clause on its coin. */
  function TaAfter(kind: Feedback, h: Header, s: int, p: nat, xl: int, coin: bool): int
    requires p < 2
  {
    match kind
    case TypeIa => TypeIaTa(h, s, p, xl, coin)
    case TypeIb => Lower(s, h.minState, coin)
    case TypeII => TypeIITa(h, s, p, xl)
    case NoFeedback => s
  }

  /** No kind of feedback takes an automaton out of `int8_t`, nor out of [min_state, max_state]. */
  lemma TaAfterBounds(kind: Feedback, h: Header, s: int, p: nat, xl: int, coin: bool)
    requires p < 2
    ensures IsInt8(s) ==> IsInt8(TaAfter(kind, h, s, p, xl, coin))
    ensures IsInt8(h.maxState) && IsInt8(h.minState) && h.minState <= s <= h.maxState ==>
      h.minState <= TaAfter(kind, h, s, p, xl, coin) <= h.maxState
  {
  }

  /** Where the automata of clause c start: clause c is followed by 2 * numLiterals automata of its own. */
  function ClauseStart(h: Header, c: nat): (b: nat)
    requires c < h.numClauses
    ensures b + 2 * h.numLiterals <= StateCount(h)
  {
    ClauseBounds(h, c);
    c * h.numLiterals * 2
  }

  /**
   * The new states one kind of feedback computes for the first 2n automata
   * of the clause whose automata start at `base`: automaton 2l + p (the
   * automaton of literal l with polarity p, 0 positive and 1 negated) from
   * its own state and its coin `coins[2l + p]` (type II draws none and
   * ignores them).
   */
  function ClauseUpdates(kind: Feedback, h: Header, states: seq<int>, base: nat, x: seq<int>, coins: seq<bool>, n: nat): (r: seq<int>)
    requires base + 2 * |x| <= |states| && |coins| == 2 * |x| && n <= |x|
    ensures |r| == 2 * n
  {
    if n == 0 then []
    else
      var i := base + 2 * (n - 1);
      ClauseUpdates(kind, h, states, base, x, coins, n - 1)
        + [TaAfter(kind, h, states[i], 0, x[n - 1], coins[2 * (n - 1)]),
           TaAfter(kind, h, states[i + 1], 1, x[n - 1], coins[2 * (n - 1) + 1])]
  }

  /** The new states of the pair of literal l. */
  lemma {:induction false} ClauseUpdatesAt(kind: Feedback, h: Header, states: seq<int>, base: nat, x: seq<int>,
                                           coins: seq<bool>, n: nat, l: nat)
    requires base + 2 * |x| <= |states| && |coins| == 2 * |x| && l < n <= |x|
    ensures ClauseUpdates(kind, h, states, base, x, coins, n)[2 * l]
      == TaAfter(kind, h, states[base + 2 * l], 0, x[l], coins[2 * l])
    ensures ClauseUpdates(kind, h, states, base, x, coins, n)[2 * l + 1]
      == TaAfter(kind, h, states[base + 2 * l + 1], 1, x[l], coins[2 * l + 1])
  {
    if l < n - 1 {
      ClauseUpdatesAt(kind, h, states, base, x, coins, n - 1, l);
    }
  }

  /** Feedback keeps every new state in [min_state, max_state] and in `int8_t`. */
  lemma {:induction false} ClauseUpdatesWithin(kind: Feedback, h: Header, states: seq<int>, base: nat, x: seq<int>,
                                               coins: seq<bool>, n: nat)
    requires base + 2 * |x| <= |states| && |coins| == 2 * |x| && n <= |x|
    ensures AllInt8(states) ==> AllInt8(ClauseUpdates(kind, h, states, base, x, coins, n))
    ensures IsInt8(h.maxState) && IsInt8(h.minState) && StatesWithin(states, h.minState, h.maxState) ==>
      StatesWithin(ClauseUpdates(kind, h, states, base, x, coins, n), h.minState, h.maxState)
  {
    if n > 0 {
      ClauseUpdatesWithin(kind, h, states, base, x, coins, n - 1);
      var i := base + 2 * (n - 1);
      TaAfterBounds(kind, h, states[i], 0, x[n - 1], coins[2 * (n - 1)]);
      TaAfterBounds(kind, h, states[i + 1], 1, x[n - 1], coins[2 * (n - 1) + 1]);
    }
  }

  /**
   * The literal loop of the feedback functions: the pairs of the first n
   * literals of the clause whose automata start at `base` overwritten, in
   * turn, with their new states `vals`.
   */
  function ClauseWrite(states: seq<int>, base: nat, vals: seq<int>, n: nat): (r: seq<int>)
    requires 2 * n <= |vals| && base + |vals| <= |states|
    ensures |r| == |states|
  {
    if n == 0 then states
    else
      var i := base + 2 * (n - 1);
      ClauseWrite(states, base, vals, n - 1)[i := vals[2 * (n - 1)]][i + 1 := vals[2 * (n - 1) + 1]]
  }

  /** The literal loop leaves every automaton outside the first n pairs as it was. */
  lemma {:induction false} ClauseWriteOutside(states: seq<int>, base: nat, vals: seq<int>, n: nat, i: nat)
    requires 2 * n <= |vals| && base + |vals| <= |states| && i < |states|
    requires i < base || base + 2 * n <= i
    ensures ClauseWrite(states, base, vals, n)[i] == states[i]
  {
    if n > 0 {
      ClauseWriteOutside(states, base, vals, n - 1, i);
    }
  }

  /** Automaton j < 2n of the clause ends with its new state, written exactly once. */
  lemma {:induction false} ClauseWriteInside(states: seq<int>, base: nat, vals: seq<int>, n: nat, j: nat)
    requires 2 * n <= |vals| && base + |vals| <= |states| && j < 2 * n
    ensures ClauseWrite(states, base, vals, n)[base + j] == vals[j]
  {
    if j < 2 * (n - 1) {
      ClauseWriteInside(states, base, vals, n - 1, j);
    }
  }

  /** Writing values that satisfy P over states that satisfy it keeps every state satisfying it. */
  lemma {:induction false} ClauseWriteWithin(states: seq<int>, base: nat, vals: seq<int>, n: nat, lo: int, hi: int)
    requires 2 * n <= |vals| && base + |vals| <= |states|
    requires StatesWithin(states, lo, hi) && StatesWithin(vals, lo, hi)
    ensures StatesWithin(ClauseWrite(states, base, vals, n), lo, hi)
  {
    if n > 0 {
      ClauseWriteWithin(states, base, vals, n - 1, lo, hi);
    }
  }

  /** Writing `int8_t` values over `int8_t` states keeps every state an `int8_t`. */
  lemma {:induction false} ClauseWriteInt8(states: seq<int>, base: nat, vals: seq<int>, n: nat)
    requires 2 * n <= |vals| && base + |vals| <= |states|
    requires AllInt8(states) && AllInt8(vals)
    ensures AllInt8(ClauseWrite(states, base, vals, n))
  {
    if n > 0 {
      ClauseWriteInt8(states, base, vals, n - 1);
    }
  }

  /**
   * The literal loop of one kind of feedback: the clause's automata all
   * take their new states, computed from the states before the loop.
   */
  function ClauseFeedback(kind: Feedback, h: Header, states: seq<int>, base: nat, x: seq<int>, coins: seq<bool>): (r: seq<int>)
    requires base + 2 * |x| <= |states| && |coins| == 2 * |x|
    ensures |r| == |states|
  {
    ClauseWrite(states, base, ClauseUpdates(kind, h, states, base, x, coins, |x|), |x|)
  }

  /**
   * The literal loop in closed form: automaton 2l + p of the clause takes
   * the state the feedback computes from its own state before the loop, and
   * every automaton outside the clause keeps its state.
   */
  lemma ClauseFeedbackPointwise(kind: Feedback, h: Header, states: seq<int>, base: nat, x: seq<int>, coins: seq<bool>, i: nat)
    requires base + 2 * |x| <= |states| && |coins| == 2 * |x| && i < |states|
    ensures ClauseFeedback(kind, h, states, base, x, coins)[i] ==
      if base <= i < base + 2 * |x|
      then TaAfter(kind, h, states[i], (i - base) % 2, x[(i - base) / 2], coins[i - base])
      else states[i]
  {
    var vals := ClauseUpdates(kind, h, states, base, x, coins, |x|);
    if base <= i < base + 2 * |x| {
      var l := (i - base) / 2;
      ClauseUpdatesAt(kind, h, states, base, x, coins, |x|, l);
      ClauseWriteInside(states, base, vals, |x|, i - base);
      assert i == base + 2 * l || i == base + 2 * l + 1;
    } else {
      ClauseWriteOutside(states, base, vals, |x|, i);
    }
  }

  /** No kind of feedback moves a state out of [min_state, max_state], nor out of `int8_t`. */
  lemma ClauseFeedbackWithin(kind: Feedback, h: Header, states: seq<int>, base: nat, x: seq<int>, coins: seq<bool>)
    requires base + 2 * |x| <= |states| && |coins| == 2 * |x|
    ensures AllInt8(states) ==> AllInt8(ClauseFeedback(kind, h, states, base, x, coins))
    ensures IsInt8(h.maxState) && IsInt8(h.minState) && StatesWithin(states, h.minState, h.maxState) ==>
      StatesWithin(ClauseFeedback(kind, h, states, base, x, coins), h.minState, h.maxState)
  {
    var vals := ClauseUpdates(kind, h, states, base, x, coins, |x|);
    ClauseUpdatesWithin(kind, h, states, base, x, coins, |x|);
    if AllInt8(states) {
      ClauseWriteInt8(states, base, vals, |x|);
    }
    if IsInt8(h.maxState) && IsInt8(h.minState) && StatesWithin(states, h.minState, h.maxState) {
      ClauseWriteWithin(states, base, vals, |x|, h.minState, h.maxState);
    }
  }

  /** The states after one kind of feedback on clause c: the literal loop over all literals, or nothing. */
  function StatesAfter(kind: Feedback, h: Header, states: seq<int>, c: nat, x: seq<int>, coins: seq<bool>): (r: seq<int>)
    requires c < h.numClauses && |states| == StateCount(h)
    requires |x| == h.numLiterals && |coins| == 2 * h.numLiterals
    ensures |r| == |states|
  {
    if kind == NoFeedback then states else ClauseFeedback(kind, h, states, ClauseStart(h, c), x, coins)
  }

  /** The flat index of the weight of (clause c, class k). */
  function WeightIndex(h: Header, c: nat, k: nat): (i: nat)
    requires c < h.numClauses && k < h.numClasses
    ensures i < WeightCount(h)
  {
    CellInRange(c, k, h.numClauses, h.numClasses);
    c * h.numClasses + k
  }

  /** `tm_apply_feedback` on clause c for class k. */
  function ApplyToClause(h: Header, sn: Snapshot, c: nat, k: nat, classPositive: bool, fires: bool,
                         x: seq<int>, coins: seq<bool>): (r: Snapshot)
    requires Shaped(h, sn) && c < h.numClauses && k < h.numClasses
    requires |x| == h.numLiterals && |coins| == 2 * h.numLiterals
    ensures Shaped(h, r)
  {
    var w := WeightIndex(h, c, k);
    var kind := Dispatch(sn.weights[w], classPositive, fires);
    Snapshot(StatesAfter(kind, h, sn.states, c, x, coins), sn.weights[w := WeightAfter(kind, sn.weights[w])])
  }

  /** The oracle draws of one feedback pass: a gate per clause, a coin per automaton of each clause. */
  datatype ClassDraws = ClassDraws(gates: seq<bool>, coins: seq<seq<bool>>)

  predicate DrawsFit(h: Header, d: ClassDraws)
  {
    |d.gates| == h.numClauses && |d.coins| == h.numClauses
    && forall c :: 0 <= c < h.numClauses ==> |d.coins[c]| == 2 * h.numLiterals
  }

  /** Feedback for class k to the first n clauses, each in turn if its gate is open. */
  function ClassPass(h: Header, sn: Snapshot, k: nat, classPositive: bool, outputs: seq<bool>,
                     x: seq<int>, d: ClassDraws, n: nat): (r: Snapshot)
    requires Shaped(h, sn) && k < h.numClasses && |outputs| == h.numClauses && |x| == h.numLiterals
    requires DrawsFit(h, d) && n <= h.numClauses
    ensures Shaped(h, r)
  {
    if n == 0 then sn
    else
      var prev := ClassPass(h, sn, k, classPositive, outputs, x, d, n - 1);
      if d.gates[n - 1] then ApplyToClause(h, prev, n - 1, k, classPositive, outputs[n - 1], x, d.coins[n - 1])
      else prev
  }

  /** One feedback step keeps the training invariant. */
  lemma ApplyToClauseConsistent(h: Header, sn: Snapshot, c: nat, k: nat, classPositive: bool, fires: bool,
                                x: seq<int>, coins: seq<bool>)
    requires Consistent(h, sn) && c < h.numClauses && k < h.numClasses
    requires |x| == h.numLiterals && |coins| == 2 * h.numLiterals
    ensures Consistent(h, ApplyToClause(h, sn, c, k, classPositive, fires, x, coins))
  {
    var w := WeightIndex(h, c, k);
    var kind := Dispatch(sn.weights[w], classPositive, fires);
    if kind != NoFeedback {
      ClauseFeedbackWithin(kind, h, sn.states, ClauseStart(h, c), x, coins);
    }
  }

  lemma {:induction false} ClassPassConsistent(h: Header, sn: Snapshot, k: nat, classPositive: bool,
                                               outputs: seq<bool>, x: seq<int>, d: ClassDraws, n: nat)
    requires Consistent(h, sn) && k < h.numClasses && |outputs| == h.numClauses && |x| == h.numLiterals
    requires DrawsFit(h, d) && n <= h.numClauses
    ensures Consistent(h, ClassPass(h, sn, k, classPositive, outputs, x, d, n))
  {
    if n > 0 {
      ClassPassConsistent(h, sn, k, classPositive, outputs, x, d, n - 1);
      var prev := ClassPass(h, sn, k, classPositive, outputs, x, d, n - 1);
      if d.gates[n - 1] {
        ApplyToClauseConsistent(h, prev, n - 1, k, classPositive, outputs[n - 1], x, d.coins[n - 1]);
        assert ClassPass(h, sn, k, classPositive, outputs, x, d, n)
          == ApplyToClause(h, prev, n - 1, k, classPositive, outputs[n - 1], x, d.coins[n - 1]);
      } else {
        assert ClassPass(h, sn, k, classPositive, outputs, x, d, n) == prev;
      }
    }
  }

  /** The oracle draws of one training row: the roulette draws and the two feedback passes. */
  datatype RowDraws = RowDraws(positivePick: nat, positive: ClassDraws, negativePick: nat, negative: ClassDraws)

  predicate RowDrawsFit(h: Header, d: RowDraws)
  {
    DrawsFit(h, d.positive) && DrawsFit(h, d.negative)
  }

  /** Every class but the label is a candidate for the negative class. */
  function OtherClasses(numClasses: nat, target: nat): (r: seq<bool>)
    ensures |r| == numClasses
  {
    seq(numClasses, k => k != target)
  }

  /**
   * The negative class of a class-index label: while the other classes'
   * total fits in `int32_t` (T at most INT32_MAX / (2 * num_classes)), one
   * of them is drawn whenever they weigh something, and it is never the
   * label's class.
   */
  lemma NegativeClassIsAnotherClass(votes: seq<int>, target: nat, t: int, draw: nat)
    requires Fits(t, |votes|) && target < |votes|
    ensures var picked := Pick(votes, OtherClasses(|votes|, target), t, draw);
      (picked.Some? <==> Pool(votes, OtherClasses(|votes|, target), t, |votes|) > 0)
      && (picked.Some? ==> picked.value != target && picked.value < |votes|)
  {
    PoolBound(votes, OtherClasses(|votes|, target), t, |votes|);
    PickFindsCandidate(votes, OtherClasses(|votes|, target), t, draw);
  }

  /**
   * `tm_feedback_class_idx`: feedback for the label as positive class, then,
   * unless the other classes' `int32_t` total is 0, for the negative class
   * the roulette draws (`Pick`, with its fallback to class 0).
   */
  function FeedbackClassIdx(h: Header, sn: Snapshot, votes: seq<int>, outputs: seq<bool>, x: seq<int>,
                            target: nat, d: RowDraws): (r: Snapshot)
    requires Shaped(h, sn) && |votes| == h.numClasses && target < h.numClasses
    requires |outputs| == h.numClauses && |x| == h.numLiterals && RowDrawsFit(h, d)
    ensures Shaped(h, r)
  {
    var afterPositive := ClassPass(h, sn, target, true, outputs, x, d.positive, h.numClauses);
    var negative := Pick(votes, OtherClasses(h.numClasses, target), ToInt32(h.threshold), d.negativePick);
    if negative.None? then afterPositive
    else ClassPass(h, afterPositive, negative.value, false, outputs, x, d.negative, h.numClauses)
  }

  /** The classes a binary-vector label does not mark. */
  function Unmarked(labels: seq<bool>): (r: seq<bool>)
    ensures |r| == |labels|
  {
    seq(|labels|, k requires 0 <= k < |labels| => !labels[k])
  }

  /**
   * `tm_feedback_bin_vector`: feedback for a positive class drawn among the
   * marked classes (skipped if their `int32_t` total is 0), then for a
   * negative class drawn among the unmarked ones (skipped likewise).
   */
  function FeedbackBinVector(h: Header, sn: Snapshot, votes: seq<int>, outputs: seq<bool>, x: seq<int>,
                             labels: seq<bool>, d: RowDraws): (r: Snapshot)
    requires Shaped(h, sn) && |votes| == h.numClasses && |labels| == h.numClasses
    requires |outputs| == h.numClauses && |x| == h.numLiterals && RowDrawsFit(h, d)
    ensures Shaped(h, r)
  {
    var t := ToInt32(h.threshold);
    var positive := Pick(votes, labels, t, d.positivePick);
    var afterPositive :=
      if positive.None? then sn
      else ClassPass(h, sn, positive.value, true, outputs, x, d.positive, h.numClauses);
    var negative := Pick(votes, Unmarked(labels), t, d.negativePick);
    if negative.None? then afterPositive
    else ClassPass(h, afterPositive, negative.value, false, outputs, x, d.negative, h.numClauses)
  }

  /**
   * One training row: clause outputs with empty clauses kept, clipped votes,
   * then class-index feedback.
   */
  function TrainRow(h: Header, sn: Snapshot, x: seq<int>, target: nat, d: RowDraws): (r: Snapshot)
    requires Shaped(h, sn) && |x| == h.numLiterals && target < h.numClasses && RowDrawsFit(h, d)
    ensures Shaped(h, r)
  {
    var outputs := Outputs(h, sn.states, x, false);
    var votes := ClassVotes(outputs, sn.weights, h.numClasses, ToInt32(h.threshold));
    FeedbackClassIdx(h, sn, votes, outputs, x, target, d)
  }

  /** Rows X and labels y fit the machine, with draws for each row. */
  predicate RowsFit(h: Header, xs: seq<seq<int>>, ys: seq<nat>, ds: seq<RowDraws>)
  {
    |ys| == |xs| && |ds| == |xs|
    && (forall r :: 0 <= r < |xs| ==> |xs[r]| == h.numLiterals)
    && (forall r :: 0 <= r < |ys| ==> ys[r] < h.numClasses)
    && (forall r :: 0 <= r < |ds| ==> RowDrawsFit(h, ds[r]))
  }

  /** The first n rows of one epoch, in order. */
  function TrainRows(h: Header, sn: Snapshot, xs: seq<seq<int>>, ys: seq<nat>, ds: seq<RowDraws>, n: nat): (r: Snapshot)
    requires Shaped(h, sn) && RowsFit(h, xs, ys, ds) && n <= |xs|
    ensures Shaped(h, r)
  {
    if n == 0 then sn
    else TrainRow(h, TrainRows(h, sn, xs, ys, ds, n - 1), xs[n - 1], ys[n - 1], ds[n - 1])
  }

  /** The first n epochs, each over all rows; `draws[e]` are the draws of epoch e. */
  function TrainEpochs(h: Header, sn: Snapshot, xs: seq<seq<int>>, ys: seq<nat>, draws: seq<seq<RowDraws>>, n: nat): (r: Snapshot)
    requires Shaped(h, sn) && n <= |draws|
    requires forall e :: 0 <= e < |draws| ==> RowsFit(h, xs, ys, draws[e])
    ensures Shaped(h, r)
  {
    if n == 0 then sn
    else TrainRows(h, TrainEpochs(h, sn, xs, ys, draws, n - 1), xs, ys, draws[n - 1], |xs|)
  }

  lemma TrainRowConsistent(h: Header, sn: Snapshot, x: seq<int>, target: nat, d: RowDraws)
    requires Consistent(h, sn) && |x| == h.numLiterals && target < h.numClasses && RowDrawsFit(h, d)
    ensures Consistent(h, TrainRow(h, sn, x, target, d))
  {
    var outputs := Outputs(h, sn.states, x, false);
    var votes := ClassVotes(outputs, sn.weights, h.numClasses, ToInt32(h.threshold));
    var afterPositive := ClassPass(h, sn, target, true, outputs, x, d.positive, h.numClauses);
    ClassPassConsistent(h, sn, target, true, outputs, x, d.positive, h.numClauses);
    var negative := Pick(votes, OtherClasses(h.numClasses, target), ToInt32(h.threshold), d.negativePick);
    if negative.Some? {
      ClassPassConsistent(h, afterPositive, negative.value, false, outputs, x, d.negative, h.numClauses);
    }
  }

  lemma {:induction false} TrainRowsConsistent(h: Header, sn: Snapshot, xs: seq<seq<int>>, ys: seq<nat>, ds: seq<RowDraws>, n: nat)
    requires Consistent(h, sn) && RowsFit(h, xs, ys, ds) && n <= |xs|
    ensures Consistent(h, TrainRows(h, sn, xs, ys, ds, n))
  {
    if n > 0 {
      TrainRowsConsistent(h, sn, xs, ys, ds, n - 1);
      TrainRowConsistent(h, TrainRows(h, sn, xs, ys, ds, n - 1), xs[n - 1], ys[n - 1], ds[n - 1]);
    }
  }

  /**
   * Training keeps every automaton state in [min_state, max_state] and every
   * weight within `int16_t`, whatever the data and the draws.
   */
  lemma {:induction false} TrainKeepsStatesInRange(h: Header, sn: Snapshot, xs: seq<seq<int>>, ys: seq<nat>,
                                                   draws: seq<seq<RowDraws>>, n: nat)
    requires Consistent(h, sn) && n <= |draws|
    requires forall e :: 0 <= e < |draws| ==> RowsFit(h, xs, ys, draws[e])
    ensures Consistent(h, TrainEpochs(h, sn, xs, ys, draws, n))
  {
    if n > 0 {
      TrainKeepsStatesInRange(h, sn, xs, ys, draws, n - 1);
      TrainRowsConsistent(h, TrainEpochs(h, sn, xs, ys, draws, n - 1), xs, ys, draws[n - 1], |xs|);
    }
  }
}
