/*
 * One clause of the sparse engine: the list of (automaton id, state) nodes
 * it keeps, sorted by id, for the automata it has not pruned. Automaton i
 * stands for literal i / 2, positive for even i and negated for odd i, as in
 * the dense layout. This module says which list `stm_load_dense` builds from
 * a dense clause, when a list fires, which bits of a class's active-literal
 * row stand for which literal, and what the three kinds of feedback make of
 * a clause's list and of the active literals.
 */
module SparseClause {
  import opened Utility
  import opened Wrappers
  import opened Inference
  import opened TaList
  import opened DenseCodec
  import opened DenseSpec

  /** Ids strictly increasing along the list, all below `bound`. */
  predicate SortedBelow(list: seq<Node>, bound: nat)
  {
    (forall a, b :: 0 <= a < b < |list| ==> list[a].id < list[b].id)
    && (forall a :: 0 <= a < |list| ==> list[a].id < bound)
  }

  predicate StatesInt8(list: seq<Node>)
  {
    forall a :: 0 <= a < |list| ==> IsInt8(list[a].state)
  }

  predicate StatesAtLeast(list: seq<Node>, lo: int)
  {
    forall a :: 0 <= a < |list| ==> list[a].state >= lo
  }

  /** The state of the first node for automaton i, if the list has one. */
  function Lookup(list: seq<Node>, i: nat): Option<int>
  {
    if |list| == 0 then None
    else if list[0].id == i then Some(list[0].state)
    else Lookup(list[1..], i)
  }

  /** In a sorted list, each node is the one found for its id. */
  lemma {:induction false} LookupAt(list: seq<Node>, a: nat)
    requires a < |list|
    requires forall p, q :: 0 <= p < q < |list| ==> list[p].id < list[q].id
    ensures Lookup(list, list[a].id) == Some(list[a].state)
  {
    if a > 0 {
      assert list[0].id < list[a].id;
      LookupAt(list[1..], a - 1);
    }
  }

  lemma {:induction false} LookupAbsent(list: seq<Node>, i: nat)
    requires forall a :: 0 <= a < |list| ==> list[a].id != i
    ensures Lookup(list, i) == None
  {
    if |list| > 0 {
      LookupAbsent(list[1..], i);
    }
  }

  /** Lookup in a concatenation: the first part is searched first. */
  lemma {:induction false} LookupAppend(xs: seq<Node>, ys: seq<Node>, i: nat)
    ensures Lookup(xs + ys, i) == if Lookup(xs, i).Some? then Lookup(xs, i) else Lookup(ys, i)
  {
    if |xs| == 0 {
      assert xs + ys == ys;
    } else {
      assert (xs + ys)[1..] == xs[1..] + ys;
      LookupAppend(xs[1..], ys, i);
    }
  }

  /**
   * The list `stm_load_dense` builds from the first n automata of a dense
   * clause: a node (i, state) for each automaton whose state includes its
   * literal, appended in increasing i.
   */
  function Prune(cl: seq<int>, mid: int, n: nat): seq<Node>
    requires n <= |cl|
  {
    if n == 0 then []
    else Prune(cl, mid, n - 1) + (if Includes(cl[n - 1], mid) then [Node(n - 1, cl[n - 1])] else [])
  }

  /**
   * The pruned list is sorted, and each of its nodes is an automaton below n
   * that includes its literal, with its dense state.
   */
  lemma {:induction false} PruneExact(cl: seq<int>, mid: int, n: nat)
    requires n <= |cl|
    ensures SortedBelow(Prune(cl, mid, n), n)
    ensures forall a :: 0 <= a < |Prune(cl, mid, n)| ==>
      Prune(cl, mid, n)[a].id < |cl| && Prune(cl, mid, n)[a].state == cl[Prune(cl, mid, n)[a].id]
      && Includes(Prune(cl, mid, n)[a].state, mid)
  {
    if n > 0 {
      PruneExact(cl, mid, n - 1);
      var prev := Prune(cl, mid, n - 1);
      var r := Prune(cl, mid, n);
      assert forall a :: 0 <= a < |prev| ==> r[a] == prev[a];
    }
  }

  /** The list pruned from fewer automata is a prefix of the one pruned from more. */
  lemma {:induction false} PrunePrefix(cl: seq<int>, mid: int, i: nat, n: nat)
    requires i <= n <= |cl|
    ensures |Prune(cl, mid, i)| <= |Prune(cl, mid, n)|
    ensures forall a :: 0 <= a < |Prune(cl, mid, i)| ==> Prune(cl, mid, n)[a] == Prune(cl, mid, i)[a]
    decreases n - i
  {
    if i < n {
      PrunePrefix(cl, mid, i, n - 1);
    }
  }

  /** An automaton that includes its literal has its node in the pruned list, after those of the automata before it. */
  lemma PruneAt(cl: seq<int>, mid: int, n: nat, i: nat)
    requires i < n <= |cl| && Includes(cl[i], mid)
    ensures |Prune(cl, mid, i)| < |Prune(cl, mid, n)|
    ensures Prune(cl, mid, n)[|Prune(cl, mid, i)|] == Node(i, cl[i])
  {
    PrunePrefix(cl, mid, i + 1, n);
    assert Prune(cl, mid, i + 1)[|Prune(cl, mid, i)|] == Node(i, cl[i]);
  }

  /** What a lookup in the pruned list finds: the dense state of an including automaton, nothing otherwise. */
  lemma {:induction false} PruneLookup(cl: seq<int>, mid: int, n: nat, i: nat)
    requires n <= |cl|
    ensures Lookup(Prune(cl, mid, n), i) == if i < n && Includes(cl[i], mid) then Some(cl[i]) else None
  {
    if n > 0 {
      PruneLookup(cl, mid, n - 1, i);
      var seg: seq<Node> := if Includes(cl[n - 1], mid) then [Node(n - 1, cl[n - 1])] else [];
      LookupAppend(Prune(cl, mid, n - 1), seg, i);
      if |seg| == 1 {
        assert seg[1..] == [];
      }
    }
  }

  /** Every id of the list names an automaton of an input of this length. */
  predicate IdsFit(list: seq<Node>, x: seq<int>)
  {
    forall a :: 0 <= a < |list| ==> list[a].id < 2 * |x|
  }

  /**
   * The sparse clause output: 0 iff some node that includes its literal is
   * falsified by the input, or empty clauses are skipped and no node includes
   * its literal.
   */
  predicate ListFires(list: seq<Node>, x: seq<int>, mid: int, skipEmpty: bool)
    requires IdsFit(list, x)
  {
    (forall a :: 0 <= a < |list| ==> !Blocks(list[a].state, list[a].id, x, mid))
    && !(skipEmpty && forall a :: 0 <= a < |list| ==> !Includes(list[a].state, mid))
  }

  /** No node of the pruned list blocks the input iff no automaton of the dense clause does. */
  lemma PruneNoBlock(cl: seq<int>, x: seq<int>, mid: int)
    requires |cl| == 2 * |x|
    ensures IdsFit(Prune(cl, mid, |cl|), x)
    ensures (forall a :: 0 <= a < |Prune(cl, mid, |cl|)| ==> !Blocks(Prune(cl, mid, |cl|)[a].state, Prune(cl, mid, |cl|)[a].id, x, mid))
      <==> (forall i :: 0 <= i < |cl| ==> !Blocks(cl[i], i, x, mid))
  {
    var p := Prune(cl, mid, |cl|);
    PruneExact(cl, mid, |cl|);
    if forall a :: 0 <= a < |p| ==> !Blocks(p[a].state, p[a].id, x, mid) {
      forall i | 0 <= i < |cl| && Includes(cl[i], mid)
        ensures !Blocks(cl[i], i, x, mid)
      {
        PruneAt(cl, mid, |cl|, i);
      }
    }
  }

  /** An including automaton of the dense clause leaves an including node in the pruned list. */
  lemma PruneKeepsIncluded(cl: seq<int>, mid: int, i: nat)
    requires i < |cl| && Includes(cl[i], mid)
    ensures exists a :: 0 <= a < |Prune(cl, mid, |cl|)| && Includes(Prune(cl, mid, |cl|)[a].state, mid)
  {
    PruneAt(cl, mid, |cl|, i);
    var a := |Prune(cl, mid, i)|;
    assert Includes(Prune(cl, mid, |cl|)[a].state, mid);
  }

  /** The pruned list has no including node iff the dense clause is empty. */
  lemma PruneEmpty(cl: seq<int>, mid: int)
    ensures (forall a :: 0 <= a < |Prune(cl, mid, |cl|)| ==> !Includes(Prune(cl, mid, |cl|)[a].state, mid))
      <==> EmptyClause(cl, mid)
  {
    var p := Prune(cl, mid, |cl|);
    PruneExact(cl, mid, |cl|);
    if !EmptyClause(cl, mid) {
      var i :| 0 <= i < |cl| && Includes(cl[i], mid);
      PruneKeepsIncluded(cl, mid, i);
    }
  }

  /**
   * The sparse rule on the pruned list of a dense clause gives the dense
   * clause's output: pruning only drops automata that can neither block the
   * clause nor make it non-empty.
   */
  lemma PruneFires(cl: seq<int>, x: seq<int>, mid: int, skipEmpty: bool)
    requires |cl| == 2 * |x|
    ensures IdsFit(Prune(cl, mid, |cl|), x)
    ensures ListFires(Prune(cl, mid, |cl|), x, mid, skipEmpty) == Fires(cl, x, mid, skipEmpty)
  {
    PruneNoBlock(cl, x, mid);
    PruneEmpty(cl, mid);
  }

  /*
   * Parameters the sparse engine derives in `stm_initialize`, stored in
   * `int8_t` fields.
   */

  /** `sparse_min_state = mid_state - 40`: a node that falls below it is removed. */
  function SparseMinState(h: Header): int
  {
    ToInt8(MidState(h) - 40)
  }

  /** `sparse_init_state = sparse_min_state + 5`: the state of a node type II inserts. */
  function SparseInitState(h: Header): int
  {
    ToInt8(SparseMinState(h) + 5)
  }

  /**
   * The middle state leaves room for the sparse thresholds: 40 steps below
   * it stay above -128, and the maximum is not below that floor.
   */
  predicate RoomBelowMid(h: Header)
  {
    IsInt8(h.maxState) && IsInt8(h.minState) && INT8_MIN < MidState(h) - 40 && MidState(h) - 40 <= h.maxState
  }

  /**
   * With room below the middle state the thresholds are exact: removal below
   * mid - 40, insertion at mid - 35, which excludes its literal.
   */
  lemma SparseThresholds(h: Header)
    requires RoomBelowMid(h)
    ensures SparseMinState(h) == MidState(h) - 40
    ensures SparseInitState(h) == MidState(h) - 35
    ensures SparseMinState(h) < SparseInitState(h) && !Includes(SparseInitState(h), MidState(h))
  {
  }

  /*
   * Active literals: per class a row of bytes, bit l % 8 of byte l / 8 for
   * literal l.
   */

  /** `al_row_size` as the engine computes it: `(num_literals - 1) / 8 + 1` in `uint32_t`, stored in a `uint8_t`. */
  function AlRowSizeAsWritten(numLiterals: nat): (r: nat)
    ensures r < 0x100
  {
    ToUint8(ToUint32(numLiterals - 1) / 8 + 1)
  }

  /** The bytes a row of `numLiterals` bits needs. */
  function AlRowSize(numLiterals: nat): nat
  {
    (numLiterals + 7) / 8
  }

  /** Every literal's byte lies inside its row, and no byte is wasted. */
  lemma AlRowSizeFits(numLiterals: nat, l: nat)
    requires l < numLiterals
    ensures l / 8 < AlRowSize(numLiterals)
    ensures 8 * (AlRowSize(numLiterals) - 1) < numLiterals
  {
  }

  /** Up to 2040 literals the stored row size is the needed one (and 0 for no literals). */
  lemma AlRowSizeAgrees(numLiterals: nat)
    requires numLiterals <= 2040
    ensures AlRowSizeAsWritten(numLiterals) == AlRowSize(numLiterals)
  {
  }

  /**
   * With 2041 literals the stored row size wraps to 0, although literal
   * 2040 lives in byte 255 of its row: the active-literal array is allocated
   * with no bytes, and every class's row starts at 0.
   */
  lemma AlRowSizeWraps()
    ensures AlRowSizeAsWritten(2041) == 0
    ensures AlRowSize(2041) == 256
    ensures 2040 / 8 >= AlRowSizeAsWritten(2041)
  {
  }

  /** `1 << (literal_id & 7)`. */
  function Mask(l: nat): bv8
  {
    (1 as bv8) << (l % 8)
  }

  /** Literal l is active in the row starting at byte `row`. */
  predicate IsActive(al: seq<bv8>, row: nat, l: nat)
    requires row + l / 8 < |al|
  {
    al[row + l / 8] & Mask(l) != 0
  }

  /** Set the bit of literal l in the row starting at `row`. */
  function Activate(al: seq<bv8>, row: nat, l: nat): (r: seq<bv8>)
    requires row + l / 8 < |al|
    ensures |r| == |al|
  {
    al[row + l / 8 := al[row + l / 8] | Mask(l)]
  }

  lemma MaskBits(b: bv8, i: nat, j: nat)
    requires i < 8 && j < 8
    ensures (b | ((1 as bv8) << i)) & ((1 as bv8) << j) != 0 <==> (b & ((1 as bv8) << j) != 0 || i == j)
  {
  }

  /**
   * Setting literal l's bit activates l and leaves every other literal of
   * the row as it was; bytes outside l's byte are unchanged.
   */
  lemma ActivateBits(al: seq<bv8>, row: nat, l: nat, l2: nat)
    requires row + l / 8 < |al| && row + l2 / 8 < |al|
    ensures IsActive(Activate(al, row, l), row, l2) <==> IsActive(al, row, l2) || l2 == l
  {
    if l2 / 8 == l / 8 {
      ActivateSameByte(al, row, l, l2);
    } else {
      ActivateOtherByte(al, row, l, l2);
    }
  }

  /** Two literals of the same byte are the same literal exactly when their bit positions agree. */
  lemma SameBytePosition(l: nat, l2: nat)
    requires l2 / 8 == l / 8
    ensures l2 % 8 == l % 8 <==> l2 == l
  {
    assert l == 8 * (l / 8) + l % 8;
    assert l2 == 8 * (l2 / 8) + l2 % 8;
  }

  lemma ActivateSameByte(al: seq<bv8>, row: nat, l: nat, l2: nat)
    requires row + l / 8 < |al| && l2 / 8 == l / 8
    ensures IsActive(Activate(al, row, l), row, l2) <==> IsActive(al, row, l2) || l2 == l
  {
    MaskBits(al[row + l / 8], l % 8, l2 % 8);
    SameBytePosition(l, l2);
  }

  lemma ActivateOtherByte(al: seq<bv8>, row: nat, l: nat, l2: nat)
    requires row + l / 8 < |al| && row + l2 / 8 < |al| && l2 / 8 != l / 8
    ensures IsActive(Activate(al, row, l), row, l2) <==> IsActive(al, row, l2) || l2 == l
  {
    assert Activate(al, row, l)[row + l2 / 8] == al[row + l2 / 8];
  }

  lemma SetBitAgain(b: bv8, i: nat)
    requires i < 8 && b & ((1 as bv8) << i) != 0
    ensures b | ((1 as bv8) << i) == b
  {
  }

  /** Setting the bit of a literal that is already active changes nothing. */
  lemma ActivateActive(al: seq<bv8>, row: nat, l: nat)
    requires row + l / 8 < |al| && IsActive(al, row, l)
    ensures Activate(al, row, l) == al
  {
    SetBitAgain(al[row + l / 8], l % 8);
  }

  /** In a sorted list, a lookup finds the state of a node, which meets any floor the list's states meet. */
  lemma {:induction false} LookupFloor(list: seq<Node>, i: nat, lo: int)
    requires StatesInt8(list) && StatesAtLeast(list, lo) && Lookup(list, i).Some?
    ensures IsInt8(Lookup(list, i).value) && Lookup(list, i).value >= lo
  {
    if list[0].id != i {
      LookupFloor(list[1..], i, lo);
    }
  }

  /**
   * Where a walk over ids stands: the first m nodes have ids below i and the
   * rest ids from i on. The node for id i, if any, is then node m.
   */
  lemma LookupSplit(list: seq<Node>, m: nat, i: nat)
    requires m <= |list|
    requires forall a, b :: 0 <= a < b < |list| ==> list[a].id < list[b].id
    requires forall a :: 0 <= a < m ==> list[a].id < i
    requires forall a :: m <= a < |list| ==> list[a].id >= i
    ensures Lookup(list, i) == if m < |list| && list[m].id == i then Some(list[m].state) else None
  {
    if m < |list| && list[m].id == i {
      LookupAt(list, m);
    } else {
      LookupAbsent(list, i);
    }
  }

  /*
   * The feedback walks of `type_1a_feedback`, `type_1b_feedback` and
   * `type_2_feedback` visit the ids i = 0 .. 2 * num_literals - 1 in order
   * with a cursor on the clause's list. `Segment` is what the walk leaves in
   * the list for id i, given the node the list had for i (if any).
   */

  /**
   * The sparse decrement `s -= min(-(min_state - s), 1) * f <= s_inv`: the
   * comparison binds before the subtraction, so one is subtracted whenever
   * the product is at most `s_inv`. That is always the case at or below
   * min_state, and above it exactly when the coin `f <= s_inv` comes up.
   */
  function SparseLower(s: int, minState: int, coin: bool): (r: int)
    ensures IsInt8(r)
  {
    ToInt8(s - (if Min(-(minState - s), 1) <= 0 || coin then 1 else 0))
  }

  /** What stays of a node whose state became s: nothing when s fell below sparse_min_state. */
  function Decay(h: Header, i: nat, s: int): (r: seq<Node>)
  {
    if s < SparseMinState(h) then [] else [Node(i, s)]
  }

  /**
   * The list's part for id i after one kind of feedback, from the node found
   * for i, the input value xl of literal i / 2, whether that literal is
   * active for the class, and the coin of automaton i.
   *   Type Ia: a node whose literal the input satisfies is raised (always with
   *   boosting, else on its coin); any other node is lowered and removed below
   *   sparse_min_state.
   *   Type Ib: every node is lowered and removed below sparse_min_state.
   *   Type II: a node that excludes its literal and whose literal the input
   *   falsifies is raised; a missing automaton of an active literal is
   *   inserted at sparse_init_state if it is positive or the input is 1.
   */
  function Segment(kind: Feedback, h: Header, found: Option<int>, i: nat, xl: int, active: bool, coin: bool): (r: seq<Node>)
  {
    match found
    case None =>
      if kind == TypeII && active && (i % 2 == 0 || xl == 1) then [Node(i, SparseInitState(h))] else []
    case Some(s) =>
      match kind
      case TypeIa =>
        if i % 2 != xl then [Node(i, Raise(s, h.maxState, h.boost == 1 || coin))]
        else Decay(h, i, SparseLower(s, h.minState, coin))
      case TypeIb => Decay(h, i, SparseLower(s, h.minState, coin))
      case TypeII => [Node(i, Raise(s, h.maxState, !Includes(s, MidState(h)) && i % 2 == xl))]
      case NoFeedback => [Node(i, s)]
  }

  /** The active-literal row of a class fits the active-literal bytes. */
  predicate RowFits(al: seq<bv8>, row: nat, numLiterals: nat)
  {
    row + AlRowSize(numLiterals) <= |al|
  }

  /** Whether literal l is active in the row starting at `row`, for a literal of the input. */
  function ActiveAt(al: seq<bv8>, row: nat, x: seq<int>, l: nat): bool
    requires RowFits(al, row, |x|) && l < |x|
  {
    AlRowSizeFits(|x|, l);
    IsActive(al, row, l)
  }

  /** The active flags of the first n literals of the row starting at `row`, as the walks read them. */
  function ActiveRow(al: seq<bv8>, row: nat, x: seq<int>, n: nat): (r: seq<bool>)
    requires RowFits(al, row, |x|) && n <= |x|
    ensures |r| == n
  {
    if n == 0 then [] else ActiveRow(al, row, x, n - 1) + [ActiveAt(al, row, x, n - 1)]
  }

  lemma {:induction false} ActiveRowAt(al: seq<bv8>, row: nat, x: seq<int>, n: nat, l: nat)
    requires RowFits(al, row, |x|) && l < n <= |x|
    ensures ActiveRow(al, row, x, n)[l] == ActiveAt(al, row, x, l)
  {
    if l < n - 1 {
      ActiveRowAt(al, row, x, n - 1, l);
    }
  }

  /** The list after a feedback walk over the ids below n: the segments of ids 0 .. n - 1, in order. */
  function ListAfter(kind: Feedback, h: Header, list: seq<Node>, x: seq<int>, act: seq<bool>,
                     coins: seq<bool>, n: nat): seq<Node>
    requires n <= 2 * |x| && |coins| == 2 * |x| && |act| == |x|
  {
    if n == 0 then []
    else
      var i := n - 1;
      ListAfter(kind, h, list, x, act, coins, i)
        + Segment(kind, h, Lookup(list, i), i, x[i / 2], act[i / 2], coins[i])
  }

  /** The segment of id i holds at most the node of id i, with an `int8_t` state. */
  lemma SegmentShape(kind: Feedback, h: Header, found: Option<int>, i: nat, xl: int, active: bool, coin: bool)
    requires found.Some? ==> IsInt8(found.value)
    ensures |Segment(kind, h, found, i, xl, active, coin)| <= 1
    ensures forall a :: 0 <= a < |Segment(kind, h, found, i, xl, active, coin)| ==>
      Segment(kind, h, found, i, xl, active, coin)[a].id == i && IsInt8(Segment(kind, h, found, i, xl, active, coin)[a].state)
  {
  }

  /**
   * Every walk leaves a list sorted by id with `int8_t` states: the walks
   * keep the sorted-list invariant of the clause lists.
   */
  lemma {:induction false} ListAfterSorted(kind: Feedback, h: Header, list: seq<Node>, x: seq<int>, act: seq<bool>,
                                           coins: seq<bool>, n: nat)
    requires n <= 2 * |x| && |coins| == 2 * |x| && |act| == |x| && StatesInt8(list)
    ensures SortedBelow(ListAfter(kind, h, list, x, act, coins, n), n)
    ensures StatesInt8(ListAfter(kind, h, list, x, act, coins, n))
  {
    if n > 0 {
      var i := n - 1;
      ListAfterSorted(kind, h, list, x, act, coins, i);
      var found := Lookup(list, i);
      if found.Some? {
        LookupFloor(list, i, INT8_MIN);
      }
      SegmentShape(kind, h, found, i, x[i / 2], act[i / 2], coins[i]);
      SortedExtend(ListAfter(kind, h, list, x, act, coins, i), Segment(kind, h, found, i, x[i / 2], act[i / 2], coins[i]), i);
    }
  }

  /** A list sorted below i, followed by at most the node of id i, is sorted below i + 1. */
  lemma SortedExtend(prefix: seq<Node>, seg: seq<Node>, i: nat)
    requires SortedBelow(prefix, i) && StatesInt8(prefix)
    requires |seg| <= 1 && forall a :: 0 <= a < |seg| ==> seg[a].id == i && IsInt8(seg[a].state)
    ensures SortedBelow(prefix + seg, i + 1) && StatesInt8(prefix + seg)
  {
    var r := prefix + seg;
    forall a | 0 <= a < |r|
      ensures r[a].id < i + 1 && IsInt8(r[a].state)
      ensures a < |prefix| ==> r[a].id < i
    {
      if a < |prefix| {
        assert r[a] == prefix[a];
      } else {
        assert r[a] == seg[a - |prefix|];
      }
    }
    forall a, b | 0 <= a < b < |r|
      ensures r[a].id < r[b].id
    {
      if b < |prefix| {
        assert r[a] == prefix[a] && r[b] == prefix[b];
      }
    }
  }

  /**
   * What the walk leaves for each id: for i < n the list holds the segment
   * of id i (the node the feedback kind makes of i's old node, or inserts),
   * and nothing for ids from n on.
   */
  lemma {:induction false} ListAfterLookup(kind: Feedback, h: Header, list: seq<Node>, x: seq<int>, act: seq<bool>,
                                           coins: seq<bool>, n: nat, i: nat)
    requires n <= 2 * |x| && |coins| == 2 * |x| && |act| == |x| && StatesInt8(list)
    ensures Lookup(ListAfter(kind, h, list, x, act, coins, n), i) ==
      if i < n then Lookup(Segment(kind, h, Lookup(list, i), i, x[i / 2], act[i / 2], coins[i]), i)
      else None
  {
    if n > 0 {
      var j := n - 1;
      var prefix := ListAfter(kind, h, list, x, act, coins, j);
      var seg := Segment(kind, h, Lookup(list, j), j, x[j / 2], act[j / 2], coins[j]);
      assert ListAfter(kind, h, list, x, act, coins, n) == prefix + seg;
      ListAfterLookup(kind, h, list, x, act, coins, j, i);
      LookupAppend(prefix, seg, i);
      if i == j {
        assert Lookup(prefix, i) == None;
      } else {
        if Lookup(list, j).Some? {
          LookupFloor(list, j, INT8_MIN);
        }
        SegmentShape(kind, h, Lookup(list, j), j, x[j / 2], act[j / 2], coins[j]);
        LookupAbsent(seg, i);
        assert Lookup(prefix + seg, i) == Lookup(prefix, i);
      }
    }
  }

  /** No segment goes below sparse_min_state when there is room below the middle state. */
  lemma SegmentFloor(kind: Feedback, h: Header, found: Option<int>, i: nat, xl: int, active: bool, coin: bool)
    requires RoomBelowMid(h)
    requires found.Some? ==> IsInt8(found.value) && found.value >= SparseMinState(h)
    ensures StatesAtLeast(Segment(kind, h, found, i, xl, active, coin), SparseMinState(h))
  {
    SparseThresholds(h);
  }

  /**
   * With room below the middle state, the walks keep every state at or above
   * sparse_min_state: lowered nodes below it are removed, raised ones stop
   * at max_state, and inserted ones start at sparse_init_state.
   */
  lemma {:induction false} ListAfterFloor(kind: Feedback, h: Header, list: seq<Node>, x: seq<int>, act: seq<bool>,
                                          coins: seq<bool>, n: nat)
    requires n <= 2 * |x| && |coins| == 2 * |x| && |act| == |x|
    requires RoomBelowMid(h) && StatesInt8(list) && StatesAtLeast(list, SparseMinState(h))
    ensures StatesAtLeast(ListAfter(kind, h, list, x, act, coins, n), SparseMinState(h))
  {
    if n > 0 {
      var i := n - 1;
      ListAfterFloor(kind, h, list, x, act, coins, i);
      var found := Lookup(list, i);
      if found.Some? {
        LookupFloor(list, i, SparseMinState(h));
      }
      SegmentFloor(kind, h, found, i, x[i / 2], act[i / 2], coins[i]);
    }
  }

  /**
   * The decrement as written: above min_state it is the coin, but at or
   * below min_state it happens whatever the coin, so a state can go below
   * min_state (where the dense `Lower` stops).
   */
  lemma SparseLowerQuirk(s: int, minState: int, coin: bool)
    requires IsInt8(s) && IsInt8(minState)
    ensures s > minState ==> SparseLower(s, minState, coin) == if coin then s - 1 else s
    ensures INT8_MIN < s <= minState ==> SparseLower(s, minState, coin) == s - 1 < minState
    ensures s > minState ==> SparseLower(s, minState, coin) == Lower(s, minState, coin)
  {
  }

  /**
   * The active-literal bits type Ia sets while walking the ids below n: the
   * literal of every positive automaton the list lacks and whose input is 1.
   */
  function ActivateMissing(al: seq<bv8>, row: nat, list: seq<Node>, x: seq<int>, n: nat): (r: seq<bv8>)
    requires n <= 2 * |x| && RowFits(al, row, |x|)
    ensures |r| == |al|
  {
    if n == 0 then al
    else
      var i := n - 1;
      var prev := ActivateMissing(al, row, list, x, i);
      if i % 2 == 0 && x[i / 2] == 1 && Lookup(list, i).None? then
        AlRowSizeFits(|x|, i / 2);
        Activate(prev, row, i / 2)
      else prev
  }

  /**
   * After type Ia has walked the ids below n, literal l is active iff it was
   * already, or its positive automaton 2l was walked, is missing from the
   * list, and its input is 1. Bytes outside the class's row are unchanged.
   */
  lemma {:induction false} ActivateMissingBits(al: seq<bv8>, row: nat, list: seq<Node>, x: seq<int>, n: nat, l: nat)
    requires n <= 2 * |x| && RowFits(al, row, |x|) && l < |x|
    ensures ActiveAt(ActivateMissing(al, row, list, x, n), row, x, l) <==>
      ActiveAt(al, row, x, l) || (2 * l < n && x[l] == 1 && Lookup(list, 2 * l).None?)
  {
    if n > 0 {
      var i := n - 1;
      ActivateMissingBits(al, row, list, x, i, l);
      PositiveId(i, l);
      var prev := ActivateMissing(al, row, list, x, i);
      if i % 2 == 0 && x[i / 2] == 1 && Lookup(list, i).None? {
        AlRowSizeFits(|x|, i / 2);
        AlRowSizeFits(|x|, l);
        ActivateBits(prev, row, i / 2, l);
      }
    }
  }

  /** Id i is the positive automaton of literal l exactly when it is even and halves to l. */
  lemma PositiveId(i: nat, l: nat)
    ensures (i % 2 == 0 && i / 2 == l) <==> i == 2 * l
  {
  }

  lemma {:induction false} ActivateMissingOutside(al: seq<bv8>, row: nat, list: seq<Node>, x: seq<int>, n: nat, b: nat)
    requires n <= 2 * |x| && RowFits(al, row, |x|) && b < |al| && !(row <= b < row + AlRowSize(|x|))
    ensures ActivateMissing(al, row, list, x, n)[b] == al[b]
  {
    if n > 0 {
      ActivateMissingOutside(al, row, list, x, n - 1, b);
      AlRowSizeFits(|x|, (n - 1) / 2);
    }
  }
}
