/*
 * The invariant of the feedback walks in `type_1a_feedback`,
 * `type_1b_feedback` and `type_2_feedback`, and the moves that keep it: the
 * walk visits the automaton ids in order with a cursor into the clause's
 * list, and after each id the part of the list behind the cursor is what
 * `ListAfter` says the walk leaves.
 */
module SparseWalk {
  import opened Wrappers
  import opened TaList
  import opened DenseCodec
  import opened DenseSpec
  import opened SparseClause

  /*
   * A feedback walk of `list0`, before id i: the nodes of the ids below i
   * (the first m nodes of list0) have been handled and left the first j
   * positions holding `ListAfter(..., i)`; the cursor (position j) is at the
   * rest of list0.
   */
  ghost predicate Walked(kind: Feedback, h: Header, list0: seq<Node>, x: seq<int>, act: seq<bool>,
                         coins: seq<bool>, i: nat, m: nat, list: seq<Node>, j: nat)
    requires i <= 2 * |x| && |coins| == 2 * |x| && |act| == |x|
  {
    m <= |list0|
    && (forall a :: 0 <= a < m ==> list0[a].id < i)
    && (m == |list0| || list0[m].id >= i)
    && j == |ListAfter(kind, h, list0, x, act, coins, i)|
    && list == ListAfter(kind, h, list0, x, act, coins, i) + list0[m..]
  }

  /** Nothing is handled yet: the cursor is at the head. */
  lemma WalkStart(kind: Feedback, h: Header, list0: seq<Node>, x: seq<int>, act: seq<bool>, coins: seq<bool>)
    requires |coins| == 2 * |x| && |act| == |x|
    ensures Walked(kind, h, list0, x, act, coins, 0, 0, list0, 0)
  {
    assert list0[0..] == list0;
  }

  /**
   * The cursor test `state_ptr == NULL || state_ptr->ta_id != i` tells
   * whether list0 has a node for id i, and the cursor node is that node.
   */
  lemma WalkCursor(kind: Feedback, h: Header, list0: seq<Node>, x: seq<int>, act: seq<bool>,
                   coins: seq<bool>, i: nat, m: nat, list: seq<Node>, j: nat)
    requires i < 2 * |x| && |coins| == 2 * |x| && |act| == |x| && SortedBelow(list0, 2 * |x|)
    requires Walked(kind, h, list0, x, act, coins, i, m, list, j)
    ensures j < |list| <==> m < |list0|
    ensures j < |list| ==> list[j] == list0[m]
    ensures Lookup(list0, i) == if j < |list| && list[j].id == i then Some(list[j].state) else None
  {
    LookupSplit(list0, m, i);
  }

  /** The cursor node is kept with a new state v: the cursor and `prev` move on. */
  lemma WalkKeep(kind: Feedback, h: Header, list0: seq<Node>, x: seq<int>, act: seq<bool>,
                 coins: seq<bool>, i: nat, m: nat, list: seq<Node>, j: nat, v: int)
    requires i < 2 * |x| && |coins| == 2 * |x| && |act| == |x| && SortedBelow(list0, 2 * |x|)
    requires Walked(kind, h, list0, x, act, coins, i, m, list, j)
    requires j < |list| && list[j].id == i
    requires Segment(kind, h, Lookup(list0, i), i, x[i / 2], act[i / 2], coins[i]) == [Node(i, v)]
    ensures Walked(kind, h, list0, x, act, coins, i + 1, m + 1, list[j := Node(i, v)], j + 1)
  {
    WalkCursor(kind, h, list0, x, act, coins, i, m, list, j);
    WalkUpdate(ListAfter(kind, h, list0, x, act, coins, i), list0[m..], Node(i, v));
    assert list0[m..][1..] == list0[m + 1..];
  }

  /** The cursor node is removed: the cursor moves to its successor, `prev` stays. */
  lemma WalkDrop(kind: Feedback, h: Header, list0: seq<Node>, x: seq<int>, act: seq<bool>,
                 coins: seq<bool>, i: nat, m: nat, list: seq<Node>, j: nat)
    requires i < 2 * |x| && |coins| == 2 * |x| && |act| == |x| && SortedBelow(list0, 2 * |x|)
    requires Walked(kind, h, list0, x, act, coins, i, m, list, j)
    requires j < |list| && list[j].id == i
    requires Segment(kind, h, Lookup(list0, i), i, x[i / 2], act[i / 2], coins[i]) == []
    ensures j < |list| && Walked(kind, h, list0, x, act, coins, i + 1, m + 1, RemoveAfter(list, PrevOf(j)), j)
  {
    WalkCursor(kind, h, list0, x, act, coins, i, m, list, j);
    var done := ListAfter(kind, h, list0, x, act, coins, i);
    WalkRemove(done, list0[m..]);
    assert list0[m..][1..] == list0[m + 1..];
    assert ListAfter(kind, h, list0, x, act, coins, i + 1) == done + [];
  }

  /** No node for id i, and none is made: the walk moves to the next id. */
  lemma WalkSkip(kind: Feedback, h: Header, list0: seq<Node>, x: seq<int>, act: seq<bool>,
                 coins: seq<bool>, i: nat, m: nat, list: seq<Node>, j: nat)
    requires i < 2 * |x| && |coins| == 2 * |x| && |act| == |x| && SortedBelow(list0, 2 * |x|)
    requires Walked(kind, h, list0, x, act, coins, i, m, list, j)
    requires !(j < |list| && list[j].id == i)
    requires Segment(kind, h, Lookup(list0, i), i, x[i / 2], act[i / 2], coins[i]) == []
    ensures Walked(kind, h, list0, x, act, coins, i + 1, m, list, j)
  {
    WalkCursor(kind, h, list0, x, act, coins, i, m, list, j);
    assert ListAfter(kind, h, list0, x, act, coins, i + 1) == ListAfter(kind, h, list0, x, act, coins, i) + [];
  }

  /** No node for id i, and a node (i, v) is inserted after `prev`: it becomes `prev`, the cursor stays on its node. */
  lemma WalkAdd(kind: Feedback, h: Header, list0: seq<Node>, x: seq<int>, act: seq<bool>,
                coins: seq<bool>, i: nat, m: nat, list: seq<Node>, j: nat, v: int)
    requires i < 2 * |x| && |coins| == 2 * |x| && |act| == |x| && SortedBelow(list0, 2 * |x|)
    requires Walked(kind, h, list0, x, act, coins, i, m, list, j)
    requires !(j < |list| && list[j].id == i)
    requires Segment(kind, h, Lookup(list0, i), i, x[i / 2], act[i / 2], coins[i]) == [Node(i, v)]
    ensures j <= |list| && Walked(kind, h, list0, x, act, coins, i + 1, m, InsertAfter(list, PrevOf(j), Node(i, v)), j + 1)
  {
    WalkCursor(kind, h, list0, x, act, coins, i, m, list, j);
    WalkInsert(ListAfter(kind, h, list0, x, act, coins, i), list0[m..], Node(i, v));
  }

  /** Every id handled: all of list0 is behind the cursor, and the list is the walk's result. */
  lemma WalkDone(kind: Feedback, h: Header, list0: seq<Node>, x: seq<int>, act: seq<bool>,
                 coins: seq<bool>, m: nat, list: seq<Node>, j: nat)
    requires |coins| == 2 * |x| && |act| == |x| && SortedBelow(list0, 2 * |x|)
    requires Walked(kind, h, list0, x, act, coins, 2 * |x|, m, list, j)
    ensures list == ListAfter(kind, h, list0, x, act, coins, 2 * |x|)
  {
    assert list0[m..] == [];
  }
}
