/*
 * The singly-linked automaton lists of the sparse and stateless engines, as
 * sequences: a list is the sequence of its nodes from the head, a pointer to
 * a node is its position, and a `prev` pointer is `None` for NULL (the head
 * side) or `Some(p)` for the node at position p. `ta_state_insert` and
 * `ta_state_remove` (sparse, nodes with a state) and `ta_stateless_insert`
 * and `ta_stateless_remove` (stateless, bare ids) do the same splice on
 * their own node type, so the operations here are generic in it.
 */
module TaList {
  import opened Wrappers

  /** A sparse-engine node: an automaton id and its `int8_t` state. */
  datatype Node = Node(id: nat, state: int)

  /** The position a node takes when inserted after `prev`, and the position removed after `prev`. */
  function Slot(prev: Option<nat>): nat
  {
    if prev.None? then 0 else prev.value + 1
  }

  /** The pointer to the last of the first j nodes, or NULL when j is 0. */
  function PrevOf(j: nat): (prev: Option<nat>)
    ensures Slot(prev) == j
  {
    if j == 0 then None else Some(j - 1)
  }

  /**
   * `ta_state_insert`: the new node goes right after `prev`, or at the head
   * when `prev` is NULL; the rest of the list keeps its order. The caller's
   * `result` pointer is the node at position `Slot(prev)`.
   */
  function InsertAfter<T>(xs: seq<T>, prev: Option<nat>, x: T): (r: seq<T>)
    requires prev.Some? ==> prev.value < |xs|
    ensures |r| == |xs| + 1 && r[Slot(prev)] == x
    ensures forall i :: 0 <= i < Slot(prev) ==> r[i] == xs[i]
    ensures forall i :: Slot(prev) <= i < |xs| ==> r[i + 1] == xs[i]
  {
    xs[..Slot(prev)] + [x] + xs[Slot(prev)..]
  }

  /**
   * `ta_state_remove` is a no-op on an empty list (it only reports the
   * error) and when `prev` is the tail (there is nothing after it).
   */
  predicate Removes<T>(xs: seq<T>, prev: Option<nat>)
  {
    |xs| > 0 && Slot(prev) < |xs|
  }

  /**
   * `ta_state_remove`: unlink the node after `prev`, or the head when
   * `prev` is NULL. The caller's `result` pointer becomes the removed node's
   * successor, which then sits at position `Slot(prev)`.
   */
  function RemoveAfter<T>(xs: seq<T>, prev: Option<nat>): (r: seq<T>)
    requires prev.Some? ==> prev.value < |xs|
    ensures !Removes(xs, prev) ==> r == xs
    ensures Removes(xs, prev) ==> |r| == |xs| - 1
    ensures Removes(xs, prev) ==> forall i :: 0 <= i < Slot(prev) ==> r[i] == xs[i]
    ensures Removes(xs, prev) ==> forall i :: Slot(prev) < i < |xs| ==> r[i - 1] == xs[i]
  {
    if !Removes(xs, prev) then xs
    else xs[..Slot(prev)] + xs[Slot(prev) + 1..]
  }

  /** Removing right after an insertion at the same place gives the list back. */
  lemma RemoveInsert<T>(xs: seq<T>, prev: Option<nat>, x: T)
    requires prev.Some? ==> prev.value < |xs|
    ensures RemoveAfter(InsertAfter(xs, prev, x), prev) == xs
  {
  }

  /** Inserting the removed node back where it was gives the list back. */
  lemma InsertRemove<T>(xs: seq<T>, prev: Option<nat>)
    requires prev.Some? ==> prev.value < |xs|
    requires Removes(xs, prev)
    ensures InsertAfter(RemoveAfter(xs, prev), prev, xs[Slot(prev)]) == xs
  {
  }

  /*
   * The three moves of a list walk whose first j nodes are done (`done`)
   * and whose cursor is the head of `rest`: keep the cursor node with a new
   * value, drop it, or insert a new node before it.
   */

  lemma WalkUpdate<T>(done: seq<T>, rest: seq<T>, v: T)
    requires |rest| > 0
    ensures (done + rest)[|done| := v] == (done + [v]) + rest[1..]
  {
  }

  lemma WalkRemove<T>(done: seq<T>, rest: seq<T>)
    requires |rest| > 0
    ensures RemoveAfter(done + rest, PrevOf(|done|)) == done + rest[1..]
  {
    assert Removes(done + rest, PrevOf(|done|));
  }

  lemma WalkInsert<T>(done: seq<T>, rest: seq<T>, v: T)
    ensures InsertAfter(done + rest, PrevOf(|done|), v) == (done + [v]) + rest
  {
  }

  /** The node-insertion test: ids 2, then 0 at the head, 3 at the end, 1 in the middle. */
  lemma InsertExample()
    ensures InsertAfter([], None, Node(2, 4)) == [Node(2, 4)]
    ensures InsertAfter([Node(2, 4)], None, Node(0, 5)) == [Node(0, 5), Node(2, 4)]
    ensures InsertAfter([Node(0, 5), Node(2, 4)], Some(1), Node(3, 6)) == [Node(0, 5), Node(2, 4), Node(3, 6)]
    ensures InsertAfter([Node(0, 5), Node(2, 4), Node(3, 6)], Some(0), Node(1, 7))
      == [Node(0, 5), Node(1, 7), Node(2, 4), Node(3, 6)]
  {
  }

  /** The node-removal test: from ids 0123 remove 1, then 3 (after the tail's predecessor), then the head twice. */
  lemma RemoveExample()
    ensures RemoveAfter([Node(0, 5), Node(1, 7), Node(2, 4), Node(3, 6)], Some(0)) == [Node(0, 5), Node(2, 4), Node(3, 6)]
    ensures RemoveAfter([Node(0, 5), Node(2, 4), Node(3, 6)], Some(1)) == [Node(0, 5), Node(2, 4)]
    ensures RemoveAfter([Node(0, 5), Node(2, 4)], None) == [Node(2, 4)]
    ensures RemoveAfter([Node(2, 4)], None) == []
    ensures RemoveAfter([Node(2, 4)], Some(0)) == [Node(2, 4)]
    ensures RemoveAfter<Node>([], None) == []
  {
  }
}
