/*
 * The roulette draw by which feedback picks a class among candidates: each
 * candidate weighs its clipped vote shifted by T (`clip(vote, T) + T`), a
 * `uint32_t` draw is taken modulo the total weight, and the first candidate
 * whose running total reaches the result is picked. The dense and sparse
 * engines use it for the negative class of a class-index label (candidates:
 * every class but the label) and for both classes of a binary-vector label
 * (candidates: the classes the vector marks, or the ones it does not).
 *
 * The arithmetic is the engine's: weights and totals are `int32_t` and wrap,
 * the modulo converts the total to `uint32_t`, and a scan that never reaches
 * the draw leaves the class variable at its initial value, class 0. While
 * the candidates' total fits in `int32_t` (`Fits`), none of this shows.
 */
module ClassSelection {
  import opened Utility
  import opened Wrappers

  /** n classes of weight at most 2T each cannot overflow an `int32_t` total. */
  predicate Fits(t: int, n: nat)
  {
    0 <= t && n * (2 * t) <= INT32_MAX
  }

  lemma FitsPrefix(t: int, n: nat, m: nat)
    requires Fits(t, n) && m <= n
    ensures Fits(t, m)
  {
    assert (n - m) * (2 * t) >= 0;
  }

  /** The last of n fitting classes adds at most 2T, which fits by itself. */
  lemma FitsLast(t: int, n: nat)
    requires Fits(t, n) && n > 0
    ensures Fits(t, n - 1) && n * (2 * t) == (n - 1) * (2 * t) + 2 * t && 2 * t <= INT32_MAX
  {
    FitsPrefix(t, n, n - 1);
  }

  /** A candidate's weight in the draw: its vote clipped to [-T, T], shifted by T, as an `int32_t`. */
  function Weight(vote: int, t: int): (w: int)
    ensures IsInt32(w)
    ensures 0 <= 2 * t <= INT32_MAX ==> 0 <= w <= 2 * t
  {
    ToInt32(Clip(vote, t) + t)
  }

  /** The running `int32_t` total of the candidates' weights among the first n classes. */
  function Pool(votes: seq<int>, candidate: seq<bool>, t: int, n: nat): (r: int)
    requires n <= |votes| == |candidate|
    ensures IsInt32(r)
  {
    if n == 0 then 0
    else ToInt32(Pool(votes, candidate, t, n - 1) + (if candidate[n - 1] then Weight(votes[n - 1], t) else 0))
  }

  /** While n classes fit, the running total never wraps: it lies in [0, n * 2T]. */
  lemma {:induction false} PoolBound(votes: seq<int>, candidate: seq<bool>, t: int, n: nat)
    requires n <= |votes| == |candidate| && Fits(t, n)
    ensures 0 <= Pool(votes, candidate, t, n) <= n * (2 * t)
  {
    if n > 0 {
      FitsLast(t, n);
      PoolBound(votes, candidate, t, n - 1);
      var prev := Pool(votes, candidate, t, n - 1);
      var w := if candidate[n - 1] then Weight(votes[n - 1], t) else 0;
      assert 0 <= prev + w <= n * (2 * t);
    }
  }

  /** The first candidate at or after `from` at which the running total reaches r. */
  function FirstReaching(votes: seq<int>, candidate: seq<bool>, t: int, r: int, from: nat): (found: Option<nat>)
    requires from <= |votes| == |candidate|
    ensures found.Some? ==> from <= found.value < |votes| && candidate[found.value]
    decreases |votes| - from
  {
    if from == |votes| then None
    else if candidate[from] && Pool(votes, candidate, t, from + 1) >= r then Some(from)
    else FirstReaching(votes, candidate, t, r, from + 1)
  }

  /** The draw reduced as the engine reduces it: `uint32_t` modulo the total, read back as `int32_t`. */
  function Target(draw: nat, total: int): (r: int)
    requires IsInt32(total) && total != 0
    ensures 0 < total ==> 0 <= r < total
  {
    assert ToUint32(total) != 0;
    var m := ToUint32(draw) % ToUint32(total);
    assert 0 < total ==> ToUint32(total) == total && IsInt32(m);
    ToInt32(m)
  }

  /**
   * The class a draw picks: none when the candidates' total is 0 (the
   * feedback for that side is then skipped), otherwise the first candidate
   * whose running total reaches the reduced draw, or class 0 when no
   * candidate does.
   */
  function Pick(votes: seq<int>, candidate: seq<bool>, t: int, draw: nat): (picked: Option<nat>)
    requires |votes| == |candidate|
    ensures picked.None? <==> Pool(votes, candidate, t, |votes|) == 0
    ensures picked.Some? ==> picked.value < |votes|
  {
    var total := Pool(votes, candidate, t, |votes|);
    if total == 0 then None
    else match FirstReaching(votes, candidate, t, Target(draw, total), 0)
      case Some(k) => Some(k)
      case None => Some(0)
  }

  /**
   * While some candidate at or after `from` still adds to the total and r
   * does not exceed it, the scan finds a candidate.
   */
  lemma {:induction false} FirstReachingFinds(votes: seq<int>, candidate: seq<bool>, t: int, r: int, from: nat)
    requires from <= |votes| == |candidate|
    requires r <= Pool(votes, candidate, t, |votes|)
    requires Pool(votes, candidate, t, from) < Pool(votes, candidate, t, |votes|)
    ensures FirstReaching(votes, candidate, t, r, from).Some?
    decreases |votes| - from
  {
    if from == |votes| {
      assert false;
    } else if !(candidate[from] && Pool(votes, candidate, t, from + 1) >= r) {
      FirstReachingFinds(votes, candidate, t, r, from + 1);
    }
  }

  /**
   * While the total fits in `int32_t`, the draw always stops at a candidate:
   * the selection loop of the engine ends by its `break`, never by falling
   * back to class 0.
   */
  lemma PickFindsCandidate(votes: seq<int>, candidate: seq<bool>, t: int, draw: nat)
    requires |votes| == |candidate| && Fits(t, |votes|)
    ensures var picked := Pick(votes, candidate, t, draw);
      picked.Some? ==> candidate[picked.value] && picked == FirstReaching(votes, candidate, t, Target(draw, Pool(votes, candidate, t, |votes|)), 0)
  {
    var total := Pool(votes, candidate, t, |votes|);
    PoolBound(votes, candidate, t, |votes|);
    if total != 0 {
      FirstReachingFinds(votes, candidate, t, Target(draw, total), 0);
    }
  }

  /**
   * Beyond `int32_t`, the fallback shows: with T read as -1 (a threshold of
   * 0xFFFFFFFF) the only candidate, class 1, weighs -2, the scan never
   * reaches the draw, and class 0, which is not a candidate, is picked.
   */
  lemma PickFallsBack()
    ensures ToInt32(0xFFFF_FFFF) == -1
    ensures Pool([0, 0], [false, true], -1, 2) == -2
    ensures Pick([0, 0], [false, true], -1, 0) == Some(0)
  {
    assert Pool([0, 0], [false, true], -1, 1) == 0;
    assert Target(0, -2) == 0;
  }

  /**
   * The two selection loops of `tm_feedback_class_idx` and
   * `tm_feedback_bin_vector`: sum the candidates' weights, give up on a zero
   * total, then accumulate again until the running total reaches the
   * reduced draw, keeping class 0 if it never does.
   */
  method PickWeighted(votes: array<int>, candidate: seq<bool>, t: int, draw: nat) returns (picked: Option<nat>)
    requires |candidate| == votes.Length
    ensures picked == Pick(votes[..], candidate, t, draw)
  {
    var total := SumWeights(votes, candidate, t);
    if total == 0 {
      return None;
    }
    var found := Scan(votes, candidate, t, Target(draw, total));
    picked := if found.Some? then found else Some(0);
  }

  /** The first loop: the `int32_t` total of the candidates' weights. */
  method SumWeights(votes: array<int>, candidate: seq<bool>, t: int) returns (total: int)
    requires |candidate| == votes.Length
    ensures total == Pool(votes[..], candidate, t, votes.Length)
  {
    total := 0;
    var k := 0;
    while k < votes.Length
      invariant 0 <= k <= votes.Length
      invariant total == Pool(votes[..], candidate, t, k)
    {
      if candidate[k] {
        total := ToInt32(total + Weight(votes[k], t));
      }
      k := k + 1;
    }
  }

  /** The second loop: the first candidate whose running `int32_t` total reaches r, if any. */
  method Scan(votes: array<int>, candidate: seq<bool>, t: int, r: int) returns (found: Option<nat>)
    requires |candidate| == votes.Length
    ensures found == FirstReaching(votes[..], candidate, t, r, 0)
  {
    var accumulated := 0;
    var k := 0;
    while k < votes.Length
      invariant 0 <= k <= votes.Length
      invariant accumulated == Pool(votes[..], candidate, t, k)
      invariant FirstReaching(votes[..], candidate, t, r, 0) == FirstReaching(votes[..], candidate, t, r, k)
    {
      if candidate[k] {
        accumulated := ToInt32(accumulated + Weight(votes[k], t));
        if accumulated >= r {
          return Some(k);
        }
      }
      k := k + 1;
    }
    return None;
  }
}
