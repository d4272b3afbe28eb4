/*
 * What the two scikit-learn classifiers share: the label encoder, the
 * checks on an input array, the learned attributes an instance may carry,
 * and the native library seen through the handles it hands out.
 *
 * A classifier instance is the value `Clf`: its hyperparameters, whether
 * the library is loaded, its handle (`tm_instance_`, None for a NULL or
 * absent machine) and its learned attributes, each of which may be absent
 * (never set, or deleted by `reset`). The library is the value `Native`:
 * the handles still allocated, the next fresh handle, the header each
 * handle was created with and the training calls each handle received.
 */
module Lifecycle {
  import opened Wrappers
  import opened DenseCodec

  /** The exceptions the classifiers raise, plus a call into the engine with a NULL machine. */
  datatype ClfError =
    | ValueError
    | RuntimeError
    | NotImplementedError
    | NotFittedError
    | AttributeError
    | NullInstance

  /*
   * Labels and the label encoder.
   */

  predicate StrictlySorted(s: seq<int>)
  {
    forall i, j :: 0 <= i < j < |s| ==> s[i] < s[j]
  }

  /** The tail of a strictly increasing sequence holds exactly its elements above the head. */
  lemma TailMembers(s: seq<int>)
    requires StrictlySorted(s) && s != []
    ensures StrictlySorted(s[1..])
    ensures forall u :: u in s ==> s[0] <= u
    ensures forall u :: u in s[1..] <==> u in s && u != s[0]
  {
    forall u | u in s ensures s[0] <= u {
      var k :| 0 <= k < |s| && s[k] == u;
    }
    forall u ensures u in s[1..] <==> u in s && u != s[0] {
      if u in s[1..] {
        var k :| 0 <= k < |s[1..]| && s[1..][k] == u;
        assert s[k + 1] == u;
      }
      if u in s && u != s[0] {
        var k :| 0 <= k < |s| && s[k] == u;
        assert s[1..][k - 1] == u;
      }
    }
  }

  /** A head below every element of a strictly increasing tail keeps it strictly increasing. */
  lemma ConsSorted(x: int, t: seq<int>)
    requires StrictlySorted(t) && forall u :: u in t ==> x < u
    ensures StrictlySorted([x] + t)
  {
    forall i, j | 0 <= i < j < |[x] + t| ensures ([x] + t)[i] < ([x] + t)[j] {
      assert ([x] + t)[j] == t[j - 1] && t[j - 1] in t;
      if i > 0 {
        assert ([x] + t)[i] == t[i - 1];
      }
    }
  }

  /** A strictly increasing sequence with v added (once). */
  function InsertSorted(s: seq<int>, v: int): (r: seq<int>)
    requires StrictlySorted(s)
    ensures StrictlySorted(r)
    ensures forall u :: u in r <==> u in s || u == v
  {
    if s == [] then [v]
    else if v < s[0] then
      TailMembers(s);
      ConsSorted(v, s);
      [v] + s
    else if v == s[0] then s
    else
      TailMembers(s);
      var rest := InsertSorted(s[1..], v);
      ConsSorted(s[0], rest);
      [s[0]] + rest
  }

  /**
   * `np.unique`, and the `classes_` a `LabelEncoder` learns from a
   * sequence: its distinct values in increasing order.
   */
  function Unique(ys: seq<int>): (r: seq<int>)
    ensures StrictlySorted(r)
    ensures forall u :: u in r <==> u in ys
  {
    if ys == [] then []
    else
      var init := ys[..|ys| - 1];
      assert ys == init + [ys[|ys| - 1]];
      InsertSorted(Unique(init), ys[|ys| - 1])
  }

  /** Two strictly increasing sequences with the same elements are equal: `Unique` is determined by its contract. */
  lemma {:induction false} SortedSetsEqual(a: seq<int>, b: seq<int>)
    requires StrictlySorted(a) && StrictlySorted(b)
    requires forall u :: u in a <==> u in b
    ensures a == b
  {
    if a != [] {
      assert a[0] in a && a[0] in b;
      assert b[0] in b && b[0] in a;
      TailMembers(a);
      TailMembers(b);
      assert a[0] == b[0];
      assert forall u :: u in a[1..] <==> u in b[1..];
      SortedSetsEqual(a[1..], b[1..]);
      assert a == [a[0]] + a[1..] && b == [b[0]] + b[1..];
    } else {
      HeadMember(b);
    }
  }

  lemma HeadMember(s: seq<int>)
    ensures s == [] || s[0] in s
  {
  }

  /** The classes 0, 1, ..., n - 1, as `_update_from_c_model` fits the encoder on `np.arange`. */
  function Range(n: nat): (r: seq<int>)
    ensures |r| == n && StrictlySorted(r)
    ensures forall i :: 0 <= i < n ==> r[i] == i
  {
    seq(n, i => i)
  }

  /** `LabelEncoder.transform` of one known label: its position among the classes. */
  function IndexOf(labels: seq<int>, y: int): (r: nat)
    requires y in labels
    ensures r < |labels| && labels[r] == y
  {
    if labels[0] == y then 0 else 1 + IndexOf(labels[1..], y)
  }

  /** `LabelEncoder.transform`: the positions of the labels, or None (ValueError) if one is not a class. */
  function Transform(labels: seq<int>, ys: seq<int>): (r: Option<seq<nat>>)
    ensures r.Some? <==> forall i :: 0 <= i < |ys| ==> ys[i] in labels
    ensures r.Some? ==> |r.value| == |ys|
    ensures r.Some? ==> forall i :: 0 <= i < |ys| ==> r.value[i] < |labels| && labels[r.value[i]] == ys[i]
  {
    if forall i :: 0 <= i < |ys| ==> ys[i] in labels
    then Some(seq(|ys|, i requires 0 <= i < |ys| => IndexOf(labels, ys[i])))
    else None
  }

  /** `LabelEncoder.inverse_transform`: positions back to labels, or None (ValueError) for a position past the classes. */
  function InverseTransform(labels: seq<int>, ks: seq<nat>): (r: Option<seq<int>>)
    ensures r.Some? <==> forall i :: 0 <= i < |ks| ==> ks[i] < |labels|
    ensures r.Some? ==> |r.value| == |ks| && forall i :: 0 <= i < |ks| ==> r.value[i] in labels
  {
    if forall i :: 0 <= i < |ks| ==> ks[i] < |labels|
    then Some(seq(|ks|, i requires 0 <= i < |ks| => labels[ks[i]]))
    else None
  }

  /** Encoding known labels and decoding the positions gives the labels back. */
  lemma TransformRoundTrip(labels: seq<int>, ys: seq<int>)
    requires forall i :: 0 <= i < |ys| ==> ys[i] in labels
    ensures Transform(labels, ys).Some?
    ensures InverseTransform(labels, Transform(labels, ys).value) == Some(ys)
  {
    var ks := Transform(labels, ys).value;
    var back := InverseTransform(labels, ks);
    assert back.Some?;
    assert back.value == ys by {
      forall i | 0 <= i < |ys| ensures back.value[i] == ys[i] {
      }
    }
  }

  /** With distinct classes, decoding positions and encoding the labels gives the positions back. */
  lemma InverseTransformRoundTrip(labels: seq<int>, ks: seq<nat>)
    requires StrictlySorted(labels)
    requires forall i :: 0 <= i < |ks| ==> ks[i] < |labels|
    ensures InverseTransform(labels, ks).Some?
    ensures Transform(labels, InverseTransform(labels, ks).value) == Some(ks)
  {
    var ys := InverseTransform(labels, ks).value;
    var again := Transform(labels, ys);
    assert again.Some?;
    forall i | 0 <= i < |ks| ensures again.value[i] == ks[i] {
      var k := again.value[i];
      assert labels[k] == labels[ks[i]];
    }
    assert again.value == ks;
  }

  /*
   * Input arrays.
   */

  /** A two-dimensional array with `nf` columns. */
  predicate Shaped(xs: seq<seq<int>>, nf: nat)
  {
    forall r :: 0 <= r < |xs| ==> |xs[r]| == nf
  }

  /** No value other than 0 and 1. */
  predicate AllBinary(xs: seq<seq<int>>)
  {
    forall r, j :: 0 <= r < |xs| && 0 <= j < |xs[r]| ==> xs[r][j] == 0 || xs[r][j] == 1
  }

  /**
   * What the array validation and the binary check let through: at least
   * one row and one column, only 0s and 1s. Anything else is a ValueError.
   */
  predicate Accepts(xs: seq<seq<int>>, nf: nat)
  {
    |xs| > 0 && nf > 0 && AllBinary(xs)
  }

  /*
   * Instance state.
   */

  /** The constructor arguments that reach the engine. */
  datatype Hyper = Hyper(threshold: nat, numClauses: nat, maxState: int, minState: int, boost: bool, epochs: nat)

  /**
   * The learned attributes: `label_encoder_` with `classes_` (one value,
   * they are always set and deleted together), `n_classes_`,
   * `n_features_in_`, `seed_` and `is_fitted_` (only ever set to True).
   */
  datatype Learned = Learned(
    labels: Option<seq<int>>,
    nClasses: Option<nat>,
    nFeatures: Option<nat>,
    seed: Option<nat>,
    fitted: bool)

  /** A fresh or reset instance carries none of them. */
  const NOT_LEARNED := Learned(None, None, None, None, false)

  /** The classes are distinct and increasing, and `n_classes_` counts them. */
  predicate Consistent(l: Learned)
  {
    (l.labels.Some? <==> l.nClasses.Some?)
    && (l.labels.Some? ==> StrictlySorted(l.labels.value) && l.nClasses.value == |l.labels.value|)
  }

  datatype Clf = Clf(hp: Hyper, libLoaded: bool, handle: Option<nat>, learned: Learned)

  /** The arguments of `tm_create` / `stm_create` that shape the machine. */
  function CreateHeader(hp: Hyper, nFeatures: nat, nClasses: nat): (h: Header)
    ensures h.numLiterals == nFeatures && h.numClasses == nClasses && h.numClauses == hp.numClauses
  {
    Header(hp.threshold, nFeatures, hp.numClauses, nClasses, hp.maxState, hp.minState, if hp.boost then 1 else 0)
  }

  /** The learned attributes a successful load derives from the machine's header. */
  function FromHeader(l: Learned, h: Header): (r: Learned)
    ensures Consistent(r) && r.labels == Some(Range(h.numClasses))
  {
    l.(labels := Some(Range(h.numClasses)), nClasses := Some(h.numClasses), nFeatures := Some(h.numLiterals))
  }

  /*
   * The native library.
   */

  /** One training call: the rows, the encoded labels and the epoch count. */
  datatype Training = Training(xs: seq<seq<int>>, ys: seq<nat>, epochs: nat)

  datatype Native = Native(
    live: set<nat>,
    next: nat,
    headers: map<nat, Header>,
    trainings: map<nat, seq<Training>>)

  /** Every allocated handle was handed out before `next`. */
  predicate NativeValid(n: Native)
  {
    forall h :: h in n.live ==> h < n.next
  }

  /** A successful create or load: the handle `next`, distinct from every live one. */
  function Allocated(n: Native, hdr: Header): (r: Native)
    ensures NativeValid(n) ==> NativeValid(r) && n.next !in n.live
    ensures r.live == n.live + {n.next}
  {
    Native(n.live + {n.next}, n.next + 1, n.headers[n.next := hdr], n.trainings[n.next := []])
  }

  /** A free. */
  function Released(n: Native, h: nat): (r: Native)
    ensures NativeValid(n) ==> NativeValid(r)
    ensures r.live == n.live - {h}
  {
    n.(live := n.live - {h})
  }

  /** The training calls a handle received, oldest first. */
  function TrainingsOf(n: Native, h: nat): seq<Training>
  {
    if h in n.trainings then n.trainings[h] else []
  }

  /** A training call, recorded against its handle. */
  function Trained(n: Native, h: nat, t: Training): (r: Native)
    ensures r.live == n.live && r.next == n.next
    ensures TrainingsOf(r, h) == TrainingsOf(n, h) + [t]
    ensures forall g :: g != h ==> TrainingsOf(r, g) == TrainingsOf(n, g)
  {
    n.(trainings := n.trainings[h := TrainingsOf(n, h) + [t]])
  }

  /**
   * The loaded library: it hands out handles (or NULL when the engine
   * cannot allocate), frees them and trains them. Whether it was built
   * with the optional FlatBuffers entry points is fixed when it is loaded.
   */
  class Backend {
    var native: Native
    const hasSaveFbs: bool
    const hasLoadFbs: bool

    constructor (hasSaveFbs: bool, hasLoadFbs: bool)
      ensures native == Native({}, 0, map[], map[]) && NativeValid(native)
      ensures this.hasSaveFbs == hasSaveFbs && this.hasLoadFbs == hasLoadFbs
    {
      native := Native({}, 0, map[], map[]);
      this.hasSaveFbs := hasSaveFbs;
      this.hasLoadFbs := hasLoadFbs;
    }

    /** A create or load: a fresh machine with header `hdr`, or NULL (`ok` false). */
    method Create(hdr: Header, ok: bool) returns (handle: Option<nat>)
      modifies this
      ensures handle == (if ok then Some(old(native).next) else None)
      ensures native == (if ok then Allocated(old(native), hdr) else old(native))
    {
      if ok {
        handle := Some(native.next);
        native := Allocated(native, hdr);
      } else {
        handle := None;
      }
    }

    method Free(handle: nat)
      modifies this
      ensures native == Released(old(native), handle)
    {
      native := Released(native, handle);
    }

    method Train(handle: nat, t: Training)
      modifies this
      ensures native == Trained(old(native), handle, t)
    {
      native := Trained(native, handle, t);
    }
  }

  /*
   * Steps shared by both classifiers.
   */

  /** An instance and the library after a call, with the exception it raised, if any. */
  datatype Outcome = Outcome(clf: Clf, native: Native, raised: Option<ClfError>)

  /**
   * The checks `partial_fit` makes on an instance that already has a
   * machine: the column count, then a `classes` argument against `classes_`.
   */
  function HandleChecks(l: Learned, nf: nat, classes: Option<seq<int>>): (r: Option<ClfError>)
    ensures r.None? <==> l.nFeatures == Some(nf) && (classes.Some? ==> l.labels == classes)
  {
    if l.nFeatures.None? then Some(AttributeError)
    else if nf != l.nFeatures.value then Some(ValueError)
    else if classes.Some? && l.labels.None? then Some(AttributeError)
    else if classes.Some? && classes.value != l.labels.value then Some(ValueError)
    else None
  }

  /** The end of `partial_fit`: encode the labels, train the machine, mark the instance fitted. */
  function TrainStep(c: Clf, n: Native, xs: seq<seq<int>>, ys: seq<int>, epochs: nat): Outcome
  {
    if c.learned.labels.None? then Outcome(c, n, Some(AttributeError))
    else match Transform(c.learned.labels.value, ys)
      case None => Outcome(c, n, Some(ValueError))
      case Some(ks) =>
        if c.handle.None? then Outcome(c, n, Some(NullInstance))
        else Outcome(c.(learned := c.learned.(fitted := true)), Trained(n, c.handle.value, Training(xs, ks, epochs)), None)
  }

  /** Training only marks the instance fitted. */
  lemma TrainStepConsistent(c: Clf, n: Native, xs: seq<seq<int>>, ys: seq<int>, epochs: nat)
    requires Consistent(c.learned)
    ensures Consistent(TrainStep(c, n, xs, ys, epochs).clf.learned)
    ensures TrainStep(c, n, xs, ys, epochs).clf.learned.labels == c.learned.labels
  {
  }

  /** An instance after a call that returns labels, with the labels or the exception. */
  datatype Answer = Answer(clf: Clf, result: Result<seq<int>, ClfError>)

  /**
   * `predict`, given the class positions `ks` the engine writes for the
   * rows: the fitted check, the input checks, then decoding through the
   * label encoder.
   */
  function PredictSpec(c: Clf, xs: seq<seq<int>>, nf: nat, ks: seq<nat>): Answer
  {
    if !c.learned.fitted then Answer(c, Err(NotFittedError))
    else
      var c1 := c.(libLoaded := true);
      if !Accepts(xs, nf) then Answer(c1, Err(ValueError))
      else if c.learned.nFeatures.None? then Answer(c1, Err(AttributeError))
      else if nf != c.learned.nFeatures.value then Answer(c1, Err(ValueError))
      else if c.handle.None? then Answer(c1, Err(NullInstance))
      else if c.learned.labels.None? then Answer(c1, Err(AttributeError))
      else match InverseTransform(c.learned.labels.value, ks)
        case None => Answer(c1, Err(ValueError))
        case Some(ys) => Answer(c1, Ok(ys))
  }

  /**
   * A prediction succeeds exactly on a fitted instance with a machine and
   * classes, binary rows of the learned width and positions within the
   * classes; then it is one known class per row, whose encoding is the
   * engine's position. Only the library flag changes.
   */
  lemma PredictLabels(c: Clf, xs: seq<seq<int>>, nf: nat, ks: seq<nat>)
    requires Consistent(c.learned) && |ks| == |xs|
    ensures PredictSpec(c, xs, nf, ks).clf.learned == c.learned
    ensures PredictSpec(c, xs, nf, ks).clf.handle == c.handle
    ensures PredictSpec(c, xs, nf, ks).result.Ok? <==>
      c.learned.fitted && Accepts(xs, nf) && c.learned.nFeatures == Some(nf) && c.handle.Some?
      && c.learned.labels.Some? && forall i :: 0 <= i < |ks| ==> ks[i] < |c.learned.labels.value|
    ensures PredictSpec(c, xs, nf, ks).result.Ok? ==>
      var ys := PredictSpec(c, xs, nf, ks).result.value;
      |ys| == |xs| && (forall i :: 0 <= i < |ys| ==> ys[i] in c.learned.labels.value)
      && Transform(c.learned.labels.value, ys) == Some(ks)
  {
    if PredictSpec(c, xs, nf, ks).result.Ok? {
      InverseTransformRoundTrip(c.learned.labels.value, ks);
    }
  }
}
