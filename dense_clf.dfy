/*
 * `CTsetlinClassifier`, the scikit-learn front end of the dense engine.
 * `fit` learns the classes, creates a new machine and trains it;
 * `init_empty_state` creates an untrained one; `partial_fit` trains the
 * machine it has, creating one on the first call; `reset` frees it and
 * forgets what was learned. The machine is reached only through its handle.
 *
 * Unlike the sparse front end, `fit` and `init_empty_state` do not free a
 * machine the instance already holds: it stays allocated and unreferenced.
 * Pickling keeps `tm_instance_` (`__getstate__` removes a `_tm_instance`
 * key instead), so an unpickled copy holds the same handle as the original.
 */
module DenseClassifier {
  import opened Wrappers
  import opened DenseCodec
  import opened Lifecycle

  /** `init_empty_state`: learn the classes, then create an untrained machine. */
  function InitSpec(c: Clf, n: Native, nf: nat, classes: seq<int>, seed: nat, createOk: bool): Outcome
  {
    var c1 := c.(libLoaded := true);
    var labels := Unique(classes);
    var l1 := c.learned.(labels := Some(labels), nClasses := Some(|labels|));
    if |labels| < 2 then Outcome(c1.(learned := l1), n, Some(ValueError))
    else
      var l2 := l1.(nFeatures := Some(nf), seed := Some(seed));
      if !createOk then Outcome(c1.(handle := None, learned := l2), n, Some(RuntimeError))
      else Outcome(c1.(handle := Some(n.next), learned := l2.(fitted := true)), Allocated(n, CreateHeader(c.hp, nf, |labels|)), None)
  }

  /** `fit`: check the rows, learn the classes of y, create a machine and train it for `epochs`. */
  function FitSpec(c: Clf, n: Native, xs: seq<seq<int>>, nf: nat, ys: seq<int>, seed: nat, createOk: bool): Outcome
  {
    var c1 := c.(libLoaded := true);
    if !Accepts(xs, nf) then Outcome(c1, n, Some(ValueError))
    else
      var labels := Unique(ys);
      var l1 := c.learned.(labels := Some(labels), nClasses := Some(|labels|));
      if |labels| < 2 then Outcome(c1.(learned := l1), n, Some(ValueError))
      else
        var l2 := l1.(nFeatures := Some(nf), seed := Some(seed));
        if !createOk then Outcome(c1.(handle := None, learned := l2), n, Some(RuntimeError))
        else
          var h := n.next;
          var n1 := Allocated(n, CreateHeader(c.hp, nf, |labels|));
          Outcome(c1.(handle := Some(h), learned := l2.(fitted := true)),
                  Trained(n1, h, Training(xs, Transform(labels, ys).value, c.hp.epochs)), None)
  }

  /**
   * `partial_fit`: check the rows; without a machine, initialise from
   * `classes` (or the classes of y); with one, check the width and the
   * classes; then train it.
   */
  function PartialFitSpec(c: Clf, n: Native, xs: seq<seq<int>>, nf: nat, ys: seq<int>,
                      classes: Option<seq<int>>, epochs: Option<nat>, seed: nat, createOk: bool): Outcome
  {
    var c1 := c.(libLoaded := true);
    if !Accepts(xs, nf) then Outcome(c1, n, Some(ValueError))
    else
      var o := if c.handle.None? then InitSpec(c1, n, nf, if classes.Some? then classes.value else Unique(ys), seed, createOk)
               else Outcome(c1, n, HandleChecks(c.learned, nf, classes));
      if o.raised.Some? then o
      else TrainStep(o.clf, o.native, xs, ys, if epochs.Some? then epochs.value else c.hp.epochs)
  }

  /** `reset`: free the machine if there is one (a failed free, `freeOk` false, is only reported), then forget everything learned. */
  function ResetSpec(c: Clf, n: Native, freeOk: bool): Outcome
  {
    if c.handle.Some? then
      Outcome(c.(libLoaded := true, handle := None, learned := NOT_LEARNED),
              if freeOk then Released(n, c.handle.value) else n, None)
    else Outcome(c.(learned := NOT_LEARNED), n, None)
  }

  /** The pickled attributes: everything but the library, the handle included. */
  datatype State = State(hp: Hyper, handle: Option<nat>, learned: Learned)

  function GetState(c: Clf): State
  {
    State(c.hp, c.handle, c.learned)
  }

  /** `__setstate__`: the pickled attributes with the library unloaded. */
  function SetState(p: State): Clf
  {
    Clf(p.hp, false, p.handle, p.learned)
  }

  /**
   * The bytes of the engine's arrays: states, weights, clause outputs, the
   * three-per-weight feedback buffer and the votes.
   */
  function ModelBytes(numClauses: nat, numLiterals: nat, numClasses: nat): nat
  {
    numClauses * numLiterals * 2 + numClauses * numClasses * 2 + numClauses
    + numClauses * numClasses * 3 + numClasses * 4
  }

  /** `estimate_model_size` (its fitted check always passes; the learned counts must be present). */
  function EstimateModelSize(c: Clf): (r: Result<nat, ClfError>)
    ensures r.Ok? <==> c.learned.nFeatures.Some? && c.learned.nClasses.Some?
  {
    if c.learned.nFeatures.None? || c.learned.nClasses.None? then Err(AttributeError)
    else Ok(ModelBytes(c.hp.numClauses, c.learned.nFeatures.value, c.learned.nClasses.value))
  }

  /*
   * Properties.
   */

  /**
   * `fit` rejects non-binary or empty rows and fewer than two classes
   * before it creates anything: the library and the handle are untouched.
   */
  lemma FitChecksFirst(c: Clf, n: Native, xs: seq<seq<int>>, nf: nat, ys: seq<int>, seed: nat, createOk: bool)
    requires !Accepts(xs, nf) || |Unique(ys)| < 2
    ensures FitSpec(c, n, xs, nf, ys, seed, createOk).raised == Some(ValueError)
    ensures FitSpec(c, n, xs, nf, ys, seed, createOk).native == n
    ensures FitSpec(c, n, xs, nf, ys, seed, createOk).clf.handle == c.handle
  {
  }

  /** A NULL from `tm_create` raises RuntimeError, leaves no handle and allocates nothing. */
  lemma FitNullHandle(c: Clf, n: Native, xs: seq<seq<int>>, nf: nat, ys: seq<int>, seed: nat)
    requires Accepts(xs, nf) && |Unique(ys)| >= 2
    ensures FitSpec(c, n, xs, nf, ys, seed, false).raised == Some(RuntimeError)
    ensures FitSpec(c, n, xs, nf, ys, seed, false).native == n
    ensures FitSpec(c, n, xs, nf, ys, seed, false).clf.handle.None?
    ensures !FitSpec(c, n, xs, nf, ys, seed, false).clf.learned.fitted || c.learned.fitted
  {
  }

  /**
   * A successful `fit` trains a fresh machine, sized by the classes and the
   * row width, once, on y encoded through the new classes; a machine the
   * instance held before stays allocated.
   */
  lemma FitFresh(c: Clf, n: Native, xs: seq<seq<int>>, nf: nat, ys: seq<int>, seed: nat)
    requires NativeValid(n) && Shaped(xs, nf) && |ys| == |xs|
    requires Accepts(xs, nf) && |Unique(ys)| >= 2
    ensures var o := FitSpec(c, n, xs, nf, ys, seed, true);
      && o.raised.None?
      && o.clf.handle == Some(n.next) && n.next !in n.live
      && o.native.live == n.live + {n.next} && NativeValid(o.native)
      && o.native.headers[n.next] == CreateHeader(c.hp, nf, |Unique(ys)|)
      && |TrainingsOf(o.native, n.next)| == 1
      && (var t := TrainingsOf(o.native, n.next)[0];
          t.xs == xs && t.epochs == c.hp.epochs && |t.ys| == |ys|
          && forall i :: 0 <= i < |ys| ==> Unique(ys)[t.ys[i]] == ys[i])
      && o.clf.learned == Learned(Some(Unique(ys)), Some(|Unique(ys)|), Some(nf), Some(seed), true)
      && (c.handle.Some? && c.handle.value in n.live ==> c.handle.value in o.native.live)
  {
    var h := n.next;
    var n1 := Allocated(n, CreateHeader(c.hp, nf, |Unique(ys)|));
    assert TrainingsOf(n1, h) == [];
  }

  /** On an instance with a machine, `fit` and `partial_fit` differ: `partial_fit` trains that same machine in place. */
  lemma PartialFitInPlace(c: Clf, n: Native, xs: seq<seq<int>>, nf: nat, ys: seq<int>,
                          classes: Option<seq<int>>, epochs: Option<nat>, seed: nat, createOk: bool)
    requires c.handle.Some? && Accepts(xs, nf) && c.learned.labels.Some?
    requires c.learned.nFeatures == Some(nf) && (classes.Some? ==> classes == c.learned.labels)
    requires forall i :: 0 <= i < |ys| ==> ys[i] in c.learned.labels.value
    ensures var o := PartialFitSpec(c, n, xs, nf, ys, classes, epochs, seed, createOk);
      && o.raised.None? && o.clf.handle == c.handle && o.native.live == n.live && o.native.next == n.next
      && o.clf.learned == c.learned.(fitted := true)
      && TrainingsOf(o.native, c.handle.value) == TrainingsOf(n, c.handle.value)
           + [Training(xs, Transform(c.learned.labels.value, ys).value, if epochs.Some? then epochs.value else c.hp.epochs)]
  {
  }

  /**
   * On an instance with a machine, `partial_fit` raises ValueError on a
   * different width or a `classes` argument other than `classes_`, and
   * then nothing is trained.
   */
  lemma PartialFitMismatch(c: Clf, n: Native, xs: seq<seq<int>>, nf: nat, ys: seq<int>,
                           classes: Option<seq<int>>, epochs: Option<nat>, seed: nat, createOk: bool)
    requires c.handle.Some? && Accepts(xs, nf) && c.learned.labels.Some? && c.learned.nFeatures.Some?
    requires c.learned.nFeatures != Some(nf) || (classes.Some? && classes != c.learned.labels)
    ensures PartialFitSpec(c, n, xs, nf, ys, classes, epochs, seed, createOk) == Outcome(c.(libLoaded := true), n, Some(ValueError))
  {
  }

  /**
   * The first `partial_fit` (no machine) is `init_empty_state` on `classes`,
   * or on the classes of y when none are given, followed by one training of
   * the new machine.
   */
  lemma PartialFitFirstCall(c: Clf, n: Native, xs: seq<seq<int>>, nf: nat, ys: seq<int>,
                            classes: Option<seq<int>>, epochs: Option<nat>, seed: nat, createOk: bool)
    requires c.handle.None? && Accepts(xs, nf)
    ensures var init := InitSpec(c.(libLoaded := true), n, nf, if classes.Some? then classes.value else Unique(ys), seed, createOk);
      PartialFitSpec(c, n, xs, nf, ys, classes, epochs, seed, createOk)
      == if init.raised.Some? then init
         else TrainStep(init.clf, init.native, xs, ys, if epochs.Some? then epochs.value else c.hp.epochs)
    ensures classes.None? && createOk && |Unique(ys)| >= 2 ==>
      PartialFitSpec(c, n, xs, nf, ys, classes, epochs, seed, createOk).raised.None?
  {
    if classes.None? && createOk && |Unique(ys)| >= 2 {
      SortedSetsEqual(Unique(Unique(ys)), Unique(ys));
      var init := InitSpec(c.(libLoaded := true), n, nf, Unique(ys), seed, true);
      assert init.raised.None? && init.clf.handle.Some?;
      var labels := Unique(Unique(ys));
      assert init.clf.learned.labels == Some(labels);
      assert forall i :: 0 <= i < |ys| ==> ys[i] in labels by {
        forall i | 0 <= i < |ys| ensures ys[i] in labels {
          assert ys[i] in ys;
        }
      }
      assert Transform(labels, ys).Some?;
    }
  }

  /**
   * `reset` leaves no handle and no learned attribute, frees a held machine
   * when the free succeeds, and allocates nothing; a second `reset` changes
   * nothing more and frees nothing.
   */
  lemma ResetIdempotent(c: Clf, n: Native, freeOk: bool, freeOk2: bool)
    ensures var o := ResetSpec(c, n, freeOk);
      && o.clf.handle.None? && o.clf.learned == NOT_LEARNED && o.clf.hp == c.hp
      && o.native.next == n.next
      && (c.handle.Some? && freeOk ==> c.handle.value !in o.native.live)
      && o.native.live <= n.live
      && ResetSpec(o.clf, o.native, freeOk2) == o
  {
  }

  /**
   * An unpickled copy keeps every attribute, the handle included: it refers
   * to the same machine as the original, and only the library is unloaded.
   */
  lemma PickleKeepsHandle(c: Clf)
    ensures SetState(GetState(c)) == c.(libLoaded := false)
  {
  }

  /**
   * `fit`, `init_empty_state`, `partial_fit` and `reset` keep the classes
   * distinct and increasing, with `n_classes_` counting them.
   */
  lemma KeepsConsistent(c: Clf, n: Native, xs: seq<seq<int>>, nf: nat, ys: seq<int>,
                        classes: Option<seq<int>>, epochs: Option<nat>, seed: nat, ok: bool)
    requires Consistent(c.learned)
    ensures Consistent(FitSpec(c, n, xs, nf, ys, seed, ok).clf.learned)
    ensures Consistent(InitSpec(c, n, nf, ys, seed, ok).clf.learned)
    ensures Consistent(PartialFitSpec(c, n, xs, nf, ys, classes, epochs, seed, ok).clf.learned)
    ensures Consistent(ResetSpec(c, n, ok).clf.learned)
  {
    InitConsistent(c, n, nf, ys, seed, ok);
    PartialFitConsistent(c, n, xs, nf, ys, classes, epochs, seed, ok);
  }

  lemma PartialFitConsistent(c: Clf, n: Native, xs: seq<seq<int>>, nf: nat, ys: seq<int>,
                             classes: Option<seq<int>>, epochs: Option<nat>, seed: nat, ok: bool)
    requires Consistent(c.learned)
    ensures Consistent(PartialFitSpec(c, n, xs, nf, ys, classes, epochs, seed, ok).clf.learned)
  {
    if Accepts(xs, nf) {
      var c1 := c.(libLoaded := true);
      var o := if c.handle.None? then InitSpec(c1, n, nf, if classes.Some? then classes.value else Unique(ys), seed, ok)
               else Outcome(c1, n, HandleChecks(c.learned, nf, classes));
      if c.handle.None? {
        InitConsistent(c1, n, nf, if classes.Some? then classes.value else Unique(ys), seed, ok);
      }
      TrainStepConsistent(o.clf, o.native, xs, ys, if epochs.Some? then epochs.value else c.hp.epochs);
    }
  }

  /** `init_empty_state` sets the classes and their count together. */
  lemma InitConsistent(c: Clf, n: Native, nf: nat, classes: seq<int>, seed: nat, ok: bool)
    requires Consistent(c.learned)
    ensures Consistent(InitSpec(c, n, nf, classes, seed, ok).clf.learned)
  {
  }

  /**
   * The estimate is the size of the machine's arrays: the body of its model
   * file (weights at two bytes, states at one), plus the clause outputs, the
   * feedback buffer and the four-byte votes.
   */
  lemma EstimateCoversModelFile(img: Image, s: seq<Bytes.Byte>)
    requires ValidImage(img) && |s| == S_SIZE
    ensures var h := img.header;
      ModelBytes(h.numClauses, h.numLiterals, h.numClasses)
      == |Encode(img, s)| - HEADER_SIZE + h.numClauses + 3 * WeightCount(h) + 4 * h.numClasses
  {
  }

  /*
   * The classifier object.
   */

  class CTsetlinClassifier {
    const hp: Hyper
    var libLoaded: bool
    var handle: Option<nat>
    var learned: Learned
    const backend: Backend

    function Snapshot(): Clf
      reads this
    {
      Clf(hp, libLoaded, handle, learned)
    }

    /** `__init__`: hyperparameters only, no library, no machine. */
    constructor (hp: Hyper, backend: Backend)
      ensures Snapshot() == Clf(hp, false, None, NOT_LEARNED) && this.backend == backend
    {
      this.hp := hp;
      libLoaded := false;
      handle := None;
      learned := NOT_LEARNED;
      this.backend := backend;
    }

    /** Unpickling: an instance made from the pickled attributes. */
    constructor FromState(p: State, backend: Backend)
      ensures Snapshot() == SetState(p) && this.backend == backend
    {
      hp := p.hp;
      libLoaded := false;
      handle := p.handle;
      learned := p.learned;
      this.backend := backend;
    }

    method GetPickledState() returns (p: State)
      ensures p == GetState(Snapshot())
    {
      p := State(hp, handle, learned);
    }

    method InitEmptyState(nf: nat, classes: seq<int>, seed: nat, createOk: bool) returns (raised: Option<ClfError>)
      modifies this, backend
      ensures Outcome(Snapshot(), backend.native, raised) == InitSpec(old(Snapshot()), old(backend.native), nf, classes, seed, createOk)
    {
      libLoaded := true;
      var labels := Unique(classes);
      learned := learned.(labels := Some(labels), nClasses := Some(|labels|));
      if |labels| < 2 {
        return Some(ValueError);
      }
      learned := learned.(nFeatures := Some(nf), seed := Some(seed));
      handle := backend.Create(CreateHeader(hp, nf, |labels|), createOk);
      if handle.None? {
        return Some(RuntimeError);
      }
      learned := learned.(fitted := true);
      return None;
    }

    method Fit(xs: seq<seq<int>>, nf: nat, ys: seq<int>, seed: nat, createOk: bool) returns (raised: Option<ClfError>)
      modifies this, backend
      ensures Outcome(Snapshot(), backend.native, raised) == FitSpec(old(Snapshot()), old(backend.native), xs, nf, ys, seed, createOk)
    {
      libLoaded := true;
      if !Accepts(xs, nf) {
        return Some(ValueError);
      }
      var labels := Unique(ys);
      var mapped := Transform(labels, ys);
      learned := learned.(labels := Some(labels), nClasses := Some(|labels|));
      if |labels| < 2 {
        return Some(ValueError);
      }
      learned := learned.(nFeatures := Some(nf), seed := Some(seed));
      handle := backend.Create(CreateHeader(hp, nf, |labels|), createOk);
      if handle.None? {
        return Some(RuntimeError);
      }
      backend.Train(handle.value, Training(xs, mapped.value, hp.epochs));
      learned := learned.(fitted := true);
      return None;
    }

    method PartialFit(xs: seq<seq<int>>, nf: nat, ys: seq<int>, classes: Option<seq<int>>, epochs: Option<nat>,
                      seed: nat, createOk: bool) returns (raised: Option<ClfError>)
      modifies this, backend
      ensures Outcome(Snapshot(), backend.native, raised)
        == PartialFitSpec(old(Snapshot()), old(backend.native), xs, nf, ys, classes, epochs, seed, createOk)
    {
      libLoaded := true;
      if !Accepts(xs, nf) {
        return Some(ValueError);
      }
      if handle.None? {
        raised := InitEmptyState(nf, if classes.Some? then classes.value else Unique(ys), seed, createOk);
        if raised.Some? {
          return;
        }
      } else {
        raised := HandleChecks(learned, nf, classes);
        if raised.Some? {
          return;
        }
      }
      if learned.labels.None? {
        return Some(AttributeError);
      }
      var mapped := Transform(learned.labels.value, ys);
      if mapped.None? {
        return Some(ValueError);
      }
      if handle.None? {
        return Some(NullInstance);
      }
      backend.Train(handle.value, Training(xs, mapped.value, if epochs.Some? then epochs.value else hp.epochs));
      learned := learned.(fitted := true);
      return None;
    }

    method Predict(xs: seq<seq<int>>, nf: nat, ks: seq<nat>) returns (result: Result<seq<int>, ClfError>)
      modifies this
      ensures Answer(Snapshot(), result) == PredictSpec(old(Snapshot()), xs, nf, ks)
    {
      if !learned.fitted {
        return Err(NotFittedError);
      }
      libLoaded := true;
      if !Accepts(xs, nf) {
        return Err(ValueError);
      }
      if learned.nFeatures.None? {
        return Err(AttributeError);
      }
      if nf != learned.nFeatures.value {
        return Err(ValueError);
      }
      if handle.None? {
        return Err(NullInstance);
      }
      if learned.labels.None? {
        return Err(AttributeError);
      }
      var decoded := InverseTransform(learned.labels.value, ks);
      if decoded.None? {
        return Err(ValueError);
      }
      return Ok(decoded.value);
    }

    method Reset(freeOk: bool)
      modifies this, backend
      ensures Outcome(Snapshot(), backend.native, None) == ResetSpec(old(Snapshot()), old(backend.native), freeOk)
    {
      if handle.Some? {
        libLoaded := true;
        if freeOk {
          backend.Free(handle.value);
        }
        handle := None;
      }
      learned := NOT_LEARNED;
    }
  }
}
