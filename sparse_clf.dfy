/*
 * `CTsetlinSparseClassifier`, the scikit-learn front end of the sparse
 * engine. Its lifecycle follows the dense one, with these differences:
 * `fit` and `init_empty_state` free a machine the instance holds before
 * creating the next; `reset` always frees; pickling drops the handle; and
 * a machine can be loaded from a dense model file (or, when the library
 * was built with FlatBuffers, from a FlatBuffers file), after which the
 * hyperparameters and the classes 0..n-1 are read back from the machine.
 */
module SparseClassifier {
  import opened Wrappers
  import opened Bytes
  import opened DenseCodec
  import opened TaList
  import opened Lifecycle
  import DenseSpec
  import SparseClause
  import SparseSpec
  import SparseMachine

  /** `init_empty_state`: learn the classes, free the old machine, create an untrained one. */
  function InitSpec(c: Clf, n: Native, nf: nat, classes: seq<int>, seed: nat, createOk: bool): Outcome
  {
    var c1 := c.(libLoaded := true);
    var labels := Unique(classes);
    var l1 := c.learned.(labels := Some(labels), nClasses := Some(|labels|));
    if |labels| < 2 then Outcome(c1.(learned := l1), n, Some(ValueError))
    else
      var l2 := l1.(nFeatures := Some(nf), seed := Some(seed));
      var n1 := if c.handle.Some? then Released(n, c.handle.value) else n;
      if !createOk then Outcome(c1.(handle := None, learned := l2), n1, Some(RuntimeError))
      else Outcome(c1.(handle := Some(n1.next), learned := l2.(fitted := true)), Allocated(n1, CreateHeader(c.hp, nf, |labels|)), None)
  }

  /** `fit`: check the rows, learn the classes of y, free the old machine, create one and train it. */
  function FitSpec(c: Clf, n: Native, xs: seq<seq<int>>, nf: nat, ys: seq<int>, seed: nat, createOk: bool): Outcome
  {
    var c1 := c.(libLoaded := true);
    if !Accepts(xs, nf) then Outcome(c1, n, Some(ValueError))
    else
      var labels := Unique(ys);
      var l1 := c.learned.(labels := Some(labels), nClasses := Some(|labels|));
      if |labels| < 2 then Outcome(c1.(learned := l1), n, Some(ValueError))
      else
        var l2 := l1.(nFeatures := Some(nf), seed := Some(seed));
        var n1 := if c.handle.Some? then Released(n, c.handle.value) else n;
        if !createOk then Outcome(c1.(handle := None, learned := l2), n1, Some(RuntimeError))
        else
          var h := n1.next;
          var n2 := Allocated(n1, CreateHeader(c.hp, nf, |labels|));
          Outcome(c1.(handle := Some(h), learned := l2.(fitted := true)),
                  Trained(n2, h, Training(xs, Transform(labels, ys).value, c.hp.epochs)), None)
  }

  /**
   * `partial_fit`: check the rows; without a machine, initialise from
   * `classes` (or the classes of y); with one, check the width and that
   * `classes` equals `classes_`; then train it.
   */
  function PartialFitSpec(c: Clf, n: Native, xs: seq<seq<int>>, nf: nat, ys: seq<int>,
                          classes: Option<seq<int>>, epochs: Option<nat>, seed: nat, createOk: bool): Outcome
  {
    var c1 := c.(libLoaded := true);
    if !Accepts(xs, nf) then Outcome(c1, n, Some(ValueError))
    else
      var o := if c.handle.None? then InitSpec(c1, n, nf, if classes.Some? then classes.value else Unique(ys), seed, createOk)
               else Outcome(c1, n, HandleChecks(c.learned, nf, classes));
      if o.raised.Some? then o
      else TrainStep(o.clf, o.native, xs, ys, if epochs.Some? then epochs.value else c.hp.epochs)
  }

  /** `reset`: free the machine if there is one, then forget everything learned. */
  function ResetSpec(c: Clf, n: Native): Outcome
  {
    if c.handle.Some? then Outcome(c.(libLoaded := true, handle := None, learned := NOT_LEARNED), Released(n, c.handle.value), None)
    else Outcome(c.(learned := NOT_LEARNED), n, None)
  }

  /** The pickled attributes: everything but the library and the handle. */
  datatype State = State(hp: Hyper, learned: Learned)

  function GetState(c: Clf): State
  {
    State(c.hp, c.learned)
  }

  /** `__setstate__`: the pickled attributes, no library, no machine. */
  function SetState(p: State): Clf
  {
    Clf(p.hp, false, None, p.learned)
  }

  /**
   * `_update_from_c_model`: the hyperparameters and the counts read back
   * from the machine's header, and the classes 0..n_classes-1 (the model
   * file keeps no labels).
   */
  function UpdateFromHeader(c: Clf, h: Header): (r: Clf)
    ensures r.handle == c.handle && r.libLoaded == c.libLoaded && r.hp.epochs == c.hp.epochs
  {
    c.(hp := c.hp.(threshold := h.threshold, numClauses := h.numClauses, maxState := h.maxState,
                   minState := h.minState, boost := h.boost != 0),
       learned := FromHeader(c.learned, h))
  }

  /**
   * The end of `load_model_dense` and `load_model_fbs`: free the old
   * machine, take the loader's machine (RuntimeError on NULL), read its
   * header back and mark the instance fitted.
   */
  function AdoptSpec(c: Clf, n: Native, loaded: Option<Header>): Outcome
  {
    var n1 := if c.handle.Some? then Released(n, c.handle.value) else n;
    match loaded
    case None => Outcome(c.(handle := None), n1, Some(RuntimeError))
    case Some(h) =>
      var c2 := UpdateFromHeader(c.(handle := Some(n1.next)), h);
      Outcome(c2.(learned := c2.learned.(fitted := true)), Allocated(n1, h), None)
  }

  /** What `stm_load_dense` hands back for a file: NULL for a short file, else a machine with the file's header. */
  function LoadedHeader(file: seq<Byte>): Option<Header>
  {
    match Decode(file)
    case Ok(img) => Some(img.header)
    case Err(_) => None
  }

  function LoadDenseSpec(c: Clf, n: Native, file: seq<Byte>): Outcome
  {
    AdoptSpec(c.(libLoaded := true), n, LoadedHeader(file))
  }

  /** `load_model_fbs`: NotImplementedError, before anything is freed, on a library without the entry point. */
  function LoadFbsSpec(c: Clf, n: Native, hasLoadFbs: bool, loaded: Option<Header>): Outcome
  {
    if !hasLoadFbs then Outcome(c.(libLoaded := true), n, Some(NotImplementedError))
    else AdoptSpec(c.(libLoaded := true), n, loaded)
  }

  /** `save_model_fbs`: the fitted check, then NotImplementedError on a library without the entry point. */
  function SaveFbsSpec(c: Clf, hasSaveFbs: bool): (Clf, Option<ClfError>)
  {
    if !c.learned.fitted then (c, Some(NotFittedError))
    else if !hasSaveFbs then (c.(libLoaded := true), Some(NotImplementedError))
    else if c.handle.None? then (c.(libLoaded := true), Some(NullInstance))
    else (c.(libLoaded := true), None)
  }

  /*
   * The size estimate.
   */

  /**
   * The nodes of all clause lists: what the estimate's `total_literals` is
   * meant to count. The code reads it instead through a `clause_sizes`
   * pointer that the engine's struct does not have
   * (`StructLayout.ClauseSizesSlot`).
   */
  function TotalNodes(lists: seq<seq<Node>>): nat
  {
    if lists == [] then 0 else |lists[0]| + TotalNodes(lists[1..])
  }

  /**
   * The bytes of the engine's structures: 16 per node, a pointer per clause
   * list and per class row of active literals, four per clause size, two
   * per weight, one per clause output, four per vote.
   */
  function ModelBytes(totalLiterals: nat, pointerSize: nat, numClauses: nat, numClasses: nat): nat
  {
    totalLiterals * 16 + numClauses * pointerSize + numClasses * pointerSize + numClauses * 4
    + numClauses * numClasses * 2 + numClauses + numClasses * 4
  }

  /**
   * `estimate_model_size`: RuntimeError without a machine (its fitted check
   * always passes). The count of automata it sums is a parameter, since the
   * code reads it from a slot of the engine's struct that holds other data.
   */
  function EstimateModelSize(c: Clf, totalLiterals: nat, pointerSize: nat): (r: Result<nat, ClfError>)
    ensures r.Ok? <==> c.handle.Some? && c.learned.nClasses.Some?
    ensures c.handle.None? ==> r == Err(RuntimeError)
  {
    if c.handle.None? then Err(RuntimeError)
    else if c.learned.nClasses.None? then Err(AttributeError)
    else Ok(ModelBytes(totalLiterals, pointerSize, c.hp.numClauses, c.learned.nClasses.value))
  }

  /*
   * Properties.
   */

  /** `fit` rejects non-binary or empty rows and fewer than two classes before it frees or creates anything. */
  lemma FitChecksFirst(c: Clf, n: Native, xs: seq<seq<int>>, nf: nat, ys: seq<int>, seed: nat, createOk: bool)
    requires !Accepts(xs, nf) || |Unique(ys)| < 2
    ensures FitSpec(c, n, xs, nf, ys, seed, createOk).raised == Some(ValueError)
    ensures FitSpec(c, n, xs, nf, ys, seed, createOk).native == n
    ensures FitSpec(c, n, xs, nf, ys, seed, createOk).clf.handle == c.handle
  {
  }

  /**
   * Once the checks pass, `fit` frees the machine the instance held,
   * whether or not the new one is created; a NULL raises RuntimeError and
   * leaves no handle, otherwise the fresh machine is trained once.
   */
  lemma FitFreesOld(c: Clf, n: Native, xs: seq<seq<int>>, nf: nat, ys: seq<int>, seed: nat, createOk: bool)
    requires NativeValid(n) && Accepts(xs, nf) && |Unique(ys)| >= 2
    requires c.handle.Some? ==> c.handle.value < n.next
    ensures var o := FitSpec(c, n, xs, nf, ys, seed, createOk);
      && (c.handle.Some? ==> c.handle.value !in o.native.live)
      && NativeValid(o.native)
      && (createOk <==> o.raised.None?)
      && (!createOk ==> o.raised == Some(RuntimeError) && o.clf.handle.None? && o.native.live == n.live - (if c.handle.Some? then {c.handle.value} else {}))
      && (createOk ==>
            && o.clf.handle == Some(n.next) && n.next !in n.live
            && o.native.live == n.live - (if c.handle.Some? then {c.handle.value} else {}) + {n.next}
            && |TrainingsOf(o.native, n.next)| == 1 && TrainingsOf(o.native, n.next)[0].xs == xs)
  {
    var n1 := if c.handle.Some? then Released(n, c.handle.value) else n;
    assert n1.next == n.next && NativeValid(n1);
    if createOk {
      var n2 := Allocated(n1, CreateHeader(c.hp, nf, |Unique(ys)|));
      assert TrainingsOf(n2, n.next) == [];
    }
  }

  /** On an instance with a machine, `partial_fit` trains that same machine in place. */
  lemma PartialFitInPlace(c: Clf, n: Native, xs: seq<seq<int>>, nf: nat, ys: seq<int>,
                          classes: Option<seq<int>>, epochs: Option<nat>, seed: nat, createOk: bool)
    requires c.handle.Some? && Accepts(xs, nf) && c.learned.labels.Some?
    requires c.learned.nFeatures == Some(nf) && (classes.Some? ==> classes == c.learned.labels)
    requires forall i :: 0 <= i < |ys| ==> ys[i] in c.learned.labels.value
    ensures var o := PartialFitSpec(c, n, xs, nf, ys, classes, epochs, seed, createOk);
      && o.raised.None? && o.clf.handle == c.handle && o.native.live == n.live && o.native.next == n.next
      && o.clf.learned == c.learned.(fitted := true)
      && TrainingsOf(o.native, c.handle.value) == TrainingsOf(n, c.handle.value)
           + [Training(xs, Transform(c.learned.labels.value, ys).value, if epochs.Some? then epochs.value else c.hp.epochs)]
  {
  }

  /** On an instance with a machine, a different width or `classes` is a ValueError and nothing is trained. */
  lemma PartialFitMismatch(c: Clf, n: Native, xs: seq<seq<int>>, nf: nat, ys: seq<int>,
                           classes: Option<seq<int>>, epochs: Option<nat>, seed: nat, createOk: bool)
    requires c.handle.Some? && Accepts(xs, nf) && c.learned.labels.Some? && c.learned.nFeatures.Some?
    requires c.learned.nFeatures != Some(nf) || (classes.Some? && classes != c.learned.labels)
    ensures PartialFitSpec(c, n, xs, nf, ys, classes, epochs, seed, createOk) == Outcome(c.(libLoaded := true), n, Some(ValueError))
  {
  }

  /** `reset` frees a held machine exactly once: a second `reset` changes nothing. */
  lemma ResetIdempotent(c: Clf, n: Native)
    ensures var o := ResetSpec(c, n);
      && o.clf.handle.None? && o.clf.learned == NOT_LEARNED && o.clf.hp == c.hp
      && o.native.live == n.live - (if c.handle.Some? then {c.handle.value} else {})
      && ResetSpec(o.clf, o.native) == o
  {
  }

  /**
   * An unpickled copy keeps the hyperparameters and the learned attributes
   * but has no machine: on a fitted copy, a prediction on valid rows hands
   * the engine a NULL machine.
   */
  lemma PickleDropsHandle(c: Clf, xs: seq<seq<int>>, nf: nat, ks: seq<nat>)
    requires c.learned.fitted && Accepts(xs, nf) && c.learned.nFeatures == Some(nf)
    ensures SetState(GetState(c)) == c.(libLoaded := false, handle := None)
    ensures PredictSpec(SetState(GetState(c)), xs, nf, ks).result == Err(NullInstance)
  {
  }

  /**
   * Loading a dense model file: a short file raises RuntimeError with no
   * machine left; otherwise the instance holds a fresh machine, its
   * hyperparameters and counts are the file's header, its classes are
   * 0..n_classes-1, and it is fitted. Either way the old machine is freed.
   */
  lemma LoadDenseResult(c: Clf, n: Native, file: seq<Byte>)
    requires NativeValid(n) && (c.handle.Some? ==> c.handle.value < n.next)
    ensures var o := LoadDenseSpec(c, n, file);
      && (c.handle.Some? ==> c.handle.value !in o.native.live)
      && NativeValid(o.native)
      && (Decode(file).Err? ==> o.raised == Some(RuntimeError) && o.clf.handle.None?)
      && (Decode(file).Ok? ==>
           var h := Decode(file).value.header;
           && o.raised.None? && o.clf.handle == Some(n.next) && n.next !in n.live
           && o.native.headers[n.next] == h
           && o.clf.hp == c.hp.(threshold := h.threshold, numClauses := h.numClauses, maxState := h.maxState,
                                minState := h.minState, boost := h.boost != 0)
           && o.clf.learned == c.learned.(labels := Some(Range(h.numClasses)), nClasses := Some(h.numClasses),
                                          nFeatures := Some(h.numLiterals), fitted := true)
           && Consistent(o.clf.learned))
  {
  }

  /** Without the optional entry points, the FlatBuffers calls raise NotImplementedError and touch no machine. */
  lemma FbsMissing(c: Clf, n: Native, loaded: Option<Header>)
    ensures LoadFbsSpec(c, n, false, loaded) == Outcome(c.(libLoaded := true), n, Some(NotImplementedError))
    ensures c.learned.fitted ==> SaveFbsSpec(c, false) == (c.(libLoaded := true), Some(NotImplementedError))
    ensures !c.learned.fitted ==> SaveFbsSpec(c, false).1 == Some(NotFittedError)
  {
  }

  /** With the entry point, `load_model_fbs` behaves as `load_model_dense` does on a loader result. */
  lemma LoadFbsAsDense(c: Clf, n: Native, file: seq<Byte>)
    ensures LoadFbsSpec(c, n, true, LoadedHeader(file)) == LoadDenseSpec(c, n, file)
  {
  }

  /** `fit`, `init_empty_state`, `partial_fit`, `reset` and the loads keep the classes consistent. */
  lemma KeepsConsistent(c: Clf, n: Native, xs: seq<seq<int>>, nf: nat, ys: seq<int>,
                        classes: Option<seq<int>>, epochs: Option<nat>, seed: nat, ok: bool, loaded: Option<Header>)
    requires Consistent(c.learned)
    ensures Consistent(FitSpec(c, n, xs, nf, ys, seed, ok).clf.learned)
    ensures Consistent(InitSpec(c, n, nf, ys, seed, ok).clf.learned)
    ensures Consistent(PartialFitSpec(c, n, xs, nf, ys, classes, epochs, seed, ok).clf.learned)
    ensures Consistent(ResetSpec(c, n).clf.learned)
    ensures Consistent(LoadFbsSpec(c, n, ok, loaded).clf.learned)
  {
    InitConsistent(c, n, nf, ys, seed, ok);
    PartialFitConsistent(c, n, xs, nf, ys, classes, epochs, seed, ok);
  }

  lemma PartialFitConsistent(c: Clf, n: Native, xs: seq<seq<int>>, nf: nat, ys: seq<int>,
                             classes: Option<seq<int>>, epochs: Option<nat>, seed: nat, ok: bool)
    requires Consistent(c.learned)
    ensures Consistent(PartialFitSpec(c, n, xs, nf, ys, classes, epochs, seed, ok).clf.learned)
  {
    if Accepts(xs, nf) {
      var c1 := c.(libLoaded := true);
      var o := if c.handle.None? then InitSpec(c1, n, nf, if classes.Some? then classes.value else Unique(ys), seed, ok)
               else Outcome(c1, n, HandleChecks(c.learned, nf, classes));
      if c.handle.None? {
        InitConsistent(c1, n, nf, if classes.Some? then classes.value else Unique(ys), seed, ok);
      }
      TrainStepConsistent(o.clf, o.native, xs, ys, if epochs.Some? then epochs.value else c.hp.epochs);
    }
  }

  /** `init_empty_state` sets the classes and their count together. */
  lemma InitConsistent(c: Clf, n: Native, nf: nat, classes: seq<int>, seed: nat, ok: bool)
    requires Consistent(c.learned)
    ensures Consistent(InitSpec(c, n, nf, classes, seed, ok).clf.learned)
  {
  }

  /** A list pruned from n automata has at most n nodes. */
  lemma {:induction false} PruneLength(cl: seq<int>, mid: int, n: nat)
    requires n <= |cl|
    ensures |SparseClause.Prune(cl, mid, n)| <= n
  {
    if n > 0 {
      PruneLength(cl, mid, n - 1);
    }
  }

  /** Lists of at most b nodes each hold at most |lists| * b nodes. */
  lemma {:induction false} TotalNodesBound(lists: seq<seq<Node>>, b: nat)
    requires forall c :: 0 <= c < |lists| ==> |lists[c]| <= b
    ensures TotalNodes(lists) <= |lists| * b
  {
    if lists != [] {
      TotalNodesBound(lists[1..], b);
      assert |lists| * b == b + (|lists| - 1) * b;
    }
  }

  /** Each clause list loaded from a dense model has at most one node per automaton of the clause. */
  lemma LoadedListsShort(h: Header, states: seq<int>)
    requires |states| == StateCount(h)
    ensures forall c :: 0 <= c < h.numClauses ==> |SparseSpec.LoadedLists(h, states)[c]| <= 2 * h.numLiterals
  {
    forall c | 0 <= c < h.numClauses ensures |SparseSpec.LoadedLists(h, states)[c]| <= 2 * h.numLiterals {
      PruneLength(DenseSpec.Clause(h, states, c), DenseSpec.MidState(h), 2 * h.numLiterals);
    }
  }

  lemma StateCountPerClause(h: Header)
    ensures h.numClauses * (2 * h.numLiterals) == StateCount(h)
  {
  }

  /** More nodes, a larger estimate. */
  lemma ModelBytesMonotone(t1: nat, t2: nat, pointerSize: nat, numClauses: nat, numClasses: nat)
    requires t1 <= t2
    ensures ModelBytes(t1, pointerSize, numClauses, numClasses) <= ModelBytes(t2, pointerSize, numClauses, numClasses)
  {
  }

  /**
   * A machine loaded from a dense model keeps at most one node per
   * automaton, so the estimate over its nodes, the intended
   * `total_literals`, is at most the estimate with every automaton kept.
   */
  lemma LoadedEstimateBound(h: Header, states: seq<int>, pointerSize: nat)
    requires |states| == StateCount(h)
    ensures TotalNodes(SparseSpec.LoadedLists(h, states)) <= StateCount(h)
    ensures ModelBytes(TotalNodes(SparseSpec.LoadedLists(h, states)), pointerSize, h.numClauses, h.numClasses)
      <= ModelBytes(StateCount(h), pointerSize, h.numClauses, h.numClasses)
  {
    var lists := SparseSpec.LoadedLists(h, states);
    LoadedListsShort(h, states);
    TotalNodesBound(lists, 2 * h.numLiterals);
    StateCountPerClause(h);
    ModelBytesMonotone(TotalNodes(lists), StateCount(h), pointerSize, h.numClauses, h.numClasses);
  }

  /*
   * The classifier object.
   */

  class CTsetlinSparseClassifier {
    var hp: Hyper
    var libLoaded: bool
    var handle: Option<nat>
    var learned: Learned
    const backend: Backend

    function Snapshot(): Clf
      reads this
    {
      Clf(hp, libLoaded, handle, learned)
    }

    /** `__init__`: hyperparameters only, no library, no machine. */
    constructor (hp: Hyper, backend: Backend)
      ensures Snapshot() == Clf(hp, false, None, NOT_LEARNED) && this.backend == backend
    {
      this.hp := hp;
      libLoaded := false;
      handle := None;
      learned := NOT_LEARNED;
      this.backend := backend;
    }

    /** Unpickling: an instance made from the pickled attributes. */
    constructor FromState(p: State, backend: Backend)
      ensures Snapshot() == SetState(p) && this.backend == backend
    {
      hp := p.hp;
      libLoaded := false;
      handle := None;
      learned := p.learned;
      this.backend := backend;
    }

    method GetPickledState() returns (p: State)
      ensures p == GetState(Snapshot())
    {
      p := State(hp, learned);
    }

    method InitEmptyState(nf: nat, classes: seq<int>, seed: nat, createOk: bool) returns (raised: Option<ClfError>)
      modifies this, backend
      ensures Outcome(Snapshot(), backend.native, raised) == InitSpec(old(Snapshot()), old(backend.native), nf, classes, seed, createOk)
    {
      libLoaded := true;
      var labels := Unique(classes);
      learned := learned.(labels := Some(labels), nClasses := Some(|labels|));
      if |labels| < 2 {
        return Some(ValueError);
      }
      learned := learned.(nFeatures := Some(nf), seed := Some(seed));
      if handle.Some? {
        backend.Free(handle.value);
      }
      handle := backend.Create(CreateHeader(hp, nf, |labels|), createOk);
      if handle.None? {
        return Some(RuntimeError);
      }
      learned := learned.(fitted := true);
      return None;
    }

    method Fit(xs: seq<seq<int>>, nf: nat, ys: seq<int>, seed: nat, createOk: bool) returns (raised: Option<ClfError>)
      modifies this, backend
      ensures Outcome(Snapshot(), backend.native, raised) == FitSpec(old(Snapshot()), old(backend.native), xs, nf, ys, seed, createOk)
    {
      libLoaded := true;
      if !Accepts(xs, nf) {
        return Some(ValueError);
      }
      var labels := Unique(ys);
      var mapped := Transform(labels, ys);
      learned := learned.(labels := Some(labels), nClasses := Some(|labels|));
      if |labels| < 2 {
        return Some(ValueError);
      }
      learned := learned.(nFeatures := Some(nf), seed := Some(seed));
      if handle.Some? {
        backend.Free(handle.value);
      }
      handle := backend.Create(CreateHeader(hp, nf, |labels|), createOk);
      if handle.None? {
        return Some(RuntimeError);
      }
      backend.Train(handle.value, Training(xs, mapped.value, hp.epochs));
      learned := learned.(fitted := true);
      return None;
    }

    method PartialFit(xs: seq<seq<int>>, nf: nat, ys: seq<int>, classes: Option<seq<int>>, epochs: Option<nat>,
                      seed: nat, createOk: bool) returns (raised: Option<ClfError>)
      modifies this, backend
      ensures Outcome(Snapshot(), backend.native, raised)
        == PartialFitSpec(old(Snapshot()), old(backend.native), xs, nf, ys, classes, epochs, seed, createOk)
    {
      libLoaded := true;
      if !Accepts(xs, nf) {
        return Some(ValueError);
      }
      if handle.None? {
        raised := InitEmptyState(nf, if classes.Some? then classes.value else Unique(ys), seed, createOk);
        if raised.Some? {
          return;
        }
      } else {
        raised := HandleChecks(learned, nf, classes);
        if raised.Some? {
          return;
        }
      }
      if learned.labels.None? {
        return Some(AttributeError);
      }
      var mapped := Transform(learned.labels.value, ys);
      if mapped.None? {
        return Some(ValueError);
      }
      if handle.None? {
        return Some(NullInstance);
      }
      backend.Train(handle.value, Training(xs, mapped.value, if epochs.Some? then epochs.value else hp.epochs));
      learned := learned.(fitted := true);
      return None;
    }

    method Predict(xs: seq<seq<int>>, nf: nat, ks: seq<nat>) returns (result: Result<seq<int>, ClfError>)
      modifies this
      ensures Answer(Snapshot(), result) == PredictSpec(old(Snapshot()), xs, nf, ks)
    {
      if !learned.fitted {
        return Err(NotFittedError);
      }
      libLoaded := true;
      if !Accepts(xs, nf) {
        return Err(ValueError);
      }
      if learned.nFeatures.None? {
        return Err(AttributeError);
      }
      if nf != learned.nFeatures.value {
        return Err(ValueError);
      }
      if handle.None? {
        return Err(NullInstance);
      }
      if learned.labels.None? {
        return Err(AttributeError);
      }
      var decoded := InverseTransform(learned.labels.value, ks);
      if decoded.None? {
        return Err(ValueError);
      }
      return Ok(decoded.value);
    }

    method Reset()
      modifies this, backend
      ensures Outcome(Snapshot(), backend.native, None) == ResetSpec(old(Snapshot()), old(backend.native))
    {
      if handle.Some? {
        libLoaded := true;
        backend.Free(handle.value);
        handle := None;
      }
      learned := NOT_LEARNED;
    }

    /** `_update_from_c_model`: nothing without a machine, else read its header back. */
    method UpdateFromCModel()
      requires handle.Some? ==> handle.value in backend.native.headers
      modifies this
      ensures Snapshot() == if old(handle).None? then old(Snapshot())
                            else UpdateFromHeader(old(Snapshot()), backend.native.headers[old(handle).value])
    {
      if handle.None? {
        return;
      }
      var h := backend.native.headers[handle.value];
      hp := hp.(threshold := h.threshold, numClauses := h.numClauses, maxState := h.maxState,
                minState := h.minState, boost := h.boost != 0);
      learned := FromHeader(learned, h);
    }

    /** Free the old machine, take the loader's result, read the new machine back. */
    method Adopt(loaded: Option<Header>) returns (raised: Option<ClfError>)
      modifies this, backend
      ensures Outcome(Snapshot(), backend.native, raised) == AdoptSpec(old(Snapshot()), old(backend.native), loaded)
    {
      if handle.Some? {
        backend.Free(handle.value);
      }
      if loaded.None? {
        handle := None;
        return Some(RuntimeError);
      }
      handle := backend.Create(loaded.value, true);
      UpdateFromCModel();
      learned := learned.(fitted := true);
      return None;
    }

    /** `load_model_dense`: the engine's dense loader reads the file. */
    method LoadModelDense(file: seq<Byte>) returns (raised: Option<ClfError>)
      modifies this, backend
      ensures Outcome(Snapshot(), backend.native, raised) == LoadDenseSpec(old(Snapshot()), old(backend.native), file)
    {
      libLoaded := true;
      var r := SparseMachine.SparseTsetlinMachine.LoadDense(file);
      var loaded := if r.Ok? then Some(r.value.Params()) else None;
      raised := Adopt(loaded);
    }

    /** `load_model_fbs`, given what the FlatBuffers loader returns. */
    method LoadModelFbs(loaded: Option<Header>) returns (raised: Option<ClfError>)
      modifies this, backend
      ensures Outcome(Snapshot(), backend.native, raised) == LoadFbsSpec(old(Snapshot()), old(backend.native), backend.hasLoadFbs, loaded)
    {
      libLoaded := true;
      if !backend.hasLoadFbs {
        return Some(NotImplementedError);
      }
      raised := Adopt(loaded);
    }

    method SaveModelFbs() returns (raised: Option<ClfError>)
      modifies this
      ensures (Snapshot(), raised) == SaveFbsSpec(old(Snapshot()), backend.hasSaveFbs)
    {
      if !learned.fitted {
        return Some(NotFittedError);
      }
      libLoaded := true;
      if !backend.hasSaveFbs {
        return Some(NotImplementedError);
      }
      if handle.None? {
        return Some(NullInstance);
      }
      return None;
    }
  }
}
