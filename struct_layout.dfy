/*
 * Where the fields of `struct SparseTsetlinMachine` lie in memory, and
 * where the Python front end's `ctypes` mirror of it believes they lie.
 * A C compiler (and `ctypes`, which follows it) places each field at the
 * first offset after the previous one that is a multiple of the field's
 * alignment. Every field here is a scalar or a pointer, whose alignment is
 * its size; the sizes are the common 64-bit ones: 8 for a pointer, 4 for
 * `float` and the 32-bit integers, 1 for the 8-bit ones.
 */
module StructLayout {

  /** The fields either declaration names. */
  datatype Name =
    | NumClasses | Threshold | NumLiterals | NumClauses | MaxState
    | MinState | SparseInitState | SparseMinState | BoostTruePositiveFeedback | S
    | YSize | YElementSize | YEq | OutputActivation | CalculateFeedback
    | MidState | AlRowSize | SInv | SMin1Inv | TaState
    | ActiveLiterals | Weights | ClauseOutput | Votes | ClauseMaxSize
    | ClauseSizes

  /** The first multiple of `align` at or after `off` (a zero size asks for no alignment). */
  function AlignUp(off: nat, align: nat): (r: nat)
    ensures off <= r
    ensures align > 0 ==> r < off + align
  {
    if align == 0 || off % align == 0 then off else off + (align - off % align)
  }

  /** The first byte past fields of the given sizes, laid out one after another from offset 0. */
  function End(sizes: seq<nat>): (r: nat)
  {
    if sizes == [] then 0
    else AlignUp(End(sizes[..|sizes| - 1]), sizes[|sizes| - 1]) + sizes[|sizes| - 1]
  }

  /**
   * Where field i is placed: at or after the end of the fields before it,
   * less than its own size past that end, and ending where the layout of
   * the first i + 1 fields ends.
   */
  function OffsetAt(sizes: seq<nat>, i: nat): (r: nat)
    requires i < |sizes|
    ensures End(sizes[..i]) <= r
    ensures sizes[i] > 0 ==> r < End(sizes[..i]) + sizes[i]
    ensures r + sizes[i] == End(sizes[..i + 1])
  {
    assert sizes[..i + 1][..i] == sizes[..i];
    AlignUp(End(sizes[..i]), sizes[i])
  }

  lemma {:induction false} EndMonotone(sizes: seq<nat>, m: nat, n: nat)
    requires m <= n <= |sizes|
    ensures End(sizes[..m]) <= End(sizes[..n])
    decreases n
  {
    if m < n {
      EndMonotone(sizes, m, n - 1);
      var o := OffsetAt(sizes, n - 1);
    }
  }

  /** Fields never overlap: each one ends before any later one starts. */
  lemma NoOverlap(sizes: seq<nat>, i: nat, j: nat)
    requires i < j < |sizes|
    ensures OffsetAt(sizes, i) + sizes[i] <= OffsetAt(sizes, j)
  {
    EndMonotone(sizes, i + 1, j);
  }

  /** Two layouts that begin with the same fields place those fields alike. */
  lemma SamePrefix(f: seq<nat>, g: seq<nat>, n: nat)
    requires n <= |f| && n <= |g| && f[..n] == g[..n]
    ensures forall i :: 0 <= i < n ==> OffsetAt(f, i) == OffsetAt(g, i)
  {
    forall i | 0 <= i < n
      ensures OffsetAt(f, i) == OffsetAt(g, i)
    {
      assert f[..i] == f[..n][..i] && g[..i] == g[..n][..i];
      assert f[i] == f[..n][i] && g[i] == g[..n][i];
    }
  }

  /** `struct SparseTsetlinMachine` as the engine declares it, up to its buffers: names, then sizes. */
  function EngineNames(): (r: seq<Name>)
    ensures |r| == 24
  {
    [NumClasses, Threshold, NumLiterals, NumClauses, MaxState, MinState,
     SparseInitState, SparseMinState, BoostTruePositiveFeedback, S, YSize, YElementSize,
     YEq, OutputActivation, CalculateFeedback, MidState, AlRowSize, SInv,
     SMin1Inv, TaState, ActiveLiterals, Weights, ClauseOutput, Votes]
  }

  function EngineSizes(): (r: seq<nat>)
    ensures |r| == 24
  {
    [4, 4, 4, 4, 1, 1, 1, 1, 1, 4, 4, 4, 8, 8, 8, 1, 1, 4, 4, 8, 8, 8, 8, 8]
  }

  /** The `ctypes.Structure` the Python front end declares for the same machine. */
  function MirrorNames(): (r: seq<Name>)
    ensures |r| == 18
  {
    [NumClasses, Threshold, NumLiterals, NumClauses, MaxState, MinState,
     SparseInitState, SparseMinState, BoostTruePositiveFeedback, S, YSize, YElementSize,
     YEq, OutputActivation, CalculateFeedback, MidState, ClauseMaxSize, ClauseSizes]
  }

  function MirrorSizes(): (r: seq<nat>)
    ensures |r| == 18
  {
    [4, 4, 4, 4, 1, 1, 1, 1, 1, 4, 4, 4, 8, 8, 8, 1, 4, 8]
  }

  /**
   * The two declarations agree field for field up to `mid_state`, and so
   * place those fields alike.
   */
  lemma SharedPrefix()
    ensures MirrorNames()[..16] == EngineNames()[..16]
    ensures forall i :: 0 <= i < 16 ==> OffsetAt(MirrorSizes(), i) == OffsetAt(EngineSizes(), i)
  {
    assert MirrorSizes()[..16] == EngineSizes()[..16];
    SamePrefix(MirrorSizes(), EngineSizes(), 16);
  }

  /**
   * After `mid_state` the declarations part: the mirror's `clause_sizes`
   * pointer sits at offset 72, where the engine keeps its `float s_min1_inv`
   * followed by four bytes of padding before `ta_state` at 80; the engine
   * has no field of that name, so the pointer read there is made of the
   * float's bits and the padding.
   */
  lemma ClauseSizesSlot()
    ensures MirrorNames()[17] == ClauseSizes && OffsetAt(MirrorSizes(), 17) == 72
    ensures EngineNames()[18] == SMin1Inv && OffsetAt(EngineSizes(), 18) == 72
    ensures EngineSizes()[18] == 4 && OffsetAt(EngineSizes(), 19) == 80
    ensures ClauseSizes !in EngineNames()
  {
    var m, e := MirrorSizes(), EngineSizes();
    EngineEnds();
    assert m[..16] == e[..16];
    Place(m, 16, 65, 68);
    Place(m, 17, 72, 72);
  }

  /** One field placed: with the fields before it ending at `prev`, it starts at `off`. */
  lemma Place(sizes: seq<nat>, k: nat, prev: nat, off: nat)
    requires k < |sizes| && End(sizes[..k]) == prev && AlignUp(prev, sizes[k]) == off
    ensures End(sizes[..k + 1]) == off + sizes[k]
  {
    assert sizes[..k + 1][..k] == sizes[..k];
  }

  /** The engine's fields up to `s_min1_inv` end at byte 76, so `ta_state` starts at 80. */
  lemma EngineEnds()
    ensures End(EngineSizes()[..16]) == 65
    ensures OffsetAt(EngineSizes(), 18) == 72 && OffsetAt(EngineSizes(), 19) == 80
  {
    var e := EngineSizes();
    EngineEndsMiddle();
    Place(e, 16, 65, 65);
    Place(e, 17, 66, 68);
    Place(e, 18, 72, 72);
    Place(e, 19, 76, 80);
  }

  lemma EngineEndsMiddle()
    ensures End(EngineSizes()[..16]) == 65
  {
    var e := EngineSizes();
    EngineEndsSecond();
    Place(e, 12, 36, 40);
    Place(e, 13, 48, 48);
    Place(e, 14, 56, 56);
    Place(e, 15, 64, 64);
  }

  lemma EngineEndsSecond()
    ensures End(EngineSizes()[..12]) == 36
  {
    var e := EngineSizes();
    EngineEndsHead();
    Place(e, 8, 20, 20);
    Place(e, 9, 21, 24);
    Place(e, 10, 28, 28);
    Place(e, 11, 32, 32);
  }

  lemma EngineEndsHead()
    ensures End(EngineSizes()[..8]) == 20
  {
    var e := EngineSizes();
    assert e[..0] == [];
    Place(e, 0, 0, 0);
    Place(e, 1, 4, 4);
    Place(e, 2, 8, 8);
    Place(e, 3, 12, 12);
    Place(e, 4, 16, 16);
    Place(e, 5, 17, 17);
    Place(e, 6, 18, 18);
    Place(e, 7, 19, 19);
  }
}
