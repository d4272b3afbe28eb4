/*
 * `save_to_bin`: the Python writer that turns a green_tsetlin model into the
 * dense model file the engines load. green_tsetlin stores a clause as all
 * its positive-literal automata, then all its negated ones; the engine
 * wants them interleaved (automaton 2l + p for literal l and polarity p),
 * so each clause is transposed before it is written. Arrays are rows of
 * values; `tobytes` writes them row after row.
 */
module GtToBin {
  import opened Utility
  import opened Wrappers
  import opened Bytes
  import opened DenseCodec
  import opened DenseSpec

  /** green_tsetlin has fixed state bounds, whatever the model. */
  const GT_MAX_STATE: int := 127
  const GT_MIN_STATE: int := -127

  /** Where entry j = 2l + p of an engine clause comes from in green_tsetlin's clause: p * nl + l. */
  function SourceIndex(nl: nat, j: nat): (i: nat)
    requires j < 2 * nl
    ensures i < 2 * nl
  {
    (j % 2) * nl + j / 2
  }

  /** Where entry i = p * nl + l of green_tsetlin's clause goes in the engine's clause: 2l + p. */
  function TargetIndex(nl: nat, i: nat): (j: nat)
    requires i < 2 * nl
    ensures j < 2 * nl
  {
    if i < nl then 2 * i else 2 * (i - nl) + 1
  }

  /** The two index maps undo each other, so the reorder moves every entry to exactly one place. */
  lemma IndexInverse(nl: nat, i: nat, j: nat)
    requires i < 2 * nl && j < 2 * nl
    ensures SourceIndex(nl, TargetIndex(nl, i)) == i
    ensures TargetIndex(nl, SourceIndex(nl, j)) == j
  {
  }

  /** `reshape(nc, 2, nl).transpose(0, 2, 1).reshape(nc, -1)` on one clause. */
  function ReorderRow(row: seq<int>, nl: nat): (r: seq<int>)
    requires |row| == 2 * nl
    ensures |r| == 2 * nl
  {
    seq(2 * nl, j requires 0 <= j < 2 * nl => row[SourceIndex(nl, j)])
  }

  /** The transpose back, from the engine's layout to green_tsetlin's. */
  function UnorderRow(row: seq<int>, nl: nat): (r: seq<int>)
    requires |row| == 2 * nl
    ensures |r| == 2 * nl
  {
    seq(2 * nl, i requires 0 <= i < 2 * nl => row[TargetIndex(nl, i)])
  }

  /** Entry p * nl + l of a green_tsetlin clause lands at 2l + p. */
  lemma ReorderRowAt(row: seq<int>, nl: nat, l: nat, p: nat)
    requires |row| == 2 * nl && l < nl && p < 2
    ensures ReorderRow(row, nl)[2 * l + p] == row[p * nl + l]
  {
    assert (2 * l + p) % 2 == p && (2 * l + p) / 2 == l;
  }

  /** Transposing back recovers the clause. */
  lemma UnorderReorder(row: seq<int>, nl: nat)
    requires |row| == 2 * nl
    ensures UnorderRow(ReorderRow(row, nl), nl) == row
  {
    forall i | 0 <= i < 2 * nl
      ensures UnorderRow(ReorderRow(row, nl), nl)[i] == row[i]
    {
      IndexInverse(nl, i, 0);
    }
  }

  /** Every engine clause is the reorder of some green_tsetlin clause. */
  lemma ReorderUnorder(row: seq<int>, nl: nat)
    requires |row| == 2 * nl
    ensures ReorderRow(UnorderRow(row, nl), nl) == row
  {
    forall j | 0 <= j < 2 * nl
      ensures ReorderRow(UnorderRow(row, nl), nl)[j] == row[j]
    {
      IndexInverse(nl, 0, j);
    }
  }

  /** A two-dimensional array whose rows all have `width` entries. */
  predicate Rectangular(rows: seq<seq<int>>, width: nat)
  {
    forall c :: 0 <= c < |rows| ==> |rows[c]| == width
  }

  /** The rows one after another: the order `tobytes` writes them in. */
  function Flatten(rows: seq<seq<int>>): seq<int>
  {
    if rows == [] then [] else rows[0] + Flatten(rows[1..])
  }

  /** Entry j of row c sits at c * width + j of the flattened array. */
  lemma FlattenAt(rows: seq<seq<int>>, width: nat, c: nat, j: nat)
    requires Rectangular(rows, width) && c < |rows| && j < width
    ensures c * width + j < |Flatten(rows)| && Flatten(rows)[c * width + j] == rows[c][j]
  {
    FlattenSlice(rows, width, c);
    assert Flatten(rows)[c * width + j] == Flatten(rows)[c * width .. c * width + width][j];
  }

  lemma {:induction false} FlattenSize(rows: seq<seq<int>>, width: nat)
    requires Rectangular(rows, width)
    ensures |Flatten(rows)| == |rows| * width
  {
    if rows != [] {
      FlattenSize(rows[1..], width);
    }
  }

  /** Every clause reordered. */
  function ReorderAll(clauses: seq<seq<int>>, nl: nat): (r: seq<seq<int>>)
    requires Rectangular(clauses, 2 * nl)
    ensures |r| == |clauses| && Rectangular(r, 2 * nl)
  {
    seq(|clauses|, c requires 0 <= c < |clauses| => ReorderRow(clauses[c], nl))
  }

  /** `astype(np.int16)`: each value wrapped into 16 bits. */
  function CastInt16s(vs: seq<int>): (r: seq<int>)
    ensures |r| == |vs| && AllInt16(r)
    ensures AllInt16(vs) ==> r == vs
  {
    seq(|vs|, i requires 0 <= i < |vs| => ToInt16(vs[i]))
  }

  /** `astype(np.int8)`: each value wrapped into 8 bits. */
  function CastInt8s(vs: seq<int>): (r: seq<int>)
    ensures |r| == |vs| && AllInt8(r)
    ensures AllInt8(vs) ==> r == vs
  {
    seq(|vs|, i requires 0 <= i < |vs| => ToInt8(vs[i]))
  }

  /** The header fields as `save_to_bin` writes them. */
  function GtHeader(threshold: nat, nl: nat, nc: nat, ncl: nat, boost: bool): Header
  {
    Header(threshold, nl, nc, ncl, GT_MAX_STATE, GT_MIN_STATE, if boost then 1 else 0)
  }

  /** The header fields fit their four-byte unsigned slots (`to_bytes` raises otherwise). */
  predicate Fits(threshold: nat, nl: nat, nc: nat, ncl: nat)
  {
    IsUint32(threshold) && IsUint32(nl) && IsUint32(nc) && IsUint32(ncl)
  }

  /**
   * The model the file holds: the header, the weights of shape (nc, ncl),
   * and the clauses of shape (nc, 2 * nl) in the engine's layout.
   */
  function GtImage(threshold: nat, nl: nat, nc: nat, ncl: nat, boost: bool,
                   weights: seq<seq<int>>, clauses: seq<seq<int>>): (img: Image)
    requires Fits(threshold, nl, nc, ncl)
    requires |weights| == nc && Rectangular(weights, ncl) && |clauses| == nc && Rectangular(clauses, 2 * nl)
    ensures ValidImage(img)
  {
    FlattenSize(weights, ncl);
    FlattenSize(ReorderAll(clauses, nl), 2 * nl);
    TwiceAssoc(nc, nl);
    Image(GtHeader(threshold, nl, nc, ncl, boost), CastInt16s(Flatten(weights)),
          CastInt8s(Flatten(ReorderAll(clauses, nl))))
  }

  /**
   * `save_to_bin`: the four sizes as 4-byte little-endian unsigned ints,
   * the state bounds as signed bytes, the boost byte, `s` as 8 bytes, then
   * the weights as `int16` and the reordered clauses as `int8`. A size that
   * does not fit four bytes raises (`None`) when its field is reached.
   */
  method SaveToBin(threshold: nat, nl: nat, nc: nat, ncl: nat, boost: bool, s: seq<Byte>,
                   weights: seq<seq<int>>, clauses: seq<seq<int>>) returns (r: Option<seq<Byte>>)
    requires |s| == S_SIZE
    requires |weights| == nc && Rectangular(weights, ncl) && |clauses| == nc && Rectangular(clauses, 2 * nl)
    ensures r.None? <==> !Fits(threshold, nl, nc, ncl)
    ensures r.Some? ==> |r.value| == HEADER_SIZE + 2 * nc * ncl + 2 * nc * nl
    ensures r.Some? ==> Decode(r.value) == Ok(GtImage(threshold, nl, nc, ncl, boost, weights, clauses))
  {
    var bytes: seq<Byte> := [];
    TwiceAssoc(nc, nl);
    TwiceAssoc(nc, ncl);
    if !IsUint32(threshold) {
      return None;
    }
    bytes := bytes + U32(threshold);
    if !IsUint32(nl) {
      return None;
    }
    bytes := bytes + U32(nl);
    if !IsUint32(nc) {
      return None;
    }
    bytes := bytes + U32(nc);
    if !IsUint32(ncl) {
      return None;
    }
    bytes := bytes + U32(ncl);
    bytes := bytes + I8(GT_MAX_STATE) + I8(GT_MIN_STATE) + U8(if boost then 1 else 0) + s;
    ghost var img := GtImage(threshold, nl, nc, ncl, boost, weights, clauses);
    assert bytes == EncodeHeader(img.header, s);
    bytes := bytes + EncodeInt16s(CastInt16s(Flatten(weights)));
    bytes := bytes + EncodeInt8s(CastInt8s(Flatten(ReorderAll(clauses, nl))));
    assert bytes == Encode(img, s);
    DecodeEncode(img, s, []);
    assert bytes + [] == bytes;
    return Some(bytes);
  }

  /** Clause c of the file, as the engine reads it, is green_tsetlin's clause c reordered (and wrapped to `int8`). */
  lemma GtClause(threshold: nat, nl: nat, nc: nat, ncl: nat, boost: bool,
                 weights: seq<seq<int>>, clauses: seq<seq<int>>, c: nat)
    requires Fits(threshold, nl, nc, ncl)
    requires |weights| == nc && Rectangular(weights, ncl) && |clauses| == nc && Rectangular(clauses, 2 * nl)
    requires c < nc
    ensures Clause(GtImage(threshold, nl, nc, ncl, boost, weights, clauses).header,
                   GtImage(threshold, nl, nc, ncl, boost, weights, clauses).states, c)
            == CastInt8s(ReorderRow(clauses[c], nl))
  {
    var img := GtImage(threshold, nl, nc, ncl, boost, weights, clauses);
    assert img.states == CastInt8s(Flatten(ReorderAll(clauses, nl)));
    ClauseOfRows(img.header, ReorderAll(clauses, nl), c);
  }

  /** Clause c of states stored row after row is row c. */
  lemma ClauseOfRows(h: Header, rows: seq<seq<int>>, c: nat)
    requires |rows| == h.numClauses && Rectangular(rows, 2 * h.numLiterals) && c < h.numClauses
    ensures |CastInt8s(Flatten(rows))| == StateCount(h)
    ensures Clause(h, CastInt8s(Flatten(rows)), c) == CastInt8s(rows[c])
  {
    var nl := h.numLiterals;
    var flat := Flatten(rows);
    FlattenSize(rows, 2 * nl);
    TwiceAssoc(h.numClauses, nl);
    var base := c * nl * 2;
    TwiceAssoc(c, nl);
    FlattenSlice(rows, 2 * nl, c);
    CastSlice(flat, base, base + 2 * nl);
  }

  /** Automaton 2l + p of that clause is green_tsetlin's `clauses[c][p * nl + l]`, wrapped to `int8`. */
  lemma GtClauseAt(threshold: nat, nl: nat, nc: nat, ncl: nat, boost: bool,
                   weights: seq<seq<int>>, clauses: seq<seq<int>>, c: nat, l: nat, p: nat)
    requires Fits(threshold, nl, nc, ncl)
    requires |weights| == nc && Rectangular(weights, ncl) && |clauses| == nc && Rectangular(clauses, 2 * nl)
    requires c < nc && l < nl && p < 2
    ensures Clause(GtImage(threshold, nl, nc, ncl, boost, weights, clauses).header,
                   GtImage(threshold, nl, nc, ncl, boost, weights, clauses).states, c)[2 * l + p]
            == ToInt8(clauses[c][p * nl + l])
  {
    GtClause(threshold, nl, nc, ncl, boost, weights, clauses, c);
    ReorderRowAt(clauses[c], nl, l, p);
  }

  /** The engine reads the weight of clause c and class k as `weights[c][k]`, wrapped to `int16`. */
  lemma GtWeightAt(threshold: nat, nl: nat, nc: nat, ncl: nat, boost: bool,
                   weights: seq<seq<int>>, clauses: seq<seq<int>>, c: nat, k: nat)
    requires Fits(threshold, nl, nc, ncl)
    requires |weights| == nc && Rectangular(weights, ncl) && |clauses| == nc && Rectangular(clauses, 2 * nl)
    requires c < nc && k < ncl
    ensures GtImage(threshold, nl, nc, ncl, boost, weights, clauses).weights[WeightIndex(GtHeader(threshold, nl, nc, ncl, boost), c, k)]
            == ToInt16(weights[c][k])
  {
    FlattenAt(weights, ncl, c, k);
  }

  /** Row c of the flattened array is its entries c * width up to the next row. */
  lemma {:induction false} FlattenSlice(rows: seq<seq<int>>, width: nat, c: nat)
    requires Rectangular(rows, width) && c < |rows|
    ensures c * width + width <= |Flatten(rows)| && Flatten(rows)[c * width .. c * width + width] == rows[c]
  {
    FlattenSize(rows[1..], width);
    if c > 0 {
      FlattenSlice(rows[1..], width, c - 1);
      MulStep(c, width);
      assert Flatten(rows)[c * width .. c * width + width] == Flatten(rows[1..])[(c - 1) * width .. (c - 1) * width + width];
    }
  }

  lemma MulStep(c: nat, width: nat)
    requires c > 0
    ensures c * width == width + (c - 1) * width
  {
  }

  lemma CastSlice(vs: seq<int>, lo: nat, hi: nat)
    requires lo <= hi <= |vs|
    ensures CastInt8s(vs)[lo .. hi] == CastInt8s(vs[lo .. hi])
  {
  }

  lemma TwiceAssoc(a: nat, b: nat)
    ensures a * b * 2 == a * (2 * b) == 2 * a * b
  {
  }
}
