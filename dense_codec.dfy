/*
 * The dense model file: a 27-byte header written field after field with no
 * padding (threshold, literal, clause and class counts as `uint32_t`, the
 * maximum and minimum state as `int8_t`, the boost flag as `uint8_t`, and
 * the 8 bytes of `s`), then the clause-by-class `int16_t` weights, then the
 * clause-by-literal-by-polarity `int8_t` automaton states. The engine saves
 * and loads it, the sparse and stateless engines load it, and the Python
 * converter writes it.
 */
module DenseCodec {
  import opened Utility
  import opened Bytes
  import opened Wrappers

  const HEADER_SIZE: nat := 27
  const S_SIZE: nat := 8

  datatype Header = Header(
    threshold: nat,
    numLiterals: nat,
    numClauses: nat,
    numClasses: nat,
    maxState: int,
    minState: int,
    boost: nat)

  predicate ValidHeader(h: Header)
  {
    IsUint32(h.threshold) && IsUint32(h.numLiterals) && IsUint32(h.numClauses) && IsUint32(h.numClasses)
    && IsInt8(h.maxState) && IsInt8(h.minState) && IsUint8(h.boost)
  }

  /** One weight per (clause, class). */
  function WeightCount(h: Header): nat
  {
    h.numClauses * h.numClasses
  }

  /** Two automata (positive and negated literal) per (clause, literal). */
  function StateCount(h: Header): nat
  {
    h.numClauses * h.numLiterals * 2
  }

  /** The content of a model file, apart from the opaque `s` bytes. */
  datatype Image = Image(header: Header, weights: seq<int>, states: seq<int>)

  predicate ValidImage(img: Image)
  {
    ValidHeader(img.header)
    && |img.weights| == WeightCount(img.header) && AllInt16(img.weights)
    && |img.states| == StateCount(img.header) && AllInt8(img.states)
  }

  /** The 27-byte header; `s` is whatever 8 bytes the writer stores for it. */
  function EncodeHeader(h: Header, s: seq<Byte>): (r: seq<Byte>)
    requires ValidHeader(h) && |s| == S_SIZE
    ensures |r| == HEADER_SIZE
  {
    U32(h.threshold) + U32(h.numLiterals) + U32(h.numClauses) + U32(h.numClasses)
    + I8(h.maxState) + I8(h.minState) + U8(h.boost) + s
  }

  /** A whole model file. */
  function Encode(img: Image, s: seq<Byte>): (r: seq<Byte>)
    requires ValidImage(img) && |s| == S_SIZE
    ensures |r| == HEADER_SIZE + 2 * WeightCount(img.header) + StateCount(img.header)
  {
    EncodeHeader(img.header, s) + EncodeInt16s(img.weights) + EncodeInt8s(img.states)
  }

  /** Which read of the loader came up short. */
  datatype LoadError = ShortMetadata | ShortWeights | ShortStates

  /** The header fields of the first 19 bytes; the `s` bytes that follow are skipped. */
  function DecodeHeader(bs: seq<Byte>): (h: Header)
    requires |bs| >= HEADER_SIZE
    ensures ValidHeader(h)
  {
    Pow256Small();
    DecodeSignedByte(bs[16..17]);
    DecodeSignedByte(bs[17..18]);
    Header(
      DecodeUnsigned(bs[0..4]), DecodeUnsigned(bs[4..8]), DecodeUnsigned(bs[8..12]), DecodeUnsigned(bs[12..16]),
      DecodeSigned(bs[16..17]), DecodeSigned(bs[17..18]), DecodeUnsigned(bs[18..19]))
  }

  /**
   * The loader's reading of a file: the header, then as many weights and
   * states as the header announces; any short read fails with the part it
   * was reading, and bytes after the states are ignored.
   */
  function Decode(bs: seq<Byte>): (r: Result<Image, LoadError>)
    ensures r == Err(ShortMetadata) <==> |bs| < HEADER_SIZE
    ensures r.Ok? ==> ValidImage(r.value)
    ensures r.Ok? ==> |bs| >= HEADER_SIZE + 2 * WeightCount(r.value.header) + StateCount(r.value.header)
  {
    if |bs| < HEADER_SIZE then Err(ShortMetadata)
    else
      var h := DecodeHeader(bs);
      var body := bs[HEADER_SIZE..];
      if |body| < 2 * WeightCount(h) then Err(ShortWeights)
      else if |body| - 2 * WeightCount(h) < StateCount(h) then Err(ShortStates)
      else Ok(Image(h, DecodeInt16s(body, WeightCount(h)), DecodeInt8s(body[2 * WeightCount(h)..], StateCount(h))))
  }

  /** The header reads back as written, whatever follows it. */
  lemma HeaderRoundTrip(h: Header, s: seq<Byte>, rest: seq<Byte>)
    requires ValidHeader(h) && |s| == S_SIZE
    ensures DecodeHeader(EncodeHeader(h, s) + rest) == h
  {
    var bs := EncodeHeader(h, s) + rest;
    assert bs[0..4] == U32(h.threshold);
    assert bs[4..8] == U32(h.numLiterals);
    assert bs[8..12] == U32(h.numClauses);
    assert bs[12..16] == U32(h.numClasses);
    assert bs[16..17] == I8(h.maxState);
    assert bs[17..18] == I8(h.minState);
    assert bs[18..19] == U8(h.boost);
    U32RoundTrip(h.threshold);
    U32RoundTrip(h.numLiterals);
    U32RoundTrip(h.numClauses);
    U32RoundTrip(h.numClasses);
    I8RoundTrip(h.maxState);
    I8RoundTrip(h.minState);
    U8RoundTrip(h.boost);
  }

  /** The header is read from its first 19 bytes only: the `s` bytes do not matter. */
  lemma HeaderIgnoresS(bs1: seq<Byte>, bs2: seq<Byte>)
    requires |bs1| >= HEADER_SIZE && |bs2| >= HEADER_SIZE
    requires bs1[..19] == bs2[..19]
    ensures DecodeHeader(bs1) == DecodeHeader(bs2)
  {
    assert bs1[0..4] == bs1[..19][0..4] == bs2[0..4];
    assert bs1[4..8] == bs1[..19][4..8] == bs2[4..8];
    assert bs1[8..12] == bs1[..19][8..12] == bs2[8..12];
    assert bs1[12..16] == bs1[..19][12..16] == bs2[12..16];
    assert bs1[16..17] == bs1[..19][16..17] == bs2[16..17];
    assert bs1[17..18] == bs1[..19][17..18] == bs2[17..18];
    assert bs1[18..19] == bs1[..19][18..19] == bs2[18..19];
  }

  /**
   * Load after save: the file the engine writes reads back as the same
   * header, weights and states, even with trailing bytes.
   */
  lemma DecodeEncode(img: Image, s: seq<Byte>, rest: seq<Byte>)
    requires ValidImage(img) && |s| == S_SIZE
    ensures Decode(Encode(img, s) + rest) == Ok(img)
  {
    var h := img.header;
    var bs := Encode(img, s) + rest;
    assert bs == EncodeHeader(h, s) + (EncodeInt16s(img.weights) + EncodeInt8s(img.states) + rest);
    HeaderRoundTrip(h, s, EncodeInt16s(img.weights) + EncodeInt8s(img.states) + rest);
    var body := bs[HEADER_SIZE..];
    assert body == EncodeInt16s(img.weights) + (EncodeInt8s(img.states) + rest);
    Int16sRoundTrip(img.weights, EncodeInt8s(img.states) + rest);
    assert body[2 * WeightCount(h)..] == EncodeInt8s(img.states) + rest;
    Int8sRoundTrip(img.states, rest);
  }

  /**
   * A file cut short fails with the part the loader was reading when the
   * bytes ran out: metadata, weights or states.
   */
  lemma DecodeTruncated(img: Image, s: seq<Byte>, n: nat)
    requires ValidImage(img) && |s| == S_SIZE
    requires n < |Encode(img, s)|
    ensures Decode(Encode(img, s)[..n]) ==
      if n < HEADER_SIZE then Err(ShortMetadata)
      else if n < HEADER_SIZE + 2 * WeightCount(img.header) then Err(ShortWeights)
      else Err(ShortStates)
  {
    var full := Encode(img, s);
    var bs := full[..n];
    if n >= HEADER_SIZE {
      HeaderRoundTrip(img.header, s, EncodeInt16s(img.weights) + EncodeInt8s(img.states));
      assert full == EncodeHeader(img.header, s) + (EncodeInt16s(img.weights) + EncodeInt8s(img.states));
      HeaderIgnoresS(bs, full);
    }
  }
}
