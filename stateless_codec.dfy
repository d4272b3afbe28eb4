/*
 * The model file `sltm_save` writes: the 27-byte header and the `int16_t`
 * weights as in the dense format, then for each clause its ids in list
 * order as `uint32_t`, closed by a `UINT_MAX` id. The engine has no reader
 * for this format; `DecodeIdModel` is the reading the format calls for, and
 * the round trip says the writer loses nothing.
 */
module StatelessCodec {
  import opened Utility
  import opened Wrappers
  import opened Bytes
  import opened DenseCodec
  import SparseCodec

  /** Every id can be written: a `uint32_t` other than the delimiter. */
  predicate IdsWritable(ids: seq<nat>)
  {
    forall a :: 0 <= a < |ids| ==> ids[a] < SparseCodec.DELIMITER
  }

  predicate AllIdsWritable(lists: seq<seq<nat>>)
  {
    forall c :: 0 <= c < |lists| ==> IdsWritable(lists[c])
  }

  /** The ids of one list, four bytes each. */
  function EncodeIds(ids: seq<nat>): (r: seq<Byte>)
    requires IdsWritable(ids)
    ensures |r| == 4 * |ids|
  {
    if ids == [] then [] else U32(ids[0]) + EncodeIds(ids[1..])
  }

  /** Every clause's ids, each list closed by the delimiter. */
  function EncodeIdLists(lists: seq<seq<nat>>): (r: seq<Byte>)
    requires AllIdsWritable(lists)
  {
    if lists == [] then [] else EncodeIds(lists[0]) + U32(SparseCodec.DELIMITER) + EncodeIdLists(lists[1..])
  }

  /** `sltm_save`: header (with whatever 8 bytes stand for `s`), weights, id lists. */
  function EncodeIdModel(h: Header, s: seq<Byte>, weights: seq<int>, lists: seq<seq<nat>>): (r: seq<Byte>)
    requires ValidHeader(h) && |s| == S_SIZE && AllInt16(weights) && AllIdsWritable(lists)
  {
    EncodeHeader(h, s) + EncodeInt16s(weights) + EncodeIdLists(lists)
  }

  /**
   * Read ids up to and including the delimiter: the list and the bytes
   * after the delimiter, or nothing if the bytes run out first.
   */
  function DecodeIds(bs: seq<Byte>): (r: Option<(seq<nat>, seq<Byte>)>)
    ensures r.Some? ==> |r.value.1| < |bs|
    decreases |bs|
  {
    if |bs| < 4 then None
    else
      var id := DecodeUnsigned(bs[..4]);
      if id == SparseCodec.DELIMITER then Some(([], bs[4..]))
      else
        match DecodeIds(bs[4..])
        case None => None
        case Some((ids, rest)) => Some(([id] + ids, rest))
  }

  /** Read `count` delimited lists. */
  function DecodeIdLists(bs: seq<Byte>, count: nat): (r: Option<(seq<seq<nat>>, seq<Byte>)>)
    ensures r.Some? ==> |r.value.0| == count
    decreases count
  {
    if count == 0 then Some(([], bs))
    else
      match DecodeIds(bs)
      case None => None
      case Some((ids, rest)) =>
        match DecodeIdLists(rest, count - 1)
        case None => None
        case Some((lists, rest2)) => Some(([ids] + lists, rest2))
  }

  /** Header, as many weights as it announces, and one id list per clause; nothing on a short file. */
  function DecodeIdModel(bs: seq<Byte>): (r: Option<(Header, seq<int>, seq<seq<nat>>)>)
    ensures r.Some? ==> |r.value.1| == WeightCount(r.value.0) && |r.value.2| == r.value.0.numClauses
  {
    if |bs| < HEADER_SIZE then None
    else
      var h := DecodeHeader(bs);
      var body := bs[HEADER_SIZE..];
      if |body| < 2 * WeightCount(h) then None
      else
        match DecodeIdLists(body[2 * WeightCount(h)..], h.numClauses)
        case None => None
        case Some((lists, _)) => Some((h, DecodeInt16s(body, WeightCount(h)), lists))
  }

  /** A list reads back as written, up to its delimiter, whatever follows. */
  lemma {:induction false} IdsRoundTrip(ids: seq<nat>, rest: seq<Byte>)
    requires IdsWritable(ids)
    ensures DecodeIds(EncodeIds(ids) + U32(SparseCodec.DELIMITER) + rest) == Some((ids, rest))
  {
    var bs := EncodeIds(ids) + U32(SparseCodec.DELIMITER) + rest;
    if ids == [] {
      assert bs == U32(SparseCodec.DELIMITER) + rest;
      assert bs[..4] == U32(SparseCodec.DELIMITER) && bs[4..] == rest;
      U32RoundTrip(SparseCodec.DELIMITER);
    } else {
      var tail := EncodeIds(ids[1..]) + U32(SparseCodec.DELIMITER) + rest;
      assert bs == U32(ids[0]) + tail;
      assert bs[..4] == U32(ids[0]) && bs[4..] == tail;
      U32RoundTrip(ids[0]);
      IdsRoundTrip(ids[1..], rest);
      assert [ids[0]] + ids[1..] == ids;
    }
  }

  /** All lists read back as written. */
  lemma {:induction false} IdListsRoundTrip(lists: seq<seq<nat>>, rest: seq<Byte>)
    requires AllIdsWritable(lists)
    ensures DecodeIdLists(EncodeIdLists(lists) + rest, |lists|) == Some((lists, rest))
  {
    if lists != [] {
      var tail := EncodeIdLists(lists[1..]) + rest;
      assert EncodeIdLists(lists) + rest == EncodeIds(lists[0]) + U32(SparseCodec.DELIMITER) + tail;
      IdsRoundTrip(lists[0], tail);
      IdListsRoundTrip(lists[1..], rest);
      assert [lists[0]] + lists[1..] == lists;
    } else {
      assert EncodeIdLists(lists) + rest == rest;
    }
  }

  /**
   * The file `sltm_save` writes reads back as the same header, weights and
   * id lists (the `s` bytes aside).
   */
  lemma IdModelRoundTrip(h: Header, s: seq<Byte>, weights: seq<int>, lists: seq<seq<nat>>)
    requires ValidHeader(h) && |s| == S_SIZE && AllInt16(weights) && AllIdsWritable(lists)
    requires |weights| == WeightCount(h) && |lists| == h.numClauses
    ensures DecodeIdModel(EncodeIdModel(h, s, weights, lists)) == Some((h, weights, lists))
  {
    var bs := EncodeIdModel(h, s, weights, lists);
    assert bs == EncodeHeader(h, s) + (EncodeInt16s(weights) + EncodeIdLists(lists));
    HeaderRoundTrip(h, s, EncodeInt16s(weights) + EncodeIdLists(lists));
    var body := bs[HEADER_SIZE..];
    assert body == EncodeInt16s(weights) + EncodeIdLists(lists);
    Int16sRoundTrip(weights, EncodeIdLists(lists));
    assert body[2 * WeightCount(h)..] == EncodeIdLists(lists) + [];
    IdListsRoundTrip(lists, []);
  }

  /** Writing one more id appends its four bytes: the writer can go node by node. */
  lemma {:induction false} EncodeIdsSnoc(ids: seq<nat>, id: nat)
    requires IdsWritable(ids) && id < SparseCodec.DELIMITER
    ensures IdsWritable(ids + [id]) && EncodeIds(ids + [id]) == EncodeIds(ids) + U32(id)
  {
    assert IdsWritable(ids + [id]) by {
      forall a | 0 <= a < |ids + [id]| ensures (ids + [id])[a] < SparseCodec.DELIMITER {
        if a < |ids| { assert (ids + [id])[a] == ids[a]; }
      }
    }
    if ids != [] {
      assert (ids + [id])[1..] == ids[1..] + [id];
      EncodeIdsSnoc(ids[1..], id);
    }
  }

  /** Writing one more clause appends its ids and a delimiter. */
  lemma {:induction false} EncodeIdListsSnoc(lists: seq<seq<nat>>, ids: seq<nat>)
    requires AllIdsWritable(lists) && IdsWritable(ids)
    ensures AllIdsWritable(lists + [ids])
    ensures EncodeIdLists(lists + [ids]) == EncodeIdLists(lists) + EncodeIds(ids) + U32(SparseCodec.DELIMITER)
  {
    assert AllIdsWritable(lists + [ids]) by {
      forall c | 0 <= c < |lists + [ids]| ensures IdsWritable((lists + [ids])[c]) {
        if c < |lists| { assert (lists + [ids])[c] == lists[c]; }
      }
    }
    if lists != [] {
      assert (lists + [ids])[1..] == lists[1..] + [ids];
      EncodeIdListsSnoc(lists[1..], ids);
    }
  }

  /** The file of a two-clause model holding ids 1 and 258, then none. */
  lemma EncodeIdListsExample()
    ensures EncodeIdLists([[1, 258], []])
      == [1, 0, 0, 0, 2, 1, 0, 0, 255, 255, 255, 255, 255, 255, 255, 255]
  {
    Pow256Small();
  }
}
