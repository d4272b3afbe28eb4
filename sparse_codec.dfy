/*
 * The sparse model file `stm_save` writes: the 27-byte header and the
 * `int16_t` weights as in the dense format, then for each clause its nodes
 * in list order, each as a `uint32_t` id and an `int8_t` state, closed by a
 * `UINT_MAX` id. The engine has no reader for this format; `DecodeModel`
 * is the reading the format calls for, and the round trip says the writer
 * loses nothing.
 */
module SparseCodec {
  import opened Utility
  import opened Wrappers
  import opened Bytes
  import opened TaList
  import opened DenseCodec

  /** The id that closes a clause's list in the file. */
  const DELIMITER: nat := UINT32_MAX

  /** Every node can be written: its id is a `uint32_t` other than the delimiter, its state an `int8_t`. */
  predicate Writable(list: seq<Node>)
  {
    forall a :: 0 <= a < |list| ==> list[a].id < DELIMITER && IsInt8(list[a].state)
  }

  predicate AllWritable(lists: seq<seq<Node>>)
  {
    forall c :: 0 <= c < |lists| ==> Writable(lists[c])
  }

  /** The nodes of one list, five bytes each. */
  function EncodeList(list: seq<Node>): (r: seq<Byte>)
    requires Writable(list)
    ensures |r| == 5 * |list|
  {
    if list == [] then [] else U32(list[0].id) + I8(list[0].state) + EncodeList(list[1..])
  }

  /** Every clause's nodes, each list closed by the delimiter. */
  function EncodeLists(lists: seq<seq<Node>>): (r: seq<Byte>)
    requires AllWritable(lists)
  {
    if lists == [] then [] else EncodeList(lists[0]) + U32(DELIMITER) + EncodeLists(lists[1..])
  }

  /** `stm_save`: header (with whatever 8 bytes stand for `s`), weights, lists. */
  function EncodeModel(h: Header, s: seq<Byte>, weights: seq<int>, lists: seq<seq<Node>>): (r: seq<Byte>)
    requires ValidHeader(h) && |s| == S_SIZE && AllInt16(weights) && AllWritable(lists)
  {
    EncodeHeader(h, s) + EncodeInt16s(weights) + EncodeLists(lists)
  }

  /**
   * Read nodes up to and including the delimiter: the list and the bytes
   * after the delimiter, or nothing if the bytes run out first.
   */
  function DecodeList(bs: seq<Byte>): (r: Option<(seq<Node>, seq<Byte>)>)
    ensures r.Some? ==> |r.value.1| < |bs|
    decreases |bs|
  {
    if |bs| < 4 then None
    else
      var id := DecodeUnsigned(bs[..4]);
      if id == DELIMITER then Some(([], bs[4..]))
      else if |bs| < 5 then None
      else
        match DecodeList(bs[5..])
        case None => None
        case Some((list, rest)) => Some(([Node(id, DecodeSigned(bs[4..5]))] + list, rest))
  }

  /** Read `count` delimited lists. */
  function DecodeLists(bs: seq<Byte>, count: nat): (r: Option<(seq<seq<Node>>, seq<Byte>)>)
    ensures r.Some? ==> |r.value.0| == count
    decreases count
  {
    if count == 0 then Some(([], bs))
    else
      match DecodeList(bs)
      case None => None
      case Some((list, rest)) =>
        match DecodeLists(rest, count - 1)
        case None => None
        case Some((lists, rest2)) => Some(([list] + lists, rest2))
  }

  /** Header, as many weights as it announces, and one list per clause; nothing on a short file. */
  function DecodeModel(bs: seq<Byte>): (r: Option<(Header, seq<int>, seq<seq<Node>>)>)
    ensures r.Some? ==> |r.value.1| == WeightCount(r.value.0) && |r.value.2| == r.value.0.numClauses
  {
    if |bs| < HEADER_SIZE then None
    else
      var h := DecodeHeader(bs);
      var body := bs[HEADER_SIZE..];
      if |body| < 2 * WeightCount(h) then None
      else
        match DecodeLists(body[2 * WeightCount(h)..], h.numClauses)
        case None => None
        case Some((lists, _)) => Some((h, DecodeInt16s(body, WeightCount(h)), lists))
  }

  /** A list reads back as written, up to its delimiter, whatever follows. */
  lemma {:induction false} ListRoundTrip(list: seq<Node>, rest: seq<Byte>)
    requires Writable(list)
    ensures DecodeList(EncodeList(list) + U32(DELIMITER) + rest) == Some((list, rest))
  {
    var bs := EncodeList(list) + U32(DELIMITER) + rest;
    if list == [] {
      assert bs == U32(DELIMITER) + rest;
      assert bs[..4] == U32(DELIMITER) && bs[4..] == rest;
      U32RoundTrip(DELIMITER);
    } else {
      var tail := EncodeList(list[1..]) + U32(DELIMITER) + rest;
      assert bs == U32(list[0].id) + I8(list[0].state) + tail;
      assert bs[..4] == U32(list[0].id) && bs[4..5] == I8(list[0].state) && bs[5..] == tail;
      U32RoundTrip(list[0].id);
      I8RoundTrip(list[0].state);
      ListRoundTrip(list[1..], rest);
      assert [list[0]] + list[1..] == list;
    }
  }

  /** All lists read back as written. */
  lemma {:induction false} ListsRoundTrip(lists: seq<seq<Node>>, rest: seq<Byte>)
    requires AllWritable(lists)
    ensures DecodeLists(EncodeLists(lists) + rest, |lists|) == Some((lists, rest))
  {
    if lists != [] {
      var tail := EncodeLists(lists[1..]) + rest;
      assert EncodeLists(lists) + rest == EncodeList(lists[0]) + U32(DELIMITER) + tail;
      ListRoundTrip(lists[0], tail);
      ListsRoundTrip(lists[1..], rest);
      assert [lists[0]] + lists[1..] == lists;
    } else {
      assert EncodeLists(lists) + rest == rest;
    }
  }

  /**
   * The file `stm_save` writes reads back as the same header, weights and
   * lists (the `s` bytes aside).
   */
  lemma ModelRoundTrip(h: Header, s: seq<Byte>, weights: seq<int>, lists: seq<seq<Node>>)
    requires ValidHeader(h) && |s| == S_SIZE && AllInt16(weights) && AllWritable(lists)
    requires |weights| == WeightCount(h) && |lists| == h.numClauses
    ensures DecodeModel(EncodeModel(h, s, weights, lists)) == Some((h, weights, lists))
  {
    var bs := EncodeModel(h, s, weights, lists);
    assert bs == EncodeHeader(h, s) + (EncodeInt16s(weights) + EncodeLists(lists));
    HeaderRoundTrip(h, s, EncodeInt16s(weights) + EncodeLists(lists));
    var body := bs[HEADER_SIZE..];
    assert body == EncodeInt16s(weights) + EncodeLists(lists);
    Int16sRoundTrip(weights, EncodeLists(lists));
    assert body[2 * WeightCount(h)..] == EncodeLists(lists) + [];
    ListsRoundTrip(lists, []);
  }

  /** Writing one more node appends its five bytes: the writer can go node by node. */
  lemma {:induction false} EncodeListSnoc(list: seq<Node>, n: Node)
    requires Writable(list) && n.id < DELIMITER && IsInt8(n.state)
    ensures Writable(list + [n]) && EncodeList(list + [n]) == EncodeList(list) + U32(n.id) + I8(n.state)
  {
    assert Writable(list + [n]) by {
      forall a | 0 <= a < |list + [n]| ensures (list + [n])[a].id < DELIMITER && IsInt8((list + [n])[a].state) {
        if a < |list| { assert (list + [n])[a] == list[a]; }
      }
    }
    if list != [] {
      assert (list + [n])[1..] == list[1..] + [n];
      EncodeListSnoc(list[1..], n);
    }
  }

  /** Writing one more clause appends its nodes and a delimiter. */
  lemma {:induction false} EncodeListsSnoc(lists: seq<seq<Node>>, list: seq<Node>)
    requires AllWritable(lists) && Writable(list)
    ensures AllWritable(lists + [list])
    ensures EncodeLists(lists + [list]) == EncodeLists(lists) + EncodeList(list) + U32(DELIMITER)
  {
    assert AllWritable(lists + [list]) by {
      forall c | 0 <= c < |lists + [list]| ensures Writable((lists + [list])[c]) {
        if c < |lists| { assert (lists + [list])[c] == lists[c]; }
      }
    }
    if lists != [] {
      assert (lists + [list])[1..] == lists[1..] + [list];
      EncodeListsSnoc(lists[1..], list);
    }
  }

  /** The file of a one-clause model holding nodes (0, 5) and (3, -2): ids little-endian, then the delimiter. */
  lemma EncodeListExample()
    ensures EncodeLists([[Node(0, 5), Node(3, -2)]])
      == [0, 0, 0, 0, 5, 3, 0, 0, 0, 254, 255, 255, 255, 255]
  {
    Pow256Small();
  }
}
