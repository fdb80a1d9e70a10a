/** Descriptor tables of the daemons (qmi_rmtfs.c, servreg_loc.c) as instances of the codec's
    theorems, and the cases the theorems leave out. */
module QmiTables {
  import opened Bytes
  import opened Common
  import opened QmiTypes
  import opened QmiWire
  import opened QmiRoom
  import opened QmiEncoder
  import opened QmiDecoder
  import opened QmiRoundTrip
  import opened QmiCompat

  function Plain(kind: Kind, size: nat, t: byte): ElemInfo {
    ElemInfo(kind, 1, size, NoArray, t, [])
  }

  const RESULT := [Plain(Unsigned2, 2, 0), Plain(Unsigned2, 2, 0)]

  const IOVEC_ENTRY := [Plain(Unsigned4, 4, 0), Plain(Unsigned4, 4, 0), Plain(Unsigned4, 4, 0)]

  /** rmtfs_iovec_req_ei */
  const IOVEC_REQ := [
    Plain(Unsigned4, 4, 1),
    Plain(Unsigned1, 1, 2),
    Plain(DataLen, 1, 3),
    ElemInfo(Struct, 255, 12, VarLenArray, 3, IOVEC_ENTRY),
    Plain(Unsigned1, 1, 4)]

  const DOMAIN_LIST_ENTRY := [
    ElemInfo(String, 256, 1, NoArray, 0, []),
    Plain(Unsigned4, 4, 0),
    Plain(Unsigned1, 1, 0),
    Plain(Unsigned4, 4, 0)]

  /** servreg_loc_get_domain_list_resp_ei */
  const DOMAIN_LIST_RESP := [
    ElemInfo(Struct, 1, 4, NoArray, 2, RESULT),
    Plain(OptFlag, 1, 16),
    Plain(Unsigned2, 2, 16),
    Plain(OptFlag, 1, 17),
    Plain(Unsigned2, 2, 17),
    Plain(OptFlag, 1, 18),
    Plain(DataLen, 1, 18),
    ElemInfo(Struct, 255, 272, VarLenArray, 18, DOMAIN_LIST_ENTRY)]

  /** rmtfs_open_req_ei: a string marked as a variable array. */
  const OPEN_REQ := [ElemInfo(String, 256, 1, VarLenArray, 1, [])]

  lemma {:induction false} IovecRequestOk()
    ensures TableOk(IOVEC_REQ) && LenSafe(IOVEC_REQ)
  {
    assert NestedOk(IOVEC_ENTRY) by {
      assert forall i :: 0 <= i < |IOVEC_ENTRY| ==> ElemOk(IOVEC_ENTRY, i);
    }
    forall i | 0 <= i < |IOVEC_REQ| ensures ElemOk(IOVEC_REQ, i) && GroupOk(IOVEC_REQ, i) {
      assert i == 0 || i == 1 || i == 2 || i == 3 || i == 4;
    }
  }

  lemma {:induction false} DomainListResponseOk()
    ensures TableOk(DOMAIN_LIST_RESP) && LenSafe(DOMAIN_LIST_RESP)
  {
    assert NestedOk(RESULT) by {
      assert forall i :: 0 <= i < |RESULT| ==> ElemOk(RESULT, i);
    }
    assert NestedOk(DOMAIN_LIST_ENTRY) by {
      assert forall i :: 0 <= i < |DOMAIN_LIST_ENTRY| ==> ElemOk(DOMAIN_LIST_ENTRY, i);
    }
    forall i | 0 <= i < |DOMAIN_LIST_RESP| ensures ElemOk(DOMAIN_LIST_RESP, i) && GroupOk(DOMAIN_LIST_RESP, i) {
      assert i == 0 || i == 1 || i == 2 || i == 3 || i == 4 || i == 5 || i == 6 || i == 7;
    }
  }

  /** No struct of the response ends in a string, so exactly the responses that fit are encoded. */
  lemma {:induction false} DomainListResponseFirm(v: seq<Value>, outLen: nat)
    requires Shaped(DOMAIN_LIST_RESP, v) && Sendable(DOMAIN_LIST_RESP, v, 1) && outLen < 0x1_0000_0000
    ensures Accepts(DOMAIN_LIST_RESP, v, 1, outLen) <==> |Wire(DOMAIN_LIST_RESP, v, 1)| <= outLen
  {
    hide Sendable; hide Shaped; hide Wire; hide RoomFrom;
    assert !TextLast(RESULT) && !TextLast(DOMAIN_LIST_ENTRY);
    FirmAccepts(DOMAIN_LIST_RESP, v, outLen);
  }

  /** The open request cannot be encoded (QmiEncode refuses a table that opens with a variable
      array), but it decodes: any path of at most 256 bytes arrives. */
  lemma {:induction false} OpenRequestDecodes(path: seq<byte>, init: seq<Value>)
    requires Shaped(OPEN_REQ, init)
    ensures |path| <= 256 ==> Decode(OPEN_REQ, init, FrameBytes(Frame(1, path))) == Ok(([Text(path)], 3 + |path|))
    ensures 256 < |path| < 65536 ==> Decode(OPEN_REQ, init, FrameBytes(Frame(1, path))) == Err(EINVAL)
  {
    if |path| < 65536 {
      var f := Frame(1, path);
      var buf := FrameBytes(f);
      HeaderRead(f, buf, 0);
      assert FirstOfType(OPEN_REQ, 1, 0) == 0;
      SpanOfOne(|path|);
      var r := DecodeElem(OPEN_REQ, init, buf, 3, 0, 0, |path|, 1);
      assert r == DecodeData(OPEN_REQ, init, buf, 3, 0, 0, |path|, 1);
      assert init[0 := Text(path)] == [Text(path)];
      KnownStep(OPEN_REQ, init, f, 0, r, buf, 0, |buf|, 0, 0);
    }
  }

  // ----- A left-over count -----

  /** A static array of 256 bytes, then an array of at most 4 bytes behind a one byte length. */
  const WIDE_THEN_NARROW := [
    ElemInfo(Unsigned1, 256, 1, StaticArray, 1, []),
    Plain(DataLen, 1, 2),
    ElemInfo(Unsigned1, 4, 1, VarLenArray, 2, [])]

  lemma {:induction false} SmallPayload(e: ElemInfo, x: Value, used: nat)
    requires IsBasic(e.kind) && e.elemSize == 1 && ShapedElem(e, x) && used <= Slots(e) && used <= 256
    ensures |DataBytes(e, x, used, 1)| == used
  {
    hide FlatItems; hide Span;
    FlatItemsLength(x.items[..used], 1);
    SpanIsProduct(used, 1);
  }

  /** Such a table is well-formed and encodes, yet no encoding of it is ever decoded: the
      decoder still holds the count 256 when it reads the one byte length. */
  lemma {:induction false} WideThenNarrowRefused(v: seq<Value>, init: seq<Value>)
    requires Sendable(WIDE_THEN_NARROW, v, 1) && Shaped(WIDE_THEN_NARROW, init)
    ensures Decode(WIDE_THEN_NARROW, init, Wire(WIDE_THEN_NARROW, v, 1)) == Err(EINVAL)
  {
    var t := WIDE_THEN_NARROW;
    var fs := Frames(t, v);
    assert ElemOk(t, 0) && ElemOk(t, 1) && ElemOk(t, 2);
    assert fs == [FrameAt(t, v, 0), FrameAt(t, v, 2)] by {
      assert FramesFrom(t, v, 3) == [];
      assert FramesFrom(t, v, 2) == [FrameAt(t, v, 2)];
      assert FramesFrom(t, v, 1) == [FrameAt(t, v, 2)];
    }
    DataOfTypeIs(t, 0);
    DataOfTypeIs(t, 2);
    assert ShapedElem(t[0], v[0]) && ShapedElem(t[1], v[1]) && ShapedElem(t[2], v[2]);
    assert Present(t, v, 1) && ValidElem(t, v, 1);
    SmallPayload(t[0], v[0], 256);
    SmallPayload(t[2], v[2], v[1].n);
    assert CountAfter(t, v, fs[0], 0) == 256;
    assert !CountsFit(t, v, fs[1..], 256);
    AnyOrder(t, v, init, fs, []);
  }
}
