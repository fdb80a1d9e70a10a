/** Whole QMI messages: the seven byte header in front of the frames, and what survives a
    trip through encoder and decoder. */
module QmiMessage {
  import opened Bytes
  import opened Common
  import opened QmiTypes
  import opened QmiWire
  import opened QmiRoom
  import opened QmiEncoder
  import opened QmiDecoder
  import opened QmiRoundTrip
  import opened QmiCompat

  const HEADER := 7

  /** struct qmi_header, packed, followed by the payload. */
  function Message(kind: nat, txn: nat, msgId: nat, payload: seq<byte>): (bs: seq<byte>)
    ensures |bs| == HEADER + |payload|
  {
    [kind % 256] + LE(txn, 2) + LE(msgId, 2) + LE(|payload|, 2) + payload
  }

  /** Element i belongs to a group that begins with a flag. */
  predicate InOptional(eis: seq<ElemInfo>, i: nat)
    requires i < |eis|
  {
    (i >= 1 && eis[i - 1].kind.OptFlag?) || (i >= 2 && eis[i - 1].kind.DataLen? && eis[i - 2].kind.OptFlag?)
  }

  ghost predicate AllOptional(eis: seq<ElemInfo>) {
    forall i :: 0 <= i < |eis| && IsData(eis[i].kind) ==> InOptional(eis, i)
  }

  /** qmi_calc_min_msg_len: for a message, not 0 exactly if some group must be sent. */
  method MinMsgLen(eis: seq<ElemInfo>, level: nat) returns (n: nat)
    requires level >= 1 && SkipSafe(eis, level)
    ensures level == 1 && TableOk(eis) ==> (n == 0 <==> AllOptional(eis))
    decreases eis
  {
    n := 0;
    var idx := 0;
    while idx < |eis|
      invariant idx <= |eis|
      invariant level == 1 && TableOk(eis) ==> (n == 0 <==> OptionalUpTo(eis, idx)) && Apart(eis, idx)
    {
      var e := eis[idx];
      assert SkipSafeAt(eis, idx, level);
      if e.kind.OptFlag? {
        var next := SkipToNextElem(eis, idx, level);
        if level == 1 && TableOk(eis) {
          OptionalSkipped(eis, idx, next);
        }
        idx := next;
      } else {
        var size := 0;
        if e.kind.DataLen? {
          size := LenSize(e);
        } else if e.kind.Struct? {
          size := MinMsgLen(e.sub, level + 1);
        } else {
          size := (if e.kind.String? && level > 1 then TextLenSize(e) else 0) + e.elemLen * e.elemSize;
        }
        if level == 1 && TableOk(eis) {
          MandatoryNext(eis, idx);
        }
        n := n + size + if level == 1 && !e.kind.DataLen? then TLV_HEADER else 0;
        idx := idx + 1;
      }
    }
    if level == 1 && TableOk(eis) {
      OptionalAll(eis);
    }
  }

  /** No element before idx is outside an optional group. */
  ghost predicate OptionalUpTo(eis: seq<ElemInfo>, idx: nat)
    requires idx <= |eis|
  {
    forall i :: 0 <= i < idx && !eis[i].kind.OptFlag? ==> InOptional(eis, i)
  }

  /** The loop does not stand inside an optional group. */
  ghost predicate Apart(eis: seq<ElemInfo>, idx: nat)
    requires idx <= |eis|
  {
    idx < |eis| ==> !InOptional(eis, idx)
  }

  lemma {:induction false} OptionalSkipped(eis: seq<ElemInfo>, i: nat, k: nat)
    requires TableOk(eis) && i < k <= |eis| && eis[i].kind.OptFlag?
    requires forall m :: i <= m < k ==> eis[m].tlvType == eis[i].tlvType
    requires k < |eis| ==> eis[k].tlvType != eis[i].tlvType
    ensures OptionalUpTo(eis, i) <==> OptionalUpTo(eis, k)
    ensures Apart(eis, k)
  {
    assert ElemOk(eis, i) && GroupOk(eis, i);
    var d := if eis[i + 1].kind.DataLen? then i + 2 else i + 1;
    assert ElemOk(eis, i + 1) && GroupOk(eis, i + 1);
    assert ElemOk(eis, d) && GroupOk(eis, d) && IsData(eis[d].kind);
    assert d + 1 < |eis| ==> eis[d + 1].tlvType != eis[i].tlvType;
    assert k == d + 1;
  }

  lemma {:induction false} OptionalAll(eis: seq<ElemInfo>)
    requires TableOk(eis)
    ensures OptionalUpTo(eis, |eis|) <==> AllOptional(eis)
  {
    forall i | 0 <= i < |eis| && AllOptional(eis) && !eis[i].kind.OptFlag? ensures InOptional(eis, i) {
      assert ElemOk(eis, i);
      assert eis[i].kind.DataLen? ==> InOptional(eis, i + 1);
    }
  }

  lemma {:induction false} MandatoryNext(eis: seq<ElemInfo>, i: nat)
    requires TableOk(eis) && i < |eis| && !eis[i].kind.OptFlag? && Apart(eis, i)
    ensures !OptionalUpTo(eis, i + 1) && Apart(eis, i + 1)
  {
    assert ElemOk(eis, i);
  }

  lemma {:induction false} RoomAgrees(eis: seq<ElemInfo>, v: seq<Value>, room: nat)
    requires Shaped(eis, v) && Sendable(eis, v, 1) && room < 0x1_0000_0000
    ensures |Wire(eis, v, 1)| <= room ==> Accepts(eis, v, 1, room)
    ensures FirmTable(eis) ==> (Accepts(eis, v, 1, room) <==> |Wire(eis, v, 1)| <= room)
  {
    hide Wire; hide RoomFrom; hide FirmTable; hide Sendable;
    if Fits(eis, v, 1, room) {
      FitsAccepts(eis, v, 1, room);
    }
    if FirmTable(eis) {
      FirmAccepts(eis, v, room);
    }
  }

  /** qmi_encode_message into a packet with room for capacity bytes. Without a struct the message
      is empty, and accepted exactly if every group of the table is optional. */
  method EncodeMessage(capacity: nat, kind: nat, msgId: nat, txn: nat, v: Option<seq<Value>>, eis: seq<ElemInfo>)
    returns (r: Result<seq<byte>>)
    requires capacity < 0x1_0000_0000 && SkipSafe(eis, 1) && (v.Some? ==> Shaped(eis, v.value))
    ensures r.Ok? || r == Err(EINVAL) || r == Err(EMSGSIZE)
    ensures v.Some? ==> (capacity < HEADER <==> r == Err(EMSGSIZE))
    ensures v.Some? && Sendable(eis, v.value, 1) ==>
      && (r.Ok? ==> r.value == Message(kind, txn, msgId, Wire(eis, v.value, 1)))
      && (HEADER + |Wire(eis, v.value, 1)| <= capacity ==> r.Ok?)
      && (r.Ok? <==> HEADER <= capacity && Accepts(eis, v.value, 1, capacity - HEADER))
      && (FirmTable(eis) ==> (r.Ok? <==> HEADER + |Wire(eis, v.value, 1)| <= capacity))
    ensures v.None? && TableOk(eis) ==>
      r == if !AllOptional(eis) then Err(EINVAL)
           else if capacity < HEADER then Err(EMSGSIZE)
           else Ok(Message(kind, txn, msgId, []))
  {
    hide AllOptional; hide Wire; hide Message; hide RoomFrom; hide FirmTable; hide Sendable;
    if v.Some? && Sendable(eis, v.value, 1) && HEADER <= capacity {
      RoomAgrees(eis, v.value, capacity - HEADER);
    }
    if v.None? {
      var n := MinMsgLen(eis, 1);
      if n != 0 {
        return Err(EINVAL);
      }
    }
    if capacity < HEADER {
      return Err(EMSGSIZE);
    }
    var payload: Result<seq<byte>> := Ok([]);
    if v.Some? {
      payload := QmiEncode(eis, v.value, capacity - HEADER, 1);
      if !payload.Ok? {
        return Err(EINVAL);
      }
    }
    return Ok(Message(kind, txn, msgId, payload.value));
  }

  /** The empty message is that of a struct with every flag cleared. */
  lemma {:induction false} NothingSent(eis: seq<ElemInfo>, v: seq<Value>, i: nat)
    requires AllOptional(eis) && Shaped(eis, v) && i <= |eis|
    requires forall k :: 0 <= k < |eis| && eis[k].kind.OptFlag? ==> v[k] == Flag(0)
    ensures FramesFrom(eis, v, i) == []
    ensures i == 0 ==> Wire(eis, v, 1) == []
    decreases |eis| - i
  {
    if i < |eis| {
      NothingSent(eis, v, i + 1);
      assert IsData(eis[i].kind) ==> InOptional(eis, i) && !Present(eis, v, i);
    }
  }

  /** qmi_decode_header: the message id, if the header's length is that of the packet. */
  function DecodeHeader(data: seq<byte>): (r: Result<nat>) {
    if |data| < HEADER then Overrun
    else if FromLE(data[5..7]) != |data| - HEADER then Err(EINVAL)
    else Ok(FromLE(data[3..5]))
  }

  /** qmi_decode_message: the struct, the bytes decoded and the transaction id. */
  method DecodeMessage(init: seq<Value>, data: seq<byte>, kind: nat, msgId: nat, eis: seq<ElemInfo>)
    returns (r: Result<(seq<Value>, nat, nat)>)
    requires Shaped(eis, init)
    ensures |data| == 0 ==> r == Err(EINVAL)
    ensures 0 < |data| < HEADER ==> r == Overrun
    ensures |data| >= HEADER ==>
      r == if data[0] != kind || FromLE(data[3..5]) != msgId then Err(EINVAL)
           else match Decode(eis, init, data[HEADER..])
             case Ok((vals, n)) => Ok((vals, n, FromLE(data[1..3])))
             case Err(errno) => Err(errno)
             case Overrun => Overrun
  {
    if |data| == 0 {
      return Err(EINVAL);
    }
    if |data| < HEADER {
      return Overrun;
    }
    if data[0] != kind {
      return Err(EINVAL);
    }
    if FromLE(data[3..5]) != msgId {
      return Err(EINVAL);
    }
    var body := QmiDecode(eis, init, data[HEADER..], 0, |data| - HEADER, 1);
    match body {
      case Ok((vals, n)) => r := Ok((vals, n, FromLE(data[1..3])));
      case Err(errno) => r := Err(errno);
      case Overrun => r := Overrun;
    }
  }

  /** The header reads back; its length is accepted exactly when the payload fits 16 bits. */
  lemma {:induction false} HeaderRoundTrip(kind: byte, txn: nat, msgId: nat, payload: seq<byte>)
    requires txn < 65536 && msgId < 65536
    ensures var m := Message(kind, txn, msgId, payload);
      && m[0] == kind && FromLE(m[1..3]) == txn && FromLE(m[3..5]) == msgId && m[HEADER..] == payload
      && DecodeHeader(m) == if |payload| < 65536 then Ok(msgId) else Err(EINVAL)
  {
    var m := Message(kind, txn, msgId, payload);
    LEInverse(txn, 2);
    LEInverse(msgId, 2);
    LEInverse(|payload|, 2);
    assert m[1..3] == LE(txn, 2) && m[3..5] == LE(msgId, 2) && m[5..7] == LE(|payload|, 2);
  }

  /** An encoded message passes the header check and decodes to what was sent. */
  lemma {:induction false} MessageRoundTrip(kind: byte, txn: nat, msgId: nat, eis: seq<ElemInfo>, v: seq<Value>,
                                            init: seq<Value>)
    requires txn < 65536 && msgId < 65536
    requires Sendable(eis, v, 1) && Shaped(eis, init) && LenSafe(eis) && |Wire(eis, v, 1)| < 65536
    ensures var m := Message(kind, txn, msgId, Wire(eis, v, 1));
      && m[0] == kind && FromLE(m[1..3]) == txn && DecodeHeader(m) == Ok(msgId)
      && Decode(eis, init, m[HEADER..]) == Ok((Delivered(eis, init, v), |m| - HEADER))
  {
    HeaderRoundTrip(kind, txn, msgId, Wire(eis, v, 1));
    forall k | 0 <= k < |Frames(eis, v)| ensures |Frames(eis, v)[k].payload| < 65536 {
      PayloadBound(Frames(eis, v), k);
    }
    RoundTrip(eis, v, init);
  }

  /** A message of any well-formed table sent by one daemon and received by another: whenever the
      packet has room for it, the receiver gets what was sent, with its transaction id. */
  method Exchange(capacity: nat, kind: byte, msgId: nat, txn: nat, v: seq<Value>, init: seq<Value>, eis: seq<ElemInfo>)
    returns (r: Result<(seq<Value>, nat, nat)>)
    requires capacity < 0x1_0000_0000 && txn < 65536 && msgId < 65536
    requires Sendable(eis, v, 1) && Shaped(eis, v) && Shaped(eis, init) && LenSafe(eis)
    ensures HEADER + |Wire(eis, v, 1)| <= capacity && |Wire(eis, v, 1)| < 65536 ==>
      r == Ok((Delivered(eis, init, v), |Wire(eis, v, 1)|, txn))
  {
    hide Wire; hide Delivered; hide Decode; hide Message; hide LenSafe;
    TableSkipSafe(eis, 1);
    var m := EncodeMessage(capacity, kind, msgId, txn, Some(v), eis);
    match m {
      case Ok(data) =>
        r := DecodeMessage(init, data, kind, msgId, eis);
        if |Wire(eis, v, 1)| < 65536 {
          HeaderRoundTrip(kind, txn, msgId, Wire(eis, v, 1));
          MessageRoundTrip(kind, txn, msgId, eis, v, init);
        }
      case Err(errno) => r := Err(errno);
      case Overrun => r := Overrun;
    }
  }

  lemma {:induction false} PayloadBound(fs: seq<Frame>, k: nat)
    requires k < |fs|
    ensures |fs[k].payload| <= |Flat(fs)|
  {
    if k > 0 {
      PayloadBound(fs[1..], k - 1);
    }
  }

  // ----- Nothing of the message is lost: encoding the decoded struct gives the same bytes -----

  lemma {:induction false} SameStructs(e: ElemInfo, xs: seq<seq<Value>>, ys: seq<seq<Value>>)
    requires |xs| == |ys| && forall j :: 0 <= j < |xs| ==> Shaped(e.sub, xs[j]) && Shaped(e.sub, ys[j])
    requires forall j :: 0 <= j < |xs| ==> NestedFrom(e.sub, xs[j], 0) == NestedFrom(e.sub, ys[j], 0)
    ensures StructBytes(e, xs) == StructBytes(e, ys)
  {
    if xs != [] {
      SameStructs(e, xs[1..], ys[1..]);
    }
  }

  lemma {:induction false} SameData(e: ElemInfo, x0: Value, x: Value, used: nat, level: nat)
    requires IsData(e.kind) && ShapedElem(e, x0) && ShapedElem(e, x) && used <= Slots(e)
    ensures DataBytes(e, OverlayElem(e, x0, x, used), used, level) == DataBytes(e, x, used, level)
    decreases e
  {
    var y := OverlayElem(e, x0, x, used);
    if e.kind.Struct? {
      forall j | 0 <= j < used
        ensures NestedFrom(e.sub, y.structs[j], 0) == NestedFrom(e.sub, x.structs[j], 0)
      {
        SameNested(e.sub, x0.structs[j], x.structs[j], 0);
      }
      SameStructs(e, y.structs[..used], x.structs[..used]);
    } else if !e.kind.String? {
      assert y.items[..used] == x.items[..used];
    }
  }

  lemma {:induction false} SameElem(eis: seq<ElemInfo>, w: seq<Value>, init: seq<Value>, v: seq<Value>, i: nat,
                                    level: nat)
    requires Shaped(eis, w) && Shaped(eis, init) && Shaped(eis, v) && i < |eis|
    requires w[i] == OverlayAt(eis, init, v, i)
    requires i > 0 && eis[i - 1].kind.DataLen? ==> w[i - 1] == v[i - 1]
    ensures ElemBytes(eis, w, i, level) == ElemBytes(eis, v, i, level)
    decreases eis, 0
  {
    assert ShapedElem(eis[i], v[i]) && ShapedElem(eis[i], init[i]) && ShapedElem(eis[i], w[i]);
    if i > 0 {
      assert ShapedElem(eis[i - 1], v[i - 1]) && ShapedElem(eis[i - 1], w[i - 1]);
    }
    if IsData(eis[i].kind) && Used(eis, v, i) <= Slots(eis[i]) {
      SameData(eis[i], init[i], v[i], Used(eis, v, i), level);
    }
  }

  lemma {:induction false} SameNested(eis: seq<ElemInfo>, init: seq<Value>, v: seq<Value>, k: nat)
    requires Shaped(eis, init) && Shaped(eis, v) && k <= |eis|
    ensures NestedFrom(eis, Overlay(eis, init, v), k) == NestedFrom(eis, v, k)
    decreases eis, 1, |eis| - k
  {
    if k < |eis| {
      assert k > 0 && eis[k - 1].kind.DataLen? ==> OverlayAt(eis, init, v, k - 1) == v[k - 1];
      SameElem(eis, Overlay(eis, init, v), init, v, k, 2);
      SameNested(eis, init, v, k + 1);
    }
  }

  /** All optional groups of the struct are marked absent. */
  ghost predicate Blank(eis: seq<ElemInfo>, init: seq<Value>) {
    Shaped(eis, init) && forall i :: 0 <= i < |eis| && eis[i].kind.OptFlag? ==> init[i] == Flag(0)
  }

  lemma {:induction false} SamePresence(eis: seq<ElemInfo>, init: seq<Value>, v: seq<Value>, i: nat)
    requires TableOk(eis) && Blank(eis, init) && Shaped(eis, v) && i < |eis|
    ensures Present(eis, Delivered(eis, init, v), i) == Present(eis, v, i)
  {
    assert forall k :: 0 <= k < |eis| ==> ShapedElem(eis[k], v[k]);
  }

  lemma {:induction false} SameFrameAt(eis: seq<ElemInfo>, init: seq<Value>, v: seq<Value>, i: nat)
    requires TableOk(eis) && Blank(eis, init) && Shaped(eis, v) && i < |eis| && IsData(eis[i].kind) && Present(eis, v, i)
    ensures FrameAt(eis, Delivered(eis, init, v), i) == FrameAt(eis, v, i)
  {
    hide ElemBytes;
    var w := Delivered(eis, init, v);
    SamePresence(eis, init, v, i);
    if i > 0 && eis[i - 1].kind.DataLen? {
      PresentGroup(eis, v, i, i - 1);
      assert ElemOk(eis, i - 1) && (i > 1 ==> ElemOk(eis, i - 2));
      SameElem(eis, w, init, v, i - 1, 1);
    }
    SameElem(eis, w, init, v, i, 1);
  }

  lemma {:induction false} SameFrames(eis: seq<ElemInfo>, init: seq<Value>, v: seq<Value>, i: nat)
    requires TableOk(eis) && Blank(eis, init) && Shaped(eis, v) && i <= |eis|
    ensures FramesFrom(eis, Delivered(eis, init, v), i) == FramesFrom(eis, v, i)
    decreases |eis| - i
  {
    hide FrameAt; hide TableOk; hide Blank;
    if i < |eis| {
      SameFrames(eis, init, v, i + 1);
      SamePresence(eis, init, v, i);
      if IsData(eis[i].kind) && Present(eis, v, i) {
        SameFrameAt(eis, init, v, i);
      }
    }
  }

  /** Encoding what the receiver decoded, into a struct with its flags cleared, sends the
      same message again. */
  lemma {:induction false} ReEncode(eis: seq<ElemInfo>, v: seq<Value>, init: seq<Value>)
    requires TableOk(eis) && Shaped(eis, v) && Blank(eis, init)
    ensures Wire(eis, Delivered(eis, init, v), 1) == Wire(eis, v, 1)
  {
    SameFrames(eis, init, v, 0);
  }
}
