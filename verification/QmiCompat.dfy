/** Whole messages: the round trip, frames in any order, unknown frames. */
module QmiCompat {
  import opened Bytes
  import opened QmiTypes
  import opened QmiWire
  import opened QmiEncoder
  import opened QmiDecoder
  import opened QmiRoundTrip

  ghost predicate Known(eis: seq<ElemInfo>, t: byte) {
    exists i :: 0 <= i < |eis| && eis[i].tlvType == t
  }

  /** A frame a newer sender may add: optional, and of a type the table does not have. */
  ghost predicate Stranger(eis: seq<ElemInfo>, f: Frame) {
    !Known(eis, f.tlvType) && f.tlvType >= OPTIONAL_TLV_TYPE_START && |f.payload| < 65536
  }

  /** The decoded struct: what was sent laid over the initial struct, absent groups untouched. */
  ghost function Delivered(eis: seq<ElemInfo>, init: seq<Value>, v: seq<Value>): (r: seq<Value>)
    requires Shaped(eis, init) && Shaped(eis, v)
    ensures Shaped(eis, r)
  {
    seq(|eis|, i requires 0 <= i < |eis| => if Present(eis, v, i) then OverlayAt(eis, init, v, i) else init[i])
  }

  /** The struct once frames of the given types have arrived. */
  ghost function Received(eis: seq<ElemInfo>, init: seq<Value>, v: seq<Value>, seen: set<byte>): (r: seq<Value>)
    requires Shaped(eis, init) && Shaped(eis, v)
    ensures Shaped(eis, r)
  {
    seq(|eis|, i requires 0 <= i < |eis| => if eis[i].tlvType in seen then OverlayAt(eis, init, v, i) else init[i])
  }

  // ----- Groups of a well-formed table -----

  /** First element, behind the flag, of the group whose data element is d. */
  function GroupStart(eis: seq<ElemInfo>, d: nat): nat
    requires d < |eis|
  {
    if d > 0 && eis[d - 1].kind.DataLen? then d - 1 else d
  }

  /** First element of the group whose data element is d. */
  function GroupHead(eis: seq<ElemInfo>, d: nat): nat
    requires d < |eis|
  {
    var i := GroupStart(eis, d);
    if i > 0 && eis[i - 1].kind.OptFlag? then i - 1 else i
  }

  /** Data element of the group of m. */
  function GroupData(eis: seq<ElemInfo>, m: nat): nat
    requires m < |eis|
  {
    if IsData(eis[m].kind) then m
    else if m + 1 < |eis| && IsData(eis[m + 1].kind) then m + 1
    else m + 2
  }

  lemma {:induction false} GroupDataOk(eis: seq<ElemInfo>, m: nat)
    requires TableOk(eis) && m < |eis|
    ensures var d := GroupData(eis, m);
      && d < |eis| && IsData(eis[d].kind) && GroupHead(eis, d) <= m <= d
      && forall k :: GroupHead(eis, d) <= k <= d ==> eis[k].tlvType == eis[m].tlvType
  {
    assert ElemOk(eis, m) && GroupOk(eis, m);
    if m + 1 < |eis| {
      assert ElemOk(eis, m + 1) && GroupOk(eis, m + 1);
    }
    if m > 0 {
      assert ElemOk(eis, m - 1) && GroupOk(eis, m - 1);
    }
    if m > 1 {
      assert ElemOk(eis, m - 2) && GroupOk(eis, m - 2);
    }
  }

  /** The elements that share a data element's type are exactly its group. */
  lemma {:induction false} GroupTypes(eis: seq<ElemInfo>, d: nat, m: nat)
    requires TableOk(eis) && d < |eis| && IsData(eis[d].kind) && m < |eis|
    ensures eis[m].tlvType == eis[d].tlvType <==> GroupHead(eis, d) <= m <= d
  {
    GroupDataOk(eis, d);
    GroupDataOk(eis, m);
    var dm := GroupData(eis, m);
    assert GroupOk(eis, d) && GroupOk(eis, dm);
  }

  lemma {:induction false} FirstIsHead(eis: seq<ElemInfo>, d: nat)
    requires TableOk(eis) && d < |eis| && IsData(eis[d].kind)
    ensures FirstOfType(eis, eis[d].tlvType, 0) == GroupHead(eis, d)
  {
    var k := FirstOfType(eis, eis[d].tlvType, 0);
    if k < |eis| {
      GroupTypes(eis, d, k);
    }
    GroupTypes(eis, d, GroupHead(eis, d));
  }

  lemma {:induction false} PresentGroup(eis: seq<ElemInfo>, v: seq<Value>, d: nat, m: nat)
    requires TableOk(eis) && Shaped(eis, v) && d < |eis| && IsData(eis[d].kind) && GroupHead(eis, d) <= m <= d
    ensures Present(eis, v, m) == Present(eis, v, d)
  {
    assert forall k :: 0 <= k < |eis| ==> ElemOk(eis, k);
    assert forall k :: 0 <= k < |eis| ==> ShapedElem(eis[k], v[k]);
    var i := GroupStart(eis, d);
    assert d > 0 ==> ElemOk(eis, d - 1);
    assert d > 1 ==> ElemOk(eis, d - 2);
    assert d > 2 ==> ElemOk(eis, d - 3);
  }

  // ----- One frame -----

  lemma {:induction false} FramePayload(eis: seq<ElemInfo>, v: seq<Value>, d: nat)
    requires TableOk(eis) && Shaped(eis, v) && d < |eis| && IsData(eis[d].kind)
    ensures var i := GroupStart(eis, d);
      !eis[i].kind.OptFlag? && DataOf(eis, i) == d && (i > 0 ==> !eis[i - 1].kind.DataLen?)
      && FrameAt(eis, v, d).payload == GroupBytes(eis, v, i, 1)
  {
    assert ElemOk(eis, d);
    if d > 0 {
      assert ElemOk(eis, d - 1);
    }
    if d > 1 {
      assert ElemOk(eis, d - 2);
    }
  }

  /** Once the frame of d has been decoded, its group and nothing else has been received. */
  lemma {:induction false} GroupReceived(eis: seq<ElemInfo>, init: seq<Value>, v: seq<Value>, seen: set<byte>, d: nat)
    requires TableOk(eis) && Shaped(eis, init) && Shaped(eis, v) && d < |eis| && IsData(eis[d].kind)
    requires eis[d].tlvType !in seen
    ensures var i, o, cur := GroupStart(eis, d), GroupHead(eis, d), Received(eis, init, v, seen);
      && DataOf(eis, i) == d
      && GroupOver(eis, if o < i then cur[o := Flag(1)] else cur, v, i)
         == Received(eis, init, v, seen + {eis[d].tlvType})
  {
    FramePayload(eis, v, d);
    var i, o, cur := GroupStart(eis, d), GroupHead(eis, d), Received(eis, init, v, seen);
    var cur1 := if o < i then cur[o := Flag(1)] else cur;
    forall m | 0 <= m < |eis|
      ensures GroupOver(eis, cur1, v, i)[m] == Received(eis, init, v, seen + {eis[d].tlvType})[m]
    {
      GroupTypes(eis, d, m);
      GroupDataOk(eis, d);
      if m == i || m == d {
        assert cur1[m] == init[m];
        assert OverlayAt(eis, cur1, v, m) == OverlayAt(eis, init, v, m);
      }
    }
  }

  /** The decoder's count, and the frames still to come, allow frame f next. */
  ghost predicate Acceptable(eis: seq<ElemInfo>, v: seq<Value>, f: Frame)
    requires Shaped(eis, v)
  {
    && |f.payload| < 65536
    && (Stranger(eis, f)
        || exists d :: 0 <= d < |eis| && IsData(eis[d].kind) && Present(eis, v, d) && f == FrameAt(eis, v, d))
  }

  lemma {:induction false} FrameGroupAt(eis: seq<ElemInfo>, v: seq<Value>, cur: seq<Value>, d: nat, buf: seq<byte>,
                                        pos: nat, dataLen: nat)
    requires Sendable(eis, v, 1) && Shaped(eis, cur) && d < |eis| && IsData(eis[d].kind) && Present(eis, v, d)
    requires CountFits(eis, GroupStart(eis, d), dataLen)
    requires At(buf, pos, FrameAt(eis, v, d).payload) && |FrameAt(eis, v, d).payload| < 65536
    ensures GroupAt(eis, v, cur, buf, pos, GroupStart(eis, d), dataLen, |FrameAt(eis, v, d).payload|, 1)
  {
    FramePayload(eis, v, d);
    var i := GroupStart(eis, d);
    PresentGroup(eis, v, d, i);
    assert ElemOk(eis, i) && ElemOk(eis, d) && ValidElem(eis, v, i) && ValidElem(eis, v, d);
  }

  /** A known frame delivers its group. */
  lemma {:induction false} FrameDelivers(eis: seq<ElemInfo>, init: seq<Value>, v: seq<Value>, seen: set<byte>, d: nat,
                      buf: seq<byte>, pos: nat, dataLen: nat)
    requires Sendable(eis, v, 1) && Shaped(eis, init)
    requires d < |eis| && IsData(eis[d].kind) && Present(eis, v, d) && eis[d].tlvType !in seen
    requires CountFits(eis, GroupStart(eis, d), dataLen)
    requires At(buf, pos, FrameAt(eis, v, d).payload) && |FrameAt(eis, v, d).payload| < 65536
    ensures var f := FrameAt(eis, v, d);
      DecodeElem(eis, Received(eis, init, v, seen), buf, pos, GroupHead(eis, d), dataLen, |f.payload|, 1)
      == Ok(Progress(Received(eis, init, v, seen + {f.tlvType}), d + 1, Used(eis, v, d), |f.payload|))
  {
    hide OverlayAt; hide OverlayElem; hide Overlay; hide GroupOver; hide ElemBytes; hide GroupAt; hide DecodeLenData;
    var i, o, cur := GroupStart(eis, d), GroupHead(eis, d), Received(eis, init, v, seen);
    var cur1 := if o < i then cur[o := Flag(1)] else cur;
    FramePayload(eis, v, d);
    FrameGroupAt(eis, v, cur1, d, buf, pos, dataLen);
    GroupInverse(eis, v, cur1, buf, pos, i, dataLen, |FrameAt(eis, v, d).payload|, 1);
    GroupReceived(eis, init, v, seen, d);
  }

  lemma {:induction false} StaleRefused(eis: seq<ElemInfo>, cur: seq<Value>, i: nat, buf: seq<byte>, pos: nat,
                                        dataLen: nat, tlvLen: nat)
    requires Shaped(eis, cur) && i < |eis| && eis[i].kind.DataLen? && ElemOk(eis, i)
    requires dataLen >= Limit(LenSize(eis[i])) && pos + LenSize(eis[i]) <= |buf|
    ensures DecodeLenData(eis, cur, buf, pos, i, dataLen, tlvLen, 1) == Err(EINVAL)
  {
    hide DecodeStructs; hide NestedOk; hide SetLow;
  }

  /** A count left over from a wider array makes the decoder refuse the frame. */
  lemma {:induction false} FrameRefused(eis: seq<ElemInfo>, v: seq<Value>, cur: seq<Value>, d: nat, buf: seq<byte>,
                                        pos: nat, dataLen: nat)
    requires TableOk(eis) && Shaped(eis, v) && Shaped(eis, cur)
    requires d < |eis| && IsData(eis[d].kind) && !CountFits(eis, GroupStart(eis, d), dataLen)
    requires At(buf, pos, FrameAt(eis, v, d).payload)
    ensures DecodeElem(eis, cur, buf, pos, GroupHead(eis, d), dataLen, |FrameAt(eis, v, d).payload|, 1) == Err(EINVAL)
  {
    hide DataBytes; hide NestedOk; hide DecodeLenData;
    FramePayload(eis, v, d);
    var i := GroupStart(eis, d);
    assert ElemOk(eis, i);
    var cur1 := if GroupHead(eis, d) < i then cur[GroupHead(eis, d) := Flag(1)] else cur;
    StaleRefused(eis, cur1, i, buf, pos, dataLen, |FrameAt(eis, v, d).payload|);
  }

  /** The header of a frame reads back as its type and length. */
  lemma {:induction false} HeaderRead(f: Frame, buf: seq<byte>, p: nat)
    requires At(buf, p, FrameBytes(f)) && |f.payload| < 65536
    ensures p + TLV_HEADER <= |buf| && buf[p] == f.tlvType && FromLE(buf[p + 1..p + 3]) == |f.payload|
    ensures At(buf, p + TLV_HEADER, f.payload)
  {
    var hdr := [f.tlvType] + LE(|f.payload|, 2);
    AtConcat(buf, p, hdr, f.payload);
    AtConcat(buf, p, [f.tlvType], LE(|f.payload|, 2));
    assert buf[p..p + 1][0] == f.tlvType;
    LEInverse(|f.payload|, 2);
  }

  lemma {:induction false} UnknownStep(eis: seq<ElemInfo>, cur: seq<Value>, f: Frame, buf: seq<byte>, pos: nat,
                                       inLen: nat, dataLen: nat, done: nat)
    requires Shaped(eis, cur) && !Known(eis, f.tlvType) && |f.payload| < 65536
    requires At(buf, pos + done, FrameBytes(f)) && done < inLen
    ensures DecodeList(eis, cur, buf, pos, inLen, 1, 0, dataLen, done)
         == if f.tlvType < OPTIONAL_TLV_TYPE_START then Err(EINVAL)
            else DecodeList(eis, cur, buf, pos, inLen, 1, 0, dataLen, done + |FrameBytes(f)|)
  {
    HeaderRead(f, buf, pos + done);
    assert FirstOfType(eis, f.tlvType, 0) == |eis|;
  }

  lemma {:induction false} KnownStep(eis: seq<ElemInfo>, cur: seq<Value>, f: Frame, k: nat, r: Result<Progress>,
                  buf: seq<byte>, pos: nat, inLen: nat, dataLen: nat, done: nat)
    requires Shaped(eis, cur) && |f.payload| < 65536 && k == FirstOfType(eis, f.tlvType, 0) < |eis|
    requires At(buf, pos + done, FrameBytes(f)) && done < inLen
    requires r == DecodeElem(eis, cur, buf, pos + done + TLV_HEADER, k, dataLen, |f.payload|, 1)
    ensures r.Ok? ==> Shaped(eis, r.value.vals)
    ensures r.Ok? ==>
      DecodeList(eis, cur, buf, pos, inLen, 1, 0, dataLen, done)
      == DecodeList(eis, r.value.vals, buf, pos, inLen, 1, 0, r.value.dataLen, done + TLV_HEADER + r.value.consumed)
    ensures r.Err? ==> DecodeList(eis, cur, buf, pos, inLen, 1, 0, dataLen, done) == Err(r.errno)
  {
    hide DecodeElem; hide OverlayAt; hide OverlayElem; hide Overlay;
    HeaderRead(f, buf, pos + done);
  }

  /** The data element the frame of a known type belongs to. */
  ghost function DataOfType(eis: seq<ElemInfo>, t: byte): (d: nat) {
    var k := FirstOfType(eis, t, 0);
    if k < |eis| then GroupData(eis, k) else |eis|
  }

  lemma {:induction false} DataOfTypeIs(eis: seq<ElemInfo>, d: nat)
    requires TableOk(eis) && d < |eis| && IsData(eis[d].kind)
    ensures DataOfType(eis, eis[d].tlvType) == d
  {
    FirstIsHead(eis, d);
    var k := GroupHead(eis, d);
    GroupTypes(eis, d, k);
    GroupDataOk(eis, k);
    GroupTypes(eis, d, GroupData(eis, k));
    GroupTypes(eis, GroupData(eis, k), d);
  }

  /** data_len_value after frame f has been decoded. */
  ghost function CountAfter(eis: seq<ElemInfo>, v: seq<Value>, f: Frame, dataLen: nat): (n: nat)
    requires Shaped(eis, v)
  {
    var d := DataOfType(eis, f.tlvType);
    if d < |eis| then Used(eis, v, d) else dataLen
  }

  ghost predicate FrameFits(eis: seq<ElemInfo>, f: Frame, dataLen: nat) {
    var d := DataOfType(eis, f.tlvType);
    d < |eis| ==> CountFits(eis, GroupStart(eis, d), dataLen)
  }

  lemma {:induction false} KnownPasses(eis: seq<ElemInfo>, init: seq<Value>, v: seq<Value>, seen: set<byte>, d: nat,
                    buf: seq<byte>, pos: nat, inLen: nat, dataLen: nat, done: nat)
    requires Sendable(eis, v, 1) && Shaped(eis, init)
    requires d < |eis| && IsData(eis[d].kind) && Present(eis, v, d) && eis[d].tlvType !in seen
    requires done < inLen
    requires At(buf, pos + done, FrameBytes(FrameAt(eis, v, d))) && |FrameAt(eis, v, d).payload| < 65536
    ensures var f := FrameAt(eis, v, d);
      DecodeList(eis, Received(eis, init, v, seen), buf, pos, inLen, 1, 0, dataLen, done)
      == if CountFits(eis, GroupStart(eis, d), dataLen)
         then DecodeList(eis, Received(eis, init, v, seen + {f.tlvType}), buf, pos, inLen, 1, 0, Used(eis, v, d), done + |FrameBytes(f)|)
         else Err(EINVAL)
  {
    hide DecodeList; hide DecodeElem; hide Used; hide GroupHead; hide OverlayAt; hide OverlayElem; hide Overlay; hide ElemBytes;
    var f, cur := FrameAt(eis, v, d), Received(eis, init, v, seen);
    HeaderRead(f, buf, pos + done);
    if CountFits(eis, GroupStart(eis, d), dataLen) {
      FrameDelivers(eis, init, v, seen, d, buf, pos + done + TLV_HEADER, dataLen);
    } else {
      FrameRefused(eis, v, cur, d, buf, pos + done + TLV_HEADER, dataLen);
    }
    FirstIsHead(eis, d);
    var r := DecodeElem(eis, cur, buf, pos + done + TLV_HEADER, GroupHead(eis, d), dataLen, |f.payload|, 1);
    KnownStep(eis, cur, f, GroupHead(eis, d), r, buf, pos, inLen, dataLen, done);
  }

  /** qmi_decode on buf, done bytes into it, when frames of the types seen have arrived. */
  ghost function Run(eis: seq<ElemInfo>, init: seq<Value>, v: seq<Value>, seen: set<byte>,
                     buf: seq<byte>, dataLen: nat, done: nat): (r: Result<(seq<Value>, nat)>)
    requires Shaped(eis, init) && Shaped(eis, v)
  {
    DecodeList(eis, Received(eis, init, v, seen), buf, 0, |buf|, 1, 0, dataLen, done)
  }

  /** An acceptable frame stands next in the input. */
  ghost predicate FrameNext(eis: seq<ElemInfo>, init: seq<Value>, v: seq<Value>, seen: set<byte>, f: Frame,
                            buf: seq<byte>, done: nat)
  {
    && Sendable(eis, v, 1) && Shaped(eis, v) && Shaped(eis, init)
    && Acceptable(eis, v, f) && (Known(eis, f.tlvType) ==> f.tlvType !in seen)
    && At(buf, done, FrameBytes(f))
  }

  /** One turn of the decoder's loop at the top level, on an acceptable frame. */
  lemma {:induction false} FramePasses(eis: seq<ElemInfo>, init: seq<Value>, v: seq<Value>, seen: set<byte>, f: Frame,
                    buf: seq<byte>, dataLen: nat, done: nat)
    requires FrameNext(eis, init, v, seen, f, buf, done)
    ensures Run(eis, init, v, seen, buf, dataLen, done)
         == if FrameFits(eis, f, dataLen)
            then Run(eis, init, v, seen + {f.tlvType}, buf, CountAfter(eis, v, f, dataLen), done + |FrameBytes(f)|)
            else Err(EINVAL)
  {
    hide DecodeList; hide OverlayAt; hide OverlayElem; hide Overlay; hide ElemBytes; hide FrameBytes; hide ElemOk;
    if Stranger(eis, f) {
      UnknownStep(eis, Received(eis, init, v, seen), f, buf, 0, |buf|, dataLen, done);
      assert Received(eis, init, v, seen + {f.tlvType}) == Received(eis, init, v, seen);
    } else {
      var d :| 0 <= d < |eis| && IsData(eis[d].kind) && Present(eis, v, d) && f == FrameAt(eis, v, d);
      KnownPasses(eis, init, v, seen, d, buf, 0, |buf|, dataLen, done);
      DataOfTypeIs(eis, d);
    }
  }

  // ----- Whole messages -----

  ghost function TypesOf(fs: seq<Frame>): (ts: set<byte>) {
    set f | f in fs :: f.tlvType
  }

  /** Frames the decoder may meet in sequence: no known type twice. */
  ghost predicate AllAcceptable(eis: seq<ElemInfo>, v: seq<Value>, seen: set<byte>, fs: seq<Frame>)
    requires Shaped(eis, v)
  {
    && (forall k :: 0 <= k < |fs| ==> Acceptable(eis, v, fs[k]) && (Known(eis, fs[k].tlvType) ==> fs[k].tlvType !in seen))
    && forall j, k :: 0 <= j < k < |fs| && Known(eis, fs[j].tlvType) ==> fs[j].tlvType != fs[k].tlvType
  }

  /** Every length among the frames can be read despite the count its predecessor left behind. */
  ghost predicate CountsFit(eis: seq<ElemInfo>, v: seq<Value>, fs: seq<Frame>, dataLen: nat)
    requires Shaped(eis, v)
  {
    fs != [] ==> FrameFits(eis, fs[0], dataLen) && CountsFit(eis, v, fs[1..], CountAfter(eis, v, fs[0], dataLen))
  }

  ghost function CountAfterAll(eis: seq<ElemInfo>, v: seq<Value>, fs: seq<Frame>, dataLen: nat): (n: nat)
    requires Shaped(eis, v)
  {
    if fs == [] then dataLen else CountAfterAll(eis, v, fs[1..], CountAfter(eis, v, fs[0], dataLen))
  }

  ghost predicate FramesNext(eis: seq<ElemInfo>, init: seq<Value>, v: seq<Value>, seen: set<byte>, fs: seq<Frame>,
                             buf: seq<byte>, done: nat)
  {
    && Sendable(eis, v, 1) && Shaped(eis, v) && Shaped(eis, init) && AllAcceptable(eis, v, seen, fs)
    && At(buf, done, Flat(fs))
  }

  lemma {:induction false} FramesTail(eis: seq<ElemInfo>, init: seq<Value>, v: seq<Value>, seen: set<byte>,
                                      fs: seq<Frame>, buf: seq<byte>, done: nat)
    requires FramesNext(eis, init, v, seen, fs, buf, done) && fs != []
    ensures FrameNext(eis, init, v, seen, fs[0], buf, done)
    ensures FramesNext(eis, init, v, seen + {fs[0].tlvType}, fs[1..], buf, done + |FrameBytes(fs[0])|)
    ensures seen + {fs[0].tlvType} + TypesOf(fs[1..]) == seen + TypesOf(fs)
  {
    assert fs == [fs[0]] + fs[1..];
    AtConcat(buf, done, FrameBytes(fs[0]), Flat(fs[1..]));
    forall k | 0 <= k < |fs[1..]|
      ensures Acceptable(eis, v, fs[1..][k])
      ensures Known(eis, fs[1..][k].tlvType) ==> fs[1..][k].tlvType !in seen + {fs[0].tlvType}
    {
      assert fs[1..][k] == fs[k + 1];
    }
  }

  /** Decoding runs through acceptable frames, in any order, whatever follows them, or fails
      exactly when a left-over count spoils a length. */
  lemma {:induction false} FramesPass(eis: seq<ElemInfo>, init: seq<Value>, v: seq<Value>, seen: set<byte>,
                                      fs: seq<Frame>,
                                      buf: seq<byte>, dataLen: nat, done: nat)
    requires Shaped(eis, init) && Shaped(eis, v) && FramesNext(eis, init, v, seen, fs, buf, done)
    ensures Run(eis, init, v, seen, buf, dataLen, done)
         == if CountsFit(eis, v, fs, dataLen)
            then Run(eis, init, v, seen + TypesOf(fs), buf, CountAfterAll(eis, v, fs, dataLen), done + |Flat(fs)|)
            else Err(EINVAL)
    decreases |fs|
  {
    hide Run; hide FramesNext; hide FrameNext; hide Shaped; hide FrameFits; hide CountAfter; hide FrameBytes;
    hide Received; hide OverlayAt; hide OverlayElem; hide Overlay;
    if fs == [] {
      assert seen + TypesOf(fs) == seen;
    } else {
      FramesTail(eis, init, v, seen, fs, buf, done);
      FramePasses(eis, init, v, seen, fs[0], buf, dataLen, done);
      FramesPass(eis, init, v, seen + {fs[0].tlvType}, fs[1..], buf, CountAfter(eis, v, fs[0], dataLen), done + |FrameBytes(fs[0])|);
    }
  }

  // ----- The frames of a message -----

  lemma {:induction false} FramesMember(eis: seq<ElemInfo>, v: seq<Value>, i: nat, k: nat)
    requires Shaped(eis, v) && i <= |eis| && k < |FramesFrom(eis, v, i)|
    ensures exists d :: i <= d < |eis| && IsData(eis[d].kind) && Present(eis, v, d) && FramesFrom(eis, v, i)[k] == FrameAt(eis, v, d)
    decreases |eis| - i
  {
    if IsData(eis[i].kind) && Present(eis, v, i) {
      if k > 0 {
        FramesMember(eis, v, i + 1, k - 1);
      }
    } else {
      FramesMember(eis, v, i + 1, k);
    }
  }

  lemma {:induction false} FramesHas(eis: seq<ElemInfo>, v: seq<Value>, i: nat, d: nat)
    requires Shaped(eis, v) && i <= d < |eis| && IsData(eis[d].kind) && Present(eis, v, d)
    ensures FrameAt(eis, v, d) in FramesFrom(eis, v, i)
    decreases |eis| - i
  {
    if i < d {
      FramesHas(eis, v, i + 1, d);
    }
  }

  /** No two frames of a message have the same type. */
  lemma {:induction false} FramesDistinct(eis: seq<ElemInfo>, v: seq<Value>, i: nat, j: nat, k: nat)
    requires TableOk(eis) && Shaped(eis, v) && i <= |eis| && j < k < |FramesFrom(eis, v, i)|
    ensures FramesFrom(eis, v, i)[j].tlvType != FramesFrom(eis, v, i)[k].tlvType
    decreases |eis| - i
  {
    if IsData(eis[i].kind) && Present(eis, v, i) {
      if j > 0 {
        FramesDistinct(eis, v, i + 1, j - 1, k - 1);
      } else {
        FramesMember(eis, v, i + 1, k - 1);
        assert GroupOk(eis, i);
      }
    } else {
      FramesDistinct(eis, v, i + 1, j, k);
    }
  }

  lemma {:induction false} CountedOnce<T>(s: seq<T>, x: T)
    requires forall j, k :: 0 <= j < k < |s| ==> s[j] != s[k]
    ensures multiset(s)[x] <= 1
  {
    if s != [] {
      assert s == [s[0]] + s[1..];
      CountedOnce(s[1..], x);
      if s[0] == x {
        assert x !in s[1..];
      }
    }
  }

  lemma {:induction false} CountedTwice<T>(s: seq<T>, j: nat, k: nat)
    requires j < k < |s| && s[j] == s[k]
    ensures multiset(s)[s[j]] >= 2
  {
    assert s == s[..k] + [s[k]] + s[k + 1..];
    assert s[j] in s[..k];
    assert multiset(s) == multiset(s[..k]) + multiset([s[k]]) + multiset(s[k + 1..]);
    assert multiset(s[..k])[s[j]] >= 1;
  }

  /** fs holds the frames of the message in some order, with the extra frames among them. */
  ghost predicate Rearranged(eis: seq<ElemInfo>, v: seq<Value>, fs: seq<Frame>, extra: seq<Frame>)
    requires Shaped(eis, v)
  {
    && multiset(fs) == multiset(Frames(eis, v)) + multiset(extra)
    && (forall k :: 0 <= k < |extra| ==> Stranger(eis, extra[k]))
    && forall k :: 0 <= k < |fs| ==> |fs[k].payload| < 65536
  }

  lemma {:induction false} RearrangedMember(eis: seq<ElemInfo>, v: seq<Value>, fs: seq<Frame>, extra: seq<Frame>,
                                            k: nat)
    requires Shaped(eis, v) && Rearranged(eis, v, fs, extra) && k < |fs|
    ensures Stranger(eis, fs[k]) || fs[k] in Frames(eis, v)
    ensures !Stranger(eis, fs[k]) ==>
      exists d :: 0 <= d < |eis| && IsData(eis[d].kind) && Present(eis, v, d) && fs[k] == FrameAt(eis, v, d)
  {
    assert fs[k] in multiset(fs);
    if fs[k] in extra {
      var j :| 0 <= j < |extra| && extra[j] == fs[k];
    } else {
      var j :| 0 <= j < |Frames(eis, v)| && Frames(eis, v)[j] == fs[k];
      FramesMember(eis, v, 0, j);
    }
  }

  lemma {:induction false} RearrangedOnce(eis: seq<ElemInfo>, v: seq<Value>, fs: seq<Frame>, extra: seq<Frame>,
                                          j: nat, k: nat)
    requires TableOk(eis) && Shaped(eis, v) && Rearranged(eis, v, fs, extra) && j < k < |fs| && Known(eis, fs[j].tlvType)
    ensures fs[j].tlvType != fs[k].tlvType
  {
    hide FramesFrom; hide TableOk; hide Present; hide FrameAt; hide ElemBytes;
    if fs[j].tlvType == fs[k].tlvType {
      assert fs[j] !in extra;
      RearrangedMember(eis, v, fs, extra, j);
      RearrangedMember(eis, v, fs, extra, k);
      var all := Frames(eis, v);
      var a :| 0 <= a < |all| && all[a] == fs[j];
      var b :| 0 <= b < |all| && all[b] == fs[k];
      if a < b { FramesDistinct(eis, v, 0, a, b); }
      if b < a { FramesDistinct(eis, v, 0, b, a); }
      CountedTwice(fs, j, k);
      forall x, y | 0 <= x < y < |all| ensures all[x] != all[y] {
        FramesDistinct(eis, v, 0, x, y);
      }
      CountedOnce(all, fs[j]);
    }
  }

  lemma {:induction false} RearrangedAcceptable(eis: seq<ElemInfo>, v: seq<Value>, fs: seq<Frame>, extra: seq<Frame>)
    requires TableOk(eis) && Shaped(eis, v) && Rearranged(eis, v, fs, extra)
    ensures AllAcceptable(eis, v, {}, fs)
  {
    forall k | 0 <= k < |fs| ensures Acceptable(eis, v, fs[k]) {
      RearrangedMember(eis, v, fs, extra, k);
    }
    forall j, k | 0 <= j < k < |fs| && Known(eis, fs[j].tlvType) ensures fs[j].tlvType != fs[k].tlvType {
      RearrangedOnce(eis, v, fs, extra, j, k);
    }
  }

  /** Exactly the groups that were sent have arrived. */
  lemma {:induction false} TypesArrived(eis: seq<ElemInfo>, v: seq<Value>, fs: seq<Frame>, extra: seq<Frame>, i: nat)
    requires TableOk(eis) && Shaped(eis, v) && Rearranged(eis, v, fs, extra) && i < |eis|
    ensures eis[i].tlvType in TypesOf(fs) <==> Present(eis, v, i)
  {
    GroupDataOk(eis, i);
    var d := GroupData(eis, i);
    PresentGroup(eis, v, d, i);
    if Present(eis, v, i) {
      FramesHas(eis, v, 0, d);
      assert FrameAt(eis, v, d) in multiset(fs);
    }
    if eis[i].tlvType in TypesOf(fs) {
      var f :| f in fs && f.tlvType == eis[i].tlvType;
      var k :| 0 <= k < |fs| && fs[k] == f;
      RearrangedMember(eis, v, fs, extra, k);
      var d' :| 0 <= d' < |eis| && IsData(eis[d'].kind) && Present(eis, v, d') && f == FrameAt(eis, v, d');
      GroupTypes(eis, d', i);
      PresentGroup(eis, v, d', i);
    }
  }

  /** qmi_decode of a whole message. */
  ghost function Decode(eis: seq<ElemInfo>, init: seq<Value>, buf: seq<byte>): (r: Result<(seq<Value>, nat)>)
    requires Shaped(eis, init)
  {
    DecodeList(eis, init, buf, 0, |buf|, 1, 0, 0, 0)
  }

  lemma {:induction false} DeliveredAll(eis: seq<ElemInfo>, v: seq<Value>, init: seq<Value>, fs: seq<Frame>,
                                        extra: seq<Frame>)
    requires TableOk(eis) && Shaped(eis, v) && Shaped(eis, init) && Rearranged(eis, v, fs, extra)
    ensures Received(eis, init, v, {} + TypesOf(fs)) == Delivered(eis, init, v)
    ensures Received(eis, init, v, {}) == init
  {
    hide OverlayAt; hide TypesOf; hide Present; hide Rearranged; hide ElemOk; hide GroupOk;
    assert {} + TypesOf(fs) == TypesOf(fs);
    forall i | 0 <= i < |eis|
      ensures Received(eis, init, v, TypesOf(fs))[i] == Delivered(eis, init, v)[i]
    {
      TypesArrived(eis, v, fs, extra, i);
    }
  }

  lemma {:induction false} RunEnds(eis: seq<ElemInfo>, init: seq<Value>, v: seq<Value>, seen: set<byte>,
                                   buf: seq<byte>, dataLen: nat)
    requires Shaped(eis, init) && Shaped(eis, v)
    ensures Run(eis, init, v, seen, buf, dataLen, |buf|) == Ok((Received(eis, init, v, seen), |buf|))
    ensures Received(eis, init, v, {}) == init ==> Run(eis, init, v, {}, buf, 0, 0) == Decode(eis, init, buf)
  {
    hide OverlayAt; hide DecodeElem;
  }

  /** The frames of a message, in any order and with any unknown optional frames among them,
      decode to what was sent and are consumed to the last byte. The one exception: they are
      refused exactly when an element count left over from one array does not fit into the
      length read next. */
  lemma {:induction false} AnyOrder(eis: seq<ElemInfo>, v: seq<Value>, init: seq<Value>, fs: seq<Frame>,
                                    extra: seq<Frame>)
    requires Sendable(eis, v, 1) && Shaped(eis, init) && Rearranged(eis, v, fs, extra)
    ensures Decode(eis, init, Flat(fs))
         == if CountsFit(eis, v, fs, 0) then Ok((Delivered(eis, init, v), |Flat(fs)|)) else Err(EINVAL)
  {
    hide Received; hide Delivered; hide Run; hide Decode; hide Rearranged; hide AllAcceptable; hide CountsFit; hide Flat;
    hide CountAfterAll; hide TypesOf; hide ElemOk; hide GroupOk;
    RearrangedAcceptable(eis, v, fs, extra);
    FramesPass(eis, init, v, {}, fs, Flat(fs), 0, 0);
    DeliveredAll(eis, v, init, fs, extra);
    RunEnds(eis, init, v, {} + TypesOf(fs), Flat(fs), CountAfterAll(eis, v, fs, 0));
  }

  /** A table in which no array outgrows any length is never caught by that exception. */
  lemma {:induction false} SafeTable(eis: seq<ElemInfo>, v: seq<Value>, seen: set<byte>, fs: seq<Frame>, dataLen: nat)
    requires Sendable(eis, v, 1) && Shaped(eis, v) && LenSafe(eis) && AllAcceptable(eis, v, seen, fs) && Fresh(eis, dataLen)
    ensures CountsFit(eis, v, fs, dataLen)
    decreases |fs|
  {
    hide Sendable; hide LenSafe; hide Fresh; hide Shaped; hide CountAfter; hide FrameFits; hide Acceptable; hide Known;
    if fs != [] {
      var f := fs[0];
      assert Acceptable(eis, v, f);
      SafeFrame(eis, v, f, dataLen);
      assert fs == [f] + fs[1..];
      SafeTable(eis, v, seen, fs[1..], CountAfter(eis, v, f, dataLen));
    }
  }

  lemma {:induction false} SafeFrame(eis: seq<ElemInfo>, v: seq<Value>, f: Frame, dataLen: nat)
    requires Sendable(eis, v, 1) && Shaped(eis, v) && LenSafe(eis) && Acceptable(eis, v, f) && Fresh(eis, dataLen)
    ensures FrameFits(eis, f, dataLen) && Fresh(eis, CountAfter(eis, v, f, dataLen))
  {
    hide ElemOk; hide ValidElem; hide GroupOk;
    if Known(eis, f.tlvType) {
      var d :| 0 <= d < |eis| && IsData(eis[d].kind) && Present(eis, v, d) && f == FrameAt(eis, v, d);
      DataOfTypeIs(eis, d);
      UsedFits(eis, v, d);
      SlotsFresh(eis, d, CountAfter(eis, v, f, dataLen));
    }
  }

  lemma {:induction false} UsedFits(eis: seq<ElemInfo>, v: seq<Value>, d: nat)
    requires Sendable(eis, v, 1) && d < |eis| && IsData(eis[d].kind) && Present(eis, v, d)
    ensures Shaped(eis, v) && Used(eis, v, d) <= Slots(eis[d])
  {
    assert ElemOk(eis, d);
    if d > 0 && eis[d - 1].kind.DataLen? {
      PresentGroup(eis, v, d, d - 1);
      assert ValidElem(eis, v, d - 1) && ShapedElem(eis[d - 1], v[d - 1]);
    }
  }

  /** Decoding the encoding gives back what was sent; absent groups stay as they were. */
  lemma {:induction false} RoundTrip(eis: seq<ElemInfo>, v: seq<Value>, init: seq<Value>)
    requires Sendable(eis, v, 1) && Shaped(eis, init) && LenSafe(eis)
    requires forall k :: 0 <= k < |Frames(eis, v)| ==> |Frames(eis, v)[k].payload| < 65536
    ensures Decode(eis, init, Wire(eis, v, 1)) == Ok((Delivered(eis, init, v), |Wire(eis, v, 1)|))
  {
    var fs := Frames(eis, v);
    RearrangedAcceptable(eis, v, fs, []);
    SafeTable(eis, v, {}, fs, 0);
    AnyOrder(eis, v, init, fs, []);
  }

  /** A type below 0x10 that the table does not have is refused, wherever it stands. */
  lemma {:induction false} UnknownMandatoryRefused(eis: seq<ElemInfo>, v: seq<Value>, init: seq<Value>,
                                                   fs: seq<Frame>, f: Frame, rest: seq<byte>)
    requires Sendable(eis, v, 1) && Shaped(eis, init) && AllAcceptable(eis, v, {}, fs)
    requires !Known(eis, f.tlvType) && f.tlvType < OPTIONAL_TLV_TYPE_START && |f.payload| < 65536
    ensures Decode(eis, init, Flat(fs) + FrameBytes(f) + rest) == Err(EINVAL)
  {
    hide OverlayAt; hide DecodeElem; hide AllAcceptable; hide FrameBytes; hide CountsFit; hide CountAfterAll; hide ElemOk; hide GroupOk;
    var buf := Flat(fs) + FrameBytes(f) + rest;
    assert Received(eis, init, v, {}) == init;
    assert At(buf, 0, Flat(fs)) && At(buf, |Flat(fs)|, FrameBytes(f));
    FramesPass(eis, init, v, {}, fs, buf, 0, 0);
    UnknownStep(eis, Received(eis, init, v, {} + TypesOf(fs)), f, buf, 0, |buf|, CountAfterAll(eis, v, fs, 0), |Flat(fs)|);
  }
}
