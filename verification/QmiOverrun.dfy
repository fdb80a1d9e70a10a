/** What the outcome Overrun of the decoder means: the answer would depend on bytes behind the input. */
module QmiOverrun {
  import opened Bytes
  import opened Common
  import opened QmiTypes
  import opened QmiEncoder
  import opened QmiDecoder

  lemma {:induction false} SameSlice(buf: seq<byte>, more: seq<byte>, a: nat, b: nat)
    requires a <= b <= |buf|
    ensures (buf + more)[a..b] == buf[a..b]
  {
  }

  // ----- An answer other than Overrun does not depend on what follows -----

  lemma {:induction false} StringStable(e: ElemInfo, buf: seq<byte>, more: seq<byte>, pos: nat, tlvLen: nat, level: nat)
    requires !DecodeString(e, buf, pos, tlvLen, level).Overrun?
    ensures DecodeString(e, buf + more, pos, tlvLen, level) == DecodeString(e, buf, pos, tlvLen, level)
  {
    var w := if level == 1 then 0 else TextLenSize(e);
    if level != 1 {
      SameSlice(buf, more, pos, pos + w);
    }
    var length := if level == 1 then tlvLen else FromLE(buf[pos..pos + w]);
    if pos + w + length <= |buf| {
      SameSlice(buf, more, pos + w, pos + w + length);
    }
  }

  lemma {:induction false} DataStable(eis: seq<ElemInfo>, vals: seq<Value>, buf: seq<byte>, more: seq<byte>, pos: nat,
                                      i: nat, dataLen: nat, tlvLen: nat, level: nat)
    requires Shaped(eis, vals) && i < |eis| && !DecodeData(eis, vals, buf, pos, i, dataLen, tlvLen, level).Overrun?
    ensures DecodeData(eis, vals, buf + more, pos, i, dataLen, tlvLen, level)
         == DecodeData(eis, vals, buf, pos, i, dataLen, tlvLen, level)
    decreases eis, 0
  {
    hide DecodeStructs; hide DecodeString; hide Cut;
    var e := eis[i];
    var count := SlotsUsed(e, dataLen);
    assert ShapedElem(e, vals[i]);
    if count <= Slots(e) && IsData(e.kind) {
      if e.kind.Struct? {
        StructsStable(e, vals[i].structs, buf, more, pos, count, tlvLen, level + 1, 0, 0);
      } else if e.kind.String? {
        StringStable(e, buf, more, pos, tlvLen, level);
      } else {
        SameSlice(buf, more, pos, pos + Span(count, e.elemSize));
      }
    }
  }

  lemma {:induction false} LenDataStable(eis: seq<ElemInfo>, vals: seq<Value>, buf: seq<byte>, more: seq<byte>,
                                         pos: nat, i: nat, dataLen: nat, tlvLen: nat, level: nat)
    requires Shaped(eis, vals) && i <= |eis| && !DecodeLenData(eis, vals, buf, pos, i, dataLen, tlvLen, level).Overrun?
    ensures DecodeLenData(eis, vals, buf + more, pos, i, dataLen, tlvLen, level)
         == DecodeLenData(eis, vals, buf, pos, i, dataLen, tlvLen, level)
    decreases eis, 1
  {
    hide DecodeData;
    if i < |eis| {
      if eis[i].kind.DataLen? {
        var w := LenSize(eis[i]);
        SameSlice(buf, more, pos, pos + w);
        var n := SetLow(dataLen, FromLE(buf[pos..pos + w]), w);
        if i + 1 < |eis| {
          DataStable(eis, vals[i := Count(n)], buf, more, pos + w, i + 1, n, Sub32(tlvLen, w), level);
        }
      } else {
        DataStable(eis, vals, buf, more, pos, i, dataLen, tlvLen, level);
      }
    }
  }

  lemma {:induction false} ElemStable(eis: seq<ElemInfo>, vals: seq<Value>, buf: seq<byte>, more: seq<byte>, pos: nat,
                                      idx: nat, dataLen: nat, tlvLen: nat, level: nat)
    requires Shaped(eis, vals) && idx < |eis| && !DecodeElem(eis, vals, buf, pos, idx, dataLen, tlvLen, level).Overrun?
    ensures DecodeElem(eis, vals, buf + more, pos, idx, dataLen, tlvLen, level)
         == DecodeElem(eis, vals, buf, pos, idx, dataLen, tlvLen, level)
    decreases eis, 2
  {
    hide DecodeLenData;
    if eis[idx].kind.OptFlag? {
      LenDataStable(eis, vals[idx := Flag(1)], buf, more, pos, idx + 1, dataLen, tlvLen, level);
    } else {
      LenDataStable(eis, vals, buf, more, pos, idx, dataLen, tlvLen, level);
    }
  }

  lemma {:induction false} StructsStable(e: ElemInfo, xs: seq<seq<Value>>, buf: seq<byte>, more: seq<byte>, pos: nat,
                                         count: nat, tlvLen: nat, level: nat, i: nat, decoded: nat)
    requires i <= count <= |xs| && forall j :: 0 <= j < |xs| ==> Shaped(e.sub, xs[j])
    requires !DecodeStructs(e, xs, buf, pos, count, tlvLen, level, i, decoded).Overrun?
    ensures DecodeStructs(e, xs, buf + more, pos, count, tlvLen, level, i, decoded)
         == DecodeStructs(e, xs, buf, pos, count, tlvLen, level, i, decoded)
    decreases e, count - i
  {
    hide DecodeList;
    if i < count && decoded < tlvLen {
      ListStable(e.sub, xs[i], buf, more, pos + decoded, tlvLen - decoded, level, 0, 0, 0);
      match DecodeList(e.sub, xs[i], buf, pos + decoded, tlvLen - decoded, level, 0, 0, 0) {
        case Ok((x, n)) => StructsStable(e, xs[i := x], buf, more, pos, count, tlvLen, level, i + 1, decoded + n);
        case _ =>
      }
    }
  }

  /** What follows an element that was decoded. */
  ghost function After(eis: seq<ElemInfo>, buf: seq<byte>, pos: nat, inLen: nat, level: nat, done: nat,
                       r: Result<Progress>): Result<(seq<Value>, nat)>
    requires r.Ok? ==> Shaped(eis, r.value.vals) && r.value.idx <= |eis|
  {
    match r
    case Ok(q) => DecodeList(eis, q.vals, buf, pos, inLen, level, if level == 1 then 0 else q.idx, q.dataLen, done + q.consumed)
    case Err(x) => Err(x)
    case Overrun => Overrun
  }

  /** One turn of the decoder's loop over frames. */
  lemma {:induction false} FrameStep(eis: seq<ElemInfo>, vals: seq<Value>, buf: seq<byte>, pos: nat, inLen: nat,
                                     idx: nat, dataLen: nat, done: nat)
    requires Shaped(eis, vals) && idx <= |eis| && done < inLen
    ensures var p, r := pos + done, DecodeList(eis, vals, buf, pos, inLen, 1, idx, dataLen, done);
      if p + TLV_HEADER > |buf| then r == Overrun
      else
        var tlvType, tlvLen := buf[p], FromLE(buf[p + 1..p + 3]);
        var k := FirstOfType(eis, tlvType, 0);
        if k < |eis| then
          r == After(eis, buf, pos, inLen, 1, done + TLV_HEADER,
                     DecodeElem(eis, vals, buf, p + TLV_HEADER, k, dataLen, tlvLen, 1))
        else if tlvType < OPTIONAL_TLV_TYPE_START then r == Err(EINVAL)
        else r == DecodeList(eis, vals, buf, pos, inLen, 1, 0, dataLen, done + TLV_HEADER + tlvLen)
  {
    hide DecodeElem; hide FirstOfType;
  }

  /** One turn of the decoder's loop over the elements of a nested struct. */
  lemma {:induction false} NestedStep(eis: seq<ElemInfo>, vals: seq<Value>, buf: seq<byte>, pos: nat, inLen: nat,
                                      level: nat, idx: nat, dataLen: nat, done: nat)
    requires Shaped(eis, vals) && idx < |eis| && done < inLen && level != 1
    ensures DecodeList(eis, vals, buf, pos, inLen, level, idx, dataLen, done)
         == After(eis, buf, pos, inLen, level, done, DecodeElem(eis, vals, buf, pos + done, idx, dataLen, inLen - done, level))
  {
    hide DecodeElem; hide FirstOfType;
  }

  lemma {:induction false} ListEnds(eis: seq<ElemInfo>, vals: seq<Value>, buf: seq<byte>, pos: nat, inLen: nat,
                                    level: nat, idx: nat, dataLen: nat, done: nat)
    requires Shaped(eis, vals) && idx <= |eis| && (done >= inLen || (level != 1 && idx == |eis|))
    ensures DecodeList(eis, vals, buf, pos, inLen, level, idx, dataLen, done) == Ok((vals, done))
  {
    hide DecodeElem;
  }

  /** Whatever bytes follow, an answer other than Overrun stays the same. */
  lemma {:induction false} ListStable(eis: seq<ElemInfo>, vals: seq<Value>, buf: seq<byte>, more: seq<byte>, pos: nat,
                                      inLen: nat, level: nat, idx: nat, dataLen: nat, done: nat)
    requires Shaped(eis, vals) && idx <= |eis|
    requires !DecodeList(eis, vals, buf, pos, inLen, level, idx, dataLen, done).Overrun?
    ensures DecodeList(eis, vals, buf + more, pos, inLen, level, idx, dataLen, done)
         == DecodeList(eis, vals, buf, pos, inLen, level, idx, dataLen, done)
    decreases eis, 3, if level == 1 then inLen - done else |eis| - idx
  {
    hide DecodeElem; hide FirstOfType; hide DecodeList;
    if done >= inLen || (level != 1 && idx == |eis|) {
      ListEnds(eis, vals, buf, pos, inLen, level, idx, dataLen, done);
      ListEnds(eis, vals, buf + more, pos, inLen, level, idx, dataLen, done);
    } else if level == 1 {
      var p := pos + done;
      FrameStep(eis, vals, buf, pos, inLen, idx, dataLen, done);
      FrameStep(eis, vals, buf + more, pos, inLen, idx, dataLen, done);
      SameSlice(buf, more, p + 1, p + 3);
      var tlvType, tlvLen := buf[p], FromLE(buf[p + 1..p + 3]);
      var k := FirstOfType(eis, tlvType, 0);
      if k < |eis| {
        ElemStable(eis, vals, buf, more, p + TLV_HEADER, k, dataLen, tlvLen, 1);
        match DecodeElem(eis, vals, buf, p + TLV_HEADER, k, dataLen, tlvLen, 1) {
          case Ok(q) => ListStable(eis, q.vals, buf, more, pos, inLen, 1, 0, q.dataLen, done + TLV_HEADER + q.consumed);
          case _ =>
        }
      } else if tlvType >= OPTIONAL_TLV_TYPE_START {
        ListStable(eis, vals, buf, more, pos, inLen, 1, 0, dataLen, done + TLV_HEADER + tlvLen);
      }
    } else {
      NestedStep(eis, vals, buf, pos, inLen, level, idx, dataLen, done);
      NestedStep(eis, vals, buf + more, pos, inLen, level, idx, dataLen, done);
      ElemStable(eis, vals, buf, more, pos + done, idx, dataLen, inLen - done, level);
      match DecodeElem(eis, vals, buf, pos + done, idx, dataLen, inLen - done, level) {
        case Ok(q) => ListStable(eis, q.vals, buf, more, pos, inLen, level, q.idx, q.dataLen, done + q.consumed);
        case _ =>
      }
    }
  }

  // ----- With enough bytes behind it every input gets an answer -----

  function Zeros(n: nat): (z: seq<byte>)
    ensures |z| == n
  {
    seq(n, _ => 0)
  }

  lemma {:induction false} StringEnough(e: ElemInfo, buf: seq<byte>, pos: nat, tlvLen: nat, level: nat)
    returns (more: seq<byte>)
    ensures !DecodeString(e, buf + more, pos, tlvLen, level).Overrun?
  {
    var w := if level == 1 then 0 else TextLenSize(e);
    var x := buf + Zeros(pos + w);
    var length := if level == 1 then tlvLen else FromLE(x[pos..pos + w]);
    more := Zeros(pos + w) + Zeros(pos + w + Span(length, e.elemSize) + length);
    var y := x + Zeros(pos + w + Span(length, e.elemSize) + length);
    assert buf + more == y;
    SameSlice(x, Zeros(pos + w + Span(length, e.elemSize) + length), pos, pos + w);
  }

  lemma {:induction false} DataEnough(eis: seq<ElemInfo>, vals: seq<Value>, buf: seq<byte>, pos: nat, i: nat,
                                      dataLen: nat, tlvLen: nat, level: nat)
    returns (more: seq<byte>)
    requires Shaped(eis, vals) && i < |eis|
    ensures !DecodeData(eis, vals, buf + more, pos, i, dataLen, tlvLen, level).Overrun?
    decreases eis, 0
  {
    hide DecodeStructs; hide DecodeString; hide Cut;
    var e := eis[i];
    var count := SlotsUsed(e, dataLen);
    assert ShapedElem(e, vals[i]);
    more := [];
    if count <= Slots(e) && IsData(e.kind) {
      if e.kind.Struct? {
        more := StructsEnough(e, vals[i].structs, buf, pos, count, tlvLen, level + 1, 0, 0);
      } else if e.kind.String? {
        more := StringEnough(e, buf, pos, tlvLen, level);
      } else {
        more := Zeros(pos + Span(count, e.elemSize));
      }
    }
  }

  lemma {:induction false} LenDataEnough(eis: seq<ElemInfo>, vals: seq<Value>, buf: seq<byte>, pos: nat, i: nat,
                                         dataLen: nat, tlvLen: nat, level: nat)
    returns (more: seq<byte>)
    requires Shaped(eis, vals) && i <= |eis|
    ensures !DecodeLenData(eis, vals, buf + more, pos, i, dataLen, tlvLen, level).Overrun?
    decreases eis, 1
  {
    hide DecodeData;
    more := [];
    if i < |eis| {
      if eis[i].kind.DataLen? {
        var w := LenSize(eis[i]);
        var x := buf + Zeros(pos + w);
        more := Zeros(pos + w);
        var n := SetLow(dataLen, FromLE(x[pos..pos + w]), w);
        if i + 1 < |eis| {
          var y := DataEnough(eis, vals[i := Count(n)], x, pos + w, i + 1, n, Sub32(tlvLen, w), level);
          SameSlice(x, y, pos, pos + w);
          assert buf + (Zeros(pos + w) + y) == x + y;
          more := Zeros(pos + w) + y;
        }
      } else {
        more := DataEnough(eis, vals, buf, pos, i, dataLen, tlvLen, level);
      }
    }
  }

  lemma {:induction false} ElemEnough(eis: seq<ElemInfo>, vals: seq<Value>, buf: seq<byte>, pos: nat, idx: nat,
                                      dataLen: nat, tlvLen: nat, level: nat)
    returns (more: seq<byte>)
    requires Shaped(eis, vals) && idx < |eis|
    ensures !DecodeElem(eis, vals, buf + more, pos, idx, dataLen, tlvLen, level).Overrun?
    decreases eis, 2
  {
    hide DecodeLenData;
    if eis[idx].kind.OptFlag? {
      more := LenDataEnough(eis, vals[idx := Flag(1)], buf, pos, idx + 1, dataLen, tlvLen, level);
    } else {
      more := LenDataEnough(eis, vals, buf, pos, idx, dataLen, tlvLen, level);
    }
  }

  lemma {:induction false} StructsEnough(e: ElemInfo, xs: seq<seq<Value>>, buf: seq<byte>, pos: nat, count: nat,
                                         tlvLen: nat, level: nat, i: nat, decoded: nat)
    returns (more: seq<byte>)
    requires i <= count <= |xs| && forall j :: 0 <= j < |xs| ==> Shaped(e.sub, xs[j])
    ensures !DecodeStructs(e, xs, buf + more, pos, count, tlvLen, level, i, decoded).Overrun?
    decreases e, count - i
  {
    hide DecodeList;
    more := [];
    if i < count && decoded < tlvLen {
      more := ListEnough(e.sub, xs[i], buf, pos + decoded, tlvLen - decoded, level, 0, 0, 0);
      var x := buf + more;
      match DecodeList(e.sub, xs[i], x, pos + decoded, tlvLen - decoded, level, 0, 0, 0) {
        case Ok((v, n)) =>
          var y := StructsEnough(e, xs[i := v], x, pos, count, tlvLen, level, i + 1, decoded + n);
          ListStable(e.sub, xs[i], x, y, pos + decoded, tlvLen - decoded, level, 0, 0, 0);
          assert buf + (more + y) == x + y;
          more := more + y;
        case _ =>
      }
    }
  }

  lemma {:induction false} ListEnough(eis: seq<ElemInfo>, vals: seq<Value>, buf: seq<byte>, pos: nat, inLen: nat,
                                      level: nat, idx: nat, dataLen: nat, done: nat)
    returns (more: seq<byte>)
    requires Shaped(eis, vals) && idx <= |eis|
    ensures !DecodeList(eis, vals, buf + more, pos, inLen, level, idx, dataLen, done).Overrun?
    decreases eis, 3, if level == 1 then inLen - done else |eis| - idx
  {
    hide DecodeElem; hide FirstOfType; hide DecodeList;
    more := [];
    if done >= inLen || (level != 1 && idx == |eis|) {
      ListEnds(eis, vals, buf + more, pos, inLen, level, idx, dataLen, done);
    } else if level == 1 {
      var p := pos + done;
      more := Zeros(p + TLV_HEADER);
      var x := buf + more;
      var tlvType, tlvLen := x[p], FromLE(x[p + 1..p + 3]);
      var k := FirstOfType(eis, tlvType, 0);
      var y: seq<byte> := [];
      if k < |eis| {
        y := ElemEnough(eis, vals, x, p + TLV_HEADER, k, dataLen, tlvLen, 1);
        match DecodeElem(eis, vals, x + y, p + TLV_HEADER, k, dataLen, tlvLen, 1) {
          case Ok(q) =>
            var z := ListEnough(eis, q.vals, x + y, pos, inLen, 1, 0, q.dataLen, done + TLV_HEADER + q.consumed);
            ElemStable(eis, vals, x + y, z, p + TLV_HEADER, k, dataLen, tlvLen, 1);
            assert x + y + z == x + (y + z);
            y := y + z;
          case _ =>
        }
      } else if tlvType >= OPTIONAL_TLV_TYPE_START {
        y := ListEnough(eis, vals, x, pos, inLen, 1, 0, dataLen, done + TLV_HEADER + tlvLen);
      }
      SameSlice(x, y, p + 1, p + 3);
      FrameStep(eis, vals, x + y, pos, inLen, idx, dataLen, done);
      assert buf + (more + y) == x + y;
      more := more + y;
    } else {
      more := ElemEnough(eis, vals, buf, pos + done, idx, dataLen, inLen - done, level);
      var x := buf + more;
      var y: seq<byte> := [];
      match DecodeElem(eis, vals, x, pos + done, idx, dataLen, inLen - done, level) {
        case Ok(q) => y := ListEnough(eis, q.vals, x, pos, inLen, level, q.idx, q.dataLen, done + q.consumed);
        case _ =>
      }
      ElemStable(eis, vals, x, y, pos + done, idx, dataLen, inLen - done, level);
      NestedStep(eis, vals, x + y, pos, inLen, level, idx, dataLen, done);
      assert buf + (more + y) == x + y;
      more := more + y;
    }
  }

  /** The decoder reads past its input exactly if its answer depends on what is there. */
  lemma {:induction false} OverrunExact(eis: seq<ElemInfo>, init: seq<Value>, buf: seq<byte>)
    requires Shaped(eis, init)
    ensures DecodeList(eis, init, buf, 0, |buf|, 1, 0, 0, 0).Overrun? <==>
      exists more: seq<byte> ::
        DecodeList(eis, init, buf + more, 0, |buf|, 1, 0, 0, 0) != DecodeList(eis, init, buf, 0, |buf|, 1, 0, 0, 0)
  {
    hide DecodeList;
    var r := DecodeList(eis, init, buf, 0, |buf|, 1, 0, 0, 0);
    if r.Overrun? {
      var more := ListEnough(eis, init, buf, 0, |buf|, 1, 0, 0, 0);
      assert DecodeList(eis, init, buf + more, 0, |buf|, 1, 0, 0, 0) != r;
    } else {
      forall more: seq<byte> ensures DecodeList(eis, init, buf + more, 0, |buf|, 1, 0, 0, 0) == r {
        ListStable(eis, init, buf, more, 0, |buf|, 1, 0, 0, 0);
      }
    }
  }
}
