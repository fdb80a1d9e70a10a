/** The decoder of qmi.c: its loops as methods, each proved equal to the recursive
    function beside it, on every table and every input. */
module QmiDecoder {
  import opened Bytes
  import opened Common
  import opened QmiTypes
  import opened QmiEncoder

  /** Where a decoding step leaves off: the struct, the next element, data_len_value and the
      bytes read. */
  datatype Progress = Progress(vals: seq<Value>, idx: nat, dataLen: nat, consumed: nat)

  /** Index of the first element of type t from i on, or the table's length. */
  ghost function FirstOfType(eis: seq<ElemInfo>, t: byte, i: nat): (k: nat)
    requires i <= |eis|
    ensures i <= k <= |eis|
    ensures k < |eis| ==> eis[k].tlvType == t
    ensures forall m :: i <= m < k ==> eis[m].tlvType != t
    decreases |eis| - i
  {
    if i == |eis| || eis[i].tlvType == t then i else FirstOfType(eis, t, i + 1)
  }

  /** count slots of the given size, cut from bs. */
  ghost function Cut(bs: seq<byte>, count: nat, size: nat): (items: seq<seq<byte>>)
    requires |bs| == Span(count, size)
    ensures |items| == count && forall j :: 0 <= j < count ==> |items[j]| == size
    decreases count
  {
    if count == 0 then []
    else
      var n := |bs| - size;
      Cut(bs[..n], count - 1, size) + [bs[n..]]
  }

  ghost function DecodeString(e: ElemInfo, buf: seq<byte>, pos: nat, tlvLen: nat, level: nat): (r: Result<(seq<byte>,
                              nat)>)
  {
    var w := if level == 1 then 0 else TextLenSize(e);
    if level != 1 && pos + w > |buf| then Overrun
    else
      var length := if level == 1 then tlvLen else FromLE(buf[pos..pos + w]);
      if length > e.elemLen then Err(EINVAL)
      else if length > tlvLen then Err(EFAULT)
      else if pos + w + Span(length, e.elemSize) > |buf| || pos + w + length > |buf| then Overrun
      else Ok((buf[pos + w..pos + w + length], w + Span(length, e.elemSize)))
  }

  ghost function DecodeData(eis: seq<ElemInfo>, vals: seq<Value>, buf: seq<byte>, pos: nat, i: nat,
                            dataLen: nat, tlvLen: nat, level: nat): (r: Result<Progress>)
    requires Shaped(eis, vals) && i < |eis|
    ensures r.Ok? ==> Shaped(eis, r.value.vals) && r.value.idx == i + 1
    decreases eis, 0
  {
    var e := eis[i];
    var count := SlotsUsed(e, dataLen);
    assert ShapedElem(e, vals[i]);
    if count > Slots(e) || !IsData(e.kind) then Err(EINVAL)
    else if e.kind.Struct? then
      match DecodeStructs(e, vals[i].structs, buf, pos, count, tlvLen, level + 1, 0, 0)
      case Ok((xs, n)) => Ok(Progress(vals[i := Structs(xs)], i + 1, count, n))
      case Err(x) => Err(x)
      case Overrun => Overrun
    else if e.kind.String? then
      match DecodeString(e, buf, pos, tlvLen, level)
      case Ok((text, n)) => Ok(Progress(vals[i := Text(text)], i + 1, count, n))
      case Err(x) => Err(x)
      case Overrun => Overrun
    else
      var n := Span(count, e.elemSize);
      if pos + n > |buf| then Overrun
      else
        var items := Cut(buf[pos..pos + n], count, e.elemSize) + vals[i].items[count..];
        Ok(Progress(vals[i := Items(items)], i + 1, count, n))
  }

  /** The part of the loop behind the optional flag: an optional length, then data. */
  ghost function DecodeLenData(eis: seq<ElemInfo>, vals: seq<Value>, buf: seq<byte>, pos: nat, i: nat,
                               dataLen: nat, tlvLen: nat, level: nat): (r: Result<Progress>)
    requires Shaped(eis, vals) && i <= |eis|
    ensures r.Ok? ==> Shaped(eis, r.value.vals) && i < r.value.idx <= |eis|
    decreases eis, 1
  {
    if i == |eis| then Err(EINVAL)
    else if eis[i].kind.DataLen? then
      var w := LenSize(eis[i]);
      if pos + w > |buf| then Overrun
      else
        var n := SetLow(dataLen, FromLE(buf[pos..pos + w]), w);
        if i + 1 == |eis| then Err(EINVAL)
        else
          match DecodeData(eis, vals[i := Count(n)], buf, pos + w, i + 1, n, Sub32(tlvLen, w), level)
          case Ok(p) => Ok(p.(consumed := w + p.consumed))
          case Err(x) => Err(x)
          case Overrun => Overrun
    else DecodeData(eis, vals, buf, pos, i, dataLen, tlvLen, level)
  }

  /** One turn of the decoder's loop from element idx: an optional flag, an optional length, data. */
  ghost function DecodeElem(eis: seq<ElemInfo>, vals: seq<Value>, buf: seq<byte>, pos: nat, idx: nat,
                            dataLen: nat, tlvLen: nat, level: nat): (r: Result<Progress>)
    requires Shaped(eis, vals) && idx < |eis|
    ensures r.Ok? ==> Shaped(eis, r.value.vals) && idx < r.value.idx <= |eis|
    decreases eis, 2
  {
    if eis[idx].kind.OptFlag?
    then DecodeLenData(eis, vals[idx := Flag(1)], buf, pos, idx + 1, dataLen, tlvLen, level)
    else DecodeLenData(eis, vals, buf, pos, idx, dataLen, tlvLen, level)
  }

  ghost function DecodeStructs(e: ElemInfo, xs: seq<seq<Value>>, buf: seq<byte>, pos: nat, count: nat,
                               tlvLen: nat, level: nat, i: nat, decoded: nat): (r: Result<(seq<seq<Value>>, nat)>)
    requires i <= count <= |xs| && forall j :: 0 <= j < |xs| ==> Shaped(e.sub, xs[j])
    ensures r.Ok? ==> |r.value.0| == |xs| && forall j :: 0 <= j < |xs| ==> Shaped(e.sub, r.value.0[j])
    decreases e, count - i
  {
    if i < count && decoded < tlvLen then
      match DecodeList(e.sub, xs[i], buf, pos + decoded, tlvLen - decoded, level, 0, 0, 0)
      case Ok((x, n)) => DecodeStructs(e, xs[i := x], buf, pos, count, tlvLen, level, i + 1, decoded + n)
      case Err(x) => Err(x)
      case Overrun => Overrun
    else if (level <= 2 && decoded != tlvLen) || (level > 2 && (i < count || decoded > tlvLen)) then Err(EFAULT)
    else Ok((xs, decoded))
  }

  /** qmi_decode from a state of its loop: the bytes buf[pos..pos + inLen], of which the first
      done are behind. Returns the struct and the number of bytes decoded. */
  ghost function DecodeList(eis: seq<ElemInfo>, vals: seq<Value>, buf: seq<byte>, pos: nat, inLen: nat,
                            level: nat, idx: nat, dataLen: nat, done: nat): (r: Result<(seq<Value>, nat)>)
    requires Shaped(eis, vals) && idx <= |eis|
    ensures r.Ok? ==> Shaped(eis, r.value.0)
    decreases eis, 3, if level == 1 then inLen - done else |eis| - idx
  {
    if done >= inLen then Ok((vals, done))
    else if level == 1 then
      var p := pos + done;
      if p + TLV_HEADER > |buf| then Overrun
      else
        var tlvType, tlvLen := buf[p], FromLE(buf[p + 1..p + 3]);
        var k := FirstOfType(eis, tlvType, 0);
        if k == |eis| then
          if tlvType < OPTIONAL_TLV_TYPE_START then Err(EINVAL)
          else DecodeList(eis, vals, buf, pos, inLen, 1, 0, dataLen, done + TLV_HEADER + tlvLen)
        else
          match DecodeElem(eis, vals, buf, p + TLV_HEADER, k, dataLen, tlvLen, 1)
          case Ok(q) => DecodeList(eis, q.vals, buf, pos, inLen, 1, 0, q.dataLen, done + TLV_HEADER + q.consumed)
          case Err(x) => Err(x)
          case Overrun => Overrun
    else if idx == |eis| then Ok((vals, done))
    else
      match DecodeElem(eis, vals, buf, pos + done, idx, dataLen, inLen - done, level)
      case Ok(q) => DecodeList(eis, q.vals, buf, pos, inLen, level, q.idx, q.dataLen, done + q.consumed)
      case Err(x) => Err(x)
      case Overrun => Overrun
  }

  // ----- The decoder's loops -----

  method FindEi(eis: seq<ElemInfo>, tlvType: byte) returns (k: nat)
    ensures k == FirstOfType(eis, tlvType, 0)
  {
    k := 0;
    while k < |eis| && eis[k].tlvType != tlvType
      invariant k <= |eis|
      invariant FirstOfType(eis, tlvType, 0) == FirstOfType(eis, tlvType, k)
    {
      k := k + 1;
    }
  }

  lemma {:induction false} CutNext(buf: seq<byte>, pos: nat, p: nat, i: nat, size: nat)
    requires p == pos + Span(i, size) && p + size <= |buf|
    ensures Cut(buf[pos..p + size], i + 1, size) == Cut(buf[pos..p], i, size) + [buf[p..p + size]]
  {
    var bs := buf[pos..p + size];
    assert bs[..|bs| - size] == buf[pos..p];
    assert bs[|bs| - size..] == buf[p..p + size];
  }

  method DecodeBasicElem(buf: seq<byte>, pos: nat, count: nat, size: nat) returns (items: seq<seq<byte>>)
    requires pos + Span(count, size) <= |buf|
    ensures items == Cut(buf[pos..pos + Span(count, size)], count, size)
  {
    items := [];
    var p := pos;
    for i := 0 to count
      invariant p == pos + Span(i, size) <= |buf|
      invariant items == Cut(buf[pos..p], i, size)
    {
      SpanMonotone(i + 1, count, size);
      CutNext(buf, pos, p, i, size);
      items := items + [buf[p..p + size]];
      p := p + size;
    }
  }

  method DecodeStringElem(e: ElemInfo, buf: seq<byte>, pos: nat, tlvLen: nat, level: nat)
    returns (r: Result<(seq<byte>, nat)>)
    ensures r == DecodeString(e, buf, pos, tlvLen, level)
  {
    var length, decodedBytes := tlvLen, 0;
    if level != 1 {
      decodedBytes := TextLenSize(e);
      if pos + decodedBytes > |buf| {
        return Overrun;
      }
      length := FromLE(buf[pos..pos + decodedBytes]);
    }
    if length > e.elemLen {
      return Err(EINVAL);
    } else if length > tlvLen {
      return Err(EFAULT);
    }
    var start := pos + decodedBytes;
    if start + Span(length, e.elemSize) > |buf| || start + length > |buf| {
      return Overrun;
    }
    return Ok((buf[start..start + length], decodedBytes + Span(length, e.elemSize)));
  }

  method DecodeStructElem(e: ElemInfo, xs0: seq<seq<Value>>, buf: seq<byte>, pos: nat, count: nat, tlvLen: nat,
                          level: nat)
    returns (r: Result<(seq<seq<Value>>, nat)>)
    requires count <= |xs0| && forall j :: 0 <= j < |xs0| ==> Shaped(e.sub, xs0[j])
    ensures r == DecodeStructs(e, xs0, buf, pos, count, tlvLen, level, 0, 0)
    decreases e, 0
  {
    var xs, i: nat, decodedBytes: nat := xs0, 0, 0;
    while i < count && decodedBytes < tlvLen
      invariant i <= count <= |xs| && forall j :: 0 <= j < |xs| ==> Shaped(e.sub, xs[j])
      invariant DecodeStructs(e, xs0, buf, pos, count, tlvLen, level, 0, 0)
             == DecodeStructs(e, xs, buf, pos, count, tlvLen, level, i, decodedBytes)
      decreases count - i
    {
      var rc := QmiDecode(e.sub, xs[i], buf, pos + decodedBytes, tlvLen - decodedBytes, level);
      match rc {
        case Ok((x, n)) =>
          xs := xs[i := x];
          decodedBytes := decodedBytes + n;
          i := i + 1;
        case Err(errno) => return Err(errno);
        case Overrun => return Overrun;
      }
    }
    if (level <= 2 && decodedBytes != tlvLen) || (level > 2 && (i < count || decodedBytes > tlvLen)) {
      return Err(EFAULT);
    }
    return Ok((xs, decodedBytes));
  }

  /** The data cases of the decoder's switch. */
  method DecodeDataElem(eis: seq<ElemInfo>, vals: seq<Value>, buf: seq<byte>, pos: nat, i: nat,
                        dataLen0: nat, tlvLen: nat, level: nat) returns (r: Result<Progress>)
    requires Shaped(eis, vals) && i < |eis|
    ensures r == DecodeData(eis, vals, buf, pos, i, dataLen0, tlvLen, level)
    decreases eis, 0
  {
    var e := eis[i];
    assert ShapedElem(e, vals[i]);
    var dataLen := dataLen0;
    if e.arrayType.NoArray? {
      dataLen := 1;
    } else if e.arrayType.StaticArray? {
      dataLen := e.elemLen;
    } else if dataLen > e.elemLen {
      return Err(EINVAL);
    }
    if e.kind.Struct? {
      var rc := DecodeStructElem(e, vals[i].structs, buf, pos, dataLen, tlvLen, level + 1);
      match rc {
        case Ok((xs, n)) => r := Ok(Progress(vals[i := Structs(xs)], i + 1, dataLen, n));
        case Err(errno) => r := Err(errno);
        case Overrun => r := Overrun;
      }
    } else if e.kind.String? {
      var rc := DecodeStringElem(e, buf, pos, tlvLen, level);
      match rc {
        case Ok((text, n)) => r := Ok(Progress(vals[i := Text(text)], i + 1, dataLen, n));
        case Err(errno) => r := Err(errno);
        case Overrun => r := Overrun;
      }
    } else if IsData(e.kind) {
      if pos + Span(dataLen, e.elemSize) > |buf| {
        return Overrun;
      }
      var items := DecodeBasicElem(buf, pos, dataLen, e.elemSize);
      r := Ok(Progress(vals[i := Items(items + vals[i].items[dataLen..])], i + 1, dataLen, Span(dataLen, e.elemSize)));
    } else {
      r := Err(EINVAL);
    }
  }

  /** One turn of the decoder's loop, from element idx. */
  method DecodeNext(eis: seq<ElemInfo>, vals0: seq<Value>, buf: seq<byte>, pos0: nat, idx: nat,
                    dataLen0: nat, tlvLen0: nat, level: nat) returns (r: Result<Progress>)
    requires Shaped(eis, vals0) && idx < |eis|
    ensures r == DecodeElem(eis, vals0, buf, pos0, idx, dataLen0, tlvLen0, level)
    decreases eis, 1
  {
    hide DecodeData; hide FromLE; hide SetLow; hide Sub32;
    var vals, i: nat, pos: nat, dataLen: nat, tlvLen: nat, consumed: nat := vals0, idx, pos0, dataLen0, tlvLen0, 0;
    if eis[i].kind.OptFlag? {
      vals := vals[i := Flag(1)];
      i := i + 1;
    }
    if i < |eis| && eis[i].kind.DataLen? {
      var dataLenSize := LenSize(eis[i]);
      if pos + dataLenSize > |buf| {
        return Overrun;
      }
      dataLen := SetLow(dataLen, FromLE(buf[pos..pos + dataLenSize]), dataLenSize);
      vals := vals[i := Count(dataLen)];
      i := i + 1;
      tlvLen := Sub32(tlvLen, dataLenSize);
      pos := pos + dataLenSize;
      consumed := dataLenSize;
    }
    if i == |eis| {
      return Err(EINVAL);
    }
    var rc := DecodeDataElem(eis, vals, buf, pos, i, dataLen, tlvLen, level);
    match rc {
      case Ok(p) => r := Ok(p.(consumed := consumed + p.consumed));
      case Err(errno) => r := Err(errno);
      case Overrun => r := Overrun;
    }
  }

  /** qmi_decode of the bytes buf[pos..pos + inLen] into the struct vals0. */
  method QmiDecode(eis: seq<ElemInfo>, vals0: seq<Value>, buf: seq<byte>, pos: nat, inLen: nat, level: nat)
    returns (r: Result<(seq<Value>, nat)>)
    requires Shaped(eis, vals0)
    ensures r == DecodeList(eis, vals0, buf, pos, inLen, level, 0, 0, 0)
    decreases eis, 2
  {
    hide DecodeElem; hide Shaped; hide FromLE; hide FirstOfType;
    var vals, idx: nat, dataLen: nat, decodedBytes: nat := vals0, 0, 0, 0;
    while decodedBytes < inLen
      invariant Shaped(eis, vals) && idx <= |eis| && (level == 1 ==> idx == 0)
      invariant DecodeList(eis, vals0, buf, pos, inLen, level, 0, 0, 0)
             == DecodeList(eis, vals, buf, pos, inLen, level, idx, dataLen, decodedBytes)
      decreases if level == 1 then inLen - decodedBytes else |eis| - idx
    {
      if level != 1 && idx == |eis| {
        return Ok((vals, decodedBytes));
      }
      var k, tlvLen: nat, start: nat := idx, inLen - decodedBytes, pos + decodedBytes;
      if level == 1 {
        if start + TLV_HEADER > |buf| {
          return Overrun;
        }
        var tlvType := buf[start];
        tlvLen := FromLE(buf[start + 1..start + 3]);
        decodedBytes := decodedBytes + TLV_HEADER;
        start := start + TLV_HEADER;
        k := FindEi(eis, tlvType);
        if k == |eis| {
          if tlvType < OPTIONAL_TLV_TYPE_START {
            return Err(EINVAL);
          }
          decodedBytes := decodedBytes + tlvLen;
          continue;
        }
      }
      var rc := DecodeNext(eis, vals, buf, start, k, dataLen, tlvLen, level);
      match rc {
        case Ok(p) =>
          vals, dataLen := p.vals, p.dataLen;
          idx := if level == 1 then 0 else p.idx;
          decodedBytes := decodedBytes + p.consumed;
        case Err(errno) => return Err(errno);
        case Overrun => return Overrun;
      }
    }
    return Ok((vals, decodedBytes));
  }
}
