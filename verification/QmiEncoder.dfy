/** The encoder of qmi.c, with its reserved frame headers that are patched once the
    length is known, proved to produce exactly the wire format. */
module QmiEncoder {
  import opened Bytes
  import opened Common
  import opened QmiTypes
  import opened QmiWire
  import opened QmiRoom

  /** Skipping a group never runs past the terminator, whose tlv_type is 0. */
  ghost predicate SkipSafe(eis: seq<ElemInfo>, level: nat)
    decreases eis, 1
  {
    forall i :: 0 <= i < |eis| ==> SkipSafeAt(eis, i, level)
  }

  ghost predicate SkipSafeAt(eis: seq<ElemInfo>, i: nat, level: nat)
    requires i < |eis|
    decreases eis, 0
  {
    && (eis[i].kind.OptFlag? && level == 1 ==> eis[i].tlvType != 0)
    && (eis[i].kind.DataLen? ==> i + 1 < |eis| && (level == 1 ==> eis[i + 1].tlvType != 0))
    && (eis[i].kind.Struct? ==> SkipSafe(eis[i].sub, level + 1))
  }

  lemma {:induction false} NestedSkipSafe(eis: seq<ElemInfo>, level: nat)
    requires NestedOk(eis) && level > 1
    ensures SkipSafe(eis, level)
    decreases eis
  {
    forall i | 0 <= i < |eis|
      ensures SkipSafeAt(eis, i, level)
    {
      assert ElemOk(eis, i);
      if eis[i].kind.Struct? {
        NestedSkipSafe(eis[i].sub, level + 1);
      }
    }
  }

  lemma {:induction false} TableSkipSafe(eis: seq<ElemInfo>, level: nat)
    requires TableOk(eis) && level == 1
    ensures SkipSafe(eis, level)
  {
    forall i | 0 <= i < |eis|
      ensures SkipSafeAt(eis, i, level)
    {
      assert ElemOk(eis, i) && GroupOk(eis, i);
      if eis[i].kind.Struct? {
        NestedSkipSafe(eis[i].sub, level + 1);
      }
    }
  }

  /** First element after i that belongs to another group; at depth, the next element. */
  method SkipToNextElem(eis: seq<ElemInfo>, i: nat, level: nat) returns (k: nat)
    requires level >= 1 && i < |eis| && (level == 1 ==> eis[i].tlvType != 0)
    ensures i < k <= |eis|
    ensures level > 1 ==> k == i + 1
    ensures level == 1 ==> forall m :: i <= m < k ==> eis[m].tlvType == eis[i].tlvType
    ensures level == 1 && k < |eis| ==> eis[k].tlvType != eis[i].tlvType
  {
    k := i + 1;
    if level > 1 {
      return;
    }
    while k < |eis| && eis[k].tlvType == eis[i].tlvType
      invariant i < k <= |eis|
      invariant forall m :: i <= m < k ==> eis[m].tlvType == eis[i].tlvType
    {
      k := k + 1;
    }
  }

  lemma {:induction false} FlatItemsAppend(items: seq<seq<byte>>, k: nat)
    requires k < |items|
    ensures FlatItems(items[..k + 1]) == FlatItems(items[..k]) + items[k]
  {
    if k > 0 {
      FlatItemsAppend(items[1..], k - 1);
      assert items[..k + 1][1..] == items[1..][..k];
      assert items[..k][1..] == items[1..][..k - 1];
    }
  }

  lemma {:induction false} FlatItemsLength(items: seq<seq<byte>>, size: nat)
    requires forall j :: 0 <= j < |items| ==> |items[j]| == size
    ensures |FlatItems(items)| == Span(|items|, size)
  {
    if items != [] {
      FlatItemsLength(items[1..], size);
    }
  }

  lemma {:induction false} StructBytesAppend(e: ElemInfo, xs: seq<seq<Value>>, k: nat)
    requires k < |xs| && forall j :: 0 <= j < |xs| ==> Shaped(e.sub, xs[j])
    ensures StructBytes(e, xs[..k + 1]) == StructBytes(e, xs[..k]) + NestedFrom(e.sub, xs[k], 0)
  {
    if k == 0 {
      assert xs[..1][1..] == [];
      assert xs[..0] == [];
    } else {
      StructBytesAppend(e, xs[1..], k - 1);
      assert xs[..k + 1][1..] == xs[1..][..k];
      assert xs[..k][1..] == xs[1..][..k - 1];
      assert xs[1..][k - 1] == xs[k];
    }
  }

  method EncodeBasicElem(items: seq<seq<byte>>, count: nat) returns (bs: seq<byte>)
    requires count <= |items|
    ensures bs == FlatItems(items[..count])
  {
    bs := [];
    for i := 0 to count
      invariant bs == FlatItems(items[..i])
    {
      FlatItemsAppend(items, i);
      bs := bs + items[i];
    }
  }

  method EncodeStringElem(e: ElemInfo, text: seq<byte>, outLen: nat, level: nat)
    returns (r: Result<seq<byte>>)
    requires level >= 1
    ensures r == Err(EINVAL) || r == Ok(if level == 1 then text else LE(|text|, TextLenSize(e)) + text)
    ensures r.Ok? <==>
            |text| <= e.elemLen
            && |text| + (if level == 1 then TLV_HEADER else TextLenSize(e)) <= outLen
  {
    var lenSize := TextLenSize(e);
    if |text| > e.elemLen {
      return Err(EINVAL);
    }
    var out: seq<byte> := [];
    if level == 1 {
      if |text| + TLV_HEADER > outLen {
        return Err(EINVAL);
      }
    } else {
      if |text| + lenSize > outLen {
        return Err(EINVAL);
      }
      out := LE(|text|, lenSize);
    }
    assert level == 1 ==> out + text == text;
    return Ok(out + text);
  }

  lemma {:induction false} NeedStructsAppend(e: ElemInfo, xs: seq<seq<Value>>, k: nat)
    requires k < |xs| && forall j :: 0 <= j < |xs| ==> Shaped(e.sub, xs[j])
    ensures NeedStructs(e, xs[..k + 1])
         == Max(NeedStructs(e, xs[..k]), |StructBytes(e, xs[..k])| + NeedFrom(e.sub, xs[k], 0))
  {
    hide NeedFrom; hide NestedFrom;
    if k == 0 {
      assert xs[..1][1..] == [] && xs[..0] == [];
      NeedIs(e.sub, xs[0], 0);
    } else {
      NeedStructsAppend(e, xs[1..], k - 1);
      assert xs[..k + 1][1..] == xs[1..][..k] && xs[..k][1..] == xs[1..][..k - 1] && xs[1..][k - 1] == xs[k];
    }
  }

  lemma {:induction false} NeedStructsPrefix(e: ElemInfo, xs: seq<seq<Value>>, k: nat)
    requires k <= |xs| && forall j :: 0 <= j < |xs| ==> Shaped(e.sub, xs[j])
    ensures NeedStructs(e, xs[..k]) <= NeedStructs(e, xs)
    decreases |xs| - k
  {
    hide NeedFrom; hide NestedFrom;
    if k == |xs| {
      assert xs[..k] == xs;
    } else {
      NeedStructsPrefix(e, xs, k + 1);
      NeedStructsAppend(e, xs, k);
    }
  }

  method EncodeStructElem(e: ElemInfo, xs: seq<seq<Value>>, count: nat, outLen: nat, level: nat)
    returns (r: Result<seq<byte>>)
    requires level >= 2 && outLen < 0x1_0000_0000 && SkipSafe(e.sub, level) && count <= |xs|
    requires forall j :: 0 <= j < |xs| ==> Shaped(e.sub, xs[j])
    ensures r.Ok? || r == Err(EINVAL)
    ensures (forall j :: 0 <= j < count ==> Sendable(e.sub, xs[j], level)) ==>
      && (r.Ok? ==> r.value == StructBytes(e, xs[..count]))
      && (r.Ok? <==> NeedStructs(e, xs[..count]) <= outLen)
    decreases e, 0
  {
    hide StructBytes; hide NestedFrom; hide NeedFrom; hide NeedStructs; hide Sendable;
    var out: seq<byte> := [];
    ghost var sendable := forall j :: 0 <= j < count ==> Sendable(e.sub, xs[j], level);
    NoStructs(e, xs);
    for i := 0 to count
      invariant sendable ==> out == StructBytes(e, xs[..i]) && |out| <= outLen && NeedStructs(e, xs[..i]) <= outLen
    {
      if sendable {
        StructBytesAppend(e, xs, i);
        NeedStructsAppend(e, xs, i);
        NeedStructsPrefix(e, xs[..count], i + 1);
        NeedIs(e.sub, xs[i], 0);
        assert xs[..count][..i + 1] == xs[..i + 1];
      }
      var rc := QmiEncode(e.sub, xs[i], Sub32(outLen, |out|), level);
      if !rc.Ok? {
        return rc;
      }
      out := out + rc.value;
    }
    return Ok(out);
  }

  lemma {:induction false} NoStructs(e: ElemInfo, xs: seq<seq<Value>>)
    requires forall j :: 0 <= j < |xs| ==> Shaped(e.sub, xs[j])
    ensures StructBytes(e, xs[..0]) == [] && NeedStructs(e, xs[..0]) == 0
  {
  }

  /** An absent group contributes no frame. */
  lemma {:induction false} SkipAbsent(eis: seq<ElemInfo>, v: seq<Value>, i: nat, k: nat)
    requires TableOk(eis) && Shaped(eis, v) && i < k <= |eis|
    requires eis[i].kind.OptFlag? && v[i] == Flag(0)
    requires forall m :: i <= m < k ==> eis[m].tlvType == eis[i].tlvType
    requires k < |eis| ==> eis[k].tlvType != eis[i].tlvType
    ensures FramesFrom(eis, v, i) == FramesFrom(eis, v, k)
    ensures k < |eis| && !eis[k].kind.OptFlag? ==> Present(eis, v, k)
  {
    assert ElemOk(eis, i) && GroupOk(eis, i);
    var d := if eis[i + 1].kind.DataLen? then i + 2 else i + 1;
    assert ElemOk(eis, i + 1) && GroupOk(eis, i + 1);
    assert ElemOk(eis, d) && GroupOk(eis, d) && IsData(eis[d].kind);
    assert d + 1 < |eis| ==> eis[d + 1].tlvType != eis[i].tlvType;
    assert k <= d + 1;
    assert ShapedElem(eis[i], v[i]);
    assert k == d + 1;
    assert FramesFrom(eis, v, i) == FramesFrom(eis, v, i + 1);
    assert FramesFrom(eis, v, d) == FramesFrom(eis, v, d + 1);
    if d == i + 2 {
      assert FramesFrom(eis, v, i + 1) == FramesFrom(eis, v, d);
    }
  }

  /** The bytes waiting behind the reserved header: the length just written, if any. */
  ghost function Pending(eis: seq<ElemInfo>, v: seq<Value>, idx: nat): (bs: seq<byte>)
    requires Shaped(eis, v) && idx <= |eis|
  {
    if idx > 0 && eis[idx - 1].kind.DataLen? then ElemBytes(eis, v, idx - 1, 1) else []
  }

  /** A positive count was left for the array at idx. */
  ghost predicate CountLeft(eis: seq<ElemInfo>, v: seq<Value>, idx: nat, dataLen: nat)
    requires Shaped(eis, v) && idx <= |eis|
  {
    idx > 0 && eis[idx - 1].kind.DataLen? ==> v[idx - 1] == Count(dataLen) && dataLen > 0
  }

  /** State at the head of the loop at level 1: complete frames, a reserved header, Pending. */
  ghost predicate TopState(eis: seq<ElemInfo>, v: seq<Value>, idx: nat, dataLen: nat,
                           done: seq<byte>, body: seq<byte>)
    requires Shaped(eis, v) && idx <= |eis|
  {
    && CountLeft(eis, v, idx, dataLen)
    && body == Pending(eis, v, idx)
    && done + Flat(FramesFrom(eis, v, idx)) == Wire(eis, v, 1)
    && (idx < |eis| && !eis[idx].kind.OptFlag? ==> Present(eis, v, idx))
  }

  ghost predicate NestedState(eis: seq<ElemInfo>, v: seq<Value>, idx: nat, dataLen: nat, out: seq<byte>)
    requires Shaped(eis, v) && idx <= |eis|
  {
    && CountLeft(eis, v, idx, dataLen)
    && out + NestedFrom(eis, v, idx) == Wire(eis, v, 2)
  }

  /** An array with no used slot contributes nothing. */
  lemma {:induction false} EmptyData(e: ElemInfo, x: Value, level: nat)
    requires IsData(e.kind) && !e.kind.String? && ShapedElem(e, x)
    ensures DataBytes(e, x, 0, level) == []
  {
    if e.kind.Struct? {
      assert x.structs[..0] == [];
    } else {
      assert x.items[..0] == [];
    }
  }

  lemma {:induction false} TopFlag(eis: seq<ElemInfo>, v: seq<Value>, idx: nat, dataLen: nat, done: seq<byte>,
                                   body: seq<byte>, k: nat)
    requires Sendable(eis, v, 1) && idx < |eis| && TopState(eis, v, idx, dataLen, done, body)
    requires eis[idx].kind.OptFlag? && v[idx].Flag?
    requires if v[idx].on != 0 then k == idx + 1 else
               && idx < k <= |eis| && (k < |eis| ==> eis[k].tlvType != eis[idx].tlvType)
               && forall m :: idx <= m < k ==> eis[m].tlvType == eis[idx].tlvType
    ensures eis[idx].arrayType.NoArray? && body == [] && TopState(eis, v, k, 1, done, [])
  {
    assert ElemOk(eis, idx) && GroupOk(eis, idx);
    if idx > 0 {
      assert ElemOk(eis, idx - 1);
    }
    if v[idx].on == 0 {
      SkipAbsent(eis, v, idx, k);
      assert ElemOk(eis, k - 1) && GroupOk(eis, k - 1);
    }
  }

  /** A sent length and its array go into one frame. */
  lemma {:induction false} LenFrame(eis: seq<ElemInfo>, v: seq<Value>, idx: nat)
    requires Sendable(eis, v, 1) && idx < |eis| && eis[idx].kind.DataLen? && Present(eis, v, idx)
    ensures eis[idx].arrayType.NoArray? && idx + 1 < |eis| && IsData(eis[idx + 1].kind) && !eis[idx + 1].kind.String?
    ensures v[idx].Count? && v[idx].n < Limit(eis[idx].elemSize) && Limit(eis[idx].elemSize) > 1
    ensures Present(eis, v, idx + 1) && Used(eis, v, idx + 1) == v[idx].n <= Slots(eis[idx + 1])
    ensures ShapedElem(eis[idx + 1], v[idx + 1]) && eis[idx + 1].tlvType == eis[idx].tlvType
    ensures var f := Frame(eis[idx].tlvType, LE(v[idx].n, LenSize(eis[idx]))
                                             + DataBytes(eis[idx + 1], v[idx + 1], v[idx].n, 1));
      FramesFrom(eis, v, idx) == FramesFrom(eis, v, idx + 1) == [f] + FramesFrom(eis, v, idx + 2)
  {
    assert ElemOk(eis, idx) && GroupOk(eis, idx) && ElemOk(eis, idx + 1);
    assert ShapedElem(eis[idx], v[idx]) && ShapedElem(eis[idx + 1], v[idx + 1]);
    assert ValidElem(eis, v, idx);
    if idx > 0 {
      assert ElemOk(eis, idx - 1);
    }
  }

  lemma {:induction false} TopLen(eis: seq<ElemInfo>, v: seq<Value>, idx: nat, dataLen: nat, done: seq<byte>,
                                  body: seq<byte>)
    requires Sendable(eis, v, 1) && idx < |eis| && TopState(eis, v, idx, dataLen, done, body)
    requires eis[idx].kind.DataLen?
    ensures eis[idx].arrayType.NoArray? && body == []
    ensures v[idx].Count? && v[idx].n < Limit(eis[idx].elemSize) && Limit(eis[idx].elemSize) > 1
    ensures |done| + TLV_HEADER + LenSize(eis[idx]) <= |Wire(eis, v, 1)|
    ensures v[idx].n > 0 ==> TopState(eis, v, idx + 1, v[idx].n, done, LE(v[idx].n, LenSize(eis[idx])))
  {
    LenFrame(eis, v, idx);
    if idx > 0 {
      assert ElemOk(eis, idx - 1);
    }
  }

  lemma {:induction false} TopLenZero(eis: seq<ElemInfo>, v: seq<Value>, idx: nat, dataLen: nat, done: seq<byte>,
                                      body: seq<byte>)
    requires Sendable(eis, v, 1) && idx < |eis| && TopState(eis, v, idx, dataLen, done, body)
    requires eis[idx].kind.DataLen? && v[idx] == Count(0)
    ensures var f := Frame(eis[idx].tlvType, LE(0, LenSize(eis[idx])));
      idx + 2 <= |eis| && TopState(eis, v, idx + 2, 0, done + FrameBytes(f), [])
      && (idx + 2 < |eis| ==> eis[idx + 2].tlvType != eis[idx + 1].tlvType)
  {
    hide FramesFrom; hide DataBytes; hide Wire; hide ElemBytes;
    LenFrame(eis, v, idx);
    assert ElemOk(eis, idx + 1) && GroupOk(eis, idx + 1);
    EmptyData(eis[idx + 1], v[idx + 1], 1);
    var f := Frame(eis[idx].tlvType, LE(0, LenSize(eis[idx])));
    assert LE(0, LenSize(eis[idx])) + [] == f.payload;
    assert done + FrameBytes(f) + Flat(FramesFrom(eis, v, idx + 2))
        == done + (FrameBytes(f) + Flat(FramesFrom(eis, v, idx + 2)));
  }

  lemma {:induction false} TopData(eis: seq<ElemInfo>, v: seq<Value>, idx: nat, dataLen: nat, done: seq<byte>,
                                   body: seq<byte>, n: nat)
    requires Sendable(eis, v, 1) && idx < |eis| && TopState(eis, v, idx, dataLen, done, body)
    requires IsData(eis[idx].kind)
    ensures Used(eis, v, idx) <= Slots(eis[idx]) && ShapedElem(eis[idx], v[idx])
    ensures eis[idx].kind.String? ==> |v[idx].text| < eis[idx].elemLen
    ensures eis[idx].kind.Struct? ==>
      forall j :: 0 <= j < Used(eis, v, idx) ==> Sendable(eis[idx].sub, v[idx].structs[j], 2)
    ensures eis[idx].arrayType.VarLenArray? ==> Used(eis, v, idx) == dataLen > 0
    ensures var b := body + DataBytes(eis[idx], v[idx], Used(eis, v, idx), 1);
      && |done| + TLV_HEADER + |b| <= |Wire(eis, v, 1)|
      && TopState(eis, v, idx + 1, n, done + FrameBytes(Frame(eis[idx].tlvType, b)), [])
  {
    hide Wire; hide DataBytes;
    assert ElemOk(eis, idx) && GroupOk(eis, idx) && ShapedElem(eis[idx], v[idx]) && Present(eis, v, idx);
    if idx > 0 {
      assert ElemOk(eis, idx - 1) && (idx > 1 ==> ElemOk(eis, idx - 2));
      assert eis[idx - 1].kind.DataLen? ==> Present(eis, v, idx - 1) && ValidElem(eis, v, idx - 1);
    }
    var f := FrameAt(eis, v, idx);
    assert Flat(FramesFrom(eis, v, idx)) == FrameBytes(f) + Flat(FramesFrom(eis, v, idx + 1));
    assert done + FrameBytes(f) + Flat(FramesFrom(eis, v, idx + 1)) == Wire(eis, v, 1);
  }

  lemma {:induction false} NestedLen(eis: seq<ElemInfo>, v: seq<Value>, idx: nat, dataLen: nat, out: seq<byte>)
    requires Sendable(eis, v, 2) && idx < |eis| && NestedState(eis, v, idx, dataLen, out)
    requires eis[idx].kind.DataLen?
    ensures eis[idx].arrayType.NoArray? && v[idx].Count? && idx + 2 <= |eis|
    ensures v[idx].n < Limit(eis[idx].elemSize) && Limit(eis[idx].elemSize) > 1
    ensures var b := out + LE(v[idx].n, LenSize(eis[idx]));
      && |b| <= |Wire(eis, v, 2)|
      && if v[idx].n > 0 then NestedState(eis, v, idx + 1, v[idx].n, b) else NestedState(eis, v, idx + 2, 0, b)
  {
    assert ElemOk(eis, idx) && ElemOk(eis, idx + 1);
    assert ShapedElem(eis[idx], v[idx]) && ShapedElem(eis[idx + 1], v[idx + 1]);
    assert ValidElem(eis, v, idx);
    var b := out + LE(v[idx].n, LenSize(eis[idx]));
    assert ElemBytes(eis, v, idx, 2) == LE(v[idx].n, LenSize(eis[idx]));
    assert out + (ElemBytes(eis, v, idx, 2) + NestedFrom(eis, v, idx + 1)) == b + NestedFrom(eis, v, idx + 1);
    if v[idx].n == 0 {
      EmptyData(eis[idx + 1], v[idx + 1], 2);
      assert ElemBytes(eis, v, idx + 1, 2) == [];
      assert NestedFrom(eis, v, idx + 1) == NestedFrom(eis, v, idx + 2);
    }
  }

  lemma {:induction false} NestedData(eis: seq<ElemInfo>, v: seq<Value>, idx: nat, dataLen: nat, out: seq<byte>, n: nat)
    requires Sendable(eis, v, 2) && idx < |eis| && NestedState(eis, v, idx, dataLen, out)
    requires IsData(eis[idx].kind)
    ensures Used(eis, v, idx) <= Slots(eis[idx]) && ShapedElem(eis[idx], v[idx])
    ensures eis[idx].kind.String? ==> |v[idx].text| < eis[idx].elemLen
    ensures eis[idx].kind.Struct? ==>
      forall j :: 0 <= j < Used(eis, v, idx) ==> Sendable(eis[idx].sub, v[idx].structs[j], 2)
    ensures eis[idx].arrayType.VarLenArray? ==> Used(eis, v, idx) == dataLen > 0
    ensures var b := out + DataBytes(eis[idx], v[idx], Used(eis, v, idx), 2);
      |b| <= |Wire(eis, v, 2)| && NestedState(eis, v, idx + 1, n, b)
  {
    assert ElemOk(eis, idx) && ShapedElem(eis[idx], v[idx]) && ValidElem(eis, v, idx);
    if idx > 0 {
      assert ElemOk(eis, idx - 1) && ValidElem(eis, v, idx - 1);
    }
    var bs := DataBytes(eis[idx], v[idx], Used(eis, v, idx), 2);
    assert ElemBytes(eis, v, idx, 2) == bs;
    assert out + (bs + NestedFrom(eis, v, idx + 1)) == out + bs + NestedFrom(eis, v, idx + 1);
  }

  /** The count in force for element e when dataLen was left by the previous element. */
  function SlotsUsed(e: ElemInfo, dataLen: nat): nat {
    if e.arrayType.VarLenArray? then dataLen else Slots(e)
  }

  /** The three data cases of the encoder's switch. */
  method EncodeData(e: ElemInfo, x: Value, dataLen: nat, encodedBytes: nat, outLen: nat, level: nat)
    returns (r: Result<seq<byte>>)
    requires level >= 1 && outLen < 0x1_0000_0000
    requires IsData(e.kind) && ShapedElem(e, x) && dataLen <= Slots(e)
    requires e.kind.Struct? ==> SkipSafe(e.sub, level + 1)
    ensures r.Ok? || r == Err(EINVAL)
    ensures (e.kind.Struct? ==> forall j :: 0 <= j < dataLen ==> Sendable(e.sub, x.structs[j], level + 1)) ==>
      && (r.Ok? ==> r.value == DataBytes(e, x, dataLen, level))
      && ((e.kind.String? ==> |x.text| < e.elemLen)
          ==> (r.Ok? <==> ElemRoom(e, x, dataLen, encodedBytes, outLen, level)))
    decreases e, 1
  {
    if e.kind.Struct? {
      r := EncodeStructElem(e, x.structs, dataLen, Sub32(outLen, encodedBytes), level + 1);
    } else if e.kind.String? {
      r := EncodeStringElem(e, x.text, Sub32(outLen, encodedBytes), level);
    } else {
      FlatItemsLength(x.items[..dataLen], e.elemSize);
      if Span(dataLen, e.elemSize) + encodedBytes + TLV_HEADER > outLen {
        return Err(EINVAL);
      }
      var bs := EncodeBasicElem(x.items, dataLen);
      r := Ok(bs);
    }
  }

  /** Where the loop stands: with the frame still open, or, when close is set at level 1,
      with the frame of the given type completed. */
  ghost predicate Stands(eis: seq<ElemInfo>, v: seq<Value>, level: nat, idx: nat, dataLen: nat,
                         done: seq<byte>, body: seq<byte>, tlvType: byte, close: bool)
    requires Shaped(eis, v) && idx <= |eis|
  {
    if level > 1 then done == [] && NestedState(eis, v, idx, dataLen, body)
    else if close then TopState(eis, v, idx, dataLen, done + FrameBytes(Frame(tlvType, body)), [])
    else TopState(eis, v, idx, dataLen, done, body)
  }

  /** What one turn of the switch appends, where it goes next and with what count. */
  datatype Step = Step(bytes: seq<byte>, idx: nat, dataLen: nat, close: bool)

  /** The elements from i on find room, with d bytes of complete frames and b bytes of an open one, or
      b bytes of a nested struct, already encoded. */
  ghost predicate Rest(eis: seq<ElemInfo>, v: seq<Value>, level: nat, i: nat, d: nat, b: nat, outLen: nat)
    requires Shaped(eis, v) && i <= |eis|
  {
    if level == 1 then RoomFrom(eis, v, i, d, outLen) else b + NeedFrom(eis, v, i) <= outLen
  }

  /** A length just written in front of an array has passed its test, and so have all bytes of a nested
      struct. */
  ghost predicate Tested(level: nat, d: nat, b: nat, outLen: nat) {
    if level == 1 then b > 0 ==> d + b + TLV_HEADER <= outLen else b <= outLen
  }

  /** The step is taken exactly if the elements from idx on can find room, as far as it decides. */
  ghost predicate StepDecides(eis: seq<ElemInfo>, v: seq<Value>, idx: nat, outLen: nat, level: nat, d: nat, b: nat,
                              r: Result<Step>)
    requires Shaped(eis, v) && idx < |eis| && (r.Ok? ==> r.value.idx <= |eis|)
  {
    if r.Ok? then
      var n := b + |r.value.bytes|;
      var d', b' := if r.value.close && level == 1 then d + TLV_HEADER + n else d,
                    if r.value.close && level == 1 then 0 else n;
      && (Rest(eis, v, level, idx, d, b, outLen) <==> Rest(eis, v, level, r.value.idx, d', b', outLen))
      && Tested(level, d', b', outLen)
    else !Rest(eis, v, level, idx, d, b, outLen)
  }

  ghost predicate StepOk(eis: seq<ElemInfo>, v: seq<Value>, idx: nat, outLen: nat, level: nat,
                         done: seq<byte>, body: seq<byte>, r: Result<Step>)
    requires Shaped(eis, v) && idx < |eis|
  {
    && (r.Ok? || r == Err(EINVAL))
    && (r.Ok? ==> idx < r.value.idx <= |eis|)
    && (Sendable(eis, v, level) ==>
        && (r.Ok? ==> Stands(eis, v, level, r.value.idx, r.value.dataLen, done, body + r.value.bytes,
                             eis[idx].tlvType, r.value.close))
        && (Tested(level, |done|, |body|, outLen) ==>
            StepDecides(eis, v, idx, outLen, level, |done|, |body|, r)))
  }

  lemma {:induction false} LenStands(eis: seq<ElemInfo>, v: seq<Value>, idx: nat, dataLen: nat, level: nat,
                                     done: seq<byte>, body: seq<byte>)
    requires level >= 1 && Sendable(eis, v, level) && idx < |eis| && eis[idx].kind.DataLen?
    requires Stands(eis, v, level, idx, dataLen, done, body, 0, false)
    ensures eis[idx].arrayType.NoArray? && v[idx].Count?
    ensures v[idx].n < Limit(eis[idx].elemSize) && Limit(eis[idx].elemSize) > 1
    ensures |done| + |body| + LenSize(eis[idx]) + TLV_HEADER <= |Wire(eis, v, level)| + (if level == 1 then 0 else TLV_HEADER)
    ensures var b := body + LE(v[idx].n, LenSize(eis[idx]));
      if v[idx].n > 0 then Stands(eis, v, level, idx + 1, v[idx].n, done, b, eis[idx].tlvType, false)
      else && idx + 2 <= |eis| && (level == 1 && idx + 2 < |eis| ==> eis[idx + 2].tlvType != eis[idx + 1].tlvType)
           && Stands(eis, v, level, idx + 2, 0, done, b, eis[idx].tlvType, true)
  {
    if level == 1 {
      TopLen(eis, v, idx, dataLen, done, body);
      assert body + LE(v[idx].n, LenSize(eis[idx])) == LE(v[idx].n, LenSize(eis[idx]));
      if v[idx].n == 0 {
        TopLenZero(eis, v, idx, dataLen, done, body);
      }
    } else {
      NestedLen(eis, v, idx, dataLen, body);
    }
  }

  lemma {:induction false} DataStands(eis: seq<ElemInfo>, v: seq<Value>, idx: nat, dataLen0: nat, dataLen: nat,
                                      level: nat, done: seq<byte>, body: seq<byte>)
    requires level >= 1 && Sendable(eis, v, level) && idx < |eis| && IsData(eis[idx].kind)
    requires Stands(eis, v, level, idx, dataLen0, done, body, 0, false) && dataLen == SlotsUsed(eis[idx], dataLen0)
    ensures 0 < dataLen == Used(eis, v, idx) <= Slots(eis[idx]) && ShapedElem(eis[idx], v[idx])
    ensures eis[idx].kind.String? ==> |v[idx].text| < eis[idx].elemLen
    ensures eis[idx].kind.Struct? ==> forall j :: 0 <= j < dataLen ==> Sendable(eis[idx].sub, v[idx].structs[j], level + 1)
    ensures var bs := DataBytes(eis[idx], v[idx], dataLen, level);
      && |done| + |body| + TLV_HEADER + |bs| <= |Wire(eis, v, level)| + (if level == 1 then 0 else TLV_HEADER)
      && Stands(eis, v, level, idx + 1, dataLen, done, body + bs, eis[idx].tlvType, true)
  {
    assert ElemOk(eis, idx);
    if level == 1 {
      TopData(eis, v, idx, dataLen0, done, body, dataLen);
    } else {
      NestedData(eis, v, idx, dataLen0, body, dataLen);
    }
  }

  // ----- Room -----

  lemma {:induction false} FlagRest(eis: seq<ElemInfo>, v: seq<Value>, idx: nat, k: nat, d: nat, outLen: nat)
    requires Sendable(eis, v, 1) && idx < k <= |eis| && eis[idx].kind.OptFlag? && v[idx].Flag?
    requires if v[idx].on != 0 then k == idx + 1 else
               && (forall m :: idx <= m < k ==> eis[m].tlvType == eis[idx].tlvType)
               && (k < |eis| ==> eis[k].tlvType != eis[idx].tlvType)
    ensures RoomFrom(eis, v, idx, d, outLen) <==> RoomFrom(eis, v, k, d, outLen)
  {
    hide GroupRoom;
    if v[idx].on == 0 {
      assert ElemOk(eis, idx) && GroupOk(eis, idx);
      var e := if eis[idx + 1].kind.DataLen? then idx + 2 else idx + 1;
      assert ElemOk(eis, idx + 1) && GroupOk(eis, idx + 1);
      assert ElemOk(eis, e) && GroupOk(eis, e) && IsData(eis[e].kind) && !Present(eis, v, e);
      assert e + 1 < |eis| ==> eis[e + 1].tlvType != eis[idx].tlvType;
      assert k == e + 1;
      assert RoomFrom(eis, v, e, d, outLen) == RoomFrom(eis, v, e + 1, d, outLen);
      assert RoomFrom(eis, v, idx + 1, d, outLen) == RoomFrom(eis, v, e, d, outLen);
    }
  }

  lemma {:induction false} LenRest(eis: seq<ElemInfo>, v: seq<Value>, idx: nat, d: nat, outLen: nat)
    requires Sendable(eis, v, 1) && idx < |eis| && eis[idx].kind.DataLen? && Present(eis, v, idx)
    ensures idx + 2 <= |eis| && v[idx].Count?
    ensures var n := LenSize(eis[idx]);
      if d + n + TLV_HEADER <= outLen
      then RoomFrom(eis, v, idx, d, outLen) <==>
           if v[idx].n > 0 then RoomFrom(eis, v, idx + 1, d, outLen)
           else RoomFrom(eis, v, idx + 2, d + TLV_HEADER + n, outLen)
      else !RoomFrom(eis, v, idx, d, outLen)
  {
    hide DataBytes; hide NeedStructs;
    LenFrame(eis, v, idx);
    assert RoomFrom(eis, v, idx, d, outLen) == RoomFrom(eis, v, idx + 1, d, outLen);
    assert ElemBytes(eis, v, idx, 1) == LE(v[idx].n, LenSize(eis[idx]));
    if v[idx].n == 0 {
      EmptyData(eis[idx + 1], v[idx + 1], 1);
      assert FrameAt(eis, v, idx + 1).payload == LE(0, LenSize(eis[idx])) + [];
    }
  }

  lemma {:induction false} DataRest(eis: seq<ElemInfo>, v: seq<Value>, idx: nat, d: nat, outLen: nat)
    requires Sendable(eis, v, 1) && idx < |eis| && IsData(eis[idx].kind) && Present(eis, v, idx)
    requires 0 < Used(eis, v, idx) <= Slots(eis[idx]) && ShapedElem(eis[idx], v[idx])
    requires Tested(1, d, |LeadBytes(eis, v, idx)|, outLen) && (Led(eis, idx) ==> LeadBytes(eis, v, idx) != [])
    ensures var n := Used(eis, v, idx);
      var m := |LeadBytes(eis, v, idx)| + |DataBytes(eis[idx], v[idx], n, 1)|;
      RoomFrom(eis, v, idx, d, outLen) <==>
        && ElemRoom(eis[idx], v[idx], n, d + |LeadBytes(eis, v, idx)|, outLen, 1)
        && RoomFrom(eis, v, idx + 1, d + TLV_HEADER + m, outLen)
  {
    hide DataBytes; hide NeedStructs; hide ElemRoom; hide TableOk; hide ElemOk;
    var n := Used(eis, v, idx);
    assert ElemBytes(eis, v, idx, 1) == DataBytes(eis[idx], v[idx], n, 1);
    assert |FrameBytes(FrameAt(eis, v, idx))| == TLV_HEADER + |LeadBytes(eis, v, idx)| + |DataBytes(eis[idx], v[idx], n, 1)|;
  }

  lemma {:induction false} NestedLenRest(eis: seq<ElemInfo>, v: seq<Value>, idx: nat, b: nat, outLen: nat)
    requires Sendable(eis, v, 2) && idx < |eis| && eis[idx].kind.DataLen?
    ensures idx + 2 <= |eis| && v[idx].Count?
    ensures var n := LenSize(eis[idx]);
      if b + n + TLV_HEADER <= outLen
      then b + NeedFrom(eis, v, idx) <= outLen <==>
           if v[idx].n > 0 then b + n + NeedFrom(eis, v, idx + 1) <= outLen
           else b + n + NeedFrom(eis, v, idx + 2) <= outLen
      else b + NeedFrom(eis, v, idx) > outLen
  {
    hide DataBytes; hide NeedStructs;
    assert ElemOk(eis, idx) && ElemOk(eis, idx + 1);
    assert ShapedElem(eis[idx], v[idx]) && ShapedElem(eis[idx + 1], v[idx + 1]);
    assert |ElemBytes(eis, v, idx, 2)| == LenSize(eis[idx]);
    if v[idx].n == 0 {
      EmptyData(eis[idx + 1], v[idx + 1], 2);
      assert ElemBytes(eis, v, idx + 1, 2) == [];
      assert NeedFrom(eis, v, idx + 1) == NeedFrom(eis, v, idx + 2);
    }
  }

  lemma {:induction false} NestedDataRest(eis: seq<ElemInfo>, v: seq<Value>, idx: nat, b: nat, outLen: nat, level: nat)
    requires Shaped(eis, v) && idx < |eis| && IsData(eis[idx].kind) && level > 1 && outLen < 0x1_0000_0000
    requires 0 < Used(eis, v, idx) <= Slots(eis[idx]) && ShapedElem(eis[idx], v[idx])
    ensures var n := Used(eis, v, idx);
      b + NeedFrom(eis, v, idx) <= outLen <==>
        && ElemRoom(eis[idx], v[idx], n, b, outLen, level)
        && b + |DataBytes(eis[idx], v[idx], n, 2)| + NeedFrom(eis, v, idx + 1) <= outLen
    ensures var n := Used(eis, v, idx);
      b <= outLen && ElemRoom(eis[idx], v[idx], n, b, outLen, level) ==> b + |DataBytes(eis[idx], v[idx], n, 2)| <= outLen
  {
    hide NeedStructs; hide StructBytes;
    NeedElemIs(eis, v, idx);
    var n := Used(eis, v, idx);
    assert ElemBytes(eis, v, idx, 2) == DataBytes(eis[idx], v[idx], n, 2);
    assert DataBytes(eis[idx], v[idx], n, level) == DataBytes(eis[idx], v[idx], n, 2);
  }

  /** A length decides about the room as the wire format has it. */
  lemma {:induction false} LenDecides(eis: seq<ElemInfo>, v: seq<Value>, idx: nat, dataLen0: nat, level: nat,
                                      done: seq<byte>, body: seq<byte>, outLen: nat)
    requires level >= 1 && Sendable(eis, v, level) && idx < |eis| && eis[idx].kind.DataLen?
    requires Stands(eis, v, level, idx, dataLen0, done, body, 0, false)
    ensures idx + 2 <= |eis| && v[idx].Count?
    ensures var d, b, n := |done|, |body|, LenSize(eis[idx]);
      if d + b + n + TLV_HEADER > outLen then !Rest(eis, v, level, idx, d, b, outLen)
      else
        && Tested(level, d, b + n, outLen)
        && (Rest(eis, v, level, idx, d, b, outLen) <==>
            if v[idx].n > 0 then Rest(eis, v, level, idx + 1, d, b + n, outLen)
            else if level == 1 then Rest(eis, v, level, idx + 2, d + TLV_HEADER + b + n, 0, outLen)
            else Rest(eis, v, level, idx + 2, d, b + n, outLen))
  {
    hide RoomFrom; hide NeedFrom; hide Wire;
    if level == 1 {
      TopLen(eis, v, idx, dataLen0, done, body);
      LenRest(eis, v, idx, |done|, outLen);
    } else {
      NestedLenRest(eis, v, idx, |body|, outLen);
    }
  }

  /** So does a data element. */
  lemma {:induction false} DataDecides(eis: seq<ElemInfo>, v: seq<Value>, idx: nat, dataLen0: nat, dataLen: nat,
                                       level: nat, done: seq<byte>, body: seq<byte>, outLen: nat)
    requires level >= 1 && Sendable(eis, v, level) && idx < |eis| && IsData(eis[idx].kind) && outLen < 0x1_0000_0000
    requires Stands(eis, v, level, idx, dataLen0, done, body, 0, false) && dataLen == SlotsUsed(eis[idx], dataLen0)
    requires Tested(level, |done|, |body|, outLen)
    ensures dataLen <= Slots(eis[idx]) && ShapedElem(eis[idx], v[idx])
    ensures var d, b, n := |done|, |body|, |DataBytes(eis[idx], v[idx], dataLen, level)|;
      Rest(eis, v, level, idx, d, b, outLen) <==>
        && ElemRoom(eis[idx], v[idx], dataLen, d + b, outLen, level)
        && if level == 1 then Rest(eis, v, level, idx + 1, d + TLV_HEADER + (b + n), 0, outLen)
           else Rest(eis, v, level, idx + 1, d, b + n, outLen)
    ensures level > 1 && ElemRoom(eis[idx], v[idx], dataLen, |done| + |body|, outLen, level) ==>
      Tested(level, |done|, |body| + |DataBytes(eis[idx], v[idx], dataLen, level)|, outLen)
  {
    hide RoomFrom; hide NeedFrom; hide Wire; hide ElemRoom; hide DataBytes;
    DataStands(eis, v, idx, dataLen0, dataLen, level, done, body);
    if level == 1 {
      LeadIs(eis, v, idx, dataLen0, done, body);
      DataRest(eis, v, idx, |done|, outLen);
    } else {
      SameBytes(eis[idx], v[idx], dataLen, level);
      NestedDataRest(eis, v, idx, |body|, outLen, level);
    }
  }

  lemma {:induction false} LeadIs(eis: seq<ElemInfo>, v: seq<Value>, idx: nat, dataLen0: nat, done: seq<byte>, body: seq<byte>)
    requires Sendable(eis, v, 1) && idx < |eis| && IsData(eis[idx].kind) && TopState(eis, v, idx, dataLen0, done, body)
    ensures body == LeadBytes(eis, v, idx) && (Led(eis, idx) ==> body != []) && Present(eis, v, idx)
  {
    if Led(eis, idx) {
      assert ElemOk(eis, idx - 1) && ShapedElem(eis[idx - 1], v[idx - 1]);
    }
  }

  lemma {:induction false} SameBytes(e: ElemInfo, x: Value, n: nat, level: nat)
    requires IsData(e.kind) && ShapedElem(e, x) && n <= Slots(e) && level > 1
    ensures DataBytes(e, x, n, level) == DataBytes(e, x, n, 2)
  {
  }

  /** The QMI_OPT_FLAG case of the encoder's switch. */
  method EncodeFlag(eis: seq<ElemInfo>, v: seq<Value>, idx: nat, ghost dataLen0: nat, dataLen: nat,
                    ghost outLen: nat, level: nat, ghost done: seq<byte>, ghost body: seq<byte>)
    returns (r: Result<Step>)
    requires level >= 1 && Shaped(eis, v) && SkipSafe(eis, level) && idx < |eis| && eis[idx].kind.OptFlag?
    requires eis[idx].arrayType.NoArray? ==> dataLen == 1
    requires Sendable(eis, v, level) ==> Stands(eis, v, level, idx, dataLen0, done, body, 0, false)
    ensures StepOk(eis, v, idx, outLen, level, done, body, r)
    ensures r.Ok? && r.value.bytes == [] && !r.value.close
  {
    assert ShapedElem(eis[idx], v[idx]) && SkipSafeAt(eis, idx, level);
    var next := idx + 1;
    if v[idx].on == 0 {
      next := SkipToNextElem(eis, idx, level);
    }
    if Sendable(eis, v, level) && level == 1 {
      TopFlag(eis, v, idx, dataLen0, done, body, next);
      FlagRest(eis, v, idx, next, |done|, outLen);
    }
    assert body + [] == body;
    r := Ok(Step([], next, dataLen, false));
  }

  /** The QMI_DATA_LEN case. */
  method EncodeLen(eis: seq<ElemInfo>, v: seq<Value>, idx: nat, ghost dataLen0: nat, dataLen: nat, encodedBytes: nat,
                   outLen: nat, level: nat, ghost done: seq<byte>, ghost body: seq<byte>)
    returns (r: Result<Step>)
    requires level >= 1 && Shaped(eis, v) && SkipSafe(eis, level) && idx < |eis| && eis[idx].kind.DataLen?
    requires eis[idx].arrayType.NoArray? ==> dataLen == 1
    requires Sendable(eis, v, level) ==>
      encodedBytes == |done| + |body| && Stands(eis, v, level, idx, dataLen0, done, body, 0, false)
    ensures StepOk(eis, v, idx, outLen, level, done, body, r)
    ensures r.Ok? ==> encodedBytes + TLV_HEADER + |r.value.bytes| <= outLen
  {
    hide Sendable; hide Stands; hide Wire; hide ElemOk; hide Rest;
    var e := eis[idx];
    assert ShapedElem(e, v[idx]) && SkipSafeAt(eis, idx, level);
    if Sendable(eis, v, level) {
      LenStands(eis, v, idx, dataLen0, level, done, body);
      LenDecides(eis, v, idx, dataLen0, level, done, body, outLen);
    }
    var count := SetLow(dataLen, v[idx].n, e.elemSize);
    var dataLenSize := LenSize(e);
    if dataLenSize + encodedBytes + TLV_HEADER > outLen {
      return Err(EINVAL);
    }
    var bytes := LE(count, dataLenSize);
    if count == 0 {
      var next := SkipToNextElem(eis, idx + 1, level);
      r := Ok(Step(bytes, next, 0, true));
    } else {
      r := Ok(Step(bytes, idx + 1, count, false));
    }
  }

  /** The data cases, once the element count is known to be within the array. */
  method EncodeDataElem(eis: seq<ElemInfo>, v: seq<Value>, idx: nat, ghost dataLen0: nat, dataLen: nat,
                        encodedBytes: nat, outLen: nat, level: nat, ghost done: seq<byte>, ghost body: seq<byte>)
    returns (r: Result<Step>)
    requires level >= 1 && outLen < 0x1_0000_0000 && Shaped(eis, v) && SkipSafe(eis, level) && idx < |eis|
    requires IsData(eis[idx].kind) && dataLen == SlotsUsed(eis[idx], dataLen0) <= Slots(eis[idx])
    requires Sendable(eis, v, level) ==>
      encodedBytes == |done| + |body| && Stands(eis, v, level, idx, dataLen0, done, body, 0, false)
    ensures StepOk(eis, v, idx, outLen, level, done, body, r)
    decreases eis, 0
  {
    hide Sendable; hide Stands; hide DataBytes; hide Wire; hide ElemOk; hide Rest; hide ElemRoom;
    assert ShapedElem(eis[idx], v[idx]) && SkipSafeAt(eis, idx, level);
    if Sendable(eis, v, level) {
      DataStands(eis, v, idx, dataLen0, dataLen, level, done, body);
      if Tested(level, |done|, |body|, outLen) {
        DataDecides(eis, v, idx, dataLen0, dataLen, level, done, body, outLen);
      }
    }
    var rc := EncodeData(eis[idx], v[idx], dataLen, encodedBytes, outLen, level);
    if rc.Ok? {
      r := Ok(Step(rc.value, idx + 1, dataLen, true));
    } else {
      r := Err(EINVAL);
    }
  }

  /** One turn of the encoder's loop. */
  method EncodeElem(eis: seq<ElemInfo>, v: seq<Value>, idx: nat, dataLen0: nat, encodedBytes: nat,
                    outLen: nat, level: nat, ghost done: seq<byte>, ghost body: seq<byte>)
    returns (r: Result<Step>)
    requires level >= 1 && outLen < 0x1_0000_0000 && Shaped(eis, v) && SkipSafe(eis, level) && idx < |eis|
    requires Sendable(eis, v, level) ==>
      encodedBytes == |done| + |body| && Stands(eis, v, level, idx, dataLen0, done, body, 0, false)
    ensures StepOk(eis, v, idx, outLen, level, done, body, r)
    ensures eis[idx].arrayType.VarLenArray? && dataLen0 == 0 ==> r == Err(EINVAL)
    decreases eis, 1
  {
    var e := eis[idx];
    var dataLen := dataLen0;
    if e.arrayType.NoArray? {
      dataLen := 1;
    } else if e.arrayType.StaticArray? {
      dataLen := e.elemLen;
    } else if dataLen <= 0 || e.elemLen < dataLen {
      if Sendable(eis, v, level) {
        assert ElemOk(eis, idx);
        DataStands(eis, v, idx, dataLen0, dataLen0, level, done, body);
      }
      return Err(EINVAL);
    }
    if e.kind.OptFlag? {
      r := EncodeFlag(eis, v, idx, dataLen0, dataLen, outLen, level, done, body);
    } else if e.kind.DataLen? {
      r := EncodeLen(eis, v, idx, dataLen0, dataLen, encodedBytes, outLen, level, done, body);
    } else {
      r := EncodeDataElem(eis, v, idx, dataLen0, dataLen, encodedBytes, outLen, level, done, body);
    }
  }

  /** The buffer up to buf_dst: complete frames, the reserved header, the open frame's body. */
  ghost predicate Layout(out: seq<byte>, done: seq<byte>, hdr: seq<byte>, body: seq<byte>,
                         tlvPointer: nat, tlvLen: nat, level: nat)
  {
    if level == 1 then
      out == done + hdr + body && |done| == tlvPointer && |hdr| == TLV_HEADER && |body| == tlvLen
    else out == body && done == []
  }

  /** QMI_ENCDEC_ENCODE_TLV: fill in the header reserved at p. */
  function EncodeTlv(out: seq<byte>, p: nat, tlvType: byte, length: nat): (r: seq<byte>)
    requires p + TLV_HEADER <= |out|
    ensures |r| == |out|
  {
    out[p := tlvType][p + 1 := length % 256][p + 2 := length / 256 % 256]
  }

  /** Append the bytes of an element and, at level 1, complete its frame and reserve the
      header of the next one. */
  method Append(out: seq<byte>, bytes: seq<byte>, tlvPointer: nat, tlvLen: nat, tlvType: byte, close: bool, level: nat,
                ghost done: seq<byte>, ghost hdr: seq<byte>, ghost body: seq<byte>)
    returns (out': seq<byte>, tlvPointer': nat, tlvLen': nat,
             ghost done': seq<byte>, ghost hdr': seq<byte>, ghost body': seq<byte>)
    requires Layout(out, done, hdr, body, tlvPointer, tlvLen, level)
    ensures Layout(out', done', hdr', body', tlvPointer', tlvLen', level)
    ensures if close && level == 1
            then done' == done + FrameBytes(Frame(tlvType, body + bytes)) && body' == []
            else done' == done && body' == body + bytes
  {
    out', tlvPointer', tlvLen' := out + bytes, tlvPointer, tlvLen + |bytes|;
    done', hdr', body' := done, hdr, body + bytes;
    assert level == 1 ==> out' == done + hdr + body';
    if close && level == 1 {
      assert LE(|body'|, 2) == [|body'| % 256, |body'| / 256 % 256];
      out' := EncodeTlv(out', tlvPointer', tlvType, tlvLen');
      assert out' == done + FrameBytes(Frame(tlvType, body'));
      tlvPointer', tlvLen' := |out'|, 0;
      done', hdr', body' := out', [0, 0, 0], [];
      out' := out' + [0, 0, 0];
    }
  }

  lemma {:induction false} Finished(eis: seq<ElemInfo>, v: seq<Value>, dataLen: nat, level: nat, done: seq<byte>,
                                    body: seq<byte>)
    requires level >= 1 && Sendable(eis, v, level) && Stands(eis, v, level, |eis|, dataLen, done, body, 0, false)
    ensures done + body == Wire(eis, v, level) && (level == 1 ==> body == [])
  {
    if eis != [] {
      assert ElemOk(eis, |eis| - 1);
    }
  }

  lemma {:induction false} StartStands(eis: seq<ElemInfo>, v: seq<Value>, level: nat)
    requires level >= 1 && Sendable(eis, v, level)
    ensures Stands(eis, v, level, 0, 0, [], [], 0, false)
  {
  }

  /** A frame completed, or left open, is what the next turn begins with. */
  lemma {:induction false} StandsClosed(eis: seq<ElemInfo>, v: seq<Value>, level: nat, idx: nat, dataLen: nat,
                                        done: seq<byte>, body: seq<byte>, tlvType: byte, close: bool)
    requires Shaped(eis, v) && idx <= |eis| && level >= 1 && Stands(eis, v, level, idx, dataLen, done, body, tlvType, close)
    ensures if close && level == 1
            then Stands(eis, v, level, idx, dataLen, done + FrameBytes(Frame(tlvType, body)), [], 0, false)
            else Stands(eis, v, level, idx, dataLen, done, body, 0, false)
  {
  }

  lemma {:induction false} NoRest(eis: seq<ElemInfo>, v: seq<Value>, level: nat, d: nat, b: nat, outLen: nat)
    requires Shaped(eis, v)
    ensures Rest(eis, v, level, |eis|, d, b, outLen) <==> level == 1 || b <= outLen
  {
  }

  /** qmi_encode: the result is the wire format, and a struct is encoded exactly if it finds room; one
      that fits always does. A table that opens with a variable array is never encoded. */
  method QmiEncode(eis: seq<ElemInfo>, v: seq<Value>, outLen: nat, level: nat)
    returns (r: Result<seq<byte>>)
    requires level >= 1 && outLen < 0x1_0000_0000 && Shaped(eis, v) && SkipSafe(eis, level)
    ensures r.Ok? || r == Err(EINVAL)
    ensures Sendable(eis, v, level) && r.Ok? ==> r.value == Wire(eis, v, level)
    ensures Sendable(eis, v, level) ==> (r.Ok? <==> Accepts(eis, v, level, outLen))
    ensures eis != [] && eis[0].arrayType.VarLenArray? ==> r == Err(EINVAL)
    decreases eis, 2
  {
    hide Sendable; hide Wire; hide RoomFrom; hide NeedFrom; hide Stands; hide SkipSafe; hide FrameBytes;
    if Sendable(eis, v, level) {
      StartStands(eis, v, level);
    }
    var idx: nat, dataLen: nat := 0, 0;
    var out: seq<byte> := if level == 1 then [0, 0, 0] else [];
    var tlvPointer: nat, tlvLen: nat, encodedBytes: nat := 0, 0, 0;
    ghost var done: seq<byte>, hdr: seq<byte>, body: seq<byte> := [], out, [];

    while idx < |eis|
      invariant idx <= |eis|
      invariant encodedBytes == |done| + |body|
      invariant Layout(out, done, hdr, body, tlvPointer, tlvLen, level)
      invariant Sendable(eis, v, level) ==> Stands(eis, v, level, idx, dataLen, done, body, 0, false)
      invariant Sendable(eis, v, level) ==> Tested(level, |done|, |body|, outLen)
      invariant Sendable(eis, v, level) ==>
        (Accepts(eis, v, level, outLen) <==> Rest(eis, v, level, idx, |done|, |body|, outLen))
      invariant idx == 0 ==> dataLen == 0 && encodedBytes == 0
      invariant idx > 0 ==> !eis[0].arrayType.VarLenArray?
      decreases |eis| - idx
    {
      var tlvType := eis[idx].tlvType;
      var step := EncodeElem(eis, v, idx, dataLen, encodedBytes, outLen, level, done, body);
      if !step.Ok? {
        return Err(EINVAL);
      }
      var Step(bytes, next, count, close) := step.value;
      idx, dataLen := next, count;
      if Sendable(eis, v, level) {
        StandsClosed(eis, v, level, idx, dataLen, done, body + bytes, tlvType, close);
      }
      out, tlvPointer, tlvLen, done, hdr, body :=
        Append(out, bytes, tlvPointer, tlvLen, tlvType, close, level, done, hdr, body);
      encodedBytes := encodedBytes + |bytes| + if close && level == 1 then TLV_HEADER else 0;
    }
    if Sendable(eis, v, level) {
      Finished(eis, v, dataLen, level, done, body);
      NoRest(eis, v, level, |done|, |body|, outLen);
      NeedIs(eis, v, 0);
    }
    return Ok(out[..encodedBytes]);
  }
}
