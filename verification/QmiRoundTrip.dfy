/** Decoding inverts the wire format. */
module QmiRoundTrip {
  import opened Bytes
  import opened Common
  import opened QmiTypes
  import opened QmiWire
  import opened QmiEncoder
  import opened QmiDecoder

  // ----- What a decoded struct looks like: the sent members laid over the initial struct -----

  /** Member x received into x0: its used slots replace those of x0. */
  ghost function OverlayElem(e: ElemInfo, x0: Value, x: Value, used: nat): (y: Value)
    requires IsData(e.kind) && ShapedElem(e, x0) && ShapedElem(e, x) && used <= Slots(e)
    ensures ShapedElem(e, y)
    decreases e
  {
    if e.kind.String? then x
    else if e.kind.Struct? then
      Structs(seq(|x0.structs|, j requires 0 <= j < |x0.structs| =>
        if j < used then Overlay(e.sub, x0.structs[j], x.structs[j]) else x0.structs[j]))
    else Items(x.items[..used] + x0.items[used..])
  }

  ghost function OverlayAt(eis: seq<ElemInfo>, init: seq<Value>, v: seq<Value>, i: nat): (y: Value)
    requires Shaped(eis, init) && Shaped(eis, v) && i < |eis|
    ensures ShapedElem(eis[i], y)
    decreases eis, 0
  {
    assert ShapedElem(eis[i], v[i]) && ShapedElem(eis[i], init[i]);
    if eis[i].kind.OptFlag? then Flag(1)
    else if eis[i].kind.DataLen? then v[i]
    else if Used(eis, v, i) <= Slots(eis[i]) then OverlayElem(eis[i], init[i], v[i], Used(eis, v, i))
    else init[i]
  }

  ghost function Overlay(eis: seq<ElemInfo>, init: seq<Value>, v: seq<Value>): (r: seq<Value>)
    requires Shaped(eis, init) && Shaped(eis, v)
    ensures Shaped(eis, r)
    decreases eis, 1
  {
    seq(|eis|, i requires 0 <= i < |eis| => OverlayAt(eis, init, v, i))
  }

  /** The same, one element after the other. */
  ghost function OverlayFrom(eis: seq<ElemInfo>, cur: seq<Value>, v: seq<Value>, k: nat): (r: seq<Value>)
    requires Shaped(eis, cur) && Shaped(eis, v) && k <= |eis|
    ensures Shaped(eis, r)
    decreases |eis| - k
  {
    if k == |eis| then cur else OverlayFrom(eis, cur[k := OverlayAt(eis, cur, v, k)], v, k + 1)
  }

  lemma {:induction false} OverlayFromAt(eis: seq<ElemInfo>, cur: seq<Value>, v: seq<Value>, k: nat, i: nat)
    requires Shaped(eis, cur) && Shaped(eis, v) && k <= |eis| && i < |eis|
    ensures OverlayFrom(eis, cur, v, k)[i] == if i < k then cur[i] else OverlayAt(eis, cur, v, i)
    decreases |eis| - k
  {
    if k < |eis| {
      OverlayFromAt(eis, cur[k := OverlayAt(eis, cur, v, k)], v, k + 1, i);
    }
  }

  lemma {:induction false} OverlayFromStart(eis: seq<ElemInfo>, init: seq<Value>, v: seq<Value>)
    requires Shaped(eis, init) && Shaped(eis, v)
    ensures OverlayFrom(eis, init, v, 0) == Overlay(eis, init, v)
  {
    forall i | 0 <= i < |eis|
      ensures OverlayFrom(eis, init, v, 0)[i] == Overlay(eis, init, v)[i]
    {
      OverlayFromAt(eis, init, v, 0, i);
    }
  }

  ghost function StructsFrom(e: ElemInfo, xs: seq<seq<Value>>, ys: seq<seq<Value>>, k: nat,
                             count: nat): (r: seq<seq<Value>>)
    requires k <= count <= |xs| == |ys| && forall j :: 0 <= j < |xs| ==> Shaped(e.sub, xs[j]) && Shaped(e.sub, ys[j])
    ensures |r| == |xs| && forall j :: 0 <= j < |xs| ==> Shaped(e.sub, r[j])
    decreases count - k
  {
    if k == count then xs else StructsFrom(e, xs[k := Overlay(e.sub, xs[k], ys[k])], ys, k + 1, count)
  }

  lemma {:induction false} StructsFromAt(e: ElemInfo, xs: seq<seq<Value>>, ys: seq<seq<Value>>, k: nat, count: nat,
                                         j: nat)
    requires k <= count <= |xs| == |ys| && forall j :: 0 <= j < |xs| ==> Shaped(e.sub, xs[j]) && Shaped(e.sub, ys[j])
    requires j < |xs|
    ensures StructsFrom(e, xs, ys, k, count)[j] == if k <= j < count then Overlay(e.sub, xs[j], ys[j]) else xs[j]
    decreases count - k
  {
    if k < count {
      StructsFromAt(e, xs[k := Overlay(e.sub, xs[k], ys[k])], ys, k + 1, count, j);
    }
  }

  lemma {:induction false} StructsFromStart(e: ElemInfo, x0: Value, x: Value, used: nat)
    requires e.kind.Struct? && ShapedElem(e, x0) && ShapedElem(e, x) && used <= Slots(e)
    ensures Structs(StructsFrom(e, x0.structs, x.structs, 0, used)) == OverlayElem(e, x0, x, used)
  {
    forall j | 0 <= j < |x0.structs|
      ensures StructsFrom(e, x0.structs, x.structs, 0, used)[j] == OverlayElem(e, x0, x, used).structs[j]
    {
      StructsFromAt(e, x0.structs, x.structs, 0, used, j);
    }
  }

  // ----- Basic elements and strings -----

  lemma {:induction false} CutInverse(items: seq<seq<byte>>, size: nat)
    requires forall j :: 0 <= j < |items| ==> |items[j]| == size
    ensures |FlatItems(items)| == Span(|items|, size)
    ensures Cut(FlatItems(items), |items|, size) == items
  {
    FlatItemsLength(items, size);
    if items != [] {
      var k := |items| - 1;
      CutInverse(items[..k], size);
      FlatItemsAppend(items, k);
      assert items[..k + 1] == items;
      var bs, n := FlatItems(items), Span(k, size);
      assert bs[..n] == FlatItems(items[..k]) && bs[n..] == items[k];
    }
  }

  lemma {:induction false} SpanOfOne(count: nat)
    ensures Span(count, 1) == count
  {
    if count > 0 {
      SpanOfOne(count - 1);
    }
  }

  lemma {:induction false} TextLenInverse(e: ElemInfo, n: nat)
    requires n < e.elemLen && n < 65536
    ensures FromLE(LE(n, TextLenSize(e))) == n
  {
    LEInverse(n, TextLenSize(e));
  }

  lemma {:induction false} StringInverse(e: ElemInfo, text: seq<byte>, buf: seq<byte>, pos: nat, tlvLen: nat,
                                         level: nat)
    requires e.elemSize == 1 && |text| < e.elemLen && |text| < 65536 && level >= 1
    requires At(buf, pos, if level == 1 then text else LE(|text|, TextLenSize(e)) + text)
    requires if level == 1 then tlvLen == |text| else tlvLen >= |text|
    ensures DecodeString(e, buf, pos, tlvLen, level)
         == Ok((text, |text| + if level == 1 then 0 else TextLenSize(e)))
  {
    SpanOfOne(|text|);
    if level > 1 {
      TextLenInverse(e, |text|);
      AtConcat(buf, pos, LE(|text|, TextLenSize(e)), text);
    }
  }

  // ----- Nested structs -----

  /** The data element of the group that starts, behind its flag, at i. */
  function DataOf(eis: seq<ElemInfo>, i: nat): nat
    requires i < |eis|
  {
    if eis[i].kind.DataLen? then i + 1 else i
  }

  /** The bytes of the group that starts, behind its flag, at i. */
  ghost function GroupBytes(eis: seq<ElemInfo>, v: seq<Value>, i: nat, level: nat): (bs: seq<byte>)
    requires Shaped(eis, v) && i < |eis| && DataOf(eis, i) < |eis|
  {
    (if eis[i].kind.DataLen? then ElemBytes(eis, v, i, level) else []) + ElemBytes(eis, v, DataOf(eis, i), level)
  }

  /** The struct after the group at i has been received. */
  ghost function GroupOver(eis: seq<ElemInfo>, cur: seq<Value>, v: seq<Value>, i: nat): (r: seq<Value>)
    requires Shaped(eis, cur) && Shaped(eis, v) && i < |eis| && DataOf(eis, i) < |eis|
    ensures Shaped(eis, r)
  {
    cur[i := OverlayAt(eis, cur, v, i)][DataOf(eis, i) := OverlayAt(eis, cur, v, DataOf(eis, i))]
  }

  lemma {:induction false} GroupSplit(eis: seq<ElemInfo>, v: seq<Value>, cur: seq<Value>, idx: nat)
    requires NestedOk(eis) && Shaped(eis, v) && Shaped(eis, cur) && idx < |eis|
    ensures var d := DataOf(eis, idx);
      && d < |eis| && IsData(eis[d].kind)
      && NestedFrom(eis, v, idx) == GroupBytes(eis, v, idx, 2) + NestedFrom(eis, v, d + 1)
      && OverlayFrom(eis, cur, v, idx) == OverlayFrom(eis, GroupOver(eis, cur, v, idx), v, d + 1)
  {
    assert ElemOk(eis, idx);
    var d := DataOf(eis, idx);
    if d == idx + 1 {
      assert OverlayAt(eis, cur[idx := OverlayAt(eis, cur, v, idx)], v, d) == OverlayAt(eis, cur, v, d);
    } else {
      var y := OverlayAt(eis, cur, v, idx);
      assert cur[idx := y][idx := y] == cur[idx := y];
    }
  }

  /** Every group of a nested struct occupies at least one byte. */
  lemma {:induction false} GroupNotEmpty(eis: seq<ElemInfo>, v: seq<Value>, i: nat)
    requires NestedOk(eis) && Valid(eis, v) && i < |eis| && (i > 0 ==> !eis[i - 1].kind.DataLen?)
    requires DataOf(eis, i) < |eis|
    ensures |GroupBytes(eis, v, i, 2)| >= 1
    decreases eis, 0
  {
    assert ElemOk(eis, i) && ShapedElem(eis[i], v[i]) && ValidElem(eis, v, i);
    var e := eis[i];
    if e.kind.Struct? {
      var xs := v[i].structs;
      assert Valid(e.sub, xs[0]);
      NestedNotEmpty(e.sub, xs[0]);
      assert ElemBytes(eis, v, i, 2) == StructBytes(e, xs[..Slots(e)]);
      assert StructBytes(e, xs[..Slots(e)]) == NestedFrom(e.sub, xs[0], 0) + StructBytes(e, xs[..Slots(e)][1..]);
    } else if IsBasic(e.kind) {
      var items := v[i].items;
      assert ElemBytes(eis, v, i, 2) == FlatItems(items[..Slots(e)]);
      assert FlatItems(items[..Slots(e)]) == items[0] + FlatItems(items[..Slots(e)][1..]);
    }
    assert |ElemBytes(eis, v, i, 2)| >= 1;
  }

  lemma {:induction false} NestedNotEmpty(eis: seq<ElemInfo>, v: seq<Value>)
    requires NestedOk(eis) && Valid(eis, v)
    ensures |NestedFrom(eis, v, 0)| >= 1
    decreases eis, 1
  {
    GroupSplit(eis, v, v, 0);
    GroupNotEmpty(eis, v, 0);
  }

  /** No count still held from before reaches beyond a length element of the table. */
  ghost predicate Fresh(eis: seq<ElemInfo>, dataLen: nat) {
    forall i :: 0 <= i < |eis| && eis[i].kind.DataLen? ==> dataLen < Limit(LenSize(eis[i]))
  }

  lemma {:induction false} SlotsFresh(eis: seq<ElemInfo>, d: nat, dataLen: nat)
    requires LenSafe(eis) && d < |eis| && (eis[d].arrayType.NoArray? ==> dataLen <= 1)
    requires !eis[d].arrayType.NoArray? ==> dataLen <= eis[d].elemLen
    ensures Fresh(eis, dataLen)
  {
  }

  /** One struct of an array. */
  lemma {:induction false} StructStep(e: ElemInfo, x: seq<Value>, y: seq<Value>, rest: seq<byte>, buf: seq<byte>,
                                      pos: nat,
                   inLen: nat, level: nat)
    requires level >= 2 && NestedOk(e.sub) && Shaped(e.sub, x) && Valid(e.sub, y)
    requires At(buf, pos, NestedFrom(e.sub, y, 0) + rest) && |NestedFrom(e.sub, y, 0)| < 65536
    requires |NestedFrom(e.sub, y, 0)| + |rest| <= inLen < 0x1_0000_0000
    ensures var bs := NestedFrom(e.sub, y, 0);
      |bs| >= 1 && At(buf, pos + |bs|, rest)
      && DecodeList(e.sub, x, buf, pos, inLen, level, 0, 0, 0) == Ok((Overlay(e.sub, x, y), |bs|))
    decreases e, 0, 0
  {
    AtConcat(buf, pos, NestedFrom(e.sub, y, 0), rest);
    NestedNotEmpty(e.sub, y);
    OverlayFromStart(e.sub, x, y);
    NestedInverse(e.sub, x, y, buf, pos, inLen, level, 0, 0, 0);
  }

  lemma {:induction false} StructsInverse(e: ElemInfo, xs: seq<seq<Value>>, ys: seq<seq<Value>>, buf: seq<byte>,
                                          pos: nat,
                                          count: nat, tlvLen: nat, level: nat, i: nat, decoded: nat)
    requires i <= count <= |xs| == |ys| && level >= 2 && NestedOk(e.sub)
    requires forall j :: 0 <= j < |xs| ==> Shaped(e.sub, xs[j]) && Shaped(e.sub, ys[j])
    requires forall j :: 0 <= j < count ==> Valid(e.sub, ys[j])
    requires At(buf, pos + decoded, StructBytes(e, ys[i..count])) && |StructBytes(e, ys[i..count])| < 65536
    requires var total := decoded + |StructBytes(e, ys[i..count])|;
             tlvLen < 0x1_0000_0000 && if level == 2 then tlvLen == total else tlvLen >= total
    ensures DecodeStructs(e, xs, buf, pos, count, tlvLen, level, i, decoded)
         == Ok((StructsFrom(e, xs, ys, i, count), decoded + |StructBytes(e, ys[i..count])|))
    decreases e, 1, count - i
  {
    hide OverlayAt; hide OverlayElem; hide Overlay; hide NestedFrom; hide NestedOk; hide Valid; hide DecodeList;
    if i < count {
      assert ys[i..count][1..] == ys[i + 1..count];
      var bs, rest := NestedFrom(e.sub, ys[i], 0), StructBytes(e, ys[i + 1..count]);
      assert StructBytes(e, ys[i..count]) == bs + rest;
      StructStep(e, xs[i], ys[i], rest, buf, pos + decoded, tlvLen - decoded, level);
      StructsInverse(e, xs[i := Overlay(e.sub, xs[i], ys[i])], ys, buf, pos, count, tlvLen, level, i + 1, decoded + |bs|);
    } else {
      assert ys[i..count] == [];
    }
  }

  lemma {:induction false} BasicInverse(eis: seq<ElemInfo>, x: Value, cur: seq<Value>, buf: seq<byte>, pos: nat, i: nat,
                     dataLen: nat, used: nat, tlvLen: nat, level: nat)
    requires Shaped(eis, cur) && i < |eis| && IsBasic(eis[i].kind)
    requires ShapedElem(eis[i], x) && ShapedElem(eis[i], cur[i])
    requires used == SlotsUsed(eis[i], dataLen) <= Slots(eis[i])
    requires At(buf, pos, DataBytes(eis[i], x, used, level))
    ensures DecodeData(eis, cur, buf, pos, i, dataLen, tlvLen, level)
         == Ok(Progress(cur[i := OverlayElem(eis[i], cur[i], x, used)], i + 1, used,
                        |DataBytes(eis[i], x, used, level)|))
  {
    CutInverse(x.items[..used], eis[i].elemSize);
  }

  lemma {:induction false} TextInverse(eis: seq<ElemInfo>, x: Value, cur: seq<Value>, buf: seq<byte>, pos: nat, i: nat,
                    dataLen: nat, tlvLen: nat, level: nat)
    requires Shaped(eis, cur) && i < |eis| && eis[i].kind.String? && ElemOk(eis, i) && level >= 1
    requires ShapedElem(eis[i], x) && ShapedElem(eis[i], cur[i]) && |x.text| < eis[i].elemLen
    requires var bs := DataBytes(eis[i], x, 1, level);
             At(buf, pos, bs) && |bs| < 65536 && tlvLen < 0x1_0000_0000 && if level == 1 then tlvLen == |bs| else tlvLen >= |bs|
    ensures DecodeData(eis, cur, buf, pos, i, dataLen, tlvLen, level)
         == Ok(Progress(cur[i := x], i + 1, 1, |DataBytes(eis[i], x, 1, level)|))
  {
    StringInverse(eis[i], x.text, buf, pos, tlvLen, level);
  }

  lemma {:induction false} StructInverse(eis: seq<ElemInfo>, x: Value, cur: seq<Value>, buf: seq<byte>, pos: nat,
                                         i: nat,
                      dataLen: nat, used: nat, tlvLen: nat, level: nat)
    requires Shaped(eis, cur) && i < |eis| && eis[i].kind.Struct? && NestedOk(eis[i].sub) && level >= 1
    requires ShapedElem(eis[i], x) && ShapedElem(eis[i], cur[i])
    requires used == SlotsUsed(eis[i], dataLen) <= Slots(eis[i])
    requires forall j :: 0 <= j < used ==> Valid(eis[i].sub, x.structs[j])
    requires var bs := DataBytes(eis[i], x, used, level);
             At(buf, pos, bs) && |bs| < 65536 && tlvLen < 0x1_0000_0000 && if level == 1 then tlvLen == |bs| else tlvLen >= |bs|
    ensures DecodeData(eis, cur, buf, pos, i, dataLen, tlvLen, level)
         == Ok(Progress(cur[i := OverlayElem(eis[i], cur[i], x, used)], i + 1, used,
                        |DataBytes(eis[i], x, used, level)|))
    decreases eis, 0
  {
    var e, xs, ys := eis[i], cur[i].structs, x.structs;
    assert ys[0..used] == ys[..used];
    StructsInverse(e, xs, ys, buf, pos, used, tlvLen, level + 1, 0, 0);
    StructsFromStart(e, cur[i], x, used);
  }

  /** Decoding the bytes of a data element brings back its used slots and consumes just them. */
  lemma {:induction false} DataInverse(eis: seq<ElemInfo>, v: seq<Value>, cur: seq<Value>, buf: seq<byte>, pos: nat,
                                       i: nat,
                    dataLen: nat, tlvLen: nat, level: nat)
    requires Shaped(eis, v) && Shaped(eis, cur) && i < |eis| && IsData(eis[i].kind) && level >= 1
    requires ElemOk(eis, i) && ValidElem(eis, v, i)
    requires Used(eis, v, i) == SlotsUsed(eis[i], dataLen) <= Slots(eis[i])
    requires ShapedElem(eis[i], v[i]) && ShapedElem(eis[i], cur[i])
    requires var bs := DataBytes(eis[i], v[i], Used(eis, v, i), level);
             At(buf, pos, bs) && |bs| < 65536 && tlvLen < 0x1_0000_0000 && if level == 1 then tlvLen == |bs| else tlvLen >= |bs|
    ensures DecodeData(eis, cur, buf, pos, i, dataLen, tlvLen, level)
         == Ok(Progress(cur[i := OverlayElem(eis[i], cur[i], v[i], Used(eis, v, i))], i + 1, Used(eis, v, i),
                        |DataBytes(eis[i], v[i], Used(eis, v, i), level)|))
    decreases eis, 1
  {
    if eis[i].kind.Struct? {
      StructInverse(eis, v[i], cur, buf, pos, i, dataLen, Used(eis, v, i), tlvLen, level);
    } else if eis[i].kind.String? {
      TextInverse(eis, v[i], cur, buf, pos, i, dataLen, tlvLen, level);
    } else {
      BasicInverse(eis, v[i], cur, buf, pos, i, dataLen, Used(eis, v, i), tlvLen, level);
    }
  }

  lemma {:induction false} LenInverse(e: ElemInfo, n: nat, dataLen: nat)
    requires n < Limit(LenSize(e)) && dataLen < Limit(LenSize(e))
    ensures SetLow(dataLen, FromLE(LE(n, LenSize(e))), LenSize(e)) == n
  {
    LEInverse(n, LenSize(e));
  }

  lemma {:induction false} CountedGroup(eis: seq<ElemInfo>, v: seq<Value>, cur: seq<Value>, buf: seq<byte>, pos: nat,
                                        i: nat,
                     dataLen: nat, tlvLen: nat, level: nat)
    requires Shaped(eis, v) && Shaped(eis, cur) && i + 1 < |eis| && eis[i].kind.DataLen? && level >= 1
    requires ElemOk(eis, i) && ValidElem(eis, v, i) && dataLen < Limit(LenSize(eis[i]))
    requires ElemOk(eis, i + 1) && ValidElem(eis, v, i + 1)
    requires ShapedElem(eis[i], v[i]) && ShapedElem(eis[i + 1], v[i + 1]) && ShapedElem(eis[i + 1], cur[i + 1])
    requires v[i].n <= Slots(eis[i + 1])
    requires var bs := LE(v[i].n, LenSize(eis[i])) + DataBytes(eis[i + 1], v[i + 1], v[i].n, level);
             At(buf, pos, bs) && |bs| < 65536 && tlvLen < 0x1_0000_0000
             && if level == 1 then tlvLen == |bs| else tlvLen >= |bs|
    ensures DecodeLenData(eis, cur, buf, pos, i, dataLen, tlvLen, level)
         == Ok(Progress(cur[i := v[i]][i + 1 := OverlayElem(eis[i + 1], cur[i + 1], v[i + 1], v[i].n)], i + 2, v[i].n,
                        LenSize(eis[i]) + |DataBytes(eis[i + 1], v[i + 1], v[i].n, level)|))
    decreases eis, 2
  {
    hide DataBytes; hide DecodeData; hide OverlayElem; hide ValidElem; hide Overlay;
    var w, n := LenSize(eis[i]), v[i].n;
    LenInverse(eis[i], n, dataLen);
    AtConcat(buf, pos, LE(n, w), DataBytes(eis[i + 1], v[i + 1], n, level));
    DataInverse(eis, v, cur[i := v[i]], buf, pos + w, i + 1, n, Sub32(tlvLen, w), level);
  }

  /** The previous count leaves the length at i, if there is one there, readable. */
  ghost predicate CountFits(eis: seq<ElemInfo>, i: nat, dataLen: nat)
    requires i < |eis|
  {
    eis[i].kind.DataLen? ==> dataLen < Limit(LenSize(eis[i]))
  }

  /** The decoder stands before the group at i, behind its flag, and the group's bytes follow. */
  ghost predicate GroupAt(eis: seq<ElemInfo>, v: seq<Value>, cur: seq<Value>, buf: seq<byte>, pos: nat, i: nat,
                          dataLen: nat, tlvLen: nat, level: nat)
  {
    && Shaped(eis, v) && Shaped(eis, cur) && i < |eis| && !eis[i].kind.OptFlag? && level >= 1
    && ElemOk(eis, i) && ValidElem(eis, v, i) && CountFits(eis, i, dataLen)
    && DataOf(eis, i) < |eis| && ElemOk(eis, DataOf(eis, i)) && ValidElem(eis, v, DataOf(eis, i))
    && (i > 0 ==> !eis[i - 1].kind.DataLen?)
    && var bs := GroupBytes(eis, v, i, level);
       At(buf, pos, bs) && |bs| < 65536 && tlvLen < 0x1_0000_0000
       && if level == 1 then tlvLen == |bs| else tlvLen >= |bs|
  }

  /** A whole group, at any depth. */
  lemma {:induction false} GroupInverse(eis: seq<ElemInfo>, v: seq<Value>, cur: seq<Value>, buf: seq<byte>, pos: nat,
                                        i: nat,
                     dataLen: nat, tlvLen: nat, level: nat)
    requires GroupAt(eis, v, cur, buf, pos, i, dataLen, tlvLen, level)
    ensures var d := DataOf(eis, i);
      && Used(eis, v, d) <= Slots(eis[d])
      && DecodeLenData(eis, cur, buf, pos, i, dataLen, tlvLen, level)
         == Ok(Progress(GroupOver(eis, cur, v, i), d + 1, Used(eis, v, d), |GroupBytes(eis, v, i, level)|))
    decreases eis, 3
  {
    hide Overlay; hide OverlayElem; hide DecodeData; hide DataBytes; hide NestedOk; hide Valid;
    var d := DataOf(eis, i);
    assert ShapedElem(eis[i], v[i]) && ShapedElem(eis[d], v[d]) && ShapedElem(eis[d], cur[d]);
    if eis[i].kind.DataLen? {
      CountedGroup(eis, v, cur, buf, pos, i, dataLen, tlvLen, level);
    } else {
      assert GroupBytes(eis, v, i, level) == DataBytes(eis[i], v[i], Used(eis, v, i), level);
      DataInverse(eis, v, cur, buf, pos, i, dataLen, tlvLen, level);
      var y := OverlayAt(eis, cur, v, i);
      assert cur[i := y][i := y] == cur[i := y];
    }
  }

  /** Below the top level the depth makes no difference to the bytes. */
  lemma {:induction false} DeepBytes(eis: seq<ElemInfo>, v: seq<Value>, i: nat, level: nat)
    requires Shaped(eis, v) && i < |eis| && level >= 2
    ensures ElemBytes(eis, v, i, level) == ElemBytes(eis, v, i, 2)
  {
    assert ShapedElem(eis[i], v[i]);
    if IsData(eis[i].kind) && Used(eis, v, i) <= Slots(eis[i]) {
      assert DataBytes(eis[i], v[i], Used(eis, v, i), level) == DataBytes(eis[i], v[i], Used(eis, v, i), 2);
    }
  }

  /** The decoder stands before element idx of a nested struct and the bytes from there on follow. */
  ghost predicate NestedAt(eis: seq<ElemInfo>, cur: seq<Value>, v: seq<Value>, buf: seq<byte>, pos: nat,
                           inLen: int, level: nat, idx: nat, dataLen: nat)
  {
    && NestedOk(eis) && Valid(eis, v) && Shaped(eis, cur) && level >= 2 && inLen < 0x1_0000_0000
    && idx <= |eis| && (idx > 0 ==> !eis[idx - 1].kind.DataLen?) && Fresh(eis, dataLen)
    && At(buf, pos, NestedFrom(eis, v, idx)) && |NestedFrom(eis, v, idx)| < 65536
    && |NestedFrom(eis, v, idx)| <= inLen
  }

  lemma {:induction false} NestedGroupAt(eis: seq<ElemInfo>, cur: seq<Value>, v: seq<Value>, buf: seq<byte>, pos: nat,
                      inLen: nat, level: nat, idx: nat, dataLen: nat)
    requires NestedAt(eis, cur, v, buf, pos, inLen, level, idx, dataLen) && idx < |eis|
    requires DataOf(eis, idx) < |eis|
    requires NestedFrom(eis, v, idx) == GroupBytes(eis, v, idx, 2) + NestedFrom(eis, v, DataOf(eis, idx) + 1)
    ensures GroupAt(eis, v, cur, buf, pos, idx, dataLen, inLen, level)
    ensures GroupBytes(eis, v, idx, level) == GroupBytes(eis, v, idx, 2)
    ensures At(buf, pos + |GroupBytes(eis, v, idx, 2)|, NestedFrom(eis, v, DataOf(eis, idx) + 1))
  {
    hide OverlayAt; hide OverlayElem; hide Overlay; hide ElemBytes;
    var d := DataOf(eis, idx);
    assert ElemOk(eis, idx) && ValidElem(eis, v, idx) && ElemOk(eis, d) && ValidElem(eis, v, d);
    AtConcat(buf, pos, GroupBytes(eis, v, idx, 2), NestedFrom(eis, v, d + 1));
    DeepBytes(eis, v, idx, level);
    DeepBytes(eis, v, d, level);
  }

  /** One group of a nested struct. */
  lemma {:induction false} NestedStep(eis: seq<ElemInfo>, cur: seq<Value>, v: seq<Value>, buf: seq<byte>, pos: nat,
                   inLen: nat, level: nat, idx: nat, dataLen: nat)
    requires NestedAt(eis, cur, v, buf, pos, inLen, level, idx, dataLen) && idx < |eis|
    requires DataOf(eis, idx) < |eis| && IsData(eis[DataOf(eis, idx)].kind)
    requires NestedFrom(eis, v, idx) == GroupBytes(eis, v, idx, 2) + NestedFrom(eis, v, DataOf(eis, idx) + 1)
    ensures var d, n := DataOf(eis, idx), |GroupBytes(eis, v, idx, 2)|;
      && n >= 1
      && DecodeElem(eis, cur, buf, pos, idx, dataLen, inLen, level)
         == Ok(Progress(GroupOver(eis, cur, v, idx), d + 1, Used(eis, v, d), n))
      && NestedAt(eis, GroupOver(eis, cur, v, idx), v, buf, pos + n, inLen - n, level, d + 1, Used(eis, v, d))
    decreases eis, 4
  {
    NestedGroupAt(eis, cur, v, buf, pos, inLen, level, idx, dataLen);
    GroupNotEmpty(eis, v, idx);
    GroupInverse(eis, v, cur, buf, pos, idx, dataLen, inLen, level);
    SlotsFresh(eis, DataOf(eis, idx), Used(eis, v, DataOf(eis, idx)));
  }

  /** One turn of the decoder's loop below the top level. */
  lemma {:induction false} ListStep(eis: seq<ElemInfo>, cur: seq<Value>, buf: seq<byte>, pos: nat, inLen: nat,
                                    level: nat,
                 idx: nat, dataLen: nat, done: nat, q: Progress)
    requires Shaped(eis, cur) && level >= 2 && done < inLen && idx < |eis|
    requires DecodeElem(eis, cur, buf, pos + done, idx, dataLen, inLen - done, level) == Ok(q)
    ensures Shaped(eis, q.vals) && q.idx <= |eis|
    ensures DecodeList(eis, cur, buf, pos, inLen, level, idx, dataLen, done)
         == DecodeList(eis, q.vals, buf, pos, inLen, level, q.idx, q.dataLen, done + q.consumed)
  {
  }

  lemma {:induction false} NestedInverse(eis: seq<ElemInfo>, cur: seq<Value>, v: seq<Value>, buf: seq<byte>, pos: nat,
                                         inLen: nat, level: nat, idx: nat, dataLen: nat, done: nat)
    requires NestedAt(eis, cur, v, buf, pos + done, inLen - done, level, idx, dataLen)
    ensures DecodeList(eis, cur, buf, pos, inLen, level, idx, dataLen, done)
         == Ok((OverlayFrom(eis, cur, v, idx), done + |NestedFrom(eis, v, idx)|))
    decreases eis, 5, |eis| - idx
  {
    hide OverlayAt; hide OverlayElem; hide Overlay; hide ElemBytes; hide DecodeElem; hide ElemOk;
    if idx < |eis| {
      GroupSplit(eis, v, cur, idx);
      NestedStep(eis, cur, v, buf, pos + done, inLen - done, level, idx, dataLen);
      var d, n := DataOf(eis, idx), |GroupBytes(eis, v, idx, 2)|;
      var q := Progress(GroupOver(eis, cur, v, idx), d + 1, Used(eis, v, d), n);
      ListStep(eis, cur, buf, pos, inLen, level, idx, dataLen, done, q);
      NestedInverse(eis, q.vals, v, buf, pos, inLen, level, d + 1, q.dataLen, done + n);
    }
  }
}
