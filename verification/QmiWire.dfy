/** The wire format, stated without reference to the encoder: a message is one
    type-length-value frame per group that is present; inside a frame, nested
    structs are laid end to end without frames of their own. */
module QmiWire {
  import opened Bytes
  import opened QmiTypes

  datatype Frame = Frame(tlvType: byte, payload: seq<byte>)

  function FlatItems(items: seq<seq<byte>>): (bs: seq<byte>) {
    if items == [] then [] else items[0] + FlatItems(items[1..])
  }

  /** How many slots of element i the struct uses. */
  ghost function Used(eis: seq<ElemInfo>, v: seq<Value>, i: nat): (k: nat)
    requires Shaped(eis, v) && i < |eis|
  {
    if eis[i].arrayType.VarLenArray? then
      if i > 0 && v[i - 1].Count? then v[i - 1].n else 0
    else Slots(eis[i])
  }

  /** Counts stay within their arrays and strings leave room for their terminator. */
  ghost predicate Valid(eis: seq<ElemInfo>, v: seq<Value>)
    decreases eis, 1
  {
    Shaped(eis, v) && forall i :: 0 <= i < |eis| ==> ValidElem(eis, v, i)
  }

  ghost predicate ValidElem(eis: seq<ElemInfo>, v: seq<Value>, i: nat)
    requires Shaped(eis, v) && i < |eis|
    decreases eis, 0
  {
    assert ShapedElem(eis[i], v[i]);
    if eis[i].kind.DataLen? then i + 1 < |eis| && v[i].n <= eis[i + 1].elemLen
    else if eis[i].kind.String? then |v[i].text| < eis[i].elemLen
    else if eis[i].kind.Struct? then
      forall j :: 0 <= j < |v[i].structs| && j < Used(eis, v, i) ==> Valid(eis[i].sub, v[i].structs[j])
    else true
  }

  /** The bytes of the used slots of a data member. */
  ghost function DataBytes(e: ElemInfo, x: Value, used: nat, level: nat): (bs: seq<byte>)
    requires IsData(e.kind) && ShapedElem(e, x) && used <= Slots(e)
    decreases e
  {
    if e.kind.String? then
      if level == 1 then x.text else LE(|x.text|, TextLenSize(e)) + x.text
    else if e.kind.Struct? then StructBytes(e, x.structs[..used])
    else FlatItems(x.items[..used])
  }

  ghost function StructBytes(e: ElemInfo, xs: seq<seq<Value>>): (bs: seq<byte>)
    requires forall j :: 0 <= j < |xs| ==> Shaped(e.sub, xs[j])
    decreases e, 0, |xs|
  {
    if xs == [] then [] else NestedFrom(e.sub, xs[0], 0) + StructBytes(e, xs[1..])
  }

  /** What element i contributes: a length its count, a data element its used slots. */
  ghost function ElemBytes(eis: seq<ElemInfo>, v: seq<Value>, i: nat, level: nat): (bs: seq<byte>)
    requires Shaped(eis, v) && i < |eis|
    decreases eis, 0
  {
    assert ShapedElem(eis[i], v[i]);
    if eis[i].kind.OptFlag? then []
    else if eis[i].kind.DataLen? then LE(v[i].n, LenSize(eis[i]))
    else if Used(eis, v, i) <= Slots(eis[i]) then DataBytes(eis[i], v[i], Used(eis, v, i), level)
    else []
  }

  /** The bytes of a nested struct from element i on. */
  ghost function NestedFrom(eis: seq<ElemInfo>, v: seq<Value>, i: nat): (bs: seq<byte>)
    requires Shaped(eis, v) && i <= |eis|
    decreases eis, 1, |eis| - i
  {
    if i == |eis| then [] else ElemBytes(eis, v, i, 2) + NestedFrom(eis, v, i + 1)
  }

  /** Is the group of element i sent? It is unless its flag says otherwise. */
  ghost predicate Present(eis: seq<ElemInfo>, v: seq<Value>, i: nat)
    requires Shaped(eis, v) && i < |eis|
  {
    assert forall k :: 0 <= k < |eis| ==> ShapedElem(eis[k], v[k]);
    if eis[i].kind.OptFlag? then v[i].on != 0
    else if i >= 1 && eis[i - 1].kind.OptFlag? then v[i - 1].on != 0
    else if i >= 2 && eis[i - 1].kind.DataLen? && eis[i - 2].kind.OptFlag? then v[i - 2].on != 0
    else true
  }

  /** The frame of the group whose data element is d. */
  ghost function FrameAt(eis: seq<ElemInfo>, v: seq<Value>, d: nat): (f: Frame)
    requires Shaped(eis, v) && d < |eis|
  {
    Frame(eis[d].tlvType,
          (if d > 0 && eis[d - 1].kind.DataLen? then ElemBytes(eis, v, d - 1, 1) else [])
          + ElemBytes(eis, v, d, 1))
  }

  /** The frames of the message from element i on, in table order. */
  ghost function FramesFrom(eis: seq<ElemInfo>, v: seq<Value>, i: nat): (fs: seq<Frame>)
    requires Shaped(eis, v) && i <= |eis|
    decreases |eis| - i
  {
    if i == |eis| then []
    else if IsData(eis[i].kind) && Present(eis, v, i)
    then [FrameAt(eis, v, i)] + FramesFrom(eis, v, i + 1)
    else FramesFrom(eis, v, i + 1)
  }

  ghost function Frames(eis: seq<ElemInfo>, v: seq<Value>): (fs: seq<Frame>)
    requires Shaped(eis, v)
  {
    FramesFrom(eis, v, 0)
  }

  /** Type, 16-bit length, value. */
  function FrameBytes(f: Frame): (bs: seq<byte>)
    ensures |bs| == TLV_HEADER + |f.payload|
  {
    [f.tlvType] + LE(|f.payload|, 2) + f.payload
  }

  function Flat(fs: seq<Frame>): (bs: seq<byte>) {
    if fs == [] then [] else FrameBytes(fs[0]) + Flat(fs[1..])
  }

  /** The encoding of a whole struct at the given depth. */
  ghost function Wire(eis: seq<ElemInfo>, v: seq<Value>, level: nat): (bs: seq<byte>)
    requires Shaped(eis, v)
  {
    if level == 1 then Flat(Frames(eis, v)) else NestedFrom(eis, v, 0)
  }

  /** Table and struct a caller may hand to the codec; what is not sent may hold anything. */
  ghost predicate Sendable(eis: seq<ElemInfo>, v: seq<Value>, level: nat) {
    if level == 1 then
      && TableOk(eis) && Shaped(eis, v)
      && forall i :: 0 <= i < |eis| && Present(eis, v, i) ==> ValidElem(eis, v, i)
    else NestedOk(eis) && Valid(eis, v)
  }
}
