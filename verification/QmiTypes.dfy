/** Element descriptors of QMI messages and the C structs they describe (libqrtr.h, qmi.c).

    A descriptor table is the sequence of its elements without the QMI_EOTI
    terminator, whose tlv_type is 0. A C struct is the sequence of its members,
    one per table element, so the element's index plays the part of its offset. */
module QmiTypes {
  import opened Bytes
  import opened Common

  datatype Kind =
    | OptFlag | DataLen
    | Unsigned1 | Unsigned2 | Unsigned4 | Unsigned8
    | SignedEnum1 | SignedEnum2 | SignedEnum4
    | Struct | String

  datatype ArrayType = NoArray | StaticArray | VarLenArray

  datatype ElemInfo = ElemInfo(
    kind: Kind, elemLen: nat, elemSize: nat, arrayType: ArrayType,
    tlvType: byte, sub: seq<ElemInfo>)

  /** One member of a C struct. Arrays hold all their slots, used or not. */
  datatype Value =
    | Flag(on: byte)
    | Count(n: nat)
    | Items(items: seq<seq<byte>>)
    | Structs(structs: seq<seq<Value>>)
    | Text(text: seq<byte>)

  datatype Errno = EINVAL | EFAULT | EMSGSIZE

  /** Overrun stands for a read outside the input buffer, where C leaves the result open. */
  datatype Result<+T> = Ok(value: T) | Err(errno: Errno) | Overrun

  const TLV_HEADER := 3
  const OPTIONAL_TLV_TYPE_START := 0x10

  predicate IsBasic(k: Kind) {
    !k.OptFlag? && !k.DataLen? && !k.Struct? && !k.String?
  }

  predicate IsData(k: Kind) {
    !k.OptFlag? && !k.DataLen?
  }

  /** Width on the wire of a QMI_DATA_LEN element. */
  function LenSize(e: ElemInfo): nat {
    if e.elemSize == 1 then 1 else 2
  }

  /** Width of the length in front of a nested string. */
  function TextLenSize(e: ElemInfo): nat {
    if e.elemLen <= 256 then 1 else 2
  }

  /** uint32_t subtraction. */
  function Sub32(a: int, b: int): (r: nat)
    ensures 0 <= a - b < 0x1_0000_0000 ==> r == a - b
    ensures -0x1_0000_0000 <= a - b < 0 ==> r == a - b + 0x1_0000_0000
  {
    (a - b) % 0x1_0000_0000
  }

  /** The low byte, two bytes or four bytes of prev replaced by those of n. */
  function SetLow1(prev: nat, n: nat): (r: nat)
    ensures prev < 0x100 && n < 0x100 ==> r == n
    ensures prev >= 0x100 ==> r >= 0x100
  {
    prev - prev % 0x100 + n % 0x100
  }

  function SetLow2(prev: nat, n: nat): (r: nat)
    ensures prev < 0x1_0000 && n < 0x1_0000 ==> r == n
    ensures prev >= 0x1_0000 ==> r >= 0x1_0000
  {
    prev - prev % 0x1_0000 + n % 0x1_0000
  }

  function SetLow4(prev: nat, n: nat): (r: nat)
    ensures prev < 0x1_0000_0000 && n < 0x1_0000_0000 ==> r == n
    ensures prev >= 0x1_0000_0000 ==> r >= 0x1_0000_0000
  {
    prev - prev % 0x1_0000_0000 + n % 0x1_0000_0000
  }

  /** A counter whose low w bytes have been overwritten with those of n. */
  function SetLow(prev: nat, n: nat, w: nat): (r: nat)
    ensures prev < Limit(w) && n < Limit(w) ==> r == n
    ensures prev >= Limit(w) ==> r >= Limit(w)
  {
    if w == 1 then SetLow1(prev, n) else if w == 2 then SetLow2(prev, n) else SetLow4(prev, n)
  }

  /** Number of slots the member has in the C struct. */
  function Slots(e: ElemInfo): nat {
    if e.arrayType.NoArray? then 1 else e.elemLen
  }

  /** The struct v has the members the table eis describes. */
  ghost predicate Shaped(eis: seq<ElemInfo>, v: seq<Value>)
    decreases eis
  {
    |v| == |eis| && forall i :: 0 <= i < |eis| ==> ShapedElem(eis[i], v[i])
  }

  ghost predicate ShapedElem(e: ElemInfo, x: Value)
    decreases e
  {
    if e.kind.OptFlag? then x.Flag?
    else if e.kind.DataLen? then x.Count?
    else if e.kind.String? then x.Text?
    else if e.kind.Struct? then
      && x.Structs? && |x.structs| == Slots(e)
      && forall j :: 0 <= j < |x.structs| ==> Shaped(e.sub, x.structs[j])
    else
      && x.Items? && |x.items| == Slots(e)
      && forall j :: 0 <= j < |x.items| ==> |x.items[j]| == e.elemSize
  }

  /** What every table must obey at every depth: a length element is directly followed by
      the variable array it counts, whose capacity it can express, and so on. */
  ghost predicate ElemOk(eis: seq<ElemInfo>, i: nat)
    requires i < |eis|
    decreases eis, 0
  {
    var e := eis[i];
    if e.kind.OptFlag? then
      e.arrayType.NoArray? && i + 1 < |eis| && !eis[i + 1].kind.OptFlag?
    else if e.kind.DataLen? then
      && e.arrayType.NoArray? && (e.elemSize == 1 || e.elemSize == 2 || e.elemSize == 4)
      && i + 1 < |eis| && IsData(eis[i + 1].kind) && eis[i + 1].arrayType.VarLenArray?
      && eis[i + 1].elemLen < Limit(LenSize(e))
    else if e.kind.String? then
      e.arrayType.NoArray? && e.elemSize == 1
    else
      && Slots(e) >= 1
      && (e.arrayType.VarLenArray? ==> i > 0 && eis[i - 1].kind.DataLen?)
      && (if e.kind.Struct? then NestedOk(e.sub) else e.elemSize >= 1)
  }

  /** The decoder keeps the high bytes of the previous element count when it reads a narrower
      length, so no array of the table may count beyond what any length of the table holds. */
  ghost predicate LenSafe(eis: seq<ElemInfo>) {
    forall i, j :: 0 <= i < |eis| && 0 <= j < |eis| && eis[i].kind.DataLen? && !eis[j].arrayType.NoArray?
      ==> eis[j].elemLen < Limit(LenSize(eis[i]))
  }

  /** A well-formed table of a nested struct: not empty, nothing optional. */
  ghost predicate NestedOk(eis: seq<ElemInfo>)
    decreases eis, 1
  {
    && eis != []
    && LenSafe(eis)
    && forall i :: 0 <= i < |eis| ==> !eis[i].kind.OptFlag? && ElemOk(eis, i)
  }

  /** A well-formed message table: every group (flag, length, data) has its own type. */
  ghost predicate GroupOk(eis: seq<ElemInfo>, i: nat)
    requires i < |eis|
  {
    if IsData(eis[i].kind) then
      forall k :: i < k < |eis| ==> eis[k].tlvType != eis[i].tlvType
    else
      i + 1 < |eis| && eis[i + 1].tlvType == eis[i].tlvType && eis[i].tlvType != 0
  }

  ghost predicate TableOk(eis: seq<ElemInfo>) {
    forall i :: 0 <= i < |eis| ==> ElemOk(eis, i) && GroupOk(eis, i)
  }
}
