/** The room the encoder of qmi.c asks for. Lengths and basic elements are refused unless three more bytes,
    for a frame header, would fit behind them; strings in nested structs are not. */
module QmiRoom {
  import opened Bytes
  import opened Common
  import opened QmiTypes
  import opened QmiWire

  function Max(a: nat, b: nat): nat {
    if a < b then b else a
  }

  // ----- Nested structs -----

  /** The room that element i of a nested struct needs, from where its bytes begin. */
  ghost function NeedElem(eis: seq<ElemInfo>, v: seq<Value>, i: nat): nat
    requires Shaped(eis, v) && i < |eis|
    decreases eis, 0
  {
    assert ShapedElem(eis[i], v[i]);
    if eis[i].kind.OptFlag? then 0
    else if eis[i].kind.DataLen? then LenSize(eis[i]) + TLV_HEADER
    else if eis[i].kind.String? then |ElemBytes(eis, v, i, 2)|
    else if Used(eis, v, i) == 0 || Used(eis, v, i) > Slots(eis[i]) then 0
    else if eis[i].kind.Struct? then NeedStructs(eis[i], v[i].structs[..Used(eis, v, i)])
    else |ElemBytes(eis, v, i, 2)| + TLV_HEADER
  }

  ghost function NeedStructs(e: ElemInfo, xs: seq<seq<Value>>): nat
    requires forall j :: 0 <= j < |xs| ==> Shaped(e.sub, xs[j])
    decreases e, 0, |xs|
  {
    if xs == [] then 0
    else Max(NeedFrom(e.sub, xs[0], 0), |NestedFrom(e.sub, xs[0], 0)| + NeedStructs(e, xs[1..]))
  }

  /** The room that a nested struct needs from element i on. */
  ghost function NeedFrom(eis: seq<ElemInfo>, v: seq<Value>, i: nat): nat
    requires Shaped(eis, v) && i <= |eis|
    decreases eis, 1, |eis| - i
  {
    if i == |eis| then 0 else Max(NeedElem(eis, v, i), |ElemBytes(eis, v, i, 2)| + NeedFrom(eis, v, i + 1))
  }

  /** The last byte sent from element i on is that of a length or a basic element, not of a string. */
  ghost predicate FirmFrom(eis: seq<ElemInfo>, v: seq<Value>, i: nat)
    requires Shaped(eis, v) && i <= |eis|
    decreases eis, 1, |eis| - i
  {
    i < |eis| && (FirmFrom(eis, v, i + 1) || (NestedFrom(eis, v, i + 1) == [] && FirmElem(eis, v, i)))
  }

  ghost predicate FirmElem(eis: seq<ElemInfo>, v: seq<Value>, i: nat)
    requires Shaped(eis, v) && i < |eis|
    decreases eis, 0
  {
    assert ShapedElem(eis[i], v[i]);
    if eis[i].kind.OptFlag? then false
    else if eis[i].kind.DataLen? then true
    else if eis[i].kind.String? || Used(eis, v, i) == 0 || Used(eis, v, i) > Slots(eis[i]) then false
    else eis[i].kind.Struct? ==> FirmStructs(eis[i], v[i].structs[..Used(eis, v, i)])
  }

  ghost predicate FirmStructs(e: ElemInfo, xs: seq<seq<Value>>)
    requires forall j :: 0 <= j < |xs| ==> Shaped(e.sub, xs[j])
    decreases e, 0, |xs|
  {
    xs != [] && (FirmStructs(e, xs[1..]) || (StructBytes(e, xs[1..]) == [] && FirmFrom(e.sub, xs[0], 0)))
  }

  /** A nested struct needs room for its bytes, and for all three more exactly if it does not end in
      a string. */
  lemma {:induction false} NeedIs(eis: seq<ElemInfo>, v: seq<Value>, i: nat)
    requires Shaped(eis, v) && i <= |eis|
    ensures var n := |NestedFrom(eis, v, i)|;
      n <= NeedFrom(eis, v, i) <= n + TLV_HEADER
      && (NeedFrom(eis, v, i) == n + TLV_HEADER <==> FirmFrom(eis, v, i))
    decreases eis, 1, |eis| - i
  {
    hide NeedElem; hide FirmElem; hide ElemBytes;
    if i < |eis| {
      NeedElemIs(eis, v, i);
      NeedIs(eis, v, i + 1);
    }
  }

  lemma {:induction false} NeedElemIs(eis: seq<ElemInfo>, v: seq<Value>, i: nat)
    requires Shaped(eis, v) && i < |eis|
    ensures var n := |ElemBytes(eis, v, i, 2)|;
      n <= NeedElem(eis, v, i) <= n + TLV_HEADER && (NeedElem(eis, v, i) == n + TLV_HEADER <==> FirmElem(eis, v, i))
    decreases eis, 0
  {
    assert ShapedElem(eis[i], v[i]);
    if IsData(eis[i].kind) && !eis[i].kind.String? && Used(eis, v, i) <= Slots(eis[i]) {
      if Used(eis, v, i) == 0 {
        NothingUsed(eis[i], v[i]);
      } else if eis[i].kind.Struct? {
        NeedStructsIs(eis[i], v[i].structs[..Used(eis, v, i)]);
      }
    }
  }

  lemma {:induction false} NothingUsed(e: ElemInfo, x: Value)
    requires IsData(e.kind) && ShapedElem(e, x) && !e.kind.String?
    ensures DataBytes(e, x, 0, 2) == []
  {
    if e.kind.Struct? {
      assert x.structs[..0] == [];
    } else {
      assert x.items[..0] == [];
    }
  }

  lemma {:induction false} NeedStructsIs(e: ElemInfo, xs: seq<seq<Value>>)
    requires forall j :: 0 <= j < |xs| ==> Shaped(e.sub, xs[j])
    ensures var n := |StructBytes(e, xs)|;
      n <= NeedStructs(e, xs) <= n + TLV_HEADER && (NeedStructs(e, xs) == n + TLV_HEADER <==> FirmStructs(e, xs))
    decreases e, 0, |xs|
  {
    if xs != [] {
      NeedIs(e.sub, xs[0], 0);
      NeedStructsIs(e, xs[1..]);
    }
  }

  // ----- Messages -----

  /** The bytes of the length in front of data element d. */
  ghost function LeadBytes(eis: seq<ElemInfo>, v: seq<Value>, d: nat): seq<byte>
    requires Shaped(eis, v) && d < |eis|
  {
    if Led(eis, d) then ElemBytes(eis, v, d - 1, 1) else []
  }

  ghost predicate Led(eis: seq<ElemInfo>, d: nat)
    requires d < |eis|
  {
    d > 0 && eis[d - 1].kind.DataLen?
  }

  /** The test before n slots of a data element, when s bytes have been encoded at its level. */
  ghost predicate ElemRoom(e: ElemInfo, x: Value, n: nat, s: nat, outLen: nat, level: nat)
    requires IsData(e.kind) && ShapedElem(e, x) && n <= Slots(e)
  {
    if e.kind.Struct? then NeedStructs(e, x.structs[..n]) <= Sub32(outLen, s)
    else if e.kind.String? then |DataBytes(e, x, n, level)| + (if level == 1 then TLV_HEADER else 0) <= Sub32(outLen, s)
    else s + |DataBytes(e, x, n, level)| + TLV_HEADER <= outLen
  }

  /** There is room for data element d when s bytes have been encoded, those of its length included. */
  ghost predicate DataRoom(eis: seq<ElemInfo>, v: seq<Value>, d: nat, s: nat, outLen: nat)
    requires Shaped(eis, v) && d < |eis|
  {
    assert ShapedElem(eis[d], v[d]);
    var n := Used(eis, v, d);
    IsData(eis[d].kind) && 0 < n <= Slots(eis[d]) ==> ElemRoom(eis[d], v[d], n, s, outLen, 1)
  }

  /** There is room for the group of data element d behind s bytes of frames. */
  ghost predicate GroupRoom(eis: seq<ElemInfo>, v: seq<Value>, d: nat, s: nat, outLen: nat)
    requires Shaped(eis, v) && d < |eis|
  {
    var n := |LeadBytes(eis, v, d)|;
    (Led(eis, d) ==> s + n + TLV_HEADER <= outLen) && DataRoom(eis, v, d, s + n, outLen)
  }

  /** The groups sent from element i on, behind s bytes of frames, all find room. */
  ghost predicate RoomFrom(eis: seq<ElemInfo>, v: seq<Value>, i: nat, s: nat, outLen: nat)
    requires Shaped(eis, v) && i <= |eis|
    decreases |eis| - i
  {
    if i == |eis| then true
    else if IsData(eis[i].kind) && Present(eis, v, i)
    then GroupRoom(eis, v, i, s, outLen) && RoomFrom(eis, v, i + 1, s + |FrameBytes(FrameAt(eis, v, i))|, outLen)
    else RoomFrom(eis, v, i + 1, s, outLen)
  }

  /** The encoder takes the struct: the groups of a message find room, or the room covers what a
      nested struct needs. */
  ghost predicate Accepts(eis: seq<ElemInfo>, v: seq<Value>, level: nat, outLen: nat)
    requires Shaped(eis, v)
  {
    if level == 1 then RoomFrom(eis, v, 0, 0, outLen) else NeedFrom(eis, v, 0) <= outLen
  }

  /** The buffer can take the whole encoding. */
  ghost predicate Fits(eis: seq<ElemInfo>, v: seq<Value>, level: nat, outLen: nat)
    requires Shaped(eis, v)
  {
    |Wire(eis, v, level)| + (if level == 1 then 0 else TLV_HEADER) <= outLen
  }

  // ----- What fits is taken -----

  lemma {:induction false} FlatFirst(f: Frame, fs: seq<Frame>)
    ensures |Flat([f] + fs)| == |FrameBytes(f)| + |Flat(fs)|
  {
    assert ([f] + fs)[1..] == fs;
  }

  /** The bytes of the frames from element i on. */
  ghost function Remaining(eis: seq<ElemInfo>, v: seq<Value>, i: nat): nat
    requires Shaped(eis, v) && i <= |eis|
  {
    |Flat(FramesFrom(eis, v, i))|
  }

  ghost predicate IsSent(eis: seq<ElemInfo>, v: seq<Value>, d: nat)
    requires Shaped(eis, v) && d < |eis|
  {
    IsData(eis[d].kind) && Present(eis, v, d)
  }

  lemma {:induction false} RemainingIs(eis: seq<ElemInfo>, v: seq<Value>, i: nat)
    requires Shaped(eis, v) && i < |eis|
    ensures Remaining(eis, v, i)
         == Remaining(eis, v, i + 1) + if IsSent(eis, v, i) then |FrameBytes(FrameAt(eis, v, i))| else 0
  {
    hide FrameAt; hide FrameBytes; hide Flat;
    if IsSent(eis, v, i) {
      FlatFirst(FrameAt(eis, v, i), FramesFrom(eis, v, i + 1));
    }
  }

  /** The parts of a frame that is sent. */
  lemma {:induction false} SentIs(eis: seq<ElemInfo>, v: seq<Value>, d: nat)
    requires Shaped(eis, v) && Sendable(eis, v, 1) && d < |eis| && IsSent(eis, v, d)
    ensures ShapedElem(eis[d], v[d]) && Used(eis, v, d) <= Slots(eis[d])
    ensures |FrameBytes(FrameAt(eis, v, d))|
         == TLV_HEADER + |LeadBytes(eis, v, d)| + |DataBytes(eis[d], v[d], Used(eis, v, d), 1)|
    ensures Used(eis, v, d) == 0 ==> Led(eis, d) && !eis[d].kind.String?
    ensures Used(eis, v, d) == 0 ==> DataBytes(eis[d], v[d], 0, 1) == []
    ensures Led(eis, d) ==> 0 < |LeadBytes(eis, v, d)|
  {
    hide DataBytes;
    assert ElemOk(eis, d) && ShapedElem(eis[d], v[d]);
    if Led(eis, d) {
      assert ElemOk(eis, d - 1) && ShapedElem(eis[d - 1], v[d - 1]);
      assert d > 1 ==> ElemOk(eis, d - 2);
      assert Present(eis, v, d - 1) && ValidElem(eis, v, d - 1);
    }
    if Used(eis, v, d) == 0 {
      NoneUsed(eis[d], v[d]);
    }
    assert ElemBytes(eis, v, d, 1) == DataBytes(eis[d], v[d], Used(eis, v, d), 1);
  }

  lemma {:induction false} NoneUsed(e: ElemInfo, x: Value)
    requires IsData(e.kind) && ShapedElem(e, x) && !e.kind.String?
    ensures DataBytes(e, x, 0, 1) == []
  {
    if e.kind.Struct? {
      assert x.structs[..0] == [];
    } else {
      assert x.items[..0] == [];
    }
  }

  lemma {:induction false} FitGroup(eis: seq<ElemInfo>, v: seq<Value>, d: nat, s: nat, outLen: nat)
    requires Shaped(eis, v) && Sendable(eis, v, 1) && d < |eis| && IsSent(eis, v, d) && outLen < 0x1_0000_0000
    requires s + |FrameBytes(FrameAt(eis, v, d))| <= outLen
    ensures GroupRoom(eis, v, d, s, outLen)
  {
    hide FrameAt; hide FrameBytes; hide LeadBytes; hide StructBytes; hide NeedStructs; hide FlatItems; hide Sendable;
    SentIs(eis, v, d);
    if eis[d].kind.Struct? {
      NeedStructsIs(eis[d], v[d].structs[..Used(eis, v, d)]);
    }
  }

  /** Groups that fit before d leave the decision to the groups from d on. */
  lemma {:induction false} RoomUpTo(eis: seq<ElemInfo>, v: seq<Value>, i: nat, s: nat, d: nat, t: nat, outLen: nat)
    requires Shaped(eis, v) && Sendable(eis, v, 1) && i <= d <= |eis| && outLen < 0x1_0000_0000
    requires s + Remaining(eis, v, i) == t + Remaining(eis, v, d) && t <= outLen
    ensures s <= t && (RoomFrom(eis, v, i, s, outLen) <==> RoomFrom(eis, v, d, t, outLen))
    decreases d - i
  {
    hide Sendable; hide GroupRoom; hide FrameAt; hide FrameBytes; hide Remaining;
    if i < d {
      RemainingIs(eis, v, i);
      var next := s + if IsSent(eis, v, i) then |FrameBytes(FrameAt(eis, v, i))| else 0;
      RoomUpTo(eis, v, i + 1, next, d, t, outLen);
      if IsSent(eis, v, i) {
        FitGroup(eis, v, i, s, outLen);
      }
    }
  }

  lemma {:induction false} RemainingNone(eis: seq<ElemInfo>, v: seq<Value>)
    requires Shaped(eis, v)
    ensures Remaining(eis, v, |eis|) == 0 && Remaining(eis, v, 0) == |Wire(eis, v, 1)|
    ensures forall s, outLen :: RoomFrom(eis, v, |eis|, s, outLen)
  {
  }

  /** A struct that fits is always taken. */
  lemma {:induction false} FitsAccepts(eis: seq<ElemInfo>, v: seq<Value>, level: nat, outLen: nat)
    requires level >= 1 && Sendable(eis, v, level) && Fits(eis, v, level, outLen) && outLen < 0x1_0000_0000
    ensures Accepts(eis, v, level, outLen)
  {
    hide RoomFrom; hide NeedFrom; hide Remaining;
    if level == 1 {
      RemainingNone(eis, v);
      RoomUpTo(eis, v, 0, 0, |eis|, |Wire(eis, v, 1)|, outLen);
    } else {
      NeedIs(eis, v, 0);
    }
  }

  // ----- What is taken beyond that -----

  /** The group is a basic element, or begins with a length. */
  ghost predicate FirmStart(eis: seq<ElemInfo>, d: nat)
    requires d < |eis|
  {
    Led(eis, d) || IsBasic(eis[d].kind)
  }

  /** No group sent from element i on is a basic element or begins with a length. */
  ghost predicate SoftFrom(eis: seq<ElemInfo>, v: seq<Value>, i: nat)
    requires Shaped(eis, v)
  {
    forall k :: i <= k < |eis| && IsSent(eis, v, k) ==> !FirmStart(eis, k)
  }

  /** Group d is sent and ends in a string inside a struct. */
  ghost predicate EndsInText(eis: seq<ElemInfo>, v: seq<Value>, d: nat)
    requires Shaped(eis, v) && d < |eis|
  {
    assert ShapedElem(eis[d], v[d]);
    && IsSent(eis, v, d) && eis[d].kind.Struct? && 0 < Used(eis, v, d) <= Slots(eis[d])
    && !FirmStructs(eis[d], v[d].structs[..Used(eis, v, d)])
  }

  /** Some group sent ends in a string inside a struct, and no later one is a basic element or begins
      with a length. */
  ghost predicate Slack(eis: seq<ElemInfo>, v: seq<Value>)
    requires Shaped(eis, v)
  {
    exists d :: 0 <= d < |eis| && EndsInText(eis, v, d) && SoftFrom(eis, v, d + 1)
  }

  /** With more encoded than there is room for, a group is taken exactly if it is none of these. */
  lemma {:induction false} OverGroup(eis: seq<ElemInfo>, v: seq<Value>, d: nat, s: nat, outLen: nat)
    requires Shaped(eis, v) && Sendable(eis, v, 1) && d < |eis| && IsSent(eis, v, d) && outLen < s
    requires s + |FrameBytes(FrameAt(eis, v, d))| <= 0x1_0000_0000
    ensures GroupRoom(eis, v, d, s, outLen) <==> !FirmStart(eis, d)
  {
    hide FrameAt; hide FrameBytes; hide LeadBytes; hide StructBytes; hide NeedStructs; hide FlatItems; hide Sendable;
    SentIs(eis, v, d);
    if eis[d].kind.Struct? {
      NeedStructsIs(eis[d], v[d].structs[..Used(eis, v, d)]);
    }
    assert !Led(eis, d) ==> LeadBytes(eis, v, d) == [] by {
      LeadNone(eis, v, d);
    }
  }

  lemma {:induction false} LeadNone(eis: seq<ElemInfo>, v: seq<Value>, d: nat)
    requires Shaped(eis, v) && d < |eis|
    ensures !Led(eis, d) ==> LeadBytes(eis, v, d) == []
  {
  }

  lemma {:induction false} OverRoom(eis: seq<ElemInfo>, v: seq<Value>, i: nat, s: nat, outLen: nat)
    requires Shaped(eis, v) && Sendable(eis, v, 1) && i <= |eis| && outLen < s && s + Remaining(eis, v, i) <= 0x1_0000_0000
    ensures RoomFrom(eis, v, i, s, outLen) <==> SoftFrom(eis, v, i)
    decreases |eis| - i
  {
    hide Sendable; hide GroupRoom; hide FrameAt; hide FrameBytes; hide Remaining; hide FirmStart;
    if i < |eis| {
      RemainingIs(eis, v, i);
      var next := s + if IsSent(eis, v, i) then |FrameBytes(FrameAt(eis, v, i))| else 0;
      OverRoom(eis, v, i + 1, next, outLen);
      if IsSent(eis, v, i) {
        OverGroup(eis, v, i, s, outLen);
      }
    }
  }

  /** The group at which the room runs out is taken only if it ends in a string. */
  lemma {:induction false} LastGroup(eis: seq<ElemInfo>, v: seq<Value>, d: nat, s: nat, outLen: nat)
    requires Shaped(eis, v) && Sendable(eis, v, 1) && d < |eis| && IsSent(eis, v, d) && s <= outLen < 0x1_0000_0000
    requires outLen < s + |FrameBytes(FrameAt(eis, v, d))| && GroupRoom(eis, v, d, s, outLen)
    ensures EndsInText(eis, v, d)
  {
    hide FrameAt; hide FrameBytes; hide LeadBytes; hide StructBytes; hide NeedStructs; hide FlatItems; hide Sendable;
    hide FirmStructs;
    SentIs(eis, v, d);
    LeadNone(eis, v, d);
    if eis[d].kind.Struct? {
      NeedStructsIs(eis[d], v[d].structs[..Used(eis, v, d)]);
    }
  }

  /** If more is taken than there is room for, the group at which the room runs out ends in a string. */
  lemma {:induction false} OverEnds(eis: seq<ElemInfo>, v: seq<Value>, i: nat, s: nat, outLen: nat)
    returns (d: nat, t: nat)
    requires Shaped(eis, v) && Sendable(eis, v, 1) && i <= |eis| && s <= outLen < s + Remaining(eis, v, i)
    requires RoomFrom(eis, v, i, s, outLen) && outLen < 0x1_0000_0000
    ensures i <= d < |eis| && EndsInText(eis, v, d) && outLen < t && t + Remaining(eis, v, d + 1) == s + Remaining(eis, v, i)
    ensures RoomFrom(eis, v, d + 1, t, outLen)
    decreases |eis| - i
  {
    hide Sendable; hide GroupRoom; hide FrameAt; hide FrameBytes; hide Remaining; hide EndsInText;
    if i == |eis| {
      RemainingNone(eis, v);
    } else {
      RemainingIs(eis, v, i);
      var next := s + if IsSent(eis, v, i) then |FrameBytes(FrameAt(eis, v, i))| else 0;
      if next <= outLen {
        d, t := OverEnds(eis, v, i + 1, next, outLen);
      } else {
        LastGroup(eis, v, i, s, outLen);
        d, t := i, next;
      }
    }
  }

  /** The room at which group d is taken although it does not fit. */
  lemma {:induction false} TightRoom(eis: seq<ElemInfo>, v: seq<Value>, d: nat, s: nat) returns (outLen: nat)
    requires Shaped(eis, v) && Sendable(eis, v, 1) && d < |eis| && EndsInText(eis, v, d)
    requires s + |FrameBytes(FrameAt(eis, v, d))| < 0x1_0000_0000
    ensures s <= outLen < s + |FrameBytes(FrameAt(eis, v, d))| && GroupRoom(eis, v, d, s, outLen)
  {
    hide FrameAt; hide FrameBytes; hide LeadBytes; hide StructBytes; hide NeedStructs; hide FlatItems; hide Sendable;
    hide FirmStructs;
    SentIs(eis, v, d);
    LeadNone(eis, v, d);
    var n := Used(eis, v, d);
    var need := NeedStructs(eis[d], v[d].structs[..n]);
    NeedStructsIs(eis[d], v[d].structs[..n]);
    StructsNotEmpty(eis, v, d);
    var lead := |LeadBytes(eis, v, d)|;
    outLen := s + lead + if Led(eis, d) then Max(TLV_HEADER, need) else need;
  }

  /** A nested struct has at least one byte. */
  lemma {:induction false} NestedNotEmpty(eis: seq<ElemInfo>, v: seq<Value>)
    requires NestedOk(eis) && Shaped(eis, v)
    ensures NestedFrom(eis, v, 0) != []
    decreases eis
  {
    hide LenSafe;
    var e, x := eis[0], v[0];
    assert ElemOk(eis, 0) && ShapedElem(e, x);
    if e.kind.Struct? {
      var xs := x.structs[..Slots(e)];
      assert xs[0] == x.structs[0];
      NestedNotEmpty(e.sub, xs[0]);
      assert StructBytes(e, xs) != [];
    } else if IsBasic(e.kind) {
      var xs := x.items[..Slots(e)];
      assert xs[0] == x.items[0];
      assert FlatItems(xs) != [];
    }
    assert IsData(e.kind) ==> Used(eis, v, 0) == Slots(e) && ElemBytes(eis, v, 0, 2) == DataBytes(e, x, Slots(e), 2);
    assert ElemBytes(eis, v, 0, 2) != [];
  }

  lemma {:induction false} StructsNotEmpty(eis: seq<ElemInfo>, v: seq<Value>, d: nat)
    requires Shaped(eis, v) && Sendable(eis, v, 1) && d < |eis| && EndsInText(eis, v, d)
    ensures DataBytes(eis[d], v[d], Used(eis, v, d), 1) != []
  {
    hide FirmStructs; hide NestedFrom;
    assert ElemOk(eis, d) && ShapedElem(eis[d], v[d]);
    var xs := v[d].structs[..Used(eis, v, d)];
    assert xs[0] == v[d].structs[0];
    NestedNotEmpty(eis[d].sub, xs[0]);
  }

  lemma {:induction false} RemainingShrinks(eis: seq<ElemInfo>, v: seq<Value>, i: nat)
    requires Shaped(eis, v) && i <= |eis|
    ensures Remaining(eis, v, i) <= Remaining(eis, v, 0)
  {
    hide Remaining;
    if i > 0 {
      RemainingIs(eis, v, i - 1);
      RemainingShrinks(eis, v, i - 1);
    }
  }

  /** There is a buffer into which more is encoded than it can hold if and only if the struct has
      slack. */
  lemma {:induction false} OverfullExact(eis: seq<ElemInfo>, v: seq<Value>)
    requires Shaped(eis, v) && Sendable(eis, v, 1) && |Wire(eis, v, 1)| < 0x1_0000_0000
    ensures (exists outLen :: 0 <= outLen < 0x1_0000_0000 && Accepts(eis, v, 1, outLen) && !Fits(eis, v, 1, outLen))
       <==> Slack(eis, v)
  {
    hide Sendable; hide GroupRoom; hide FrameAt; hide FrameBytes; hide Remaining; hide SoftFrom; hide EndsInText; hide RoomFrom;
    hide Slack; hide Wire; hide IsSent;
    RemainingNone(eis, v);
    if outLen: nat :| outLen < 0x1_0000_0000 && Accepts(eis, v, 1, outLen) && !Fits(eis, v, 1, outLen) {
      var d, t := OverEnds(eis, v, 0, 0, outLen);
      OverRoom(eis, v, d + 1, t, outLen);
      assert Slack(eis, v) by {
        SlackAt(eis, v, d);
      }
    }
    if Slack(eis, v) {
      var outLen := SlackTaken(eis, v);
      assert Accepts(eis, v, 1, outLen) && !Fits(eis, v, 1, outLen);
    }
  }

  lemma {:induction false} SlackAt(eis: seq<ElemInfo>, v: seq<Value>, d: nat)
    requires Shaped(eis, v) && d < |eis| && EndsInText(eis, v, d) && SoftFrom(eis, v, d + 1)
    ensures Slack(eis, v)
  {
    hide EndsInText; hide SoftFrom;
  }

  lemma {:induction false} SlackTaken(eis: seq<ElemInfo>, v: seq<Value>) returns (outLen: nat)
    requires Shaped(eis, v) && Sendable(eis, v, 1) && |Wire(eis, v, 1)| < 0x1_0000_0000 && Slack(eis, v)
    ensures outLen < |Wire(eis, v, 1)| && Accepts(eis, v, 1, outLen)
  {
    hide Sendable; hide GroupRoom; hide FrameAt; hide FrameBytes; hide Remaining; hide SoftFrom; hide Wire;
    RemainingNone(eis, v);
    var d :| 0 <= d < |eis| && EndsInText(eis, v, d) && SoftFrom(eis, v, d + 1);
    RemainingShrinks(eis, v, d);
    RemainingIs(eis, v, d);
    var s := Remaining(eis, v, 0) - Remaining(eis, v, d);
    outLen := TightRoom(eis, v, d, s);
    var next := s + |FrameBytes(FrameAt(eis, v, d))|;
    OverRoom(eis, v, d + 1, next, outLen);
    RoomUpTo(eis, v, 0, 0, d, s, outLen);
  }

  // ----- Tables for which it cannot happen -----

  /** The last element, through the structs it may be in, is a string. */
  ghost predicate TextLast(eis: seq<ElemInfo>) {
    eis != [] &&
    var e := eis[|eis| - 1];
    e.kind.String? || (e.kind.Struct? && TextLast(e.sub))
  }

  /** No struct of the table ends in a string. */
  ghost predicate FirmTable(eis: seq<ElemInfo>) {
    forall i :: 0 <= i < |eis| && eis[i].kind.Struct? ==> !TextLast(eis[i].sub)
  }

  lemma {:induction false} FirmEarlier(eis: seq<ElemInfo>, v: seq<Value>, i: nat, k: nat)
    requires Shaped(eis, v) && i <= k <= |eis| && FirmFrom(eis, v, k)
    ensures FirmFrom(eis, v, i)
    decreases k - i
  {
    hide FirmElem; hide NestedFrom;
    if i < k {
      FirmEarlier(eis, v, i + 1, k);
    }
  }

  lemma {:induction false} FirmLast(e: ElemInfo, xs: seq<seq<Value>>)
    requires xs != [] && forall j :: 0 <= j < |xs| ==> Shaped(e.sub, xs[j])
    requires FirmFrom(e.sub, xs[|xs| - 1], 0)
    ensures FirmStructs(e, xs)
    decreases |xs|
  {
    hide FirmFrom;
    if |xs| > 1 {
      FirmLast(e, xs[1..]);
    } else {
      assert xs[1..] == [];
    }
  }

  lemma {:induction false} NotTextFirm(eis: seq<ElemInfo>, v: seq<Value>)
    requires NestedOk(eis) && Valid(eis, v) && !TextLast(eis)
    ensures FirmFrom(eis, v, 0)
    decreases eis
  {
    hide LenSafe; hide NestedFrom; hide FirmElem;
    var i := |eis| - 1;
    var e, x := eis[i], v[i];
    assert ElemOk(eis, i) && ShapedElem(e, x) && ValidElem(eis, v, i);
    if e.arrayType.VarLenArray? {
      assert ElemOk(eis, i - 1) && ShapedElem(eis[i - 1], v[i - 1]) && ValidElem(eis, v, i - 1);
    }
    var n := Used(eis, v, i);
    if n == 0 {
      LastLength(eis, v);
      FirmEarlier(eis, v, 0, i - 1);
    } else {
      if e.kind.Struct? {
        var xs := x.structs[..n];
        assert xs[n - 1] == x.structs[n - 1];
        NotTextFirm(e.sub, xs[n - 1]);
        FirmLast(e, xs);
      }
      LastData(eis, v);
      FirmEarlier(eis, v, 0, i);
    }
  }

  lemma {:induction false} LastLength(eis: seq<ElemInfo>, v: seq<Value>)
    requires Shaped(eis, v) && |eis| > 1 && eis[|eis| - 2].kind.DataLen? && IsData(eis[|eis| - 1].kind)
    requires !eis[|eis| - 1].kind.String? && Used(eis, v, |eis| - 1) == 0
    ensures FirmFrom(eis, v, |eis| - 2)
  {
    var i := |eis| - 1;
    assert ShapedElem(eis[i], v[i]);
    NothingUsed(eis[i], v[i]);
    assert ElemBytes(eis, v, i, 2) == [] && NestedFrom(eis, v, i + 1) == [];
    assert NestedFrom(eis, v, i) == [];
    assert FirmElem(eis, v, i - 1);
  }

  lemma {:induction false} LastData(eis: seq<ElemInfo>, v: seq<Value>)
    requires Shaped(eis, v) && eis != [] && IsData(eis[|eis| - 1].kind) && !eis[|eis| - 1].kind.String?
    requires 0 < Used(eis, v, |eis| - 1) <= Slots(eis[|eis| - 1]) && ShapedElem(eis[|eis| - 1], v[|eis| - 1])
    requires eis[|eis| - 1].kind.Struct? ==>
      FirmStructs(eis[|eis| - 1], v[|eis| - 1].structs[..Used(eis, v, |eis| - 1)])
    ensures FirmFrom(eis, v, |eis| - 1)
  {
    hide FirmStructs;
    assert NestedFrom(eis, v, |eis|) == [];
  }

  lemma {:induction false} FirmGroup(eis: seq<ElemInfo>, v: seq<Value>, d: nat)
    requires Shaped(eis, v) && Sendable(eis, v, 1) && FirmTable(eis) && d < |eis|
    ensures !EndsInText(eis, v, d)
  {
    hide FirmFrom; hide FirmStructs;
    assert ShapedElem(eis[d], v[d]);
    if IsSent(eis, v, d) && eis[d].kind.Struct? && 0 < Used(eis, v, d) <= Slots(eis[d]) {
      var e, x, n := eis[d], v[d], Used(eis, v, d);
      assert ElemOk(eis, d) && ValidElem(eis, v, d);
      var xs := x.structs[..n];
      assert xs[n - 1] == x.structs[n - 1];
      NotTextFirm(e.sub, xs[n - 1]);
      FirmLast(e, xs);
    }
  }

  /** Where no struct ends in a string, exactly the structs that fit are taken. */
  lemma {:induction false} FirmAccepts(eis: seq<ElemInfo>, v: seq<Value>, outLen: nat)
    requires Shaped(eis, v) && Sendable(eis, v, 1) && FirmTable(eis) && outLen < 0x1_0000_0000
    ensures Accepts(eis, v, 1, outLen) <==> Fits(eis, v, 1, outLen)
  {
    hide Sendable; hide FirmTable; hide RoomFrom; hide Wire; hide Remaining; hide EndsInText;
    if Fits(eis, v, 1, outLen) {
      FitsAccepts(eis, v, 1, outLen);
    } else if Accepts(eis, v, 1, outLen) {
      RemainingNone(eis, v);
      var d, _ := OverEnds(eis, v, 0, 0, outLen);
      FirmGroup(eis, v, d);
    }
  }

  // ----- An input for which it does -----

  /** A struct that holds a string of less than 10 bytes, then a string of less than 200. */
  const TWO_TEXTS: seq<ElemInfo> :=
    [ElemInfo(Struct, 1, 11, NoArray, 1, [ElemInfo(String, 10, 1, NoArray, 0, [])]),
     ElemInfo(String, 200, 1, NoArray, 2, [])]

  ghost function TwoTexts(a: seq<byte>, b: seq<byte>): seq<Value> {
    [Structs([[Text(a)]]), Text(b)]
  }

  lemma {:induction false} TwoTextsSendable(a: seq<byte>, b: seq<byte>)
    requires |a| < 10 && |b| < 200
    ensures Shaped(TWO_TEXTS, TwoTexts(a, b)) && Sendable(TWO_TEXTS, TwoTexts(a, b), 1)
  {
    var eis, v, x := TWO_TEXTS, TwoTexts(a, b), [Text(a)];
    var sub := eis[0].sub;
    assert ElemOk(sub, 0) && NestedOk(sub) && Shaped(sub, x) && ValidElem(sub, x, 0);
    assert ElemOk(eis, 0) && GroupOk(eis, 0) && ElemOk(eis, 1) && GroupOk(eis, 1);
    assert ShapedElem(eis[0], v[0]) && ShapedElem(eis[1], v[1]);
    assert ValidElem(eis, v, 0) && ValidElem(eis, v, 1);
  }

  /** The first text takes one byte more than it has, and is not asked for more. */
  lemma {:induction false} OneText(a: seq<byte>)
    requires |a| < 10
    ensures Shaped(TWO_TEXTS[0].sub, [Text(a)]) && |StructBytes(TWO_TEXTS[0], [[Text(a)]])| == 1 + |a|
    ensures NeedStructs(TWO_TEXTS[0], [[Text(a)]]) == 1 + |a|
  {
    var sub, x := TWO_TEXTS[0].sub, [Text(a)];
    assert ShapedElem(sub[0], x[0]);
    assert ElemBytes(sub, x, 0, 2) == LE(|a|, 1) + a && NestedFrom(sub, x, 1) == [];
    assert |NestedFrom(sub, x, 0)| == 1 + |a|;
    assert NeedFrom(sub, x, 1) == 0;
    var none: seq<seq<Value>> := [x][1..];
    assert none == [];
  }

  /** Three and 150 bytes of text take 160 bytes, and are encoded into a buffer said to have room for 4. */
  lemma {:induction false} Overfull(a: seq<byte>, b: seq<byte>)
    requires |a| == 3 && |b| == 150
    ensures var v := TwoTexts(a, b);
      && Shaped(TWO_TEXTS, v) && Sendable(TWO_TEXTS, v, 1) && |Wire(TWO_TEXTS, v, 1)| == 160
      && Accepts(TWO_TEXTS, v, 1, 4) && !Fits(TWO_TEXTS, v, 1, 4)
  {
    hide Sendable; hide StructBytes; hide NeedStructs; hide Shaped; hide Remaining;
    var eis, v := TWO_TEXTS, TwoTexts(a, b);
    TwoTextsSendable(a, b);
    OneText(a);
    SentIs(eis, v, 0);
    SentIs(eis, v, 1);
    assert v[0].structs[..1] == [[Text(a)]];
    RemainingIs(eis, v, 0);
    RemainingIs(eis, v, 1);
    RemainingNone(eis, v);
    assert GroupRoom(eis, v, 1, 7, 4);
    assert RoomFrom(eis, v, 1, 7, 4);
    assert GroupRoom(eis, v, 0, 0, 4);
  }
}
