/** The MessagePack-RPC request parser of imola-bridge.c and the message grammar it recognises. */
module RpcParser {
  import opened Bytes
  import opened Common

  datatype Request = Request(id: u32, name: seq<byte>, pin: seq<byte>, val: nat)

  /** parse_rpc_request's three answers: 0, -1, or the number of bytes consumed. */
  datatype Answer = Incomplete | SyncError | Complete(req: Request, consumed: nat)

  const MAX_MESSAGE := 74

  // ----- Grammar -----

  /** b is one of the four encodings of a message id. */
  ghost predicate IsId(b: seq<byte>, id: u32) {
    || (|b| == 1 && b[0] <= 0x7f && id == b[0])
    || (|b| == 2 && b[0] == 0xcc && id == b[1])
    || (|b| == 3 && b[0] == 0xcd && id == U16(b[1], b[2]))
    || (|b| == 5 && b[0] == 0xce && id == U32(b[1], b[2], b[3], b[4]))
  }

  function U16(hi: int, lo: int): int {
    0x100 * hi + lo
  }

  function U32(a: int, b: int, c: int, d: int): int {
    0x100_0000 * a + 0x1_0000 * b + 0x100 * c + d
  }

  /** b is a string of fewer than 32 bytes behind its length byte. */
  ghost predicate IsStr(b: seq<byte>, s: seq<byte>) {
    |s| < 32 && b == [0xa0 + |s|] + s
  }

  ghost predicate IsValue(b: seq<byte>, val: nat) {
    || (|b| == 1 && (b[0] == 0xc3 || b[0] == 0x01) && val == 1)
    || (|b| == 1 && b[0] != 0xc3 && b[0] != 0x01 && b[0] != 0xcc && val == 0)
    || (|b| == 2 && b[0] == 0xcc && val == if b[1] == 0 then 0 else 1)
  }

  /** The parts of a message: id, method name, parameters. */
  datatype Parts = Parts(i: seq<byte>, m: seq<byte>, n: nat, p: seq<byte>, x: seq<byte>) {
    function Bytes(): seq<byte>
      requires n < 16
    {
      [0x94, 0x00] + i + m + [0x90 + n] + p + x
    }
  }

  ghost predicate IsMessage(q: Parts, req: Request) {
    && IsId(q.i, req.id) && IsStr(q.m, req.name) && q.n < 16
    && (if q.n >= 1 then IsStr(q.p, req.pin) else q.p == [] && req.pin == [])
    && (if q.n >= 2 then IsValue(q.x, req.val) else q.x == [] && req.val == 0)
  }

  /** The bytes b are a message that says req. */
  ghost predicate Says(b: seq<byte>, req: Request) {
    exists q: Parts :: IsMessage(q, req) && b == q.Bytes()
  }

  // ----- Parser -----

  datatype Stage<+T> = More | Bad | Done(value: T, pos: nat)

  function ReadId(s: seq<byte>, pos: nat): (r: Stage<u32>)
    requires pos < |s|
    ensures r.Done? ==> pos < r.pos <= |s|
  {
    var b := s[pos];
    if b <= 0x7f then Done(b, pos + 1)
    else if b == 0xcc then
      if |s| < pos + 2 then More else Done(s[pos + 1], pos + 2)
    else if b == 0xcd then
      if |s| < pos + 3 then More else Done(U16(s[pos + 1], s[pos + 2]), pos + 3)
    else if b == 0xce then
      if |s| < pos + 5 then More else Done(U32(s[pos + 1], s[pos + 2], s[pos + 3], s[pos + 4]), pos + 5)
    else Bad
  }

  function ReadStr(s: seq<byte>, pos: nat): (r: Stage<seq<byte>>)
    ensures r.Done? ==> pos < r.pos <= |s|
  {
    if |s| < pos + 1 then More
    else if s[pos] / 32 != 5 then Bad
    else
      var n := s[pos] % 32;
      if |s| < pos + 1 + n then More else Done(s[pos + 1..pos + 1 + n], pos + 1 + n)
  }

  function ReadCount(s: seq<byte>, pos: nat): (r: Stage<nat>)
    ensures r.Done? ==> pos < r.pos <= |s|
  {
    if |s| < pos + 1 then More
    else if s[pos] / 16 != 9 then Bad
    else Done(s[pos] % 16, pos + 1)
  }

  function ReadValue(s: seq<byte>, pos: nat): (r: Stage<nat>)
    ensures r.Done? ==> pos < r.pos <= |s|
  {
    if |s| < pos + 1 then More
    else if s[pos] == 0xc3 || s[pos] == 0x01 then Done(1, pos + 1)
    else if s[pos] == 0xcc then
      if |s| < pos + 2 then More else Done(if s[pos + 1] != 0 then 1 else 0, pos + 2)
    else Done(0, pos + 1)
  }

  /** What parse_rpc_request answers on the buffer contents s. No message is longer than 74
      bytes, so 74 bytes are never "incomplete". */
  function Parse(s: seq<byte>): (r: Answer)
    ensures r.Incomplete? ==> |s| < MAX_MESSAGE
    ensures r.Complete? ==> 5 <= r.consumed <= |s| && r.consumed <= MAX_MESSAGE
  {
    if |s| < 4 then Incomplete
    else if s[0] != 0x94 || s[1] != 0x00 then SyncError
    else
      match ReadId(s, 2)
      case More => Incomplete
      case Bad => SyncError
      case Done(id, p1) =>
        match ReadStr(s, p1)
        case More => Incomplete
        case Bad => SyncError
        case Done(name, p2) =>
          match ReadCount(s, p2)
          case More => Incomplete
          case Bad => SyncError
          case Done(n, p3) => ParseParams(s, id, name, n, p3)
  }

  function ParseParams(s: seq<byte>, id: u32, name: seq<byte>, n: nat, pos: nat): (r: Answer)
    requires pos <= |s|
  {
    if n == 0 then Complete(Request(id, name, [], 0), pos)
    else
      match ReadStr(s, pos)
      case More => Incomplete
      case Bad => SyncError
      case Done(pin, p4) =>
        if n == 1 then Complete(Request(id, name, pin, 0), p4)
        else
          match ReadValue(s, p4)
          case More => Incomplete
          case Bad => SyncError
          case Done(val, p5) => Complete(Request(id, name, pin, val), p5)
  }

  lemma {:induction false} StageStable(s: seq<byte>, t: seq<byte>, pos: nat)
    ensures pos < |s| ==> (ReadId(s, pos).More? || ReadId(s + t, pos) == ReadId(s, pos))
    ensures ReadStr(s, pos).More? || ReadStr(s + t, pos) == ReadStr(s, pos)
    ensures ReadCount(s, pos).More? || ReadCount(s + t, pos) == ReadCount(s, pos)
    ensures ReadValue(s, pos).More? || ReadValue(s + t, pos) == ReadValue(s, pos)
  {
    if ReadStr(s, pos).Done? {
      var q := ReadStr(s, pos).pos;
      assert (s + t)[pos + 1..q] == s[pos + 1..q];
    }
  }

  /** An answer other than "incomplete" does not change when more bytes arrive. */
  lemma {:induction false} Stable(s: seq<byte>, t: seq<byte>)
    requires !Parse(s).Incomplete?
    ensures Parse(s + t) == Parse(s)
  {
    hide ReadId; hide ReadStr; hide ReadCount; hide ReadValue;
    StageStable(s, t, 2);
    if s[0] == 0x94 && s[1] == 0x00 && ReadId(s, 2).Done? {
      var p1 := ReadId(s, 2).pos;
      StageStable(s, t, p1);
      if ReadStr(s, p1).Done? {
        var p2 := ReadStr(s, p1).pos;
        StageStable(s, t, p2);
        if ReadCount(s, p2).Done? {
          var p3 := ReadCount(s, p2).pos;
          StageStable(s, t, p3);
          if ReadStr(s, p3).Done? {
            StageStable(s, t, ReadStr(s, p3).pos);
          }
        }
      }
    }
  }

  // ----- The parser recognises the grammar -----

  lemma {:induction false} StagesAt(s: seq<byte>, pos: nat, b: seq<byte>)
    requires At(s, pos, b) && b != []
    ensures forall id: u32 :: IsId(b, id) ==> ReadId(s, pos) == Done(id, pos + |b|)
    ensures forall str :: IsStr(b, str) ==> ReadStr(s, pos) == Done(str, pos + |b|)
    ensures forall val: nat :: IsValue(b, val) ==> ReadValue(s, pos) == Done(val, pos + |b|)
  {
    var c := s[pos..pos + |b|];
    assert s[pos] == c[0] && (|b| >= 2 ==> s[pos + 1] == c[1]) && (|b| >= 3 ==> s[pos + 2] == c[2])
        && (|b| == 5 ==> s[pos + 3] == c[3] && s[pos + 4] == c[4]);
    forall str | IsStr(b, str) ensures ReadStr(s, pos) == Done(str, pos + |b|) {
      assert s[pos + 1..pos + |b|] == s[pos..pos + |b|][1..] == str;
    }
  }

  lemma {:induction false} ParamsAt(q: Parts, req: Request, s: seq<byte>, pos: nat)
    requires IsMessage(q, req) && At(s, pos, q.p + q.x)
    ensures ParseParams(s, req.id, req.name, q.n, pos) == Complete(req, pos + |q.p| + |q.x|)
  {
    AtConcat(s, pos, q.p, q.x);
    if q.n >= 1 {
      StagesAt(s, pos, q.p);
      if q.n >= 2 {
        StagesAt(s, pos + |q.p|, q.x);
      }
    }
  }

  lemma {:induction false} HeadAt(q: Parts, t: seq<byte>)
    requires q.n < 16
    ensures var s := q.Bytes() + t; |s| >= 3 && s[0] == 0x94 && s[1] == 0x00 && At(s, 2, q.i)
  {
    var s := q.Bytes() + t;
    assert s == [0x94, 0x00] + q.i + (q.m + [0x90 + q.n] + q.p + q.x + t);
  }

  lemma {:induction false} NameAt(q: Parts, t: seq<byte>)
    requires q.n < 16
    ensures At(q.Bytes() + t, 2 + |q.i|, q.m)
  {
    var s := q.Bytes() + t;
    assert s == ([0x94, 0x00] + q.i) + q.m + ([0x90 + q.n] + q.p + q.x + t);
  }

  lemma {:induction false} TailAt(q: Parts, t: seq<byte>)
    requires q.n < 16
    ensures var s, k := q.Bytes() + t, 2 + |q.i| + |q.m|;
      k < |s| && s[k] == 0x90 + q.n && At(s, k + 1, q.p + q.x)
  {
    var s := q.Bytes() + t;
    assert s == ([0x94, 0x00] + q.i + q.m + [0x90 + q.n]) + (q.p + q.x) + t;
  }

  lemma {:induction false} PartsAt(q: Parts, t: seq<byte>)
    requires q.n < 16
    ensures var s := q.Bytes() + t;
      && |s| >= 3 + |q.i| + |q.m| && s[0] == 0x94 && s[1] == 0x00
      && At(s, 2, q.i) && At(s, 2 + |q.i|, q.m)
      && s[2 + |q.i| + |q.m|] == 0x90 + q.n && At(s, 3 + |q.i| + |q.m|, q.p + q.x)
  {
    hide Parts.Bytes; hide At;
    HeadAt(q, t);
    NameAt(q, t);
    TailAt(q, t);
  }

  /** Every message of the grammar is parsed, whatever follows it. */
  lemma {:induction false} ParsesMessage(q: Parts, req: Request, t: seq<byte>)
    requires IsMessage(q, req)
    ensures Parse(q.Bytes() + t) == Complete(req, |q.Bytes()|)
  {
    hide ReadId; hide ReadStr; hide ReadValue; hide ParseParams; hide IsStr; hide IsValue; hide Parts.Bytes; hide At;
    PartsAt(q, t);
    MessageParts(q, req);
    var s := q.Bytes() + t;
    StagesAt(s, 2, q.i);
    StagesAt(s, 2 + |q.i|, q.m);
    ParamsAt(q, req, s, 3 + |q.i| + |q.m|);
  }

  lemma {:induction false} MessageParts(q: Parts, req: Request)
    requires IsMessage(q, req)
    ensures q.i != [] && q.m != [] && |q.Bytes()| == 3 + |q.i| + |q.m| + |q.p| + |q.x|
  {
  }

  lemma {:induction false} ReadGives(s: seq<byte>, pos: nat)
    requires pos <= |s|
    ensures pos < |s| && ReadId(s, pos).Done? ==> IsId(s[pos..ReadId(s, pos).pos], ReadId(s, pos).value)
    ensures ReadStr(s, pos).Done? ==> IsStr(s[pos..ReadStr(s, pos).pos], ReadStr(s, pos).value)
    ensures ReadValue(s, pos).Done? ==> IsValue(s[pos..ReadValue(s, pos).pos], ReadValue(s, pos).value)
    ensures ReadCount(s, pos).Done? ==>
      ReadCount(s, pos).value < 16 && s[pos] == 0x90 + ReadCount(s, pos).value && ReadCount(s, pos).pos == pos + 1
  {
    if ReadStr(s, pos).Done? {
      var r := ReadStr(s, pos);
      assert s[pos..r.pos] == [s[pos]] + s[pos + 1..r.pos];
    }
  }

  /** The parts a parsed message was made of. */
  function Cut(s: seq<byte>): (q: Parts)
    requires Parse(s).Complete?
  {
    var p1 := ReadId(s, 2).pos;
    var p2 := ReadStr(s, p1).pos;
    var n, p3 := ReadCount(s, p2).value, ReadCount(s, p2).pos;
    var p4 := if n == 0 then p3 else ReadStr(s, p3).pos;
    Parts(s[2..p1], s[p1..p2], n, s[p3..p4], s[p4..Parse(s).consumed])
  }

  lemma {:induction false} Rejoin(s: seq<byte>, p1: nat, p2: nat, p4: nat, end: nat)
    requires 2 <= p1 <= p2 < p2 + 1 <= p4 <= end <= |s|
    ensures s[..2] + s[2..p1] + s[p1..p2] + [s[p2]] + s[p2 + 1..p4] + s[p4..end] == s[..end]
  {
    assert s[..2] + s[2..p1] == s[..p1];
    assert s[..p1] + s[p1..p2] == s[..p2];
    assert s[..p2] + [s[p2]] == s[..p2 + 1];
    assert s[..p2 + 1] + s[p2 + 1..p4] == s[..p4];
  }

  /** Whatever is parsed is a message of the grammar. */
  lemma {:induction false} ParsedSays(s: seq<byte>)
    requires Parse(s).Complete?
    ensures Says(s[..Parse(s).consumed], Parse(s).req)
  {
    hide ReadId; hide ReadStr; hide ReadCount; hide ReadValue; hide IsId; hide IsStr; hide IsValue;
    var Complete(req, end) := Parse(s);
    var q := Cut(s);
    ReadGives(s, 2);
    var p1 := ReadId(s, 2).pos;
    ReadGives(s, p1);
    var p2 := ReadStr(s, p1).pos;
    ReadGives(s, p2);
    var p3 := ReadCount(s, p2).pos;
    ReadGives(s, p3);
    if q.n >= 1 {
      ReadGives(s, ReadStr(s, p3).pos);
    }
    assert IsMessage(q, req);
    Rejoin(s, p1, p2, p3 + |q.p|, end);
    assert s[..2] == [0x94, 0x00];
  }

  /** The parser's answer is exact: complete on a message, and only then. */
  lemma {:induction false} CompleteExact(s: seq<byte>, req: Request, n: nat)
    ensures Parse(s) == Complete(req, n) <==> n <= |s| && Says(s[..n], req)
  {
    if Parse(s) == Complete(req, n) {
      ParsedSays(s);
    }
    if n <= |s| && Says(s[..n], req) {
      var q: Parts :| IsMessage(q, req) && s[..n] == q.Bytes();
      ParsesMessage(q, req, s[n..]);
      assert s == s[..n] + s[n..];
    }
  }

  // ----- "Incomplete" means a proper prefix of some message -----

  function Zeros(n: nat): (z: seq<byte>)
    ensures |z| == n
  {
    seq(n, _ => 0)
  }

  lemma {:induction false} StrPrefix(s: seq<byte>, pos: nat) returns (b: seq<byte>, str: seq<byte>)
    requires pos <= |s| && ReadStr(s, pos).More?
    ensures IsStr(b, str) && s[pos..] < b
  {
    if |s| == pos {
      b, str := [0xa0], [];
    } else {
      str := s[pos + 1..] + Zeros(s[pos] % 32 - (|s| - pos - 1));
      b := [s[pos]] + str;
    }
  }

  lemma {:induction false} IdPrefix(s: seq<byte>, pos: nat) returns (b: seq<byte>, id: u32)
    requires pos < |s| && ReadId(s, pos).More?
    ensures IsId(b, id) && s[pos..] < b
  {
    var n := if s[pos] == 0xcc then 2 else if s[pos] == 0xcd then 3 else 5;
    b := s[pos..] + Zeros(n - (|s| - pos));
    id := if n == 2 then b[1] else if n == 3 then U16(b[1], b[2]) else U32(b[1], b[2], b[3], b[4]);
  }

  lemma {:induction false} ValuePrefix(s: seq<byte>, pos: nat) returns (b: seq<byte>)
    requires pos <= |s| && ReadValue(s, pos).More?
    ensures IsValue(b, 0) && s[pos..] < b
  {
    b := s[pos..] + [0];
  }

  lemma {:induction false} ParamsPrefix(s: seq<byte>, id: u32, name: seq<byte>, n: nat, pos: nat)
    returns (p: seq<byte>, x: seq<byte>, pin: seq<byte>, val: nat)
    requires pos <= |s| && n < 16 && ParseParams(s, id, name, n, pos).Incomplete?
    ensures IsStr(p, pin) && n >= 1 && (if n >= 2 then IsValue(x, val) else x == [] && val == 0)
    ensures s[pos..] < p + x
  {
    x, val := if n >= 2 then [0] else [], 0;
    if ReadStr(s, pos).More? {
      p, pin := StrPrefix(s, pos);
    } else {
      var p4 := ReadStr(s, pos).pos;
      ReadGives(s, pos);
      p, pin := s[pos..p4], ReadStr(s, pos).value;
      x := ValuePrefix(s, p4);
      assert s[pos..] == p + s[p4..];
    }
  }

  /** If the bytes of s from k on begin the bytes b, and the bytes before k are a, then s begins a + b. */
  lemma {:induction false} PrefixOf(s: seq<byte>, k: nat, a: seq<byte>, b: seq<byte>)
    requires k <= |s| && s[..k] == a && s[k..] < b
    ensures s < a + b
  {
    assert s == s[..k] + s[k..];
  }

  lemma {:induction false} ContinueId(s: seq<byte>) returns (q: Parts, req: Request)
    requires |s| >= 4 && s[..2] == [0x94, 0x00] && ReadId(s, 2).More?
    ensures IsMessage(q, req) && s < q.Bytes()
  {
    hide ReadId;
    var i, id := IdPrefix(s, 2);
    q, req := Parts(i, [0xa0], 0, [], []), Request(id, [], [], 0);
    PrefixOf(s, 2, [0x94, 0x00], i + [0xa0] + [0x90]);
    assert q.Bytes() == [0x94, 0x00] + (i + [0xa0] + [0x90]);
  }

  lemma {:induction false} ContinueName(s: seq<byte>, id: u32, p1: nat) returns (q: Parts, req: Request)
    requires 2 <= p1 <= |s| && s[..2] == [0x94, 0x00] && IsId(s[2..p1], id) && ReadStr(s, p1).More?
    ensures IsMessage(q, req) && s < q.Bytes()
  {
    hide ReadStr; hide IsId;
    var m, name := StrPrefix(s, p1);
    q, req := Parts(s[2..p1], m, 0, [], []), Request(id, name, [], 0);
    assert s[..p1] == [0x94, 0x00] + s[2..p1];
    PrefixOf(s, p1, [0x94, 0x00] + s[2..p1], m + [0x90]);
    assert q.Bytes() == [0x94, 0x00] + s[2..p1] + (m + [0x90]);
  }

  lemma {:induction false} ContinueParams(s: seq<byte>, id: u32, name: seq<byte>, p1: nat, p2: nat) returns (q: Parts,
                                          req: Request)
    requires 2 <= p1 <= p2 <= |s| && s[..2] == [0x94, 0x00] && IsId(s[2..p1], id) && IsStr(s[p1..p2], name)
    requires ReadCount(s, p2).More?
             || (ReadCount(s, p2).Done? && ParseParams(s, id, name, ReadCount(s, p2).value, p2 + 1).Incomplete?)
    ensures IsMessage(q, req) && s < q.Bytes()
  {
    hide ReadCount; hide IsId; hide ParseParams;
    var a := [0x94, 0x00] + s[2..p1] + s[p1..p2];
    assert s[..p2] == a;
    if ReadCount(s, p2).More? {
      CountMore(s, p2);
      q, req := Parts(s[2..p1], s[p1..p2], 0, [], []), Request(id, name, [], 0);
      PrefixOf(s, p2, a, [0x90]);
    } else {
      ReadGives(s, p2);
      var n := ReadCount(s, p2).value;
      var p, x, pin, val := ParamsPrefix(s, id, name, n, p2 + 1);
      q, req := Parts(s[2..p1], s[p1..p2], n, p, x), Request(id, name, pin, val);
      assert s[..p2 + 1] == a + [0x90 + n];
      PrefixOf(s, p2 + 1, a + [0x90 + n], p + x);
      assert q.Bytes() == a + [0x90 + n] + (p + x);
    }
  }

  /** An incomplete buffer of four bytes or more can be continued to a message. */
  lemma {:induction false} Continuable(s: seq<byte>) returns (q: Parts, req: Request)
    requires |s| >= 4 && Parse(s).Incomplete?
    ensures IsMessage(q, req) && s < q.Bytes()
  {
    hide ReadId; hide ReadStr; hide ReadCount; hide ReadValue; hide ParseParams; hide IsMessage; hide Parts.Bytes;
    assert s[..2] == [0x94, 0x00];
    if ReadId(s, 2).More? {
      q, req := ContinueId(s);
    } else {
      ReadGives(s, 2);
      var p1, id := ReadId(s, 2).pos, ReadId(s, 2).value;
      if ReadStr(s, p1).More? {
        q, req := ContinueName(s, id, p1);
      } else {
        ReadGives(s, p1);
        var p2 := ReadStr(s, p1).pos;
        ReadGives(s, p2);
        q, req := ContinueParams(s, id, ReadStr(s, p1).value, p1, p2);
      }
    }
  }

  lemma {:induction false} CountMore(s: seq<byte>, pos: nat)
    requires pos <= |s| && ReadCount(s, pos).More?
    ensures |s| == pos
  {
  }

  /** "Incomplete" is exact too: too short to tell, or a proper prefix of some message. */
  lemma {:induction false} IncompleteExact(s: seq<byte>)
    ensures Parse(s).Incomplete? <==> |s| < 4 || exists t: seq<byte>, req :: t != [] && Says(s + t, req)
  {
    if Parse(s).Incomplete? && |s| >= 4 {
      var q, req := Continuable(s);
      var t := q.Bytes()[|s|..];
      assert s + t == q.Bytes();
      assert Says(s + t, req);
    }
    if t: seq<byte>, req :| t != [] && Says(s + t, req) {
      CompleteExact(s + t, req, |s + t|);
      assert (s + t)[..|s + t|] == s + t;
      if !Parse(s).Incomplete? {
        Stable(s, t);
      }
    }
  }
}
