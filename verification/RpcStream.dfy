/** The receive loop of imola-bridge.c: a sliding buffer, resynchronisation, responses. */
module RpcStream {
  import opened Bytes
  import opened Common
  import opened RpcParser

  const CAPACITY := 4096

  // ----- One pass over the buffer -----

  predicate MarkAt(s: seq<byte>, k: nat) {
    k + 1 < |s| && s[k] == 0x94 && s[k + 1] == 0x00
  }

  /** How many bytes a resync drops, counting from k: up to the next 0x94 0x00, or all but one. */
  function Skip(s: seq<byte>, k: nat): (n: nat)
    requires k < |s|
    ensures k <= n < |s| && (n + 1 == |s| || MarkAt(s, n))
    ensures forall j :: k <= j < n ==> !MarkAt(s, j)
    decreases |s| - k
  {
    if k + 1 < |s| && !MarkAt(s, k) then Skip(s, k + 1) else k
  }

  datatype Drained = Drained(reqs: seq<Request>, rest: seq<byte>)

  /** Everything the loop does with buffer contents s: the requests dispatched, the bytes kept. */
  function Drain(s: seq<byte>): (d: Drained)
    ensures |d.rest| < MAX_MESSAGE
    decreases |s|
  {
    if s == [] then Drained([], [])
    else
      match Parse(s)
      case Incomplete => Drained([], s)
      case SyncError => Drain(s[Skip(s, 1)..])
      case Complete(req, n) => var d := Drain(s[n..]); Drained([req] + d.reqs, d.rest)
  }

  // ----- Cutting the stream makes no difference -----

  /** Dropping bytes up to the next mark, or all but the last, loses no request. */
  lemma {:induction false} SkipLosesNothing(u: seq<byte>)
    requires |u| >= 2 && !MarkAt(u, 0)
    ensures Drain(u).reqs == Drain(u[Skip(u, 1)..]).reqs
  {
    if |u| < 4 {
      assert Parse(u[Skip(u, 1)..]).Incomplete?;
    }
  }

  lemma {:induction false} SkipAppend(s: seq<byte>, t: seq<byte>, k: nat)
    requires k < |s|
    ensures Skip(s, k) + 1 < |s| || MarkAt(s + t, Skip(s, k)) || t == [] ==> Skip(s + t, k) == Skip(s, k)
    ensures Skip(s, k) + 1 == |s| && t != [] && !MarkAt(s + t, |s| - 1)
            ==> Skip(s + t, k) == |s| - 1 + Skip([s[|s| - 1]] + t, 1)
    decreases |s| - k
  {
    var u := s + t;
    if k + 1 < |s| {
      assert MarkAt(u, k) == MarkAt(s, k);
      if !MarkAt(s, k) {
        SkipAppend(s, t, k + 1);
      }
    } else if t != [] && !MarkAt(u, k) {
      SkipShift(u, k, 1);
      assert u[k..] == [s[k]] + t;
    }
  }

  lemma {:induction false} SkipShift(u: seq<byte>, k: nat, j: nat)
    requires k + j < |u|
    ensures Skip(u, k + j) == k + Skip(u[k..], j)
    decreases |u| - j
  {
    if k + j + 1 < |u| && !MarkAt(u, k + j) {
      SkipShift(u, k, j + 1);
    }
  }

  /** What was kept, together with what arrives later, yields the requests that one pass over
      the whole would have yielded. (The bytes kept may differ: they are not compared.) */
  lemma {:induction false} DrainAppend(s: seq<byte>, t: seq<byte>)
    ensures Drain(s + t).reqs == Drain(s).reqs + Drain(Drain(s).rest + t).reqs
    decreases |s|
  {
    if s == [] {
      assert [] + t == t;
    } else if Parse(s).Complete? {
      Stable(s, t);
      var n := Parse(s).consumed;
      assert (s + t)[n..] == s[n..] + t;
      DrainAppend(s[n..], t);
    } else if Parse(s).SyncError? {
      Stable(s, t);
      ResyncAppend(s, t);
    }
  }

  lemma {:induction false} DrainResync(s: seq<byte>)
    requires s != [] && Parse(s).SyncError?
    ensures Drain(s) == Drain(s[Skip(s, 1)..])
  {
    hide Parse; hide Skip;
  }

  lemma {:induction false} DrainOne(b: byte)
    ensures Drain([b]) == Drained([], [b])
  {
  }

  lemma {:induction false} ResyncAppend(s: seq<byte>, t: seq<byte>)
    requires |s| > 1 && Parse(s).SyncError? && Parse(s + t).SyncError?
    ensures Drain(s + t).reqs == Drain(s).reqs + Drain(Drain(s).rest + t).reqs
    decreases |s|, 0
  {
    hide Parse; hide Skip; hide Drain; hide MarkAt;
    var k := Skip(s, 1);
    DrainResync(s);
    DrainResync(s + t);
    SkipAppend(s, t, 1);
    if k + 1 < |s| || t == [] || MarkAt(s + t, k) {
      assert (s + t)[k..] == s[k..] + t;
      DrainAppend(s[k..], t);
    } else {
      var last := s[|s| - 1];
      assert s[k..] == [last];
      DrainOne(last);
      var u := [last] + t;
      assert u == (s + t)[k..];
      MarkMoved(s + t, k);
      SkipLosesNothing(u);
      assert (s + t)[k + Skip(u, 1)..] == u[Skip(u, 1)..];
      assert [] + Drain(u).reqs == Drain(u).reqs;
    }
  }

  lemma {:induction false} MarkMoved(s: seq<byte>, k: nat)
    requires k < |s|
    ensures MarkAt(s[k..], 0) == MarkAt(s, k)
  {
  }

  function Concat(chunks: seq<seq<byte>>): seq<byte> {
    if chunks == [] then [] else chunks[0] + Concat(chunks[1..])
  }

  /** The requests dispatched when the stream arrives in the given chunks after s was kept. */
  function Feed(s: seq<byte>, chunks: seq<seq<byte>>): seq<Request>
    decreases |chunks|
  {
    if chunks == [] then []
    else
      var d := Drain(s + chunks[0]);
      d.reqs + Feed(d.rest, chunks[1..])
  }

  /** However read() cuts the stream, the requests dispatched are those of one pass over it. */
  lemma {:induction false} SplitIndependence(s: seq<byte>, chunks: seq<seq<byte>>)
    requires Drain(s).reqs == []
    ensures Feed(s, chunks) == Drain(s + Concat(chunks)).reqs
    decreases |chunks|
  {
    hide Drain; hide Parse;
    if chunks == [] {
      assert s + [] == s;
    } else {
      var d := Drain(s + chunks[0]);
      RestIsQuiet(s + chunks[0]);
      SplitIndependence(d.rest, chunks[1..]);
      DrainAppend(s + chunks[0], Concat(chunks[1..]));
      assert s + chunks[0] + Concat(chunks[1..]) == s + Concat(chunks);
    }
  }

  /** Nothing more can be dispatched from what was kept. */
  lemma {:induction false} RestIsQuiet(s: seq<byte>)
    ensures Drain(Drain(s).rest) == Drained([], Drain(s).rest)
    decreases |s|
  {
    if s != [] {
      match Parse(s)
      case Incomplete =>
      case SyncError => RestIsQuiet(s[Skip(s, 1)..]);
      case Complete(req, n) => RestIsQuiet(s[n..]);
    }
  }

  // ----- Noise between messages -----

  /** A message behind bytes that are none of it. */
  datatype Burst = Burst(noise: seq<byte>, q: Parts, req: Request)

  ghost predicate Markless(g: seq<byte>) {
    forall k :: 0 <= k < |g| ==> !MarkAt(g, k)
  }

  ghost predicate Sound(b: Burst) {
    Markless(b.noise) && IsMessage(b.q, b.req)
  }

  ghost function Render(bs: seq<Burst>): (s: seq<byte>)
    requires forall k :: 0 <= k < |bs| ==> Sound(bs[k])
  {
    if bs == [] then []
    else
      assert Sound(bs[0]);
      bs[0].noise + bs[0].q.Bytes() + Render(bs[1..])
  }

  function Requests(bs: seq<Burst>): seq<Request> {
    if bs == [] then [] else [bs[0].req] + Requests(bs[1..])
  }

  lemma {:induction false} NoiseSkipped(g: seq<byte>, m: seq<byte>)
    requires g != [] && Markless(g) && |m| >= 4 && MarkAt(m, 0)
    ensures Drain(g + m) == Drain(m)
  {
    var s := g + m;
    assert forall k :: 0 <= k < |g| - 1 ==> MarkAt(s, k) == MarkAt(g, k);
    assert !MarkAt(s, |g| - 1) && MarkAt(s, |g|);
    assert !MarkAt(s, 0) && Parse(s).SyncError?;
    assert Skip(s, 1) == |g|;
    assert s[|g|..] == m;
  }

  /** Noise without a 0x94 0x00 in front of a message is dropped, and nothing else. */
  lemma {:induction false} NoiseDropped(g: seq<byte>, q: Parts, req: Request, t: seq<byte>)
    requires Markless(g) && IsMessage(q, req)
    ensures Drain(g + q.Bytes() + t).reqs == [req] + Drain(t).reqs
  {
    hide Skip;
    var m := q.Bytes() + t;
    MessageParts(q, req);
    PartsAt(q, t);
    ParsesMessage(q, req, t);
    assert m[|q.Bytes()|..] == t;
    assert Drain(m).reqs == [req] + Drain(t).reqs;
    assert g + q.Bytes() + t == g + m;
    if g == [] {
      assert g + m == m;
    } else {
      NoiseSkipped(g, m);
    }
  }

  lemma {:induction false} NoiseAlone(g: seq<byte>)
    requires Markless(g)
    ensures Drain(g).reqs == []
  {
    if |g| >= 4 {
      assert !MarkAt(g, 0);
      assert |g[Skip(g, 1)..]| == 1;
    }
  }

  lemma {:induction false} OnePass(bs: seq<Burst>, tail: seq<byte>)
    requires (forall k :: 0 <= k < |bs| ==> Sound(bs[k])) && Markless(tail)
    ensures Drain(Render(bs) + tail).reqs == Requests(bs)
  {
    if bs == [] {
      assert Render(bs) + tail == tail;
      NoiseAlone(tail);
    } else {
      OnePass(bs[1..], tail);
      var t := Render(bs[1..]) + tail;
      NoiseDropped(bs[0].noise, bs[0].q, bs[0].req, t);
      assert Render(bs) + tail == bs[0].noise + bs[0].q.Bytes() + t;
    }
  }

  /** Messages with noise between them, cut in any way, are dispatched exactly, in order. */
  lemma {:induction false} NoisyStreamDelivered(bs: seq<Burst>, tail: seq<byte>, chunks: seq<seq<byte>>)
    requires (forall k :: 0 <= k < |bs| ==> Sound(bs[k])) && Markless(tail)
    requires Concat(chunks) == Render(bs) + tail
    ensures Feed([], chunks) == Requests(bs)
  {
    SplitIndependence([], chunks);
    assert [] + Concat(chunks) == Concat(chunks);
    OnePass(bs, tail);
  }

  // ----- Responses -----

  /** The shortest encoding of an id. */
  function ShortId(id: u32): (b: seq<byte>)
  {
    if id <= 0x7f then [id]
    else if id <= 0xff then [0xcc, id]
    else if id <= 0xffff then [0xcd, id / 0x100, id % 0x100]
    else [0xce, id / 0x100_0000, id / 0x1_0000 % 0x100, id / 0x100 % 0x100, id % 0x100]
  }

  /** [1, id, nil, true] */
  function Response(id: u32): (b: seq<byte>)
  {
    [0x94, 0x01] + ShortId(id) + [0xc0, 0xc3]
  }

  lemma {:induction false} Bytes32(id: u32)
    ensures U32(id / 0x100_0000, id / 0x1_0000 % 0x100, id / 0x100 % 0x100, id % 0x100) == id
  {
    assert id / 0x1_0000 == 0x100 * (id / 0x100_0000) + id / 0x1_0000 % 0x100;
    assert id / 0x100 == 0x100 * (id / 0x1_0000) + id / 0x100 % 0x100;
  }

  lemma {:induction false} ShortIdIsId(id: u32)
    ensures IsId(ShortId(id), id)
  {
    Bytes32(id);
  }

  /** The peer's reading of a response stream: the ids answered. */
  function ReadResponses(s: seq<byte>): (ids: seq<u32>)
    decreases |s|
  {
    if |s| < 3 || s[0] != 0x94 || s[1] != 0x01 then []
    else
      match ReadId(s, 2)
      case Done(id, p) =>
        if p + 2 <= |s| && s[p] == 0xc0 && s[p + 1] == 0xc3 then [id] + ReadResponses(s[p + 2..]) else []
      case _ => []
  }

  function Responses(reqs: seq<Request>): (b: seq<byte>)
  {
    if reqs == [] then [] else Response(reqs[0].id) + Responses(reqs[1..])
  }

  function IdsOf(reqs: seq<Request>): seq<u32> {
    if reqs == [] then [] else [reqs[0].id] + IdsOf(reqs[1..])
  }

  lemma {:induction false} ResponseRead(id: u32, t: seq<byte>)
    ensures ReadResponses(Response(id) + t) == [id] + ReadResponses(t)
  {
    hide ShortId; hide ReadId; hide U32;
    var i, s := ShortId(id), Response(id) + t;
    ShortIdIsId(id);
    assert s == [0x94, 0x01] + i + ([0xc0, 0xc3] + t);
    assert At(s, 2, i);
    StagesAt(s, 2, i);
    assert s[2 + |i|..] == [0xc0, 0xc3] + t;
    assert s[4 + |i|..] == t;
  }

  /** One response per request, in order, carrying its id. */
  lemma {:induction false} ResponsesRead(reqs: seq<Request>)
    ensures ReadResponses(Responses(reqs)) == IdsOf(reqs)
  {
    if reqs != [] {
      ResponsesRead(reqs[1..]);
      ResponseRead(reqs[0].id, Responses(reqs[1..]));
    }
  }
}
