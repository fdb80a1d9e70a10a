/** imola-bridge.c as it runs: parser and receive loop over the 4096 byte buffer. */
module RpcBridge {
  import opened Bytes
  import opened Common
  import opened RpcParser
  import opened RpcStream

  /** parse_rpc_request on the first len bytes of the buffer. */
  method ParseRpcRequest(buf: array<byte>, len: nat) returns (r: Answer)
    requires len <= buf.Length
    ensures r == Parse(buf[..len])
  {
    ghost var s := buf[..len];
    if len < 4 {
      return Incomplete;
    }
    if buf[0] != 0x94 {
      return SyncError;
    }
    if buf[1] != 0x00 {
      return SyncError;
    }
    var pos := 2;
    var msgId: u32 := 0;
    if buf[pos] <= 0x7f {
      msgId := buf[pos];
      pos := pos + 1;
    } else if buf[pos] == 0xcc {
      if len < pos + 2 {
        return Incomplete;
      }
      msgId := buf[pos + 1];
      pos := pos + 2;
    } else if buf[pos] == 0xcd {
      if len < pos + 3 {
        return Incomplete;
      }
      msgId := U16(buf[pos + 1], buf[pos + 2]);
      pos := pos + 3;
    } else if buf[pos] == 0xce {
      if len < pos + 5 {
        return Incomplete;
      }
      msgId := U32(buf[pos + 1], buf[pos + 2], buf[pos + 3], buf[pos + 4]);
      pos := pos + 5;
    } else {
      return SyncError;
    }
    assert ReadId(s, 2) == Done(msgId, pos);

    var name := ReadFixstr(buf, len, pos);
    match name {
      case More => return Incomplete;
      case Bad => return SyncError;
      case Done(_, p2) => pos := p2;
    }
    if len < pos + 1 {
      return Incomplete;
    }
    if buf[pos] / 16 != 9 {
      return SyncError;
    }
    var count := buf[pos] % 16;
    pos := pos + 1;
    r := ParseRpcParams(buf, len, msgId, name.value, count, pos);
  }

  /** A string of at most 31 bytes; the 32 byte destination never cuts it short. */
  method ReadFixstr(buf: array<byte>, len: nat, start: nat) returns (r: Stage<seq<byte>>)
    requires len <= buf.Length
    ensures r == ReadStr(buf[..len], start)
  {
    var pos := start;
    if len < pos + 1 {
      return More;
    }
    if buf[pos] / 32 != 5 {
      return Bad;
    }
    var n := buf[pos] % 32;
    pos := pos + 1;
    if len < pos + n {
      return More;
    }
    var copied := if n < 32 - 1 then n else 32 - 1;
    assert buf[..len][pos..pos + n] == buf[pos..pos + copied];
    return Done(buf[pos..pos + copied], pos + n);
  }

  method ParseRpcParams(buf: array<byte>, len: nat, msgId: u32, name: seq<byte>, count: nat, start: nat)
    returns (r: Answer)
    requires start <= len <= buf.Length
    ensures r == ParseParams(buf[..len], msgId, name, count, start)
  {
    var pos := start;
    var pin: seq<byte>, val := [], 0;
    if count >= 1 {
      var p := ReadFixstr(buf, len, pos);
      match p {
        case More => return Incomplete;
        case Bad => return SyncError;
        case Done(str, p4) => pin, pos := str, p4;
      }
    }
    if count >= 2 {
      if len < pos + 1 {
        return Incomplete;
      }
      var v := buf[pos];
      pos := pos + 1;
      if v == 0xc3 || v == 0x01 {
        val := 1;
      } else if v == 0xc2 || v == 0x00 {
        val := 0;
      } else if v == 0xcc {
        if len < pos + 1 {
          return Incomplete;
        }
        val := if buf[pos] != 0 then 1 else 0;
        pos := pos + 1;
      } else {
        val := 0;
      }
    }
    return Complete(Request(msgId, name, pin, val), pos);
  }

  /** The C string in a byte buffer: up to the first zero. */
  function CString(b: seq<byte>): seq<byte> {
    if b == [] || b[0] == 0 then [] else [b[0]] + CString(b[1..])
  }

  /** "set_pin_by_name" */
  const SET_PIN: seq<byte> := [115, 101, 116, 95, 112, 105, 110, 95, 98, 121, 95, 110, 97, 109, 101]

  datatype Action = Action(pin: seq<byte>, val: nat)

  function ActionsOf(req: Request): seq<Action> {
    if CString(req.name) == SET_PIN then [Action(CString(req.pin), req.val)] else []
  }

  function Actions(reqs: seq<Request>): seq<Action> {
    if reqs == [] then [] else ActionsOf(reqs[0]) + Actions(reqs[1..])
  }

  class Bridge {
    const buf: array<byte>
    var bufPos: nat
    var dispatched: seq<Request>  // requests handled so far
    var actions: seq<Action>      // pin actions executed so far
    var written: seq<byte>        // bytes sent back so far

    ghost predicate Valid()
      reads this, buf
    {
      && buf.Length == CAPACITY && bufPos < MAX_MESSAGE
      && Drain(buf[..bufPos]) == Drained([], buf[..bufPos])
    }

    ghost function Pending(): seq<byte>
      reads this, buf
      requires bufPos <= buf.Length
    {
      buf[..bufPos]
    }

    constructor ()
      ensures Valid() && fresh(buf)
      ensures Pending() == [] && dispatched == [] && actions == [] && written == []
    {
      buf := new byte[CAPACITY];
      bufPos, dispatched, actions, written := 0, [], [], [];
    }

    /** memmove(buf, buf + n, bufPos - n) */
    method Drop(n: nat)
      requires n <= bufPos <= buf.Length
      modifies this`bufPos, buf
      ensures bufPos == old(bufPos) - n && Pending() == old(Pending())[n..]
    {
      forall i | 0 <= i < bufPos - n {
        buf[i] := buf[i + n];
      }
      bufPos := bufPos - n;
    }

    /** Distance to the next 0x94 0x00, or all but the last byte. */
    method ResyncDistance() returns (skip: nat)
      requires 1 < bufPos <= buf.Length
      ensures skip == Skip(Pending(), 1)
    {
      skip := 1;
      while skip + 1 < bufPos && !(buf[skip] == 0x94 && buf[skip + 1] == 0x00)
        invariant skip < bufPos
        invariant Skip(Pending(), 1) == Skip(Pending(), skip)
      {
        skip := skip + 1;
      }
    }

    /** read() puts chunk behind the bytes buffered. */
    method Fill(chunk: seq<byte>)
      requires bufPos <= buf.Length && |chunk| <= buf.Length - bufPos
      modifies this`bufPos, buf
      ensures bufPos <= buf.Length && Pending() == old(Pending()) + chunk
    {
      forall i | 0 <= i < |chunk| {
        buf[bufPos + i] := chunk[i];
      }
      bufPos := bufPos + |chunk|;
    }

    /** Execute a request and answer it. */
    method Respond(req: Request)
      modifies this`dispatched, this`actions, this`written
      ensures dispatched == old(dispatched) + [req]
      ensures actions == old(actions) + ActionsOf(req)
      ensures written == old(written) + Response(req.id)
    {
      hide CString; hide Response;
      dispatched := dispatched + [req];
      if CString(req.name) == SET_PIN {
        actions := actions + [Action(CString(req.pin), req.val)];
      }
      written := written + Response(req.id);
    }

    /** The requests done have been handled, and what is pending yields the others of all. */
    ghost predicate Midway(all: seq<byte>, done: seq<Request>, d0: seq<Request>, a0: seq<Action>, w0: seq<byte>)
      reads this, buf
    {
      && bufPos <= buf.Length
      && Drain(all).reqs == done + Drain(Pending()).reqs && Drain(all).rest == Drain(Pending()).rest
      && dispatched == d0 + done && actions == a0 + Actions(done) && written == w0 + Responses(done)
    }

    /** One turn of the inner loop: stop, resync, or handle a request. */
    method Turn(ghost all: seq<byte>, ghost done: seq<Request>, ghost d0: seq<Request>, ghost a0: seq<Action>,
                ghost w0: seq<byte>)
      returns (stop: bool, ghost done': seq<Request>)
      requires Midway(all, done, d0, a0, w0) && bufPos > 0
      modifies this, buf
      ensures Midway(all, done', d0, a0, w0) && bufPos <= buf.Length
      ensures if stop then Drain(Pending()) == Drained([], Pending()) else bufPos < old(bufPos)
    {
      hide Drain; hide Parse; hide Skip; hide Response; hide Responses; hide Actions; hide ActionsOf;
      ghost var s := Pending();
      done' := done;
      var answer := ParseRpcRequest(buf, bufPos);
      match answer {
        case Incomplete =>
          DrainStops(s);
          stop := true;
        case SyncError =>
          DrainResync(s);
          var skip := ResyncDistance();
          Drop(skip);
          stop := false;
        case Complete(req, consumed) =>
          OneHandled(req);
          HandledAll(done, [req]);
          DrainGoesOn(s);
          Regroup(done, [req], Drain(s[consumed..]).reqs);
          Respond(req);
          Drop(consumed);
          done' := done + [req];
          Regroup(d0, done, [req]);
          Regroup(a0, Actions(done), ActionsOf(req));
          Regroup(w0, Responses(done), Response(req.id));
          stop := false;
      }
    }

    /** read() delivered chunk; handle every message now in the buffer. */
    method Receive(chunk: seq<byte>)
      requires Valid() && 0 < |chunk| <= buf.Length - bufPos
      modifies this, buf
      ensures Valid()
      ensures var d := old(Drain(Pending() + chunk));
        && Pending() == d.rest
        && dispatched == old(dispatched) + d.reqs
        && actions == old(actions) + Actions(d.reqs)
        && written == old(written) + Responses(d.reqs)
    {
      hide Drain; hide Responses; hide Actions; hide Bridge.Midway;
      ghost var all, d0, a0, w0 := Pending() + chunk, dispatched, actions, written;
      Fill(chunk);
      ghost var done: seq<Request> := [];
      Begins(all);
      var stop := false;
      while !stop && bufPos > 0
        invariant Midway(all, done, d0, a0, w0)
        invariant stop ==> bufPos <= buf.Length && Drain(Pending()) == Drained([], Pending())
        decreases !stop, bufPos
      {
        stop, done := Turn(all, done, d0, a0, w0);
      }
      Ends(all, done, d0, a0, w0, stop);
    }

    lemma {:induction false} Begins(all: seq<byte>)
      requires bufPos <= buf.Length && all == Pending()
      ensures Midway(all, [], dispatched, actions, written)
    {
      hide Drain;
      assert [] + Drain(all).reqs == Drain(all).reqs;
    }

    lemma {:induction false} Ends(all: seq<byte>, done: seq<Request>, d0: seq<Request>, a0: seq<Action>,
                                  w0: seq<byte>, stop: bool)
      requires Midway(all, done, d0, a0, w0) && buf.Length == CAPACITY
      requires if stop then Drain(Pending()) == Drained([], Pending()) else bufPos == 0
      ensures Valid() && Pending() == Drain(all).rest && Drain(all).reqs == done
      ensures dispatched == d0 + done && actions == a0 + Actions(done) && written == w0 + Responses(done)
    {
      hide Drain; hide Actions; hide Responses;
      if !stop {
        DrainStops(Pending());
      }
      assert done + [] == done;
    }

    /** Serve a stream whose reads return the given numbers of bytes, as far as the room in the
        buffer and the stream allow, until one returns none. However it is cut, what has been
        dispatched, done and answered is what one pass over the bytes read so far yields; and
        every read takes all it offers, short of 74 bytes below the buffer's size. */
    method Serve(stream: seq<byte>, cuts: seq<nat>) returns (p: nat)
      requires Valid()
      modifies this, buf
      ensures Valid() && p <= |stream| && p <= Offered(cuts)
      ensures p == |stream| || Offered(Capped(cuts)) <= p
      ensures (forall i :: 0 <= i < |cuts| ==> cuts[i] <= CAPACITY - MAX_MESSAGE) ==>
        p == if Offered(cuts) <= |stream| then Offered(cuts) else |stream|
      ensures var reqs := Drain(old(Pending()) + stream[..p]).reqs;
        && dispatched == old(dispatched) + reqs
        && actions == old(actions) + Actions(reqs)
        && written == old(written) + Responses(reqs)
    {
      hide Drain; hide Stands; hide Actions; hide Responses; hide Offered; hide Capped;
      p := 0;
      assert Pending() + stream[..0] == Pending();
      StandsStart(Pending());
      NothingHandled();
      ghost var first := Pending();
      ghost var rest := cuts;
      for i := 0 to |cuts|
        invariant Valid() && p <= |stream| && rest == cuts[i..]
        invariant p + Offered(rest) <= Offered(cuts)
        invariant p == |stream| || Offered(Capped(cuts)) <= p + Offered(Capped(rest))
        invariant var reqs := Drain(first + stream[..p]).reqs;
          && dispatched == old(dispatched) + reqs
          && actions == old(actions) + Actions(reqs)
          && written == old(written) + Responses(reqs)
        invariant Stands(first + stream[..p], Pending())
      {
        OfferedNext(rest);
        if cuts[i] == 0 {
          break;
        }
        var n := if cuts[i] <= |stream| - p then cuts[i] else |stream| - p;
        if n > CAPACITY - bufPos {
          n := CAPACITY - bufPos;
        }
        if n > 0 {
          var chunk := stream[p..p + n];
          Advance(first + stream[..p], Pending(), chunk);
          assert first + stream[..p] + chunk == first + stream[..p + n];
          HandledAll(Drain(first + stream[..p]).reqs, Drain(Pending() + chunk).reqs);
          Receive(chunk);
          p := p + n;
        }
        rest := rest[1..];
      }
      OfferedNone(rest);
      AllOffered(cuts);
    }
  }

  /** What reads of these sizes offer, until one of them is empty. */
  function Offered(cuts: seq<nat>): nat {
    if cuts == [] || cuts[0] == 0 then 0 else cuts[0] + Offered(cuts[1..])
  }

  /** The part of each read for which the buffer is certain to have room. */
  function Capped(cuts: seq<nat>): seq<nat> {
    if cuts == [] then []
    else [if cuts[0] <= CAPACITY - MAX_MESSAGE then cuts[0] else CAPACITY - MAX_MESSAGE] + Capped(cuts[1..])
  }

  lemma {:induction false} OfferedNext(cuts: seq<nat>)
    requires cuts != []
    ensures Offered(cuts) == if cuts[0] == 0 then 0 else cuts[0] + Offered(cuts[1..])
    ensures var c := if cuts[0] <= CAPACITY - MAX_MESSAGE then cuts[0] else CAPACITY - MAX_MESSAGE;
      Offered(Capped(cuts)) == if cuts[0] == 0 then 0 else c + Offered(Capped(cuts[1..]))
  {
    assert Capped(cuts)[1..] == Capped(cuts[1..]);
  }

  lemma {:induction false} OfferedNone(cuts: seq<nat>)
    requires cuts == [] || cuts[0] == 0
    ensures Offered(cuts) == 0 && Offered(Capped(cuts)) == 0
  {
  }

  lemma {:induction false} AllOffered(cuts: seq<nat>)
    ensures (forall i :: 0 <= i < |cuts| ==> cuts[i] <= CAPACITY - MAX_MESSAGE) ==> Capped(cuts) == cuts
  {
    if cuts != [] {
      AllOffered(cuts[1..]);
      if forall i :: 0 <= i < |cuts| ==> cuts[i] <= CAPACITY - MAX_MESSAGE {
        assert forall i :: 0 <= i < |cuts[1..]| ==> cuts[1..][i] == cuts[i + 1];
        assert cuts == [cuts[0]] + cuts[1..];
      }
    }
  }

  lemma {:induction false} DrainStops(s: seq<byte>)
    requires s == [] || Parse(s).Incomplete?
    ensures Drain(s) == Drained([], s)
  {
    hide Parse;
  }

  lemma {:induction false} DrainGoesOn(s: seq<byte>)
    requires s != [] && Parse(s).Complete?
    ensures Drain(s).reqs == [Parse(s).req] + Drain(s[Parse(s).consumed..]).reqs
    ensures Drain(s).rest == Drain(s[Parse(s).consumed..]).rest
  {
    hide Parse;
  }

  /** The bytes kept stand for all bytes seen, as far as future requests are concerned. */
  ghost predicate Stands(seen: seq<byte>, kept: seq<byte>) {
    forall t :: StandsBefore(seen, kept, t)
  }

  ghost predicate StandsBefore(seen: seq<byte>, kept: seq<byte>, t: seq<byte>) {
    Drain(seen + t).reqs == Drain(seen).reqs + Drain(kept + t).reqs
  }

  lemma {:induction false} StandsStart(s: seq<byte>)
    requires Drain(s).reqs == []
    ensures Stands(s, s)
  {
    hide Drain;
  }

  lemma {:induction false} Advance(seen: seq<byte>, kept: seq<byte>, chunk: seq<byte>)
    requires Stands(seen, kept)
    ensures Drain(seen + chunk).reqs == Drain(seen).reqs + Drain(kept + chunk).reqs
    ensures Stands(seen + chunk, Drain(kept + chunk).rest)
  {
    hide Drain;
    assert StandsBefore(seen, kept, chunk);
    forall t ensures StandsBefore(seen + chunk, Drain(kept + chunk).rest, t) {
      AdvanceBefore(seen, kept, chunk, t);
    }
  }

  lemma {:induction false} AdvanceBefore(seen: seq<byte>, kept: seq<byte>, chunk: seq<byte>, t: seq<byte>)
    requires Stands(seen, kept)
    ensures StandsBefore(seen + chunk, Drain(kept + chunk).rest, t)
  {
    hide Drain;
    assert StandsBefore(seen, kept, chunk) && StandsBefore(seen, kept, chunk + t);
    assert seen + (chunk + t) == seen + chunk + t;
    assert kept + (chunk + t) == kept + chunk + t;
    DrainAppend(kept + chunk, t);
  }

  lemma {:induction false} NothingHandled()
    ensures Actions([]) == [] && Responses([]) == []
  {
  }

  lemma {:induction false} OneHandled(req: Request)
    ensures Actions([req]) == ActionsOf(req) && Responses([req]) == Response(req.id)
  {
    hide Response; hide CString; hide ActionsOf;
    assert Actions([req][1..]) == [] && Responses([req][1..]) == [];
    assert ActionsOf(req) + [] == ActionsOf(req) && Response(req.id) + [] == Response(req.id);
  }

  lemma {:induction false} HandledAll(done: seq<Request>, more: seq<Request>)
    ensures Actions(done + more) == Actions(done) + Actions(more)
    ensures Responses(done + more) == Responses(done) + Responses(more)
  {
    ActionsAppend(done, more);
    ResponsesAppend(done, more);
  }

  lemma {:induction false} Regroup<T>(x: seq<T>, y: seq<T>, z: seq<T>)
    ensures x + (y + z) == x + y + z
  {
  }

  lemma {:induction false} ActionsAppend(done: seq<Request>, more: seq<Request>)
    ensures Actions(done + more) == Actions(done) + Actions(more)
  {
    hide CString; hide ActionsOf;
    if done == [] {
      assert done + more == more;
      assert [] + Actions(more) == Actions(more);
    } else {
      ActionsAppend(done[1..], more);
      assert (done + more)[1..] == done[1..] + more;
      Regroup(ActionsOf(done[0]), Actions(done[1..]), Actions(more));
    }
  }

  lemma {:induction false} ResponsesAppend(done: seq<Request>, more: seq<Request>)
    ensures Responses(done + more) == Responses(done) + Responses(more)
  {
    hide Response;
    if done == [] {
      assert done + more == more;
      assert [] + Responses(more) == Responses(more);
    } else {
      ResponsesAppend(done[1..], more);
      assert (done + more)[1..] == done[1..] + more;
      Regroup(Response(done[0].id), Responses(done[1..]), Responses(more));
    }
  }
}
