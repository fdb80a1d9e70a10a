/** The block transfer of tqftpserv.c: a window of DATA packets for each ACK, and uploads. */
module BlockTransfer {
  import opened Bytes
  import opened Common

  function Min(a: nat, b: nat): nat {
    if a < b then a else b
  }

  /** What pread finds at block n of the file: nothing behind its end. */
  function Block(file: seq<byte>, size: nat, n: nat): (r: seq<byte>)
    ensures |r| <= size
  {
    var o := Span(n, size);
    if o >= |file| then [] else file[o..Min(o + size, |file|)]
  }

  datatype Data = Data(number: nat, payload: seq<byte>)

  // ----- Sending -----

  /** The packets answering an ACK: n blocks behind the one acknowledged, or up to the end. */
  function Window(file: seq<byte>, size: nat, last: nat, n: nat): seq<Data>
    decreases n
  {
    if n == 0 || Block(file, size, last) == [] then []
    else [Data(last + 1, Block(file, size, last))] + Window(file, size, last + 1, n - 1)
  }

  /** The window ends before the 16-bit block counter wraps, or the file does. */
  ghost predicate Ends(file: seq<byte>, size: nat, wsize: nat, last: nat) {
    size == 0 || last + wsize <= 65535 || |file| <= 65535 * size
  }

  /** handle_reader behind the checks: the window for ACK last, block numbers in 16 bits. */
  method SendWindow(file: seq<byte>, size: nat, wsize: nat, last: nat) returns (sent: seq<Data>)
    requires last <= 65535 && Ends(file, size, wsize, last)
    ensures sent == Window(file, size, last, wsize)
  {
    hide Block; hide Span; hide Window; hide Ends;
    sent := [];
    var block := last;
    while block < last + wsize
      invariant last <= block <= last + wsize && block <= 65535
      invariant sent + Window(file, size, block, last + wsize - block) == Window(file, size, last, wsize)
    {
      var payload := ReadBlock(file, size, block * size);
      SpanIsProduct(block, size);
      WindowStep(file, size, block, last + wsize - block, sent);
      if |payload| == 0 {
        return;
      }
      NotTheLast(file, size, wsize, last, block);
      sent := sent + [Data((block + 1) % 65536, payload)];
      block := (block + 1) % 65536;
    }
    WindowStep(file, size, block, 0, sent);
  }

  lemma {:induction false} WindowStep(file: seq<byte>, size: nat, block: nat, n: nat, sent: seq<Data>)
    ensures var x := Block(file, size, block);
      sent + Window(file, size, block, n)
      == if n == 0 || x == [] then sent else sent + [Data(block + 1, x)] + Window(file, size, block + 1, n - 1)
  {
    hide Block;
    var x := Block(file, size, block);
    if n == 0 || x == [] {
      assert sent + [] == sent;
    } else {
      assert sent + ([Data(block + 1, x)] + Window(file, size, block + 1, n - 1))
          == sent + [Data(block + 1, x)] + Window(file, size, block + 1, n - 1);
    }
  }

  lemma {:induction false} NotTheLast(file: seq<byte>, size: nat, wsize: nat, last: nat, block: nat)
    requires Ends(file, size, wsize, last) && block < last + wsize && block <= 65535 && Block(file, size, block) != []
    ensures block < 65535
  {
    hide Span;
    SpanIsProduct(block, size);
  }

  /** Otherwise the loop goes round for ever: its condition holds of every 16-bit block number,
      and every block is there to be sent. */
  lemma {:induction false} WindowNeverEnds(file: seq<byte>, size: nat, wsize: nat, last: nat, block: nat)
    requires !Ends(file, size, wsize, last) && block <= 65535
    ensures block < last + wsize && Block(file, size, block) != []
  {
    hide Span;
    BlocksWithin(block, size);
  }

  lemma {:induction false} BlocksWithin(n: nat, size: nat)
    ensures n <= 65535 ==> Span(n, size) <= 65535 * size
    ensures n >= 65535 ==> Span(n, size) >= 65535 * size
  {
    hide Span;
    SpanIsProduct(65535, size);
    if n <= 65535 {
      SpanMonotone(n, 65535, size);
    } else {
      SpanMonotone(65535, n, size);
    }
  }

  /** pread */
  method ReadBlock(file: seq<byte>, size: nat, offset: nat) returns (payload: seq<byte>)
    ensures forall n :: Span(n, size) == offset ==> payload == Block(file, size, n)
  {
    if offset >= |file| {
      return [];
    }
    return file[offset..Min(offset + size, |file|)];
  }

  /** The packet numbered b carries block b - 1 of the file. */
  ghost predicate Carries(file: seq<byte>, size: nat, d: Data) {
    d.number > 0 && d.payload == Block(file, size, d.number - 1) && d.payload != []
  }

  lemma {:induction false} WindowCarries(file: seq<byte>, size: nat, last: nat, n: nat, d: Data)
    requires d in Window(file, size, last, n)
    ensures Carries(file, size, d) && last < d.number <= last + n
    decreases n
  {
    var w := Window(file, size, last, n);
    if d != w[0] {
      assert d in w[1..];
      WindowCarries(file, size, last + 1, n - 1, d);
    }
  }

  /** The loop for ACK last sends block b as packet d: within the window, or, when the loop does
      not end, for every block number there is. */
  ghost predicate SendsBlock(file: seq<byte>, size: nat, wsize: nat, last: nat, b: nat, d: Data) {
    && b <= 65535 && d == Data((b + 1) % 65536, Block(file, size, b)) && d.payload != []
    && (Ends(file, size, wsize, last) ==> last <= b < last + wsize)
  }

  ghost predicate Sends(file: seq<byte>, size: nat, wsize: nat, last: nat, d: Data) {
    exists b :: SendsBlock(file, size, wsize, last, b, d)
  }

  lemma {:induction false} WindowHas(file: seq<byte>, size: nat, last: nat, n: nat, b: nat)
    requires last <= b < last + n && Block(file, size, b) != []
    ensures Data(b + 1, Block(file, size, b)) in Window(file, size, last, n)
    decreases n
  {
    hide Block;
    BlockEarlier(file, size, last, b);
    if last < b {
      WindowHas(file, size, last + 1, n - 1, b);
    }
  }

  lemma {:induction false} BlockEarlier(file: seq<byte>, size: nat, a: nat, b: nat)
    requires a <= b && Block(file, size, b) != []
    ensures Block(file, size, a) != []
  {
    hide Span;
    SpanMonotone(a, b, size);
  }

  /** For a loop that ends, the packets sent are those of the window. */
  lemma {:induction false} WindowSends(file: seq<byte>, size: nat, wsize: nat, last: nat, d: Data)
    requires last <= 65535 && Ends(file, size, wsize, last)
    ensures d in Window(file, size, last, wsize) <==> Sends(file, size, wsize, last, d)
  {
    hide Block; hide Window; hide Ends;
    if d in Window(file, size, last, wsize) {
      WindowCarries(file, size, last, wsize, d);
      var b := d.number - 1;
      LowBlock(file, size, wsize, last, b);
      assert SendsBlock(file, size, wsize, last, b, d);
    }
    if b :| SendsBlock(file, size, wsize, last, b, d) {
      NotTheLast(file, size, wsize, last, b);
      WindowHas(file, size, last, wsize, b);
    }
  }

  lemma {:induction false} LowBlock(file: seq<byte>, size: nat, wsize: nat, last: nat, b: nat)
    requires Ends(file, size, wsize, last) && b < last + wsize && Block(file, size, b) != []
    ensures b < 65535
  {
    hide Span;
    BlocksWithin(b, size);
  }

  // ----- Receiving -----

  /** A receiver that takes blocks in order: how many it has, and their bytes. */
  datatype Receiver = Receiver(blocks: nat, got: seq<byte>)

  function Accept(r: Receiver, d: Data): Receiver {
    if d.number == r.blocks + 1 then Receiver(d.number, r.got + d.payload) else r
  }

  function AcceptAll(r: Receiver, ds: seq<Data>): Receiver
    decreases ds
  {
    if ds == [] then r else AcceptAll(Accept(r, ds[0]), ds[1..])
  }

  /** The receiver has exactly the first blocks of the file, and none behind its end. */
  ghost predicate Holds(file: seq<byte>, size: nat, r: Receiver) {
    && r.got == file[..Min(Span(r.blocks, size), |file|)]
    && (r.blocks > 0 ==> Span(r.blocks - 1, size) < |file|)
  }

  lemma {:induction false} AcceptKeeps(file: seq<byte>, size: nat, r: Receiver, d: Data)
    requires Holds(file, size, r) && Carries(file, size, d)
    ensures Holds(file, size, Accept(r, d))
  {
    if d.number == r.blocks + 1 {
      var o := Span(r.blocks, size);
      assert Span(d.number, size) == o + size;
      assert file[..o] + file[o..Min(o + size, |file|)] == file[..Min(o + size, |file|)];
    }
  }

  /** A packet whose number has wrapped to 0 is no receiver's next. */
  lemma {:induction false} SentAccepted(file: seq<byte>, size: nat, wsize: nat, last: nat, r: Receiver, d: Data)
    requires Holds(file, size, r) && Sends(file, size, wsize, last, d)
    ensures Holds(file, size, Accept(r, d))
  {
    hide Holds; hide Block; hide Ends;
    var b :| SendsBlock(file, size, wsize, last, b, d);
    if b < 65535 {
      AcceptKeeps(file, size, r, d);
    }
  }

  ghost predicate SentFor(file: seq<byte>, size: nat, wsize: nat, acks: seq<nat>, d: Data) {
    exists a :: a in acks && a <= 65535 && Sends(file, size, wsize, a, d)
  }

  /** Whatever is acknowledged, and whatever part of the packets sent for it arrives, in
      whatever order and however often, also from a loop that never ends: the receiver always
      holds a prefix of the file. */
  lemma {:induction false} AlwaysPrefix(file: seq<byte>, size: nat, wsize: nat, acks: seq<nat>, r: Receiver,
                                        ds: seq<Data>)
    requires Holds(file, size, r) && forall d :: d in ds ==> SentFor(file, size, wsize, acks, d)
    ensures Holds(file, size, AcceptAll(r, ds)) && AcceptAll(r, ds).got <= file
    decreases ds
  {
    hide Sends; hide Span;
    if ds != [] {
      assert SentFor(file, size, wsize, acks, ds[0]);
      var a :| a in acks && Sends(file, size, wsize, a, ds[0]);
      SentAccepted(file, size, wsize, a, r, ds[0]);
      AlwaysPrefix(file, size, wsize, acks, Accept(r, ds[0]), ds[1..]);
    }
  }

  /** A window that arrives whole takes the receiver as many blocks on. */
  lemma {:induction false} WindowAccepted(file: seq<byte>, size: nat, r: Receiver, n: nat)
    requires Holds(file, size, r) && size > 0
    ensures var r' := AcceptAll(r, Window(file, size, r.blocks, n));
      Holds(file, size, r') && (r'.blocks == r.blocks + n || r'.got == file)
    decreases n
  {
    hide Block; hide Span; hide Holds; hide Carries;
    var w := Window(file, size, r.blocks, n);
    if w == [] {
      if n > 0 {
        NoMore(file, size, r);
      }
    } else {
      WindowCarries(file, size, r.blocks, n, w[0]);
      AcceptKeeps(file, size, r, w[0]);
      assert w[1..] == Window(file, size, r.blocks + 1, n - 1);
      WindowAccepted(file, size, Accept(r, w[0]), n - 1);
    }
  }

  lemma {:induction false} NoMore(file: seq<byte>, size: nat, r: Receiver)
    requires Holds(file, size, r) && size > 0 && Block(file, size, r.blocks) == []
    ensures r.got == file
  {
    assert file[..|file|] == file;
  }

  /** Rounds in which the receiver acknowledges what it has and gets the whole window. */
  function Rounds(file: seq<byte>, size: nat, wsize: nat, r: Receiver, n: nat): Receiver
    decreases n
  {
    if n == 0 then r else Rounds(file, size, wsize, AcceptAll(r, Window(file, size, r.blocks, wsize)), n - 1)
  }

  lemma {:induction false} RoundsProgress(file: seq<byte>, size: nat, wsize: nat, r: Receiver, n: nat)
    requires Holds(file, size, r) && size > 0 && wsize > 0
    ensures var r' := Rounds(file, size, wsize, r, n);
      Holds(file, size, r') && (r.blocks + n <= r'.blocks || r'.got == file)
    decreases n
  {
    hide Holds; hide Window; hide AcceptAll;
    if n > 0 {
      WindowAccepted(file, size, r, wsize);
      var r1 := AcceptAll(r, Window(file, size, r.blocks, wsize));
      RoundsProgress(file, size, wsize, r1, n - 1);
      if r1.got == file {
        CompleteStays(file, size, wsize, r1, n - 1);
      }
    }
  }

  lemma {:induction false} CompleteStays(file: seq<byte>, size: nat, wsize: nat, r: Receiver, n: nat)
    requires Holds(file, size, r) && size > 0 && r.got == file
    ensures Rounds(file, size, wsize, r, n).got == file
    decreases n
  {
    if n > 0 {
      WindowAccepted(file, size, r, wsize);
      Longer(r, Window(file, size, r.blocks, wsize));
      CompleteStays(file, size, wsize, AcceptAll(r, Window(file, size, r.blocks, wsize)), n - 1);
    }
  }

  lemma {:induction false} Longer(r: Receiver, ds: seq<Data>)
    ensures r.got <= AcceptAll(r, ds).got
    decreases ds
  {
    if ds != [] {
      Longer(Accept(r, ds[0]), ds[1..]);
    }
  }

  lemma {:induction false} SpanGrows(n: nat, size: nat)
    requires size > 0
    ensures n <= Span(n, size)
  {
    if n > 0 {
      SpanGrows(n - 1, size);
    }
  }

  /** With a window of at least one block the whole file arrives, and as long as the blocks of the
      file have 16-bit numbers, SendWindow can answer every acknowledgement on the way. */
  lemma {:induction false} Completes(file: seq<byte>, size: nat, wsize: nat, n: nat)
    requires size > 0 && wsize > 0 && |file| <= 65535 * size
    ensures n >= |file| ==> Rounds(file, size, wsize, Receiver(0, []), n).got == file
    ensures var last := Rounds(file, size, wsize, Receiver(0, []), n).blocks;
      last <= 65535 && Ends(file, size, wsize, last)
  {
    RoundsProgress(file, size, wsize, Receiver(0, []), n);
    var r := Rounds(file, size, wsize, Receiver(0, []), n);
    SpanGrows(r.blocks, size);
    assert file[..|file|] == file;
    if r.blocks > 65535 {
      BlocksWithin(r.blocks - 1, size);
    }
  }

  ghost predicate WholeBlocks(file: seq<byte>, size: nat) {
    exists n :: Span(n, size) == |file|
  }

  lemma {:induction false} LastBlock(total: nat, size: nat) returns (n: nat)
    requires size > 0
    ensures Span(n, size) <= total < Span(n, size) + size
    decreases total
  {
    if total < size {
      n := 0;
    } else {
      n := LastBlock(total - size, size);
      n := n + 1;
    }
  }

  /** Block b is there, but not whole. */
  ghost predicate ShortBlock(file: seq<byte>, size: nat, b: nat) {
    Span(b, size) < |file| < Span(b, size) + size
  }

  lemma {:induction false} ShortIsLast(file: seq<byte>, size: nat, b: nat)
    requires ShortBlock(file, size, b)
    ensures !WholeBlocks(file, size)
    ensures b < 65535 <==> |file| < 65535 * size
    ensures b <= 65535 <==> |file| < 65536 * size
  {
    hide Span;
    SpanNext(b, size);
    forall m: nat ensures Span(m, size) != |file| {
      if m <= b {
        SpanMonotone(m, b, size);
      } else {
        SpanMonotone(b + 1, m, size);
      }
    }
    SpanIsProduct(65535, size);
    SpanIsProduct(65536, size);
    if b < 65535 {
      SpanMonotone(b + 1, 65535, size);
    } else if b == 65535 {
    } else {
      SpanMonotone(65536, b, size);
    }
  }

  /** Some packet of a loop that ends is shorter than a block. */
  ghost predicate ShortInWindow(file: seq<byte>, size: nat) {
    exists last, wsize, d ::
      last <= 65535 && Ends(file, size, wsize, last) && d in Window(file, size, last, wsize) && |d.payload| < size
  }

  /** A receiver that, by RFC 1350, takes a DATA packet shorter than a block for the last one,
      gets such a packet from a loop that ends exactly when the file is not a whole number of
      blocks and has fewer than 65535 whole ones. */
  lemma {:induction false} EndIsSeen(file: seq<byte>, size: nat)
    requires size > 0
    ensures ShortInWindow(file, size) <==> !WholeBlocks(file, size) && |file| < 65535 * size
  {
    hide Span; hide Window; hide Ends; hide Block; hide WholeBlocks;
    if ShortInWindow(file, size) {
      var last, wsize, d :|
        last <= 65535 && Ends(file, size, wsize, last) && d in Window(file, size, last, wsize) && |d.payload| < size;
      WindowCarries(file, size, last, wsize, d);
      LowBlock(file, size, wsize, last, d.number - 1);
      ShortPayload(file, size, d.number - 1);
      ShortIsLast(file, size, d.number - 1);
    }
    if !WholeBlocks(file, size) && |file| < 65535 * size {
      var n := LastBlock(|file|, size);
      NotWhole(file, size, n);
      ShortIsLast(file, size, n);
      ShortPayload(file, size, n);
      WindowHas(file, size, n, 1, n);
      EndsAtOnce(file, size, n);
      assert Data(n + 1, Block(file, size, n)) in Window(file, size, n, 1);
    }
  }

  lemma {:induction false} ShortPayload(file: seq<byte>, size: nat, b: nat)
    ensures ShortBlock(file, size, b) <==> 0 < |Block(file, size, b)| < size
  {
  }

  lemma {:induction false} NotWhole(file: seq<byte>, size: nat, n: nat)
    requires !WholeBlocks(file, size) && Span(n, size) <= |file| < Span(n, size) + size
    ensures ShortBlock(file, size, n)
  {
  }

  lemma {:induction false} EndsAtOnce(file: seq<byte>, size: nat, last: nat)
    requires last < 65535
    ensures Ends(file, size, 1, last)
  {
  }

  lemma {:induction false} SpanNext(n: nat, size: nat)
    ensures Span(n + 1, size) == Span(n, size) + size
  {
  }

  // ----- Uploading -----

  /** The file after p is written at pos. */
  function Overlay(file: seq<byte>, pos: nat, p: seq<byte>): (r: seq<byte>)
    requires pos <= |file|
    ensures |r| >= pos + |p|
  {
    file[..pos] + p + if pos + |p| < |file| then file[pos + |p|..] else []
  }

  class Writer {
    var file: seq<byte>
    var pos: nat

    /** handle_wrq opens the file without truncating it. */
    constructor (file: seq<byte>)
      ensures this.file == file && pos == 0
    {
      this.file := file;
      pos := 0;
    }

    /** handle_writer behind the checks: the payload is written, its block number acknowledged,
        and a payload of other than 512 bytes ends the upload. */
    method Receive(d: Data) returns (ack: nat, more: bool)
      requires pos <= |file|
      modifies this
      ensures file == Overlay(old(file), old(pos), d.payload) && pos == old(pos) + |d.payload| <= |file|
      ensures ack == d.number && (more <==> |d.payload| == 512)
    {
      file := Overlay(file, pos, d.payload);
      pos := pos + |d.payload|;
      ack, more := d.number, |d.payload| == 512;
    }
  }

  /** The payloads of an upload: blocks of 512 bytes and a shorter, perhaps empty, last one. */
  function Chunks(data: seq<byte>): seq<seq<byte>> {
    if |data| < 512 then [data] else [data[..512]] + Chunks(data[512..])
  }

  /** The file after payloads have been written from pos on, until one ends the upload. */
  function Uploaded(file: seq<byte>, pos: nat, ps: seq<seq<byte>>): seq<byte>
    requires pos <= |file|
    decreases ps
  {
    if ps == [] then file
    else if |ps[0]| != 512 then Overlay(file, pos, ps[0])
    else Uploaded(Overlay(file, pos, ps[0]), pos + 512, ps[1..])
  }

  /** The packets of one upload, handled until one of them ends it. */
  method ReceiveAll(w: Writer, ds: seq<Data>) returns (acks: seq<nat>)
    requires w.pos <= |w.file|
    modifies w
    ensures w.file == Uploaded(old(w.file), old(w.pos), Payloads(ds))
    ensures |acks| == Taken(ds) <= |ds| && forall i :: 0 <= i < |acks| ==> acks[i] == ds[i].number
  {
    acks := [];
    var more := true;
    var i := 0;
    while more && i < |ds|
      invariant w.pos <= |w.file| && i == |acks| <= |ds|
      invariant forall j :: 0 <= j < i ==> acks[j] == ds[j].number
      invariant Uploaded(old(w.file), old(w.pos), Payloads(ds))
             == if more then Uploaded(w.file, w.pos, Payloads(ds[i..])) else w.file
      invariant Taken(ds) == i + if more then Taken(ds[i..]) else 0
    {
      assert ds[i..][1..] == ds[i + 1..];
      var ack;
      ack, more := w.Receive(ds[i]);
      acks := acks + [ack];
      i := i + 1;
    }
  }

  /** How many packets an upload takes: up to the first that is not full. */
  function Taken(ds: seq<Data>): (n: nat)
    ensures n <= |ds|
  {
    if ds == [] then 0 else if |ds[0].payload| != 512 then 1 else 1 + Taken(ds[1..])
  }

  function Payloads(ds: seq<Data>): seq<seq<byte>> {
    if ds == [] then [] else [ds[0].payload] + Payloads(ds[1..])
  }

  lemma {:induction false} UploadWrites(file: seq<byte>, pos: nat, data: seq<byte>)
    requires pos <= |file|
    ensures Uploaded(file, pos, Chunks(data)) == Overlay(file, pos, data)
    decreases |data|
  {
    var ps := Chunks(data);
    if |data| >= 512 {
      var x, y := data[..512], data[512..];
      assert ps[1..] == Chunks(y);
      var f := Overlay(file, pos, x);
      UploadWrites(f, pos + 512, y);
      assert f[..pos + 512] == file[..pos] + x;
      assert x + y == data;
      assert Overlay(f, pos + 512, y) == Overlay(file, pos, data);
    }
  }

  /** What of a longer file is left behind position n. */
  function Tail(file: seq<byte>, n: nat): (r: seq<byte>)
    ensures |r| == if n < |file| then |file| - n else 0
  {
    if n < |file| then file[n..] else []
  }

  lemma {:induction false} OverlayStart(file: seq<byte>, data: seq<byte>)
    ensures Overlay(file, 0, data) == data + Tail(file, |data|)
  {
    assert file[..0] == [];
    assert [] + data == data;
    assert data + [] == data;
  }

  /** An upload reads back as the data sent exactly when the file was not longer before: the
      end of a longer one stays. */
  lemma {:induction false} UploadExact(before: seq<byte>, data: seq<byte>)
    ensures Uploaded(before, 0, Chunks(data)) == data + Tail(before, |data|)
    ensures Uploaded(before, 0, Chunks(data)) == data <==> |before| <= |data|
  {
    hide Chunks; hide Uploaded; hide Overlay; hide Tail;
    UploadWrites(before, 0, data);
    OverlayStart(before, data);
    var tail := Tail(before, |data|);
    assert |data + tail| == |data| + |tail|;
    if tail == [] {
      assert data + tail == data;
    }
  }

  /** A fresh file uploaded and fetched again, at any block and window size, is the same. */
  lemma {:induction false} UploadThenDownload(data: seq<byte>, size: nat, wsize: nat)
    requires size > 0 && wsize > 0 && |data| <= 65535 * size
    ensures Rounds(Uploaded([], 0, Chunks(data)), size, wsize, Receiver(0, []), |data|).got == data
  {
    UploadExact([], data);
    Completes(data, size, wsize, |data|);
  }

  // ----- Uploading with repetitions -----

  lemma {:induction false} OverlayTwice(file: seq<byte>, pos: nat, x: seq<byte>, y: seq<byte>)
    requires pos <= |file|
    ensures Overlay(Overlay(file, pos, x), pos + |x|, y) == Overlay(file, pos, x + y)
  {
    assert Overlay(file, pos, x)[..pos + |x|] == file[..pos] + x;
  }

  /** A block n times over. */
  function Copies(p: seq<byte>, n: nat): seq<byte> {
    if n == 0 then [] else p + Copies(p, n - 1)
  }

  lemma {:induction false} CopiesLength(p: seq<byte>, n: nat)
    ensures |Copies(p, n)| == Span(n, |p|)
  {
    if n > 0 {
      CopiesLength(p, n - 1);
    }
  }

  /** The packets of an upload, packet i sent cs[i] times more than once. */
  function Repeated(data: seq<byte>, cs: seq<nat>): seq<seq<byte>>
    requires |cs| == |Chunks(data)|
  {
    if |data| < 512 then seq(cs[0] + 1, _ => data)
    else seq(cs[0] + 1, _ => data[..512]) + Repeated(data[512..], cs[1..])
  }

  /** What they add up to: the last one counts once, because it ends the upload. */
  function Expanded(data: seq<byte>, cs: seq<nat>): seq<byte>
    requires |cs| == |Chunks(data)|
  {
    if |data| < 512 then data else Copies(data[..512], cs[0] + 1) + Expanded(data[512..], cs[1..])
  }

  ghost predicate NoneRepeated(cs: seq<nat>) {
    forall i :: 0 <= i < |cs| - 1 ==> cs[i] == 0
  }

  lemma {:induction false} UploadAgain(file: seq<byte>, pos: nat, p: seq<byte>, n: nat, rest: seq<seq<byte>>)
    requires pos <= |file| && |p| == 512
    ensures pos + |Copies(p, n)| <= |Overlay(file, pos, Copies(p, n))|
    ensures Uploaded(file, pos, seq(n, _ => p) + rest)
         == Uploaded(Overlay(file, pos, Copies(p, n)), pos + |Copies(p, n)|, rest)
    decreases n
  {
    hide Overlay;
    var ps := seq(n, _ => p) + rest;
    if n == 0 {
      OverlayNothing(file, pos);
      assert ps == rest;
    } else {
      assert ps[0] == p && ps[1..] == seq(n - 1, _ => p) + rest;
      UploadAgain(Overlay(file, pos, p), pos + 512, p, n - 1, rest);
      OverlayTwice(file, pos, p, Copies(p, n - 1));
    }
  }

  lemma {:induction false} OverlayNothing(file: seq<byte>, pos: nat)
    requires pos <= |file|
    ensures Overlay(file, pos, []) == file
  {
  }

  lemma {:induction false} UploadRepeated(file: seq<byte>, pos: nat, data: seq<byte>, cs: seq<nat>)
    requires pos <= |file| && |cs| == |Chunks(data)|
    ensures Uploaded(file, pos, Repeated(data, cs)) == Overlay(file, pos, Expanded(data, cs))
    decreases |data|
  {
    hide Overlay;
    if |data| >= 512 {
      var p, rest := data[..512], Repeated(data[512..], cs[1..]);
      var x := Copies(p, cs[0] + 1);
      UploadAgain(file, pos, p, cs[0] + 1, rest);
      UploadRepeated(Overlay(file, pos, x), pos + |x|, data[512..], cs[1..]);
      OverlayTwice(file, pos, x, Expanded(data[512..], cs[1..]));
    }
  }

  lemma {:induction false} ExpandedIs(data: seq<byte>, cs: seq<nat>)
    requires |cs| == |Chunks(data)|
    ensures if NoneRepeated(cs) then Expanded(data, cs) == data else |Expanded(data, cs)| > |data|
    decreases |data|
  {
    if |data| >= 512 {
      var p, y := data[..512], data[512..];
      ExpandedIs(y, cs[1..]);
      CopiesLength(p, cs[0] + 1);
      assert Span(cs[0] + 1, 512) == Span(cs[0], 512) + 512;
      assert NoneRepeated(cs) <==> cs[0] == 0 && NoneRepeated(cs[1..]) by {
        assert cs == [cs[0]] + cs[1..];
        assert |cs| > 1;
      }
      if cs[0] == 0 {
        assert Copies(p, 1) == p + [];
      } else {
        assert Span(cs[0], 512) == Span(cs[0] - 1, 512) + 512;
      }
      assert p + y == data;
    }
  }

  /** Block numbers are not looked at, so a packet received again is written again: an upload with
      repetitions leaves the data in the file if and only if no packet but the last was repeated and
      the file was not longer before. */
  lemma {:induction false} RepeatedExact(before: seq<byte>, data: seq<byte>, cs: seq<nat>)
    requires |cs| == |Chunks(data)|
    ensures Uploaded(before, 0, Repeated(data, cs)) == data <==> NoneRepeated(cs) && |before| <= |data|
  {
    hide Chunks; hide Uploaded; hide Overlay; hide Tail; hide Expanded; hide Repeated; hide NoneRepeated;
    var x := Expanded(data, cs);
    UploadRepeated(before, 0, data, cs);
    OverlayStart(before, x);
    ExpandedIs(data, cs);
    var tail := Tail(before, |x|);
    assert |x + tail| == |x| + |tail|;
    if tail == [] {
      assert x + tail == x;
    }
  }
}
