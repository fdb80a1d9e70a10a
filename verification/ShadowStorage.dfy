/** The read-only mode of the rmtfs storage: reads and writes on a copy of each partition. */
module ShadowStorage {
  import opened Bytes
  import opened Common

  const MAX_CALLERS := 10
  const STORAGE_MAX_SIZE := 16 * 1024 * 1024
  const SECTOR_SIZE := 512

  /** The paths of partition_table. */
  const PATHS: seq<string> :=
    ["/boot/modem_fs1", "/boot/modem_fs2", "/boot/modem_fsc", "/boot/modem_fsg", "/boot/modem_tunning"]

  datatype Write = Write(offset: nat, data: seq<byte>)

  /** The byte at k: the last one written there, else the partition's, else zero. */
  ghost function Expected(part: seq<byte>, log: seq<Write>, k: nat): byte {
    if log == [] then if k < |part| then part[k] else 0
    else
      var w := log[|log| - 1];
      if w.offset <= k < w.offset + |w.data| then w.data[k - w.offset]
      else Expected(part, log[..|log| - 1], k)
  }

  function ByteAt(s: seq<byte>, k: nat): byte {
    if k < |s| then s[k] else 0
  }

  ghost predicate Agrees(shadow: seq<byte>, part: seq<byte>, log: seq<Write>) {
    forall k: nat :: ByteAt(shadow, k) == Expected(part, log, k)
  }

  /** data written at offset, which is not behind the end. */
  function Overwritten(s: seq<byte>, offset: nat, data: seq<byte>): (r: seq<byte>)
    requires offset <= |s|
  {
    s[..offset] + data + if offset + |data| < |s| then s[offset + |data|..] else []
  }

  lemma {:induction false} OverwrittenAt(s: seq<byte>, offset: nat, data: seq<byte>, k: nat)
    requires offset <= |s|
    ensures ByteAt(Overwritten(s, offset, data), k)
         == if offset <= k < offset + |data| then data[k - offset] else ByteAt(s, k)
  {
  }

  lemma {:induction false} WriteAgrees(shadow: seq<byte>, part: seq<byte>, log: seq<Write>, offset: nat,
                                       data: seq<byte>)
    requires Agrees(shadow, part, log) && offset <= |shadow|
    ensures Agrees(Overwritten(shadow, offset, data), part, log + [Write(offset, data)])
  {
    hide Overwritten;
    var more := log + [Write(offset, data)];
    assert more[..|more| - 1] == log;
    forall k: nat ensures ByteAt(Overwritten(shadow, offset, data), k) == Expected(part, more, k) {
      OverwrittenAt(shadow, offset, data, k);
    }
  }

  lemma {:induction false} FreshAgrees(part: seq<byte>)
    ensures Agrees(part, part, [])
  {
  }

  /** A handle is in use while it has a shadow; a closed one has no partition either. */
  datatype Slot = Slot(node: nat, part: Option<nat>, shadow: Option<seq<byte>>)

  datatype Found = NoHandle | Handle(index: nat) | Outside

  lemma {:induction false} PathsDistinct()
    ensures forall i, j :: 0 <= i < j < |PATHS| ==> PATHS[i] != PATHS[j]
  {
    assert PATHS[0][14] == '1' && PATHS[1][14] == '2' && PATHS[2][14] == 'c' && PATHS[3][14] == 'g';
    assert |PATHS[4]| == 19;
  }

  predicate IsOpen(s: Slot, node: nat, part: nat) {
    s.shadow.Some? && s.node == node && s.part == Some(part)
  }

  /** The bytes of the shadow buffer: none while there is no buffer. */
  function Held(s: Slot): seq<byte> {
    if s.shadow.Some? then s.shadow.value else []
  }

  /** The contents of a partition, empty if there is none. */
  function PartOf(files: seq<Option<seq<byte>>>, part: Option<nat>): seq<byte> {
    if part.Some? && part.value < |files| && files[part.value].Some? then files[part.value].value else []
  }

  /** A handle shows its partition, if it has one, as written through it. */
  ghost predicate Good(files: seq<Option<seq<byte>>>, s: Slot, log: seq<Write>) {
    && Agrees(Held(s), PartOf(files, s.part), log)
    && (s.part.Some? ==> s.shadow.Some? && s.part.value < |files| && files[s.part.value].Some?)
  }

  class Storage {
    /** The partitions' contents, or None where the file cannot be opened. */
    const files: seq<Option<seq<byte>>>
    const slots: array<Slot>
    ghost var logs: seq<seq<Write>>

    /** Every handle shows its partition as written through it, and no two are for the same node
        and partition. */
    ghost predicate Valid()
      reads this, slots
    {
      && |files| == |PATHS| && slots.Length == |logs| == MAX_CALLERS
      && (forall i :: 0 <= i < slots.Length ==> Good(files, slots[i], logs[i]))
      && forall i, j :: 0 <= i < j < slots.Length && slots[i].part.Some? ==>
           !IsOpen(slots[j], slots[i].node, slots[i].part.value)
    }

    /** storage_init */
    constructor (files: seq<Option<seq<byte>>>)
      requires |files| == |PATHS|
      ensures Valid() && this.files == files && fresh(slots)
      ensures forall i :: 0 <= i < slots.Length ==> slots[i] == Slot(0, None, None)
    {
      this.files := files;
      slots := new Slot[MAX_CALLERS](_ => Slot(0, None, None));
      logs := seq(MAX_CALLERS, _ => []);
    }

    /** The row of partition_table with that path, or the number of rows. */
    method FindPart(path: string) returns (part: nat)
      ensures part <= |PATHS| && (part < |PATHS| ==> PATHS[part] == path)
      ensures forall k :: 0 <= k < part ==> PATHS[k] != path
    {
      part := 0;
      while part < |PATHS| && PATHS[part] != path
        invariant part <= |PATHS| && forall k :: 0 <= k < part ==> PATHS[k] != path
      {
        part := part + 1;
      }
    }

    /** The handle open for that node and partition, or else the first closed one. */
    method FindSlot(node: nat, part: nat) returns (i: nat, found: bool)
      ensures i <= slots.Length
      ensures found ==> i < slots.Length && IsOpen(slots[i], node, part)
      ensures !found ==> forall j :: 0 <= j < slots.Length ==> !IsOpen(slots[j], node, part)
      ensures !found && i < slots.Length ==> slots[i].shadow.None?
      ensures !found && i == slots.Length ==> forall j :: 0 <= j < slots.Length ==> slots[j].shadow.Some?
    {
      i := 0;
      while i < slots.Length
        invariant i <= slots.Length && forall j :: 0 <= j < i ==> !IsOpen(slots[j], node, part)
      {
        if IsOpen(slots[i], node, part) {
          return i, true;
        }
        i := i + 1;
      }
      i := 0;
      while i < slots.Length && slots[i].shadow.Some?
        invariant i <= slots.Length && forall j :: 0 <= j < i ==> slots[j].shadow.Some?
      {
        i := i + 1;
      }
      return i, false;
    }

    /** What storage_open has to find: a partition of that path, and either a handle already open
        for it or a closed handle and the partition's file. */
    ghost predicate CanOpen(node: nat, path: string)
      reads this, slots
      requires |files| == |PATHS|
    {
      exists part :: 0 <= part < |PATHS| && PATHS[part] == path &&
        ((exists j :: 0 <= j < slots.Length && IsOpen(slots[j], node, part))
         || (files[part].Some? && exists j :: 0 <= j < slots.Length && slots[j].shadow.None?))
    }

    /** storage_open: an open handle is shared; a new one starts from the partition itself. */
    method Open(node: nat, path: string) returns (id: Option<nat>)
      requires Valid()
      modifies this, slots
      ensures Valid() && (id.Some? <==> old(CanOpen(node, path)))
      ensures id.Some? ==>
        && id.value < slots.Length && slots[id.value].shadow.Some? && slots[id.value].node == node
        && slots[id.value].part.Some? && slots[id.value].part.value < |PATHS|
        && PATHS[slots[id.value].part.value] == path
        && (old(slots[id.value]).shadow.None? ==>
            slots[id.value].shadow == files[slots[id.value].part.value] && logs[id.value] == [])
      ensures forall j :: 0 <= j < slots.Length && (id.None? || j != id.value || old(slots[j]).shadow.Some?) ==>
        slots[j] == old(slots[j]) && logs[j] == old(logs[j])
    {
      PathsDistinct();
      var part := FindPart(path);
      if part == |PATHS| {
        return None;
      }
      var i, found := FindSlot(node, part);
      if found {
        return Some(i);
      }
      if i == slots.Length || files[part].None? {
        return None;
      }
      FreshAgrees(files[part].value);
      slots[i] := Slot(node, Some(part), files[part]);
      logs := logs[i := []];
      return Some(i);
    }

    /** storage_close: the handle forgets its partition and what was written, not its node. */
    method Close(i: nat)
      requires Valid() && i < slots.Length
      modifies this, slots
      ensures Valid() && slots[i] == Slot(old(slots[i]).node, None, None) && logs[i] == []
      ensures forall j :: 0 <= j < slots.Length && j != i ==> slots[j] == old(slots[j]) && logs[j] == old(logs[j])
    {
      FreshAgrees([]);
      slots[i] := Slot(slots[i].node, None, None);
      logs := logs[i := []];
    }

    /** storage_get checks the node, not whether the handle is open; an id that is negative as an
        int makes it look in front of the table. */
    method Get(node: nat, id: u32) returns (r: Found)
      requires Valid()
      ensures r == if id >= 0x8000_0000 then Outside
                   else if id < slots.Length && slots[id].node == node then Handle(id) else NoHandle
    {
      var callerId: int := if id < 0x8000_0000 then id else id - 0x1_0000_0000;
      if callerId >= MAX_CALLERS {
        return NoHandle;
      }
      if callerId < 0 {
        return Outside;
      }
      return if slots[callerId].node == node then Handle(callerId) else NoHandle;
    }

    /** storage_pread: n bytes, each the last written, else the partition's, else zero. A closed
        handle reads as zeros. */
    method Pread(i: nat, n: nat, offset: nat) returns (buf: seq<byte>)
      requires Valid() && i < slots.Length
      ensures |buf| == n
      ensures forall k :: 0 <= k < n ==> buf[k] == Expected(PartOf(files, slots[i].part), logs[i], offset + k)
    {
      var shadow := Held(slots[i]);
      var m := if offset >= |shadow| then 0 else if n < |shadow| - offset then n else |shadow| - offset;
      buf := (if m > 0 then shadow[offset..offset + m] else []) + seq(n - m, _ => 0);
      assert Good(files, slots[i], logs[i]);
      forall k | 0 <= k < n ensures buf[k] == Expected(PartOf(files, slots[i].part), logs[i], offset + k) {
        assert buf[k] == ByteAt(shadow, offset + k);
      }
    }

    /** storage_pwrite: refused from 16 MiB on. When the write starts behind the end, the bytes in
        between are what the enlarged buffer happened to hold, and count as written. A closed handle
        gets a buffer, and is then in use without a partition. */
    method Pwrite(i: nat, data: seq<byte>, offset: nat, heap: nat -> byte) returns (ok: bool)
      requires Valid() && i < slots.Length
      modifies this, slots
      ensures Valid() && slots.Length == |logs| == old(|logs|) && (ok <==> offset + |data| < STORAGE_MAX_SIZE)
      ensures SameHandle(old(slots[i]), slots[i])
      ensures var len := |Held(old(slots[i]))|;
        if ok then
          && |Held(slots[i])| == Max(len, offset + |data|)
          && logs[i] == old(logs[i]) + GapWrite(len, offset, heap) + [Write(offset, data)]
          && (slots[i].shadow.Some? <==> old(slots[i]).shadow.Some? || offset + |data| > 0)
        else slots[i] == old(slots[i]) && logs[i] == old(logs[i])
      ensures forall j :: 0 <= j < slots.Length && j != i ==> slots[j] == old(slots[j]) && logs[j] == old(logs[j])
    {
      hide Agrees;
      if offset + |data| >= STORAGE_MAX_SIZE {
        return false;
      }
      var shadow := Held(slots[i]);
      var wide := Extended(shadow, offset, heap);
      assert Good(files, slots[i], logs[i]);
      ExtendedAgrees(shadow, PartOf(files, slots[i].part), logs[i], offset, heap);
      WriteAgrees(wide, PartOf(files, slots[i].part), logs[i] + GapWrite(|shadow|, offset, heap), offset, data);
      if slots[i].shadow.Some? || offset + |data| > 0 {
        slots[i] := slots[i].(shadow := Some(Overwritten(wide, offset, data)));
      }
      logs := logs[i := logs[i] + GapWrite(|shadow|, offset, heap) + [Write(offset, data)]];
      return true;
    }
  }

  /** A write leaves node and partition of a handle alone, and does not close it. */
  predicate SameHandle(before: Slot, after: Slot) {
    after.node == before.node && after.part == before.part && (before.shadow.Some? ==> after.shadow.Some?)
  }

  function Max(a: nat, b: nat): nat {
    if a < b then b else a
  }

  /** The bytes between the end of a buffer and an offset behind it. */
  function Junk(len: nat, offset: nat, heap: nat -> byte): (r: seq<byte>)
    ensures |r| == if len < offset then offset - len else 0
  {
    if len < offset then seq<byte>(offset - len, j requires 0 <= j => heap(len + j)) else []
  }

  function GapWrite(len: nat, offset: nat, heap: nat -> byte): seq<Write> {
    if len < offset then [Write(len, Junk(len, offset, heap))] else []
  }

  function Extended(s: seq<byte>, offset: nat, heap: nat -> byte): (r: seq<byte>)
    ensures |r| == Max(|s|, offset)
  {
    s + Junk(|s|, offset, heap)
  }

  lemma {:induction false} ExtendedAgrees(shadow: seq<byte>, part: seq<byte>, log: seq<Write>, offset: nat,
                                          heap: nat -> byte)
    requires Agrees(shadow, part, log)
    ensures Agrees(Extended(shadow, offset, heap), part, log + GapWrite(|shadow|, offset, heap))
  {
    hide Agrees; hide Junk;
    var junk := Junk(|shadow|, offset, heap);
    if |shadow| < offset {
      WriteAgrees(shadow, part, log, |shadow|, junk);
      assert shadow[..|shadow|] + junk + [] == shadow + junk;
    } else {
      assert log + [] == log && shadow + junk == shadow;
    }
  }

  /** The mapped shared memory of sharedmem.c. */
  class Memory {
    const address: nat
    const bytes: array<byte>

    constructor (address: nat, size: nat)
      ensures this.address == address && fresh(bytes) && bytes.Length == size
    {
      this.address := address;
      bytes := new byte[size];
    }

    /** rmtfs_mem_ptr finds the range. */
    predicate Covers(phys: nat, n: nat) {
      address <= phys && phys + n <= address + bytes.Length
    }

    /** Where a physical address lies in the memory. */
    function Position(phys: nat): nat {
      if address <= phys then phys - address else 0
    }

    /** rmtfs_mem_read */
    method Read(phys: nat, n: nat) returns (r: Option<seq<byte>>)
      ensures r == if Covers(phys, n) then Some(bytes[phys - address..phys - address + n]) else None
    {
      if !Covers(phys, n) {
        return None;
      }
      return Some(bytes[phys - address..phys - address + n]);
    }

    /** rmtfs_mem_write */
    method Fill(phys: nat, data: seq<byte>) returns (ok: bool)
      modifies bytes
      ensures ok <==> Covers(phys, |data|)
      ensures !ok ==> bytes[..] == old(bytes[..])
      ensures ok ==> forall k :: 0 <= k < bytes.Length ==>
        bytes[k] == if phys - address <= k < phys - address + |data| then data[k - (phys - address)] else old(bytes[k])
    {
      if !Covers(phys, |data|) {
        return false;
      }
      var at := phys - address;
      for i := 0 to |data|
        invariant forall k :: 0 <= k < bytes.Length ==>
          bytes[k] == if at <= k < at + i then data[k - at] else old(bytes[k])
      {
        bytes[at + i] := data[i];
      }
      return true;
    }
  }

  /** The position of a sector: the product is taken in 32 bits. */
  function SectorBase(sector: nat): nat {
    sector * SECTOR_SIZE % 0x1_0000_0000
  }

  function Sector(mem: seq<byte>, at: nat): (r: seq<byte>)
    ensures |r| == SECTOR_SIZE
  {
    seq<byte>(SECTOR_SIZE, j requires 0 <= j => ByteAt(mem, at + j))
  }

  lemma {:induction false} SectorIs(mem: seq<byte>, at: nat)
    requires at + SECTOR_SIZE <= |mem|
    ensures mem[at..at + SECTOR_SIZE] == Sector(mem, at)
  {
    var x, y := mem[at..at + SECTOR_SIZE], Sector(mem, at);
    forall j | 0 <= j < SECTOR_SIZE ensures x[j] == y[j] {
      assert y[j] == ByteAt(mem, at + j);
    }
  }

  lemma {:induction false} ExpectedNext(part: seq<byte>, log: seq<Write>, w: Write, k: nat)
    ensures Expected(part, log + [w], k)
         == if w.offset <= k < w.offset + |w.data| then w.data[k - w.offset] else Expected(part, log, k)
  {
    assert (log + [w])[..|log|] == log;
  }

  /** The writes of n sectors from memory at position at, the first going to base. */
  ghost function SectorWrites(mem: seq<byte>, at: nat, base: nat, n: nat): seq<Write> {
    if n == 0 then []
    else
      var o := SECTOR_SIZE * (n - 1);
      SectorWrites(mem, at, base, n - 1) + [Write(base + o, Sector(mem, at + o))]
  }

  /** After the write of n sectors, they read as the memory they came from, and all else as before. */
  lemma {:induction false} SectorsWritten(mem: seq<byte>, at: nat, base: nat, n: nat, part: seq<byte>,
                                          log: seq<Write>, k: nat)
    ensures Expected(part, log + SectorWrites(mem, at, base, n), k)
         == if base <= k < base + SECTOR_SIZE * n then ByteAt(mem, at + (k - base)) else Expected(part, log, k)
    decreases n
  {
    hide Expected;
    if n == 0 {
      assert log + [] == log;
    } else {
      SectorsWritten(mem, at, base, n - 1, part, log, k);
      var o := SECTOR_SIZE * (n - 1);
      var before := log + SectorWrites(mem, at, base, n - 1);
      var w := Write(base + o, Sector(mem, at + o));
      assert log + SectorWrites(mem, at, base, n) == before + [w];
      ExpectedNext(part, before, w, k);
    }
  }

  /** struct rmtfs_iovec_entry */
  datatype Entry = Entry(sector: u32, phys: nat, num: nat)

  /** The first n sectors of an entry are all in memory and, to be written, end below the limit. */
  ghost predicate Fits(mem: Memory, e: Entry, write: bool, n: nat) {
    n == 0 || (mem.Covers(e.phys, SECTOR_SIZE * n)
               && (write ==> SectorBase(e.sector) + SECTOR_SIZE * n < STORAGE_MAX_SIZE))
  }

  /** How many of the first num sectors go through before one does not fit. */
  ghost function Fitting(mem: Memory, e: Entry, write: bool, num: nat): (n: nat)
    ensures n <= num && Fits(mem, e, write, n)
  {
    if num == 0 || Fits(mem, e, write, num) then num else Fitting(mem, e, write, num - 1)
  }

  lemma {:induction false} FittingIs(mem: Memory, e: Entry, write: bool, n: nat, num: nat)
    requires n <= num && Fits(mem, e, write, n) && (n < num ==> !Fits(mem, e, write, n + 1))
    ensures Fitting(mem, e, write, num) == n
    decreases num
  {
    if n < num {
      FewerFit(mem, e, write, n + 1, num);
      FittingIs(mem, e, write, n, num - 1);
    }
  }

  lemma {:induction false} FewerFit(mem: Memory, e: Entry, write: bool, n: nat, m: nat)
    requires n <= m
    ensures Fits(mem, e, write, m) ==> Fits(mem, e, write, n)
  {
    hide SectorBase;
  }

  /** The log entries of n sectors written from a buffer of length len on. */
  ghost function EntryWrites(len: nat, mem: seq<byte>, at: nat, base: nat, n: nat, heap: nat -> byte): seq<Write> {
    if n == 0 then [] else GapWrite(len, base, heap) + SectorWrites(mem, at, base, n)
  }

  function LenAfter(len: nat, base: nat, n: nat): nat {
    if n == 0 then len else Max(len, base + SECTOR_SIZE * n)
  }

  /** The inner loop of rmtfs_iovec, writing: sectors go from memory to the handle until one is not
      in memory or reaches the size limit. */
  method WriteSectors(st: Storage, i: nat, mem: Memory, e: Entry, heap: nat -> byte) returns (done: nat)
    requires st.Valid() && i < st.slots.Length == |st.logs|
    modifies st, st.slots
    ensures st.Valid() && done == Fitting(mem, e, true, e.num) && st.slots.Length == |st.logs|
    ensures SameHandle(old(st.slots[i]), st.slots[i])
    ensures var len := |Held(old(st.slots[i]))|;
      && |Held(st.slots[i])| == LenAfter(len, SectorBase(e.sector), done)
      && st.logs[i] == old(st.logs[i])
           + EntryWrites(len, mem.bytes[..], mem.Position(e.phys), SectorBase(e.sector), done, heap)
    ensures OthersStay(old(st.slots[..]), st.slots[..], old(st.logs), st.logs, i)
    ensures mem.bytes[..] == old(mem.bytes[..])
  {
    hide Expected; hide Agrees; hide Good; hide Sector; hide SectorWrites; hide IsOpen; hide SectorBase; hide GapWrite;
    hide EntryWrites; hide Storage.Valid; hide Fitting; hide Held;
    done := 0;
    var base := SectorBase(e.sector);
    ghost var all, at, len := mem.bytes[..], mem.Position(e.phys), |Held(st.slots[i])|;
    EntryNone(len, all, at, base, heap, st.logs[i]);
    ghost var before, beforeLogs := st.slots[..], st.logs;
    while done < e.num
      invariant st.Valid() && done <= e.num && i < st.slots.Length == |st.logs| && SameHandle(before[i], st.slots[i])
      invariant |Held(st.slots[i])| == LenAfter(len, base, done)
      invariant st.logs[i] == beforeLogs[i] + EntryWrites(len, all, at, base, done, heap)
      invariant OthersStay(before, st.slots[..], beforeLogs, st.logs, i)
      invariant mem.bytes[..] == all && Fits(mem, e, true, done)
      decreases e.num - done
    {
      EntryNext(len, all, at, base, done, heap, beforeLogs[i]);
      var ok := WriteSector(st, i, mem, e.phys + SECTOR_SIZE * done, base + SECTOR_SIZE * done, heap);
      if !ok {
        break;
      }
      done := done + 1;
    }
    FittingIs(mem, e, true, done, e.num);
  }

  /** One sector from memory to the handle. */
  method WriteSector(st: Storage, i: nat, mem: Memory, phys: nat, offset: nat, heap: nat -> byte) returns (ok: bool)
    requires st.Valid() && i < st.slots.Length == |st.logs|
    modifies st, st.slots
    ensures st.Valid() && st.slots.Length == |st.logs| && SameHandle(old(st.slots[i]), st.slots[i])
    ensures ok <==> mem.Covers(phys, SECTOR_SIZE) && offset + SECTOR_SIZE < STORAGE_MAX_SIZE
    ensures var len := |Held(old(st.slots[i]))|;
      if ok then
        && st.slots[i].shadow.Some? && |Held(st.slots[i])| == Max(len, offset + SECTOR_SIZE)
        && st.logs[i] == old(st.logs[i]) + GapWrite(len, offset, heap)
             + [Write(offset, Sector(mem.bytes[..], mem.Position(phys)))]
      else st.slots[i] == old(st.slots[i]) && st.logs[i] == old(st.logs[i])
    ensures OthersStay(old(st.slots[..]), st.slots[..], old(st.logs), st.logs, i)
    ensures mem.bytes[..] == old(mem.bytes[..])
  {
    hide Expected; hide Agrees; hide Good; hide IsOpen; hide GapWrite; hide Held;
    var buf := mem.Read(phys, SECTOR_SIZE);
    if buf.None? {
      return false;
    }
    ghost var all := mem.bytes[..];
    SectorIs(all, mem.Position(phys));
    assert buf.value == all[mem.Position(phys)..mem.Position(phys) + SECTOR_SIZE];
    ok := st.Pwrite(i, buf.value, offset, heap);
  }

  lemma {:induction false} EntryNone(len: nat, mem: seq<byte>, at: nat, base: nat, heap: nat -> byte, log: seq<Write>)
    ensures log + EntryWrites(len, mem, at, base, 0, heap) == log
  {
  }

  /** One sector more: only the first can leave a gap. */
  lemma {:induction false} EntryNext(len: nat, mem: seq<byte>, at: nat, base: nat, n: nat, heap: nat -> byte,
                                     log: seq<Write>)
    ensures var o := SECTOR_SIZE * n;
      log + EntryWrites(len, mem, at, base, n + 1, heap)
      == log + EntryWrites(len, mem, at, base, n, heap) + GapWrite(LenAfter(len, base, n), base + o, heap)
           + [Write(base + o, Sector(mem, at + o))]
  {
    hide Sector; hide Junk;
    SectorWritesNext(mem, at, base, n);
    var w := [Write(base + SECTOR_SIZE * n, Sector(mem, at + SECTOR_SIZE * n))];
    var gap := GapWrite(len, base, heap);
    if n == 0 {
      assert SectorWrites(mem, at, base, 0) + w == w && log + [] == log;
      assert log + (gap + w) == log + gap + w;
    } else {
      var x := SectorWrites(mem, at, base, n);
      assert log + (gap + (x + w)) == log + (gap + x) + [] + w;
    }
  }

  /** No handle but i has changed. */
  ghost predicate OthersStay(a: seq<Slot>, b: seq<Slot>, la: seq<seq<Write>>, lb: seq<seq<Write>>, i: nat) {
    |a| == |b| == |la| == |lb| && forall j :: 0 <= j < |a| && j != i ==> a[j] == b[j] && la[j] == lb[j]
  }

  lemma {:induction false} SectorWritesNext(mem: seq<byte>, at: nat, base: nat, n: nat)
    ensures SectorWrites(mem, at, base, n + 1)
         == SectorWrites(mem, at, base, n) + [Write(base + SECTOR_SIZE * n, Sector(mem, at + SECTOR_SIZE * n))]
  {
  }

  /** Memory after n sectors have been read into it at position at. */
  ghost function SectorsRead(mem: seq<byte>, at: nat, base: nat, n: nat, part: seq<byte>, log: seq<Write>): (r: seq<byte>)
    ensures |r| == |mem|
  {
    seq<byte>(|mem|, k requires 0 <= k => ReadByte(mem, at, base, n, part, log, k))
  }

  ghost function ReadByte(mem: seq<byte>, at: nat, base: nat, n: nat, part: seq<byte>, log: seq<Write>, k: nat): byte {
    if at <= k < at + SECTOR_SIZE * n then Expected(part, log, base + (k - at)) else ByteAt(mem, k)
  }

  /** The inner loop of rmtfs_iovec, reading: each sector in memory gets the bytes last written
      to it, else the partition's, else zeros. */
  method ReadSectors(st: Storage, i: nat, mem: Memory, e: Entry) returns (done: nat)
    requires st.Valid() && i < st.slots.Length == |st.logs|
    modifies mem.bytes
    ensures st.Valid() && done == Fitting(mem, e, false, e.num)
    ensures mem.bytes[..] == SectorsRead(old(mem.bytes[..]), mem.Position(e.phys), SectorBase(e.sector), done,
                                         PartOf(st.files, st.slots[i].part), st.logs[i])
  {
    hide Expected; hide Agrees; hide Good; hide IsOpen; hide SectorBase; hide Fitting;
    done := 0;
    var base := SectorBase(e.sector);
    ghost var at, part := mem.Position(e.phys), PartOf(st.files, st.slots[i].part);
    while done < e.num
      invariant st.Valid() && done <= e.num && Fits(mem, e, false, done)
      invariant forall k :: 0 <= k < mem.bytes.Length ==>
        mem.bytes[k] == if at <= k < at + SECTOR_SIZE * done
          then Expected(part, st.logs[i], base + (k - at)) else old(mem.bytes[k])
    {
      var offset := SECTOR_SIZE * done;
      var buf := st.Pread(i, SECTOR_SIZE, base + offset);
      var ok := mem.Fill(e.phys + offset, buf);
      if !ok {
        break;
      }
      done := done + 1;
    }
    FittingIs(mem, e, false, done, e.num);
  }

  // ----- Whole requests -----

  /** What a request gets done: its entries up to the first sector that does not fit. */
  ghost function Done(mem: Memory, es: seq<Entry>, write: bool): seq<Entry> {
    if es == [] then []
    else
      var e := es[0];
      var n := Fitting(mem, e, write, e.num);
      [e.(num := n)] + if n < e.num then [] else Done(mem, es[1..], write)
  }

  ghost predicate AllFit(mem: Memory, es: seq<Entry>, write: bool) {
    forall e :: e in es ==> Fits(mem, e, write, e.num)
  }

  lemma {:induction false} AllFitTail(mem: Memory, es: seq<Entry>, write: bool)
    requires es != []
    ensures AllFit(mem, es, write) <==> Fits(mem, es[0], write, es[0].num) && AllFit(mem, es[1..], write)
  {
    assert es == [es[0]] + es[1..];
  }

  /** All is done if and only if all fits. */
  lemma {:induction false} AllDone(mem: Memory, es: seq<Entry>, write: bool)
    ensures AllFit(mem, es, write) <==> Done(mem, es, write) == es
  {
    hide Fits; hide Fitting;
    if es != [] {
      AllDone(mem, es[1..], write);
      AllFitTail(mem, es, write);
      FittingAll(mem, es[0], write);
      var d := Done(mem, es, write);
      assert d == es <==> d[0] == es[0] && d[1..] == es[1..] by {
        assert d == [d[0]] + d[1..] && es == [es[0]] + es[1..];
      }
    }
  }

  ghost function IovecWrites(len: nat, mem: Memory, bytes: seq<byte>, es: seq<Entry>, heap: nat -> byte): seq<Write>
    decreases es
  {
    if es == [] then []
    else
      var e := es[0];
      EntryWrites(len, bytes, mem.Position(e.phys), SectorBase(e.sector), e.num, heap)
      + IovecWrites(LenAfter(len, SectorBase(e.sector), e.num), mem, bytes, es[1..], heap)
  }

  ghost function IovecReads(mem: Memory, bytes: seq<byte>, es: seq<Entry>, part: seq<byte>, log: seq<Write>): seq<byte>
    decreases es
  {
    if es == [] then bytes
    else
      var e := es[0];
      var next := SectorsRead(bytes, mem.Position(e.phys), SectorBase(e.sector), e.num, part, log);
      IovecReads(mem, next, es[1..], part, log)
  }

  /** The loops of rmtfs_iovec, writing: it succeeds exactly when all sectors of all entries are in
      memory and below the limit; what came before the first that is not has been written. */
  method IovecWrite(st: Storage, i: nat, mem: Memory, es: seq<Entry>, heap: nat -> byte) returns (ok: bool)
    requires st.Valid() && i < st.slots.Length == |st.logs|
    modifies st, st.slots
    ensures st.Valid() && st.slots.Length == |st.logs| && (ok <==> AllFit(mem, es, true))
    ensures SameHandle(old(st.slots[i]), st.slots[i])
    ensures st.logs[i] == old(st.logs[i])
      + IovecWrites(|Held(old(st.slots[i]))|, mem, mem.bytes[..], Done(mem, es, true), heap)
    ensures OthersStay(old(st.slots[..]), st.slots[..], old(st.logs), st.logs, i)
    ensures mem.bytes[..] == old(mem.bytes[..])
  {
    hide IovecWrites; hide EntryWrites; hide Fits; hide Storage.Valid; hide SectorBase; hide Max; hide LenAfter;
    hide AllFit; hide Done; hide Fitting; hide Held;
    ghost var before, beforeLogs, all := st.slots[..], st.logs, mem.bytes[..];
    ghost var len, rest := |Held(st.slots[i])|, es;
    for k := 0 to |es|
      invariant st.Valid() && st.slots.Length == |st.logs| && SameHandle(before[i], st.slots[i]) && rest == es[k..]
      invariant mem.bytes[..] == all && (AllFit(mem, es, true) <==> AllFit(mem, rest, true))
      invariant st.logs[i] + IovecWrites(|Held(st.slots[i])|, mem, all, Done(mem, rest, true), heap)
             == beforeLogs[i] + IovecWrites(len, mem, all, Done(mem, es, true), heap)
      invariant OthersStay(before, st.slots[..], beforeLogs, st.logs, i)
    {
      var e := es[k];
      AllFitTail(mem, rest, true);
      NextWritten(|Held(st.slots[i])|, mem, all, rest, heap, st.logs[i]);
      var done := WriteSectors(st, i, mem, e, heap);
      FittingAll(mem, e, true);
      if done != e.num {
        return false;
      }
      rest := rest[1..];
    }
    NoneWritten(|Held(st.slots[i])|, mem, all, heap, st.logs[i]);
    return true;
  }

  lemma {:induction false} FittingAll(mem: Memory, e: Entry, write: bool)
    ensures Fitting(mem, e, write, e.num) == e.num <==> Fits(mem, e, write, e.num)
  {
    hide Fits;
  }

  /** The log behind the first entry of a request. */
  lemma {:induction false} NextWritten(len: nat, mem: Memory, bytes: seq<byte>, es: seq<Entry>, heap: nat -> byte,
                                       log: seq<Write>)
    requires es != []
    ensures var e, n := es[0], Fitting(mem, es[0], true, es[0].num);
      log + IovecWrites(len, mem, bytes, Done(mem, es, true), heap)
      == log + EntryWrites(len, bytes, mem.Position(e.phys), SectorBase(e.sector), n, heap)
         + if n < e.num then []
           else IovecWrites(LenAfter(len, SectorBase(e.sector), n), mem, bytes, Done(mem, es[1..], true), heap)
  {
    hide EntryWrites; hide LenAfter; hide SectorBase; hide Fitting;
    var e, n := es[0], Fitting(mem, es[0], true, es[0].num);
    var rest := if n < e.num then [] else Done(mem, es[1..], true);
    assert Done(mem, es, true)[1..] == rest;
    var x := EntryWrites(len, bytes, mem.Position(e.phys), SectorBase(e.sector), n, heap);
    var y := IovecWrites(LenAfter(len, SectorBase(e.sector), n), mem, bytes, rest, heap);
    assert log + (x + y) == log + x + y;
  }

  lemma {:induction false} NoneWritten(len: nat, mem: Memory, bytes: seq<byte>, heap: nat -> byte, log: seq<Write>)
    ensures log + IovecWrites(len, mem, bytes, Done(mem, [], true), heap) == log
    ensures AllFit(mem, [], true)
  {
  }

  /** The loops of rmtfs_iovec, reading: it succeeds exactly when all sectors of all entries are in
      memory; what came before the first that is not has been read. The storage does not change. */
  method IovecRead(st: Storage, i: nat, mem: Memory, es: seq<Entry>) returns (ok: bool)
    requires st.Valid() && i < st.slots.Length == |st.logs|
    modifies mem.bytes
    ensures st.Valid() && (ok <==> AllFit(mem, es, false))
    ensures mem.bytes[..] == IovecReads(mem, old(mem.bytes[..]), Done(mem, es, false),
                                        PartOf(st.files, st.slots[i].part), st.logs[i])
  {
    hide SectorsRead; hide Fits; hide SectorBase; hide PartOf; hide AllFit; hide Done; hide Fitting; hide IovecReads;
    ghost var part, log, rest := PartOf(st.files, st.slots[i].part), st.logs[i], es;
    for k := 0 to |es|
      invariant st.Valid() && rest == es[k..] && (AllFit(mem, es, false) <==> AllFit(mem, rest, false))
      invariant IovecReads(mem, mem.bytes[..], Done(mem, rest, false), part, log)
             == IovecReads(mem, old(mem.bytes[..]), Done(mem, es, false), part, log)
    {
      var e := es[k];
      AllFitTail(mem, rest, false);
      NextRead(mem, mem.bytes[..], rest, part, log);
      var done := ReadSectors(st, i, mem, e);
      FittingAll(mem, e, false);
      if done != e.num {
        return false;
      }
      rest := rest[1..];
    }
    NoneRead(mem, mem.bytes[..], part, log);
    return true;
  }

  /** Memory behind the first entry of a request. */
  lemma {:induction false} NextRead(mem: Memory, bytes: seq<byte>, es: seq<Entry>, part: seq<byte>, log: seq<Write>)
    requires es != []
    ensures var e, n := es[0], Fitting(mem, es[0], false, es[0].num);
      var next := SectorsRead(bytes, mem.Position(e.phys), SectorBase(e.sector), n, part, log);
      IovecReads(mem, bytes, Done(mem, es, false), part, log)
      == if n < e.num then next else IovecReads(mem, next, Done(mem, es[1..], false), part, log)
  {
    hide SectorsRead; hide SectorBase; hide Fitting;
    var e, n := es[0], Fitting(mem, es[0], false, es[0].num);
    assert Done(mem, es, false)[1..] == if n < e.num then [] else Done(mem, es[1..], false);
  }

  lemma {:induction false} NoneRead(mem: Memory, bytes: seq<byte>, part: seq<byte>, log: seq<Write>)
    ensures IovecReads(mem, bytes, Done(mem, [], false), part, log) == bytes && AllFit(mem, [], false)
  {
  }

  /** rmtfs_iovec: the handle is the one of that number and node, open or not. */
  method Iovec(st: Storage, node: nat, id: u32, mem: Memory, write: bool, es: seq<Entry>, heap: nat -> byte)
    returns (found: Found, ok: bool)
    requires st.Valid()
    modifies st, st.slots, mem.bytes
    ensures st.Valid() && st.slots.Length == |st.logs| == old(|st.logs|)
    ensures found == if id >= 0x8000_0000 then Outside
                     else if id < st.slots.Length && old(st.slots[id]).node == node then Handle(id) else NoHandle
    ensures ok <==> found.Handle? && AllFit(mem, es, write)
    ensures write || !found.Handle? ==> mem.bytes[..] == old(mem.bytes[..])
    ensures !write || !found.Handle? ==> st.slots[..] == old(st.slots[..]) && st.logs == old(st.logs)
    ensures found.Handle? && write ==>
      && SameHandle(old(st.slots[id]), st.slots[id])
      && st.logs[id] == old(st.logs[id])
           + IovecWrites(|Held(old(st.slots[id]))|, mem, mem.bytes[..], Done(mem, es, true), heap)
      && OthersStay(old(st.slots[..]), st.slots[..], old(st.logs), st.logs, id)
    ensures found.Handle? && !write ==>
      mem.bytes[..] == IovecReads(mem, old(mem.bytes[..]), Done(mem, es, false),
                                  PartOf(st.files, st.slots[id].part), st.logs[id])
  {
    hide Good; hide IsOpen; hide Held; hide AllFit; hide Done; hide IovecWrites; hide IovecReads; hide PartOf;
    found := st.Get(node, id);
    ok := false;
    if found.Handle? {
      if write {
        ok := IovecWrite(st, id, mem, es, heap);
      } else {
        ok := IovecRead(st, id, mem, es);
      }
    }
  }

  // ----- What was written comes back -----

  /** Whatever was there before, n sectors written read back as the memory they came from. */
  lemma {:induction false} EntryBack(len: nat, mem: seq<byte>, at: nat, base: nat, n: nat, heap: nat -> byte,
                                     part: seq<byte>, log: seq<Write>, j: nat)
    requires j < SECTOR_SIZE * n
    ensures Expected(part, log + EntryWrites(len, mem, at, base, n, heap), base + j) == ByteAt(mem, at + j)
  {
    hide Expected; hide SectorWrites; hide GapWrite;
    var gap, w := GapWrite(len, base, heap), SectorWrites(mem, at, base, n);
    assert log + (gap + w) == log + gap + w;
    SectorsWritten(mem, at, base, n, part, log + gap, base + j);
  }

  /** What reading them elsewhere makes of the memory. */
  lemma {:induction false} CopiedBack(bytes: seq<byte>, at: nat, to: nat, base: nat, n: nat, len: nat, heap: nat -> byte,
                                      part: seq<byte>, log: seq<Write>, k: nat)
    requires k < |bytes|
    ensures SectorsRead(bytes, to, base, n, part, log + EntryWrites(len, bytes, at, base, n, heap))[k]
         == if to <= k < to + SECTOR_SIZE * n then ByteAt(bytes, at + (k - to)) else bytes[k]
  {
    hide Expected; hide EntryWrites;
    if to <= k < to + SECTOR_SIZE * n {
      EntryBack(len, bytes, at, base, n, heap, part, log, k - to);
    }
  }

  /** Sectors written through one handle and, after any request through another, read back into
      another place in memory: a copy of the sectors, and nothing else has changed there. */
  method WriteThenRead(st: Storage, i: nat, mem: Memory, e: Entry, to: nat, other: nat, es: seq<Entry>,
                       heap: nat -> byte)
    returns (ok: bool)
    requires st.Valid() && i < st.slots.Length == |st.logs| && other < st.slots.Length && other != i
    modifies st, st.slots, mem.bytes
    ensures st.Valid() && (ok <==> Fits(mem, e, true, e.num) && Fits(mem, e.(phys := to), false, e.num))
    ensures ok ==> forall k :: 0 <= k < mem.bytes.Length ==>
      mem.bytes[k] == if mem.Position(to) <= k < mem.Position(to) + SECTOR_SIZE * e.num
        then ByteAt(old(mem.bytes[..]), mem.Position(e.phys) + (k - mem.Position(to))) else old(mem.bytes[k])
  {
    hide Good; hide IsOpen; hide Held; hide Done; hide IovecWrites; hide PartOf; hide Expected; hide Fits;
    hide EntryWrites; hide SectorBase; hide LenAfter; hide Storage.Valid; hide AllFit; hide Fitting; hide SectorsRead;
    hide ByteAt; hide Max; hide Sector;
    ghost var bytes, log := mem.bytes[..], st.logs[i];
    ghost var len, base, at, at2 := |Held(st.slots[i])|, SectorBase(e.sector), mem.Position(e.phys), mem.Position(to);
    var n := WriteSectors(st, i, mem, e, heap);
    FittingAll(mem, e, true);
    if n != e.num {
      return false;
    }
    var _ := IovecWrite(st, other, mem, es, heap);
    var back := e.(phys := to);
    ghost var part := PartOf(st.files, st.slots[i].part);
    var m := ReadSectors(st, i, mem, back);
    FittingAll(mem, back, false);
    if m == e.num {
      forall k | 0 <= k < mem.bytes.Length
        ensures mem.bytes[k] == if at2 <= k < at2 + SECTOR_SIZE * e.num then ByteAt(bytes, at + (k - at2)) else bytes[k]
      {
        CopiedBack(bytes, at, at2, base, e.num, len, heap, part, log, k);
        assert mem.bytes[k] == mem.bytes[..][k];
      }
    }
    return m == e.num;
  }
}
