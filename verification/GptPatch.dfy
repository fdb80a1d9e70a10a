/** The GPT patch of package_qdl.py: three new partitions, both headers made to agree. */
module GptPatch {
  import opened Bytes

  const TOTAL_DISK_SECTORS: nat := 61071360
  const LAST_USABLE_LBA: nat := TOTAL_DISK_SECTORS - 34
  const EFI_START: nat := 985408
  const EFI_END: nat := EFI_START + 1048576 - 1
  const METADATA_START: nat := 2033984
  const METADATA_END: nat := METADATA_START + 131072 - 1
  const ROOTFS_START: nat := METADATA_END + 1
  const ROOTFS_END: nat := ROOTFS_START + 8388608 - 1
  const USERDATA_START: nat := 10553664
  const USERDATA_END: nat := LAST_USABLE_LBA

  /** The partitions lie behind one another, and before the backup of the entry array. */
  lemma {:induction false} PartitionsDisjoint()
    ensures EFI_START <= EFI_END < METADATA_START <= METADATA_END < ROOTFS_START <= ROOTFS_END
    ensures ROOTFS_END + 1 == USERDATA_START <= USERDATA_END < TOTAL_DISK_SECTORS - 33
  {
  }

  // ----- Integers, least significant byte first -----

  function U32(n: nat): (r: seq<byte>)
    ensures |r| == 4
  {
    [n % 256, n / 256 % 256, n / 256 / 256 % 256, n / 256 / 256 / 256 % 256]
  }

  function U64(n: nat): (r: seq<byte>)
    ensures |r| == 8
  {
    U32(n % 0x1_0000_0000) + U32(n / 0x1_0000_0000)
  }

  function Get32(s: seq<byte>, at: nat): (n: nat)
    requires at + 4 <= |s|
  {
    var a: nat, b: nat, c: nat, d: nat := s[at], s[at + 1], s[at + 2], s[at + 3];
    a + 256 * b + 65536 * c + 16777216 * d
  }

  lemma {:induction false} Get32Of(s: seq<byte>, at: nat, n: nat)
    requires at + 4 <= |s| && n < 0x1_0000_0000 && s[at..at + 4] == U32(n)
    ensures Get32(s, at) == n
  {
    var r := s[at..at + 4];
    assert s[at] == r[0] && s[at + 1] == r[1] && s[at + 2] == r[2] && s[at + 3] == r[3];
    FourBytes(n);
  }

  lemma {:induction false} FourBytes(n: nat)
    requires n < 0x1_0000_0000
    ensures n == n % 256 + 256 * (n / 256 % 256) + 65536 * (n / 256 / 256 % 256)
                 + 16777216 * (n / 256 / 256 / 256 % 256)
  {
    var x := n / 256;
    var y := x / 256;
    var z := y / 256;
    assert n == 256 * x + n % 256 && x == 256 * y + x % 256 && y == 256 * z + y % 256 && z < 256;
  }

  // ----- Bytes replaced in place -----

  /** The bytes with bs put at the offset. */
  ghost function Put(s: seq<byte>, at: nat, bs: seq<byte>): (r: seq<byte>)
    requires at + |bs| <= |s|
    ensures |r| == |s|
  {
    s[..at] + bs + s[at + |bs|..]
  }

  lemma {:induction false} PutInside(s: seq<byte>, at: nat, bs: seq<byte>)
    requires at + |bs| <= |s|
    ensures Put(s, at, bs)[at..at + |bs|] == bs
  {
  }

  lemma {:induction false} PutOutside(s: seq<byte>, at: nat, bs: seq<byte>, a: nat, b: nat)
    requires at + |bs| <= |s| && a <= b <= |s| && (b <= at || at + |bs| <= a)
    ensures Put(s, at, bs)[a..b] == s[a..b]
  {
  }

  lemma {:induction false} PutAt(s: seq<byte>, at: nat, bs: seq<byte>, k: nat)
    requires at + |bs| <= |s| && k < |s|
    ensures Put(s, at, bs)[k] == if at <= k < at + |bs| then bs[k - at] else s[k]
  {
  }

  /** Putting inside a range is putting into the range. */
  lemma {:induction false} PutWithin(s: seq<byte>, at: nat, bs: seq<byte>, a: nat, b: nat)
    requires a <= at && at + |bs| <= b <= |s|
    ensures Put(s, at, bs)[a..b] == Put(s[a..b], at - a, bs)
  {
  }

  lemma {:induction false} PutTwice(s: seq<byte>, at: nat, x: seq<byte>, y: seq<byte>)
    requires |x| == |y| && at + |x| <= |s|
    ensures Put(Put(s, at, x), at, y) == Put(s, at, y)
  {
  }

  /** struct.pack_into, and the assignment of a slice of the same length. */
  method Store(data: array<byte>, at: nat, bs: seq<byte>)
    requires at + |bs| <= data.Length
    modifies data
    ensures data[..] == Put(old(data[..]), at, bs)
  {
    for i := 0 to |bs|
      invariant forall k :: 0 <= k < data.Length ==>
        data[k] == if at <= k < at + i then bs[k - at] else old(data[k])
    {
      data[at + i] := bs[i];
    }
  }

  // ----- Entries -----

  /** create_gpt_entry; the name in UTF-16, filled up with zeros and cut at 72 bytes. */
  function Entry(kind: seq<byte>, guid: seq<byte>, first: nat, last: nat, name: seq<byte>): (r: seq<byte>)
    requires |kind| == |guid| == 16
    ensures |r| == 128
    ensures r[..16] == kind && r[16..32] == guid && r[32..40] == U64(first) && r[40..48] == U64(last)
    ensures forall k :: 0 <= k < 72 ==> r[56 + k] == if k < |name| then name[k] else 0
  {
    kind + guid + U64(first) + U64(last) + U64(0) + (name + seq(72, _ => 0))[..72]
  }

  // ----- Headers -----

  ghost function Crc32(crc: seq<byte> -> nat, s: seq<byte>): nat {
    crc(s) % 0x1_0000_0000
  }

  /** The header at off vouches for the entries, and for itself with its own field as zero. */
  ghost predicate HeaderChecks(crc: seq<byte> -> nat, s: seq<byte>, off: nat, entries: seq<byte>) {
    && off + 92 <= |s|
    && var size := Get32(s, off + 12);
       && 92 <= size && off + size <= |s|
       && Get32(s, off + 88) == Crc32(crc, entries)
       && Get32(s, off + 16) == Crc32(crc, Put(s[off..off + size], 16, [0, 0, 0, 0]))
  }

  lemma {:induction false} HeaderPatched(crc: seq<byte> -> nat, s: seq<byte>, off: nat, entries: seq<byte>)
    requires off + 92 <= |s|
    requires var size := Get32(s, off + 12); 92 <= size && off + size <= |s|
    ensures var size := Get32(s, off + 12);
      var t := Put(Put(s, off + 88, U32(Crc32(crc, entries))), off + 16, [0, 0, 0, 0]);
      HeaderChecks(crc, Put(t, off + 16, U32(Crc32(crc, t[off..off + size]))), off, entries)
  {
    hide Get32; hide Put; hide U32;
    var size := Get32(s, off + 12);
    var a := U32(Crc32(crc, entries));
    var s1 := Put(s, off + 88, a);
    var t := Put(s1, off + 16, [0, 0, 0, 0]);
    var h := U32(Crc32(crc, t[off..off + size]));
    var u := Put(t, off + 16, h);
    PutInside(s, off + 88, a);
    PutOutside(s1, off + 16, [0, 0, 0, 0], off + 88, off + 92);
    PutOutside(t, off + 16, h, off + 88, off + 92);
    Get32Of(u, off + 88, Crc32(crc, entries));
    PutOutside(s, off + 88, a, off + 12, off + 16);
    PutOutside(s1, off + 16, [0, 0, 0, 0], off + 12, off + 16);
    PutOutside(t, off + 16, h, off + 12, off + 16);
    SameField(u, s, off + 12);
    PutInside(t, off + 16, h);
    Get32Of(u, off + 16, Crc32(crc, t[off..off + size]));
    PutWithin(t, off + 16, h, off, off + size);
    PutWithin(s1, off + 16, [0, 0, 0, 0], off, off + size);
    PutTwice(t[off..off + size], 16, h, [0, 0, 0, 0]);
    PutTwice(s1[off..off + size], 16, [0, 0, 0, 0], [0, 0, 0, 0]);
  }

  lemma {:induction false} SameField(s: seq<byte>, t: seq<byte>, at: nat)
    requires at + 4 <= |s| == |t| && s[at..at + 4] == t[at..at + 4]
    ensures Get32(s, at) == Get32(t, at)
  {
    var x, y := s[at..at + 4], t[at..at + 4];
    assert s[at] == x[0] && s[at + 1] == x[1] && s[at + 2] == x[2] && s[at + 3] == x[3];
    assert t[at] == y[0] && t[at + 1] == y[1] && t[at + 2] == y[2] && t[at + 3] == y[3];
  }

  /** The two differ in no byte of the range. */
  ghost predicate Same(s: seq<byte>, t: seq<byte>, a: nat, b: nat) {
    |s| == |t| && a <= b <= |s| && s[a..b] == t[a..b]
  }

  /** update_gpt_header_crc changes the two checksum fields only. */
  ghost predicate OnlyChecksums(s: seq<byte>, t: seq<byte>, off: nat) {
    |s| == |t| && off + 92 <= |s| &&
    forall k :: 0 <= k < |s| && !(off + 16 <= k < off + 20) && !(off + 88 <= k < off + 92) ==> s[k] == t[k]
  }

  lemma {:induction false} ChecksumsPut(s: seq<byte>, off: nat, x: seq<byte>, y: seq<byte>, z: seq<byte>)
    requires off + 92 <= |s| && |x| == |y| == |z| == 4
    ensures OnlyChecksums(s, Put(Put(Put(s, off + 88, x), off + 16, y), off + 16, z), off)
  {
    hide Put;
    var s1 := Put(s, off + 88, x);
    var s2 := Put(s1, off + 16, y);
    forall k | 0 <= k < |s| && !(off + 16 <= k < off + 20) && !(off + 88 <= k < off + 92)
      ensures s[k] == Put(s2, off + 16, z)[k]
    {
      PutAt(s, off + 88, x, k);
      PutAt(s1, off + 16, y, k);
      PutAt(s2, off + 16, z, k);
    }
  }

  lemma {:induction false} ChecksumsSame(s: seq<byte>, t: seq<byte>, off: nat, a: nat, b: nat)
    requires OnlyChecksums(s, t, off) && a <= b <= |s|
    requires (b <= off + 16 || off + 20 <= a) && (b <= off + 88 || off + 92 <= a)
    ensures Same(s, t, a, b)
  {
  }

  /** update_gpt_header_crc: the header then checks, and nothing but its checksums has changed. */
  method UpdateHeaderCrc(crc: seq<byte> -> nat, data: array<byte>, off: nat, entries: seq<byte>) returns (ok: bool)
    requires off + 92 <= data.Length
    modifies data
    ensures ok <==> 92 <= Get32(old(data[..]), off + 12) <= data.Length - off
    ensures ok ==> HeaderChecks(crc, data[..], off, entries)
    ensures OnlyChecksums(old(data[..]), data[..], off)
  {
    hide Get32; hide Put; hide HeaderChecks; hide OnlyChecksums; hide U32;
    ghost var s := data[..];
    ChecksumsSelf(s, off);
    var size := Get32(data[..], off + 12);
    if size < 92 || off + size > data.Length {
      return false;
    }
    HeaderPatched(crc, s, off, entries);
    Store(data, off + 88, U32(crc(entries) % 0x1_0000_0000));
    Store(data, off + 16, [0, 0, 0, 0]);
    ghost var t := data[..];
    var header := crc(data[off..off + size]) % 0x1_0000_0000;
    assert data[off..off + size] == t[off..off + size];
    Store(data, off + 16, U32(header));
    ChecksumsPut(s, off, U32(Crc32(crc, entries)), [0, 0, 0, 0], U32(header));
    return true;
  }

  lemma {:induction false} ChecksumsSelf(s: seq<byte>, off: nat)
    requires off + 92 <= |s|
    ensures OnlyChecksums(s, s, off)
  {
  }

  // ----- The two tables -----

  const MAIN_HEADER: nat := 512
  const BACKUP_HEADER: nat := 32 * 512

  /** Where entry i of the primary array starts. */
  function EntryAt(i: nat): nat {
    1024 + i * 128
  }

  /** The primary table before its checksums: entries 67 to 69, the backup's place, the last sector. */
  ghost function MainPatched(s: seq<byte>, metadata: seq<byte>, rootfs: seq<byte>, userdata: seq<byte>): (r: seq<byte>)
    requires |s| >= EntryAt(70) && |metadata| == |rootfs| == |userdata| == 128
    ensures |r| == |s|
  {
    var t := Put(Put(Put(s, EntryAt(67), metadata), EntryAt(68), rootfs), EntryAt(69), userdata);
    Put(Put(t, MAIN_HEADER + 32, U64(TOTAL_DISK_SECTORS - 1)), MAIN_HEADER + 48, U64(LAST_USABLE_LBA))
  }

  /** What the patch leaves and what it sets in the primary table. */
  ghost predicate MainIs(s: seq<byte>, r: seq<byte>, metadata: seq<byte>, rootfs: seq<byte>, userdata: seq<byte>) {
    && |r| == |s| >= EntryAt(70)
    && r[EntryAt(67)..EntryAt(68)] == metadata && r[EntryAt(68)..EntryAt(69)] == rootfs
    && r[EntryAt(69)..EntryAt(70)] == userdata
    && r[544..552] == U64(TOTAL_DISK_SECTORS - 1) && r[560..568] == U64(LAST_USABLE_LBA)
    && Same(s, r, 1024, EntryAt(67)) && Same(s, r, EntryAt(70), |s|) && Same(s, r, 0, 528)
    && Same(s, r, 568, 600)
  }

  /** Byte by byte. */
  lemma {:induction false} MainByte(s: seq<byte>, metadata: seq<byte>, rootfs: seq<byte>, userdata: seq<byte>, k: nat)
    requires |s| >= EntryAt(70) && |metadata| == |rootfs| == |userdata| == 128 && k < |s|
    ensures MainPatched(s, metadata, rootfs, userdata)[k]
         == if 9600 <= k < 9728 then metadata[k - 9600] else if 9728 <= k < 9856 then rootfs[k - 9728]
            else if 9856 <= k < 9984 then userdata[k - 9856]
            else if 544 <= k < 552 then U64(TOTAL_DISK_SECTORS - 1)[k - 544]
            else if 560 <= k < 568 then U64(LAST_USABLE_LBA)[k - 560] else s[k]
  {
    hide Put; hide U64;
    var s1 := Put(s, EntryAt(67), metadata);
    var s2 := Put(s1, EntryAt(68), rootfs);
    var s3 := Put(s2, EntryAt(69), userdata);
    var s4 := Put(s3, MAIN_HEADER + 32, U64(TOTAL_DISK_SECTORS - 1));
    PutAt(s, EntryAt(67), metadata, k);
    PutAt(s1, EntryAt(68), rootfs, k);
    PutAt(s2, EntryAt(69), userdata, k);
    PutAt(s3, MAIN_HEADER + 32, U64(TOTAL_DISK_SECTORS - 1), k);
    PutAt(s4, MAIN_HEADER + 48, U64(LAST_USABLE_LBA), k);
  }

  lemma {:induction false} MainPatchedIs(s: seq<byte>, metadata: seq<byte>, rootfs: seq<byte>, userdata: seq<byte>)
    requires |s| >= EntryAt(70) && |metadata| == |rootfs| == |userdata| == 128
    ensures MainIs(s, MainPatched(s, metadata, rootfs, userdata), metadata, rootfs, userdata)
  {
    hide U64; hide MainPatched;
    var r := MainPatched(s, metadata, rootfs, userdata);
    forall k | 0 <= k < |s|
      ensures r[k] == if 9600 <= k < 9728 then metadata[k - 9600] else if 9728 <= k < 9856 then rootfs[k - 9728]
            else if 9856 <= k < 9984 then userdata[k - 9856]
            else if 544 <= k < 552 then U64(TOTAL_DISK_SECTORS - 1)[k - 544]
            else if 560 <= k < 568 then U64(LAST_USABLE_LBA)[k - 560] else s[k]
    {
      MainByte(s, metadata, rootfs, userdata, k);
    }
  }

  /** The backup table before its checksums: the entries, and where everything lies. */
  ghost function BackupPatched(s: seq<byte>, entries: seq<byte>): (r: seq<byte>)
    requires |entries| <= BACKUP_HEADER && BACKUP_HEADER + 92 <= |s|
    ensures |r| == |s|
  {
    var t := Put(Put(s, 0, entries), BACKUP_HEADER + 24, U64(TOTAL_DISK_SECTORS - 1));
    Put(Put(Put(t, BACKUP_HEADER + 32, U64(1)), BACKUP_HEADER + 48, U64(LAST_USABLE_LBA)),
        BACKUP_HEADER + 72, U64(TOTAL_DISK_SECTORS - 33))
  }

  ghost predicate BackupIs(s: seq<byte>, r: seq<byte>, entries: seq<byte>) {
    && |r| == |s| >= BACKUP_HEADER + 92 && |entries| <= BACKUP_HEADER
    && r[..|entries|] == entries
    && r[16408..16416] == U64(TOTAL_DISK_SECTORS - 1) && r[16416..16424] == U64(1)
    && r[16432..16440] == U64(LAST_USABLE_LBA) && r[16456..16464] == U64(TOTAL_DISK_SECTORS - 33)
    && Same(s, r, |entries|, 16400) && Same(s, r, 16476, |s|)
  }

  lemma {:induction false} BackupByte(s: seq<byte>, entries: seq<byte>, k: nat)
    requires |entries| <= BACKUP_HEADER && BACKUP_HEADER + 92 <= |s| && k < |s|
    ensures BackupPatched(s, entries)[k]
         == if k < |entries| then entries[k] else if 16408 <= k < 16416 then U64(TOTAL_DISK_SECTORS - 1)[k - 16408]
            else if 16416 <= k < 16424 then U64(1)[k - 16416]
            else if 16432 <= k < 16440 then U64(LAST_USABLE_LBA)[k - 16432]
            else if 16456 <= k < 16464 then U64(TOTAL_DISK_SECTORS - 33)[k - 16456] else s[k]
  {
    hide Put; hide U64;
    var s1 := Put(s, 0, entries);
    var s2 := Put(s1, BACKUP_HEADER + 24, U64(TOTAL_DISK_SECTORS - 1));
    var s3 := Put(s2, BACKUP_HEADER + 32, U64(1));
    var s4 := Put(s3, BACKUP_HEADER + 48, U64(LAST_USABLE_LBA));
    PutAt(s, 0, entries, k);
    PutAt(s1, BACKUP_HEADER + 24, U64(TOTAL_DISK_SECTORS - 1), k);
    PutAt(s2, BACKUP_HEADER + 32, U64(1), k);
    PutAt(s3, BACKUP_HEADER + 48, U64(LAST_USABLE_LBA), k);
    PutAt(s4, BACKUP_HEADER + 72, U64(TOTAL_DISK_SECTORS - 33), k);
  }

  lemma {:induction false} BackupPatchedIs(s: seq<byte>, entries: seq<byte>)
    requires |entries| <= BACKUP_HEADER && BACKUP_HEADER + 92 <= |s|
    ensures BackupIs(s, BackupPatched(s, entries), entries)
  {
    hide U64; hide BackupPatched;
    var r := BackupPatched(s, entries);
    forall k | 0 <= k < |s|
      ensures r[k] == if k < |entries| then entries[k] else if 16408 <= k < 16416 then U64(TOTAL_DISK_SECTORS - 1)[k - 16408]
            else if 16416 <= k < 16424 then U64(1)[k - 16416]
            else if 16432 <= k < 16440 then U64(LAST_USABLE_LBA)[k - 16432]
            else if 16456 <= k < 16464 then U64(TOTAL_DISK_SECTORS - 33)[k - 16456] else s[k]
    {
      BackupByte(s, entries, k);
    }
  }

  lemma {:induction false} MainStays(s: seq<byte>, r: seq<byte>, t: seq<byte>, metadata: seq<byte>, rootfs: seq<byte>,
                                     userdata: seq<byte>)
    requires MainIs(s, r, metadata, rootfs, userdata) && OnlyChecksums(r, t, MAIN_HEADER)
    ensures MainIs(s, t, metadata, rootfs, userdata) && Same(r, t, 1024, |r|)
  {
    hide OnlyChecksums; hide U64;
    ChecksumsSame(r, t, MAIN_HEADER, 1024, EntryAt(67));
    ChecksumsSame(r, t, MAIN_HEADER, EntryAt(67), EntryAt(68));
    ChecksumsSame(r, t, MAIN_HEADER, EntryAt(68), EntryAt(69));
    ChecksumsSame(r, t, MAIN_HEADER, EntryAt(69), EntryAt(70));
    ChecksumsSame(r, t, MAIN_HEADER, EntryAt(70), |r|);
    ChecksumsSame(r, t, MAIN_HEADER, 544, 552);
    ChecksumsSame(r, t, MAIN_HEADER, 560, 568);
    ChecksumsSame(r, t, MAIN_HEADER, 568, 600);
    ChecksumsSame(r, t, MAIN_HEADER, 0, 528);
    ChecksumsSame(r, t, MAIN_HEADER, 1024, |r|);
  }

  lemma {:induction false} BackupStays(s: seq<byte>, r: seq<byte>, t: seq<byte>, entries: seq<byte>)
    requires BackupIs(s, r, entries) && OnlyChecksums(r, t, BACKUP_HEADER)
    ensures BackupIs(s, t, entries)
  {
    hide OnlyChecksums; hide U64;
    ChecksumsSame(r, t, BACKUP_HEADER, 0, |entries|);
    ChecksumsSame(r, t, BACKUP_HEADER, 16408, 16416);
    ChecksumsSame(r, t, BACKUP_HEADER, 16416, 16424);
    ChecksumsSame(r, t, BACKUP_HEADER, 16432, 16440);
    ChecksumsSame(r, t, BACKUP_HEADER, 16456, 16464);
    ChecksumsSame(r, t, BACKUP_HEADER, |entries|, 16400);
    ChecksumsSame(r, t, BACKUP_HEADER, 16476, |r|);
  }

  /** The header promises between 70 and 128 entries of 128 bytes, and they are there. */
  ghost predicate MainShape(s: seq<byte>) {
    |s| >= EntryAt(70) && Get32(s, 596) == 128 && 70 <= Get32(s, 592) <= 128 && EntryAt(Get32(s, 592)) <= |s|
  }

  /** The new entries leave the header as it is. */
  lemma {:induction false} EntriesLeaveHeader(s: seq<byte>, metadata: seq<byte>, rootfs: seq<byte>, userdata: seq<byte>)
    requires |s| >= EntryAt(70) && |metadata| == |rootfs| == |userdata| == 128
    ensures var t := Put(Put(Put(s, EntryAt(67), metadata), EntryAt(68), rootfs), EntryAt(69), userdata);
      Get32(t, 592) == Get32(s, 592) && Get32(t, 596) == Get32(s, 596)
  {
    hide Put; hide Get32;
    var s1 := Put(s, EntryAt(67), metadata);
    var s2 := Put(s1, EntryAt(68), rootfs);
    var s3 := Put(s2, EntryAt(69), userdata);
    PutOutside(s, EntryAt(67), metadata, 592, 596);
    PutOutside(s1, EntryAt(68), rootfs, 592, 596);
    PutOutside(s2, EntryAt(69), userdata, 592, 596);
    SameField(s3, s, 592);
    PutOutside(s, EntryAt(67), metadata, 596, 600);
    PutOutside(s1, EntryAt(68), rootfs, 596, 600);
    PutOutside(s2, EntryAt(69), userdata, 596, 600);
    SameField(s3, s, 596);
  }

  lemma {:induction false} SameSlice(s: seq<byte>, t: seq<byte>, a: nat, b: nat, c: nat, d: nat)
    requires Same(s, t, a, b) && a <= c <= d <= b
    ensures s[c..d] == t[c..d]
  {
    forall k | c <= k < d ensures s[k] == t[k] {
      assert s[a..b][k - a] == t[a..b][k - a];
    }
  }

  /** The header size is one update_gpt_header_crc takes. */
  ghost predicate SizeOk(s: seq<byte>, off: nat)
    requires off + 92 <= |s|
  {
    92 <= Get32(s, off + 12) <= |s| - off
  }

  lemma {:induction false} MainSizeSame(s: seq<byte>, r: seq<byte>, metadata: seq<byte>, rootfs: seq<byte>,
                                        userdata: seq<byte>)
    requires MainIs(s, r, metadata, rootfs, userdata)
    ensures SizeOk(r, MAIN_HEADER) <==> SizeOk(s, MAIN_HEADER)
  {
    hide Get32; hide U64;
    SameSlice(s, r, 0, 528, 524, 528);
    SameField(s, r, 524);
  }

  lemma {:induction false} BackupSizeSame(s: seq<byte>, r: seq<byte>, entries: seq<byte>)
    requires BackupIs(s, r, entries)
    ensures SizeOk(r, BACKUP_HEADER) <==> SizeOk(s, BACKUP_HEADER)
  {
    hide Get32; hide U64;
    SameSlice(s, r, |entries|, 16400, 16396, 16400);
    SameField(s, r, 16396);
  }

  /** The primary table: the new entries are in, all others stay, and the header checks. */
  method PatchMain(crc: seq<byte> -> nat, main: array<byte>, metadata: seq<byte>, rootfs: seq<byte>,
                   userdata: seq<byte>)
    returns (ok: bool, entries: seq<byte>)
    requires MainShape(main[..]) && |metadata| == |rootfs| == |userdata| == 128
    modifies main
    ensures MainIs(old(main[..]), main[..], metadata, rootfs, userdata)
    ensures |entries| == 128 * Get32(old(main[..]), 592) && entries == main[1024..1024 + |entries|]
    ensures ok <==> SizeOk(old(main[..]), MAIN_HEADER)
    ensures ok ==> HeaderChecks(crc, main[..], MAIN_HEADER, entries)
  {
    hide Put; hide Get32; hide HeaderChecks; hide OnlyChecksums; hide U64; hide MainIs;
    ghost var s := main[..];
    Store(main, EntryAt(67), metadata);
    Store(main, EntryAt(68), rootfs);
    Store(main, EntryAt(69), userdata);
    EntriesLeaveHeader(s, metadata, rootfs, userdata);
    ghost var s3 := main[..];
    var size := Get32(main[..], MAIN_HEADER + 80) * Get32(main[..], MAIN_HEADER + 84);
    entries := main[1024..1024 + size];
    Store(main, MAIN_HEADER + 32, U64(TOTAL_DISK_SECTORS - 1));
    ghost var s4 := main[..];
    Store(main, MAIN_HEADER + 48, U64(LAST_USABLE_LBA));
    PutOutside(s3, MAIN_HEADER + 32, U64(TOTAL_DISK_SECTORS - 1), 1024, 1024 + size);
    PutOutside(s4, MAIN_HEADER + 48, U64(LAST_USABLE_LBA), 1024, 1024 + size);
    MainPatchedIs(s, metadata, rootfs, userdata);
    ghost var r := main[..];
    assert r[1024..1024 + size] == entries;
    MainSizeSame(s, r, metadata, rootfs, userdata);
    ok := UpdateHeaderCrc(crc, main, MAIN_HEADER, entries);
    MainStays(s, r, main[..], metadata, rootfs, userdata);
    SameSlice(r, main[..], 1024, |r|, 1024, 1024 + size);
    assert main[1024..1024 + size] == main[..][1024..1024 + size];
  }

  /** The backup header promises num entries of 128 bytes. */
  ghost predicate FormatIs(s: seq<byte>, num: nat)
    requires BACKUP_HEADER + 92 <= |s|
  {
    Get32(s, BACKUP_HEADER + 80) == num && Get32(s, BACKUP_HEADER + 84) == 128
  }

  /** The backup table mirrors the entries; its header is to promise the same number of them. */
  method PatchBackup(crc: seq<byte> -> nat, backup: array<byte>, entries: seq<byte>, num: nat) returns (ok: bool)
    requires BACKUP_HEADER + 92 <= backup.Length && |entries| == 128 * num <= BACKUP_HEADER
    modifies backup
    ensures ok ==> BackupIs(old(backup[..]), backup[..], entries) && HeaderChecks(crc, backup[..], BACKUP_HEADER, entries)
    ensures ok <==> FormatIs(old(backup[..]), num) && SizeOk(old(backup[..]), BACKUP_HEADER)
  {
    hide Put; hide Get32; hide HeaderChecks; hide OnlyChecksums; hide U64; hide BackupIs;
    ghost var s := backup[..];
    Store(backup, 0, entries);
    PutOutside(s, 0, entries, 16464, 16468);
    PutOutside(s, 0, entries, 16468, 16472);
    SameField(backup[..], s, 16464);
    SameField(backup[..], s, 16468);
    if Get32(backup[..], BACKUP_HEADER + 80) != num || Get32(backup[..], BACKUP_HEADER + 84) != 128 {
      return false;
    }
    Store(backup, BACKUP_HEADER + 24, U64(TOTAL_DISK_SECTORS - 1));
    Store(backup, BACKUP_HEADER + 32, U64(1));
    Store(backup, BACKUP_HEADER + 48, U64(LAST_USABLE_LBA));
    Store(backup, BACKUP_HEADER + 72, U64(TOTAL_DISK_SECTORS - 33));
    BackupPatchedIs(s, entries);
    ghost var r := backup[..];
    BackupArray(s, r, entries);
    assert backup[..|entries|] == r[..|entries|];
    BackupSizeSame(s, r, entries);
    ok := UpdateHeaderCrc(crc, backup, BACKUP_HEADER, backup[..|entries|]);
    BackupStays(s, r, backup[..], entries);
  }

  lemma {:induction false} BackupArray(s: seq<byte>, r: seq<byte>, entries: seq<byte>)
    requires BackupIs(s, r, entries)
    ensures r[..|entries|] == entries
  {
  }

  const LINUX_FS_GUID: seq<byte> :=
    [0xaf, 0x3d, 0xc6, 0x0f, 0x83, 0x84, 0x72, 0x47, 0x8e, 0x79, 0x3d, 0x69, 0xd8, 0x47, 0x7d, 0xe4]

  const METADATA_NAME: seq<byte> := [109, 0, 101, 0, 116, 0, 97, 0, 100, 0, 97, 0, 116, 0, 97, 0]
  const ROOTFS_NAME: seq<byte> := [114, 0, 111, 0, 111, 0, 116, 0, 102, 0, 115, 0]
  const USERDATA_NAME: seq<byte> := [117, 0, 115, 0, 101, 0, 114, 0, 100, 0, 97, 0, 116, 0, 97, 0]

  /** patch_gpt_tables between reading and writing the files. The three unique ids are given. It
      succeeds exactly when both headers have a proper size and the formats agree; then the arrays
      of both tables are the same, both headers vouch for it, and every entry but the three new ones
      is as it was. */
  method PatchTables(crc: seq<byte> -> nat, main: array<byte>, backup: array<byte>,
                     id1: seq<byte>, id2: seq<byte>, id3: seq<byte>) returns (ok: bool)
    requires main != backup && MainShape(main[..]) && BACKUP_HEADER + 92 <= backup.Length
    requires |id1| == |id2| == |id3| == 16
    modifies main, backup
    ensures ok <==>
      && SizeOk(old(main[..]), MAIN_HEADER) && SizeOk(old(backup[..]), BACKUP_HEADER)
      && FormatIs(old(backup[..]), Get32(old(main[..]), 592))
    ensures ok ==>
      && MainIs(old(main[..]), main[..], Entry(LINUX_FS_GUID, id1, METADATA_START, METADATA_END, METADATA_NAME),
                Entry(LINUX_FS_GUID, id2, ROOTFS_START, ROOTFS_END, ROOTFS_NAME),
                Entry(LINUX_FS_GUID, id3, USERDATA_START, USERDATA_END, USERDATA_NAME))
      && var entries := main[1024..1024 + 128 * Get32(old(main[..]), 592)];
         && BackupIs(old(backup[..]), backup[..], entries)
         && HeaderChecks(crc, main[..], MAIN_HEADER, entries) && HeaderChecks(crc, backup[..], BACKUP_HEADER, entries)
  {
    hide HeaderChecks; hide MainIs; hide BackupIs; hide Entry;
    var num := Get32(main[..], 592);
    var metadata := Entry(LINUX_FS_GUID, id1, METADATA_START, METADATA_END, METADATA_NAME);
    var rootfs := Entry(LINUX_FS_GUID, id2, ROOTFS_START, ROOTFS_END, ROOTFS_NAME);
    var userdata := Entry(LINUX_FS_GUID, id3, USERDATA_START, USERDATA_END, USERDATA_NAME);
    var entries;
    ok, entries := PatchMain(crc, main, metadata, rootfs, userdata);
    if !ok {
      return;
    }
    ok := PatchBackup(crc, backup, entries, num);
  }
}
