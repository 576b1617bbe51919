/** The on-disk format of the file system: the superblock, the directory table of 128-byte entries packed four to a
    sector, and file data. */
module FsLayout {
  import opened Words

  const FS_MAGIC := 0x7253_4653
  const FS_VERSION := 2
  const FS_SUPER_LBA := 4097
  const FS_TABLE_LBA := 4098
  const FS_TABLE_SECTORS := 32
  const FS_DATA_LBA := 4130
  const FS_END_LBA := 6176
  const FS_MAX_ENTRIES := 128
  const FS_NAME_MAX := 100
  const FS_MAX_FILE_SIZE := 4096
  const FS_ROOT := -1
  const FS_NOT_FOUND := -2

  const FILE: Byte := 1
  const FOLDER: Byte := 2

  type I16 = x: int | -0x8000 <= x < 0x8000
  type Sector = s: seq<Byte> | |s| == 512 witness seq(512, _ => 0)
  type NameField = s: seq<Byte> | |s| == 100 witness seq(100, _ => 0)

  datatype Super = Super(magic: U32, version: U32, next: U32, reserved: U32)

  datatype Entry = Entry(used: Byte, kind: Byte, attr: Byte, reserved0: Byte, parent: I16, reserved1: I16,
                         start: U32, size: U32, alloc: U32, created: U32, modified: U32, name: NameField)

  // ---- bytes ----

  function Bytes32(x: U32): (s: seq<Byte>)
    ensures |s| == 4
  {
    LittleEndian(Pattern(x))
  }

  function Word32(s: seq<Byte>, p: nat): U32
    requires p + 4 <= |s|
  {
    Unsigned(FromLittleEndian(s[p], s[p + 1], s[p + 2], s[p + 3]))
  }

  function Bytes16(x: I16): (s: seq<Byte>)
    ensures |s| == 2
  {
    var u: int := if x < 0 then x as int + 0x1_0000 else x;
    [u % 256, u / 256 % 256]
  }

  function Word16(s: seq<Byte>, p: nat): I16
    requires p + 2 <= |s|
  {
    var u := s[p] as int + 256 * (s[p + 1] as int);
    if u < 0x8000 then u else u - 0x1_0000
  }

  lemma Word32At(s: seq<Byte>, p: nat, x: U32)
    requires p + 4 <= |s| && s[p..p + 4] == Bytes32(x)
    ensures Word32(s, p) == x
  {
    WordBytes(Pattern(x));
    var t := s[p..p + 4];
    assert s[p] == t[0] && s[p + 1] == t[1] && s[p + 2] == t[2] && s[p + 3] == t[3];
  }

  lemma Word16At(s: seq<Byte>, p: nat, x: I16)
    requires p + 2 <= |s| && s[p..p + 2] == Bytes16(x)
    ensures Word16(s, p) == x
  {
    var t := s[p..p + 2];
    assert s[p] == t[0] && s[p + 1] == t[1];
  }

  // ---- the superblock ----

  function EncodeSuper(s: Super): Sector {
    Bytes32(s.magic) + Bytes32(s.version) + Bytes32(s.next) + Bytes32(s.reserved) + seq(496, _ => 0)
  }

  function DecodeSuper(s: Sector): Super {
    Super(Word32(s, 0), Word32(s, 4), Word32(s, 8), Word32(s, 12))
  }

  lemma SuperRoundTrip(s: Super)
    ensures DecodeSuper(EncodeSuper(s)) == s
  {
    hide Bytes32, Word32;
    var b := EncodeSuper(s);
    assert b[0..4] == Bytes32(s.magic) && b[4..8] == Bytes32(s.version);
    assert b[8..12] == Bytes32(s.next) && b[12..16] == Bytes32(s.reserved);
    Word32At(b, 0, s.magic);
    Word32At(b, 4, s.version);
    Word32At(b, 8, s.next);
    Word32At(b, 12, s.reserved);
  }

  // ---- directory entries ----

  function EncodeEntry(e: Entry): (s: seq<Byte>)
    ensures |s| == 128
  {
    [e.used, e.kind, e.attr, e.reserved0] + (Bytes16(e.parent) + Bytes16(e.reserved1)) +
    (Bytes32(e.start) + Bytes32(e.size) + Bytes32(e.alloc)) + (Bytes32(e.created) + Bytes32(e.modified)) + e.name
  }

  function DecodeEntry(s: seq<Byte>): Entry
    requires |s| == 128
  {
    Entry(s[0], s[1], s[2], s[3], Word16(s, 4), Word16(s, 6), Word32(s, 8), Word32(s, 12), Word32(s, 16),
          Word32(s, 20), Word32(s, 24), s[28..])
  }

  lemma EntryRoundTrip(e: Entry)
    ensures DecodeEntry(EncodeEntry(e)) == e
  {
    hide Bytes32, Word32, Bytes16, Word16;
    var s := EncodeEntry(e);
    assert s[4..6] == Bytes16(e.parent) && s[6..8] == Bytes16(e.reserved1);
    assert s[8..12] == Bytes32(e.start) && s[12..16] == Bytes32(e.size) && s[16..20] == Bytes32(e.alloc);
    assert s[20..24] == Bytes32(e.created) && s[24..28] == Bytes32(e.modified) && s[28..] == e.name;
    Word16At(s, 4, e.parent);
    Word16At(s, 6, e.reserved1);
    Word32At(s, 8, e.start);
    Word32At(s, 12, e.size);
    Word32At(s, 16, e.alloc);
    Word32At(s, 20, e.created);
    Word32At(s, 24, e.modified);
  }

  // ---- the disk ----

  type Disk = imap<nat, Sector>

  function ReadSector(d: Disk, lba: nat): Sector {
    if lba in d then d[lba] else seq(512, _ => 0)
  }

  function DiskSuper(d: Disk): Super { DecodeSuper(ReadSector(d, FS_SUPER_LBA)) }

  /** Entry `j` of a table sector. */
  function EntryOf(s: Sector, j: nat): Entry
    requires j < 4
  {
    DecodeEntry(s[128 * j..128 * j + 128])
  }

  ghost function DiskEntry(d: Disk, i: nat): Entry { EntryOf(ReadSector(d, FS_TABLE_LBA + i / 4), i % 4) }

  type Table = t: seq<Entry> | |t| == FS_MAX_ENTRIES
    witness seq(128, _ => Entry(0, 0, 0, 0, 0, 0, 0, 0, 0, 0, 0, seq(100, _ => 0)))

  ghost function DiskTable(d: Disk): Table {
    seq(FS_MAX_ENTRIES, i requires 0 <= i < FS_MAX_ENTRIES => DiskEntry(d, i))
  }

  /** The four entries of sector `k` of the table, as stored. */
  function TableSector(t: Table, k: nat): Sector
    requires k < FS_TABLE_SECTORS
  {
    EncodeEntry(t[4 * k]) + EncodeEntry(t[4 * k + 1]) + EncodeEntry(t[4 * k + 2]) + EncodeEntry(t[4 * k + 3])
  }

  lemma TableSectorEntry(t: Table, k: nat, j: nat)
    requires k < FS_TABLE_SECTORS && j < 4
    ensures EntryOf(TableSector(t, k), j) == t[4 * k + j]
  {
    hide EncodeEntry, DecodeEntry;
    var s := TableSector(t, k);
    EntryRoundTrip(t[4 * k + j]);
    assert s[128 * j..128 * j + 128] == EncodeEntry(t[4 * k + j]);
  }

  /** Writing sector `k` of table `t` replaces those four entries on disk and nothing else. */
  lemma FlushedTable(d: Disk, t: Table, k: nat)
    requires k < FS_TABLE_SECTORS
    ensures var d' := d[FS_TABLE_LBA + k := TableSector(t, k)];
      && DiskSuper(d') == DiskSuper(d)
      && forall i :: 0 <= i < FS_MAX_ENTRIES ==> DiskTable(d')[i] == if i / 4 == k then t[i] else DiskTable(d)[i]
  {
    hide EntryOf, TableSector, DecodeSuper;
    var d' := d[FS_TABLE_LBA + k := TableSector(t, k)];
    forall i | 0 <= i < FS_MAX_ENTRIES
      ensures DiskEntry(d', i) == if i / 4 == k then t[i] else DiskEntry(d, i)
    {
      if i / 4 == k {
        TableSectorEntry(t, k, i % 4);
        assert i == 4 * k + i % 4;
      }
    }
  }

  /** The file system on the disk is usable; otherwise it is formatted when mounted. */
  ghost predicate Mountable(d: Disk) {
    var s := DiskSuper(d);
    s.magic == FS_MAGIC && s.version == FS_VERSION && FS_DATA_LBA <= s.next <= FS_END_LBA
  }

  // ---- file data ----

  /** The bytes of a file: `size` bytes of the sectors from `start` on. */
  ghost function FileBytes(d: Disk, start: nat, size: nat): (s: seq<Byte>)
    ensures |s| == size
  {
    seq(size, k requires 0 <= k < size => ReadSector(d, start + k / 512)[k % 512])
  }

  ghost function Content(d: Disk, e: Entry): seq<Byte> { FileBytes(d, e.start, e.size) }

  lemma SameBytes(d: Disk, d': Disk, start: nat, size: nat)
    requires forall lba: nat :: start <= lba < start + (size + 511) / 512 ==> ReadSector(d', lba) == ReadSector(d, lba)
    ensures FileBytes(d', start, size) == FileBytes(d, start, size)
  {
    forall k | 0 <= k < size
      ensures ReadSector(d', start + k / 512) == ReadSector(d, start + k / 512)
    {
      assert k / 512 < (size + 511) / 512;
    }
  }

  // ---- names ----

  /** A C string up to its terminator. */
  function CString(s: seq<Byte>): (r: seq<Byte>)
    ensures |r| <= |s| && r == s[..|r|] && (|r| < |s| ==> s[|r|] == 0) && 0 !in r
  {
    if s == [] || s[0] == 0 then [] else
    assert s == [s[0]] + s[1..];
    [s[0]] + CString(s[1..])
  }

  function Name(e: Entry): seq<Byte> { CString(e.name) }

  /** A string as C passes it: no zero byte inside. */
  predicate IsString(s: seq<Byte>) { 0 !in s }

  predicate GoodName(s: seq<Byte>) { IsString(s) && 0 < |s| <= FS_NAME_MAX - 1 }
}
