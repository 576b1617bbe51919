/** Volumes: a directory table and a data region handed out from the bottom up, in memory and on disk. */
module FsVolume {
  import opened Words
  import opened FsLayout
  import opened FsTree

  // ---- extents ----

  predicate Overlap(a: Entry, b: Entry) {
    a.alloc > 0 && b.alloc > 0 && a.start < b.start + b.alloc && b.start < a.start + a.alloc
  }

  /** The reserved run of an entry lies in the data region handed out so far and covers its size. */
  predicate ExtentOk(e: Entry, next: int) {
    && e.size <= FS_MAX_FILE_SIZE && e.size <= 512 * e.alloc
    && (e.alloc > 0 ==> FS_DATA_LBA <= e.start && e.start + e.alloc <= next)
    && (e.kind == FOLDER ==> e.alloc == 0)
  }

  /** Every run is in place, and no two live runs share a sector. */
  ghost predicate Extents(t: Table, next: int) {
    && FS_DATA_LBA <= next <= FS_END_LBA
    && (forall i :: Used(t, i) ==> ExtentOk(t[i], next))
    && forall i, j :: Used(t, i) && Used(t, j) && i != j ==> !Overlap(t[i], t[j])
  }

  /** A consistent volume. */
  ghost predicate Inv(t: Table, next: int) { Forest(t) && Extents(t, next) }

  /** A disk that mounts to a consistent volume. */
  ghost predicate CrashOk(d: Disk) { Mountable(d) && Inv(DiskTable(d), DiskSuper(d).next) }

  lemma ExtentsMono(t: Table, next: int, next': int)
    requires Extents(t, next) && next <= next' <= FS_END_LBA
    ensures Extents(t, next')
  {
  }

  /** An entry with a run of its own replaces slot `id`. */
  lemma ExtentsChange(t: Table, next: int, id: int, e: Entry)
    requires Extents(t, next) && 0 <= id < FS_MAX_ENTRIES && ExtentOk(e, next)
    requires forall j :: Used(t, j) && j != id ==> !Overlap(t[j], e)
    ensures Extents(t[id := e], next)
  {
  }

  lemma ExtentsFree(t: Table, next: int, id: int)
    requires Extents(t, next) && 0 <= id < FS_MAX_ENTRIES
    ensures Extents(t[id := t[id].(used := 0)], next)
  {
  }

  // ---- what a disk shows ----

  /** `h` shows the directory `t` with the same file contents as `d`. */
  ghost predicate Shows(h: Disk, t: Table, d: Disk) {
    DiskTable(h) == t && forall j :: Used(t, j) ==> Content(h, t[j]) == Content(d, t[j])
  }

  /** Outside sectors `lba` to `lba + n` the two disks are the same. */
  ghost predicate SameOutside(d: Disk, h: Disk, lba: nat, n: nat) {
    forall k: nat :: !(lba <= k < lba + n) ==> ReadSector(h, k) == ReadSector(d, k)
  }

  lemma DirectoryIntact(d: Disk, h: Disk, lba: nat, n: nat)
    requires SameOutside(d, h, lba, n) && (n > 0 ==> FS_DATA_LBA <= lba)
    ensures DiskTable(h) == DiskTable(d) && DiskSuper(h) == DiskSuper(d)
  {
    hide DecodeSuper, EntryOf;
    forall i | 0 <= i < FS_MAX_ENTRIES
      ensures DiskEntry(h, i) == DiskEntry(d, i)
    {
      assert FS_TABLE_LBA + i / 4 < FS_DATA_LBA;
    }
  }

  /** A file whose run has no sector in common with the one written keeps its bytes. */
  lemma ContentIntact(d: Disk, h: Disk, lba: nat, n: nat, e: Entry)
    requires SameOutside(d, h, lba, n) && e.size <= 512 * e.alloc
    requires e.alloc > 0 && n > 0 ==> e.start + e.alloc <= lba || lba + n <= e.start
    ensures Content(h, e) == Content(d, e)
  {
    hide ReadSector;
    assert (e.size + 511) / 512 <= e.alloc;
    SameBytes(d, h, e.start, e.size);
  }

  /** Writing inside the run of `id`, or inside a fresh run, leaves every other file alone. */
  lemma OthersIntact(t: Table, next: int, d: Disk, h: Disk, id: int, lba: nat, n: nat)
    requires Extents(t, next) && 0 <= id < FS_MAX_ENTRIES && SameOutside(d, h, lba, n)
    requires next <= lba || (Used(t, id) && n <= t[id].alloc && lba == t[id].start)
    ensures forall j :: Used(t, j) && (j != id || next <= lba) ==> Content(h, t[j]) == Content(d, t[j])
  {
    hide SameOutside, Content;
    forall j | Used(t, j) && (j != id || next <= lba)
      ensures Content(h, t[j]) == Content(d, t[j])
    {
      assert ExtentOk(t[j], next);
      if j != id && !(next <= lba) {
        assert !Overlap(t[j], t[id]);
      }
      ContentIntact(d, h, lba, n, t[j]);
    }
  }

  /** Sector `k` of `data`. */
  function Slice(data: seq<Byte>, k: nat): Sector
    requires 512 * k + 512 <= |data|
  {
    data[512 * k..512 * k + 512]
  }

  /** `d'` is `d` after `n` sectors of `data` have been written from `lba` on. */
  ghost predicate WroteRun(d: Disk, d': Disk, lba: nat, n: nat, data: seq<Byte>)
    requires 512 * n <= |data|
  {
    && SameOutside(d, d', lba, n)
    && forall k: nat :: k < n ==> ReadSector(d', lba + k) == Slice(data, k)
  }

  // ---- flushing ----

  /** Writing below the data region leaves all file data alone. */
  lemma DataIntact(d: Disk, d': Disk, lba: nat, n: nat)
    requires SameOutside(d, d', lba, n) && lba + n <= FS_DATA_LBA
    ensures forall start: nat, size: nat :: FS_DATA_LBA <= start ==> FileBytes(d', start, size) == FileBytes(d, start, size)
  {
    hide FileBytes, ReadSector;
    forall start: nat, size: nat | FS_DATA_LBA <= start
      ensures FileBytes(d', start, size) == FileBytes(d, start, size)
    {
      SameBytes(d, d', start, size);
    }
  }

  ghost function FlushedDisk(d: Disk, t: Table, id: int): Disk
    requires 0 <= id < FS_MAX_ENTRIES
  {
    d[FS_TABLE_LBA + id / 4 := TableSector(t, id / 4)]
  }

  /** Flushing the one entry in which memory and disk differ brings them back in step. */
  lemma FlushSyncs(d: Disk, t: Table, id: int)
    requires 0 <= id < FS_MAX_ENTRIES && DiskTable(d)[id := t[id]] == t
    ensures var d' := FlushedDisk(d, t, id);
      && DiskTable(d') == t && DiskSuper(d') == DiskSuper(d) && SameOutside(d, d', FS_TABLE_LBA + id / 4, 1)
      && forall start: nat, size: nat :: FS_DATA_LBA <= start ==> FileBytes(d', start, size) == FileBytes(d, start, size)
  {
    hide TableSector, FileBytes, DecodeSuper, EntryOf;
    var d' := FlushedDisk(d, t, id);
    FlushedTable(d, t, id / 4);
    assert DiskTable(d') == t;
    DataIntact(d, d', FS_TABLE_LBA + id / 4, 1);
  }

  ghost function SuperDisk(d: Disk, s: Super): Disk { d[FS_SUPER_LBA := EncodeSuper(s)] }

  lemma SuperSyncs(d: Disk, s: Super)
    ensures var d' := SuperDisk(d, s);
      && DiskTable(d') == DiskTable(d) && DiskSuper(d') == s && SameOutside(d, d', FS_SUPER_LBA, 1)
      && forall start: nat, size: nat :: FS_DATA_LBA <= start ==> FileBytes(d', start, size) == FileBytes(d, start, size)
  {
    hide EncodeSuper, DecodeSuper, EntryOf, FileBytes;
    var d' := SuperDisk(d, s);
    SuperRoundTrip(s);
    forall i | 0 <= i < FS_MAX_ENTRIES
      ensures DiskEntry(d', i) == DiskEntry(d, i)
    {
    }
    assert DiskTable(d') == DiskTable(d);
    DataIntact(d, d', FS_SUPER_LBA, 1);
  }

  /** Files live in the data region, so disks that agree there and on the directory show the same volume. */
  lemma ShowsSame(t: Table, next: int, d: Disk, h: Disk)
    requires Extents(t, next) && DiskTable(h) == t
    requires forall start: nat, size: nat :: FS_DATA_LBA <= start ==> FileBytes(h, start, size) == FileBytes(d, start, size)
    ensures Shows(h, t, d)
  {
    hide DiskTable;
    forall j | Used(t, j)
      ensures Content(h, t[j]) == Content(d, t[j])
    {
      assert ExtentOk(t[j], next);
      if t[j].alloc == 0 {
        assert t[j].size == 0;
        assert Content(h, t[j]) == [] == Content(d, t[j]);
      }
    }
  }
}
