/** The file system at work: one directory table changed in place and written through, sector by sector, to a disk
    that may lose power between any two sector writes. */
module FileSystem {
  import opened Words
  import opened FsLayout
  import opened FsTree
  import opened FsVolume

  const NO_ENTRY := Entry(0, 0, 0, 0, 0, 0, 0, 0, 0, 0, 0, seq(100, _ => 0))

  /** Every disk a power failure may leave after the first `before` sector writes of `history` mounts to a
      consistent volume, which is the one `t` and `d` show or the one on the final disk. */
  ghost predicate AllOrNothing(history: seq<Disk>, before: nat, t: Table, d: Disk, final: Disk) {
    forall k :: before <= k < |history| ==> CrashOk(history[k]) && (Shows(history[k], t, d) || history[k] == final)
  }

  class FileSystem {
    const table: array<Entry>
    var super: Super
    var disk: Disk
    ghost var history: seq<Disk>   // the disk after each sector write

    /** Memory and disk agree, and the volume is consistent. */
    ghost predicate Valid()
      reads this, table
    {
      && table.Length == FS_MAX_ENTRIES
      && super.magic == FS_MAGIC && super.version == FS_VERSION
      && Inv(table[..], super.next)
      && DiskTable(disk) == table[..] && DiskSuper(disk) == super
    }

    constructor (d: Disk)
      ensures table.Length == FS_MAX_ENTRIES && disk == d && history == [] && fresh(table)
    {
      table := new Entry[FS_MAX_ENTRIES](_ => NO_ENTRY);
      super := Super(0, 0, 0, 0);
      disk := d;
      history := [];
    }

    // ---- sectors ----

    method WriteSector(lba: nat, s: Sector)
      modifies this`disk, this`history
      ensures disk == old(disk)[lba := s] && history == old(history) + [disk]
    {
      disk := disk[lba := s];
      history := history + [disk];
    }

    /** storage_write_sectors: one sector after the other. */
    method WriteSectors(lba: nat, count: nat, data: seq<Byte>)
      requires 512 * count <= |data|
      modifies this`disk, this`history
      ensures WroteRun(old(disk), disk, lba, count, data)
      ensures |history| == |old(history)| + count && old(history) <= history
      ensures forall k :: |old(history)| <= k < |history| ==> SameOutside(old(disk), history[k], lba, count)
    {
      hide WroteRun, SameOutside, Slice;
      WroteNothing(disk, lba, data);
      var i := 0;
      while i < count
        invariant i <= count && WroteRun(old(disk), disk, lba, i, data)
        invariant |history| == |old(history)| + i && old(history) <= history
        invariant forall k :: |old(history)| <= k < |history| ==> SameOutside(old(disk), history[k], lba, count)
      {
        ghost var d := disk;
        WriteSector(lba + i, Slice(data, i));
        WroteNext(old(disk), d, disk, lba, i, count, data);
        i := i + 1;
      }
    }

    method FlushSuper()
      modifies this`disk, this`history
      ensures disk == SuperDisk(old(disk), super) && history == old(history) + [disk]
    {
      WriteSector(FS_SUPER_LBA, EncodeSuper(super));
    }

    method FlushEntry(id: int)
      requires table.Length == FS_MAX_ENTRIES && 0 <= id < FS_MAX_ENTRIES
      modifies this`disk, this`history
      ensures disk == FlushedDisk(old(disk), table[..], id) && history == old(history) + [disk]
    {
      WriteSector(FS_TABLE_LBA + id / 4, TableSector(table[..], id / 4));
    }

    // ---- mounting ----

    /** Wipes the directory. The superblock comes last, so a disk caught half way is formatted again. */
    method Format()
      requires table.Length == FS_MAX_ENTRIES && !Mountable(disk)
      modifies this, table
      ensures Valid() && super.next == FS_DATA_LBA && forall i :: !Used(table[..], i)
      ensures |old(history)| <= |history|
      ensures forall k :: |old(history)| <= k < |history| ==> !Mountable(history[k]) || history[k] == disk
    {
      hide TableSector, EntryOf, DecodeSuper;
      var i := 0;
      while i < FS_MAX_ENTRIES
        invariant 0 <= i <= FS_MAX_ENTRIES && disk == old(disk) && history == old(history)
        invariant forall j :: 0 <= j < i ==> table[j].used == 0
      {
        table[i] := table[i].(used := 0);
        i := i + 1;
      }
      var k := 0;
      while k < FS_TABLE_SECTORS
        invariant 0 <= k <= FS_TABLE_SECTORS && DiskSuper(disk) == DiskSuper(old(disk))
        invariant forall j :: 0 <= j < 4 * k ==> DiskTable(disk)[j] == table[j]
        invariant forall j :: 0 <= j < FS_MAX_ENTRIES ==> table[j].used == 0
        invariant |old(history)| <= |history|
        invariant forall h :: |old(history)| <= h < |history| ==> !Mountable(history[h])
      {
        FlushedTable(disk, table[..], k);
        WriteSector(FS_TABLE_LBA + k, TableSector(table[..], k));
        k := k + 1;
      }
      super := Super(FS_MAGIC, FS_VERSION, FS_DATA_LBA, 0);
      SuperSyncs(disk, super);
      FlushSuper();
      assert DiskTable(disk) == table[..];
      EmptyVolume(table[..]);
    }

    /** Mounts the disk: a usable volume is read as it is, anything else is formatted. */
    method Init()
      requires table.Length == FS_MAX_ENTRIES
      modifies this, table
      ensures Mountable(old(disk)) ==> disk == old(disk) && history == old(history)
      ensures Mountable(old(disk)) ==> table[..] == DiskTable(old(disk)) && super == DiskSuper(old(disk))
      ensures Mountable(old(disk)) ==> (Valid() <==> CrashOk(old(disk)))
      ensures !Mountable(old(disk)) ==> Valid() && super.next == FS_DATA_LBA && forall i :: !Used(table[..], i)
      ensures !Mountable(old(disk)) ==>
        forall k :: |old(history)| <= k < |history| ==> !Mountable(history[k]) || history[k] == disk
    {
      hide EntryOf, DecodeSuper;
      super := DiskSuper(disk);
      if super.magic != FS_MAGIC || super.version != FS_VERSION || super.next < FS_DATA_LBA || super.next > FS_END_LBA {
        Format();
        return;
      }
      var i := 0;
      while i < FS_MAX_ENTRIES
        invariant 0 <= i <= FS_MAX_ENTRIES && forall j :: 0 <= j < i ==> table[j] == DiskEntry(disk, j)
        invariant disk == old(disk) && history == old(history) && super == DiskSuper(disk)
      {
        table[i] := EntryOf(ReadSector(disk, FS_TABLE_LBA + i / 4), i % 4);
        i := i + 1;
      }
      assert table[..] == DiskTable(disk);
    }

    // ---- looking up ----

    /** Compares a stored name with a C string. */
    static method NameEq(stored: NameField, name: seq<Byte>) returns (eq: bool)
      requires 0 in stored && IsString(name)
      ensures eq == (CString(stored) == name)
    {
      var k := 0;
      while stored[k] != 0 && k < |name|
        invariant k < |stored| && k <= |name| && stored[..k] == name[..k]
        invariant 0 in stored[k..] && 0 !in stored[..k]
        decreases |name| - k
      {
        if stored[k] != name[k] {
          StringDiffers(stored, name, k);
          return false;
        }
        assert stored[k..] == [stored[k]] + stored[k + 1..];
        k := k + 1;
      }
      if stored[k] != 0 {
        StringLonger(stored, k);
        return false;
      }
      StringEnds(stored, k);
      return k == |name|;
    }

    method FindEntry(parent: int, name: seq<Byte>) returns (id: int)
      requires Valid() && IsString(name)
      ensures id == Find(table[..], parent, name)
    {
      var i := 0;
      while i < FS_MAX_ENTRIES
        invariant 0 <= i <= FS_MAX_ENTRIES && Find(table[..], parent, name) == FindFrom(table[..], parent, name, i)
      {
        if table[i].used != 0 && table[i].parent == parent {
          NameTerminated(table[..], i);
          var eq := NameEq(table[i].name, name);
          if eq {
            return i;
          }
        }
        i := i + 1;
      }
      return -1;
    }

    method AllocEntry() returns (id: int)
      requires table.Length == FS_MAX_ENTRIES
      ensures id == FreeSlot(table[..])
    {
      var i := 0;
      while i < FS_MAX_ENTRIES
        invariant 0 <= i <= FS_MAX_ENTRIES && FreeSlot(table[..]) == FreeSlotFrom(table[..], i)
      {
        if table[i].used == 0 {
          return i;
        }
        i := i + 1;
      }
      return -1;
    }

    // ---- creating, deleting, renaming ----

    /** Returns the new entry's id, or -1 and changes nothing. */
    method Create(parent: int, name: seq<Byte>, kind: Byte, now: U32) returns (id: int)
      requires Valid() && IsString(name) && (kind == FILE || kind == FOLDER)
      modifies this`disk, this`history, table
      ensures Valid() && id == CreateResult(old(table[..]), parent, name)
      ensures id < 0 ==> table[..] == old(table[..]) && disk == old(disk) && history == old(history)
      ensures id >= 0 ==>
        && table[..] == old(table[..])[id := NewEntry(old(table[id]), kind, parent, name, now)]
        && history == old(history) + [disk] && Shows(disk, table[..], old(disk)) && CrashOk(disk)
    {
      hide SetName, FindFrom, FreeSlot, DecodeSuper, Forest, Extents;
      if !ParentOk(table[..], parent) || |name| == 0 || |name| > FS_NAME_MAX - 1 {
        return -1;
      }
      var existing := FindEntry(parent, name);
      if existing >= 0 {
        return -1;
      }
      id := AllocEntry();
      if id < 0 {
        return -1;
      }
      ghost var t, d := table[..], disk;
      CreateKeepsForest(t, parent, name, kind, now);
      CreateKeepsExtents(t, super.next, id, NewEntry(t[id], kind, parent, name, now));
      table[id] := NewEntry(table[id], kind, parent, name, now);
      WriteThrough(id);
    }

    /** Writes one changed entry through to disk. */
    method WriteThrough(id: int)
      requires table.Length == FS_MAX_ENTRIES && 0 <= id < FS_MAX_ENTRIES && Inv(table[..], super.next)
      requires super.magic == FS_MAGIC && super.version == FS_VERSION && DiskSuper(disk) == super
      requires DiskTable(disk)[id := table[id]] == table[..]
      modifies this`disk, this`history
      ensures Valid() && history == old(history) + [disk]
      ensures Shows(disk, table[..], old(disk)) && CrashOk(disk)
    {
      hide DecodeSuper, Forest, TableSector;
      FlushSyncs(disk, table[..], id);
      FlushEntry(id);
      ShowsSame(table[..], super.next, old(disk), disk);
    }

    method HasChild(id: int) returns (full: bool)
      requires table.Length == FS_MAX_ENTRIES
      ensures full <==> !Leaf(table[..], id)
    {
      var i := 0;
      while i < FS_MAX_ENTRIES
        invariant 0 <= i <= FS_MAX_ENTRIES && forall j :: 0 <= j < i && Used(table[..], j) ==> table[j].parent != id
      {
        if table[i].used != 0 && table[i].parent == id {
          assert Used(table[..], i);
          return true;
        }
        i := i + 1;
      }
      return false;
    }

    /** Frees an entry. A folder must be empty. Returns 0, or -1 and changes nothing. */
    method Delete(id: int) returns (r: int)
      requires Valid()
      modifies this`disk, this`history, table
      ensures Valid()
      ensures var t := old(table[..]);
        r == if Used(t, id) && (t[id].kind == FOLDER ==> Leaf(t, id)) then 0 else -1
      ensures r != 0 ==> table[..] == old(table[..]) && disk == old(disk) && history == old(history)
      ensures r == 0 ==>
        && table[..] == old(table[..])[id := old(table[id]).(used := 0)]
        && history == old(history) + [disk] && Shows(disk, table[..], old(disk)) && CrashOk(disk)
    {
      hide DecodeSuper, Forest, Extents, Leaf;
      if !Used(table[..], id) {
        return -1;
      }
      if table[id].kind == FOLDER {
        var full := HasChild(id);
        if full {
          return -1;
        }
      }
      ghost var t := table[..];
      DeleteKeepsForest(t, id);
      ExtentsFree(t, super.next, id);
      table[id] := table[id].(used := 0);
      WriteThrough(id);
      return 0;
    }

    /** Gives an entry another name, unless a sibling has it. */
    method Rename(id: int, name: seq<Byte>) returns (r: int)
      requires Valid() && IsString(name)
      modifies this`disk, this`history, table
      ensures Valid()
      ensures var t := old(table[..]);
        r == if Used(t, id) && GoodName(name) && (Find(t, t[id].parent, name) < 0 || Find(t, t[id].parent, name) == id)
             then 0 else -1
      ensures r != 0 ==> table[..] == old(table[..]) && disk == old(disk) && history == old(history)
      ensures r == 0 ==>
        && table[..] == old(table[..])[id := old(table[id]).(name := SetName(old(table[id].name), name))]
        && Name(table[id]) == name
        && history == old(history) + [disk] && Shows(disk, table[..], old(disk)) && CrashOk(disk)
    {
      hide DecodeSuper, Forest, Extents, SetName, Find;
      if !Used(table[..], id) {
        return -1;
      }
      if |name| == 0 || |name| > FS_NAME_MAX - 1 {
        return -1;
      }
      var existing := FindEntry(table[id].parent, name);
      if existing >= 0 && existing != id {
        return -1;
      }
      ghost var t := table[..];
      ghost var e := t[id].(name := SetName(t[id].name, name));
      RenameKeepsForest(t, id, name);
      ExtentsSame(t, super.next, id, e);
      table[id] := table[id].(name := SetName(table[id].name, name));
      WriteThrough(id);
      return 0;
    }

    // ---- moving ----

    /** Hangs an entry under another parent: not under itself or anything below it, and not beside its name. */
    method Move(id: int, newParent: int) returns (r: int)
      requires Valid()
      modifies this`disk, this`history, table
      ensures Valid()
      ensures r == if MoveOk(old(table[..]), id, newParent) then 0 else -1
      ensures r != 0 ==> table[..] == old(table[..]) && disk == old(disk) && history == old(history)
      ensures r == 0 ==>
        && table[..] == old(table[..])[id := old(table[id]).(parent := newParent)]
        && history == old(history) + [disk] && Shows(disk, table[..], old(disk)) && CrashOk(disk)
    {
      hide DecodeSuper, Forest, Extents, MoveOk, DiskTable;
      ghost var t := table[..];
      var ok := MayMove(id, newParent);
      if !ok {
        return -1;
      }
      MoveKeepsInv(t, super.next, id, newParent);
      table[id] := table[id].(parent := newParent);
      WriteThrough(id);
      return 0;
    }

    /** The checks of a move. */
    method MayMove(id: int, newParent: int) returns (ok: bool)
      requires Valid()
      ensures ok == MoveOk(table[..], id, newParent)
      ensures ok ==> Used(table[..], id) && ParentOk(table[..], newParent)
    {
      hide DecodeSuper, Forest, Extents, Find, Name, Above, DiskTable;
      if !Used(table[..], id) {
        return false;
      }
      SelfAbove(table[..], id);
      if !ParentOk(table[..], newParent) || newParent == id {
        return false;
      }
      var below := WalkUp(id, newParent);
      if below {
        return false;
      }
      NameIsString(table[..], id);
      var existing := FindEntry(newParent, Name(table[id]));
      return existing < 0;
    }

    /** Walks from `from` toward the root, at most FS_MAX_ENTRIES steps, looking for `id`: always far enough. */
    method WalkUp(id: int, from: int) returns (found: bool)
      requires Valid() && Used(table[..], id) && ParentOk(table[..], from)
      ensures found <==> from != FS_ROOT && Above(table[..], id, from)
    {
      hide DecodeSuper, Forest, Extents, Rooted, DiskTable, IsChain;
      ghost var t := table[..];
      ghost var c := ParentChain(t, from);
      var cur := from;
      var steps := 0;
      assert c[0..] == c;
      while cur != FS_ROOT && steps < FS_MAX_ENTRIES
        invariant 0 <= steps <= |c| && IsChain(t, c[steps..], cur) && id !in c[..steps]
        decreases FS_MAX_ENTRIES - steps
      {
        ChainStep(t, c, steps, cur);
        if cur == id {
          return true;
        }
        cur := table[cur].parent;
        steps := steps + 1;
      }
      ChainEnd(t, c, steps, cur);
      return false;
    }

    // ---- file contents ----

    /** Reads at most `max` bytes of a file into `buf`; -1 if it is no file. */
    method ReadFile(id: int, buf: array<Byte>, max: int) returns (n: int)
      requires Valid() && max <= buf.Length
      modifies buf
      ensures var t := table[..];
        n == if !Used(t, id) || t[id].kind != FILE then -1
             else if t[id].size < max then t[id].size else if max < 0 then 0 else max
      ensures n < 0 ==> buf[..] == old(buf[..])
      ensures n >= 0 ==> buf[..n] == Content(disk, table[id])[..n] && buf[n..] == old(buf[n..])
    {
      hide DecodeSuper, Inv, DiskTable, FileBytes;
      if !Used(table[..], id) || table[id].kind != FILE {
        return -1;
      }
      ghost var e := table[id];
      n := table[id].size;
      if n > max {
        n := max;
      }
      if n <= 0 {
        return 0;
      }
      var start := table[id].start;
      var i := 0;
      var whole := n / 512;
      while i < whole
        invariant 0 <= i <= whole && disk == old(disk)
        invariant forall k :: 0 <= k < 512 * i ==> buf[k] == Content(disk, e)[k]
        invariant forall k :: 512 * i <= k < buf.Length ==> buf[k] == old(buf[k])
      {
        ReadInto(start + i, buf, 512 * i, 512, e);
        i := i + 1;
      }
      var rest := n - whole * 512;
      if rest > 0 {
        ReadInto(start + whole, buf, 512 * whole, rest, e);
      }
      assert buf[..n] == Content(disk, e)[..n];
      assert buf[n..] == old(buf[n..]);
    }

    /** Copies the first `n` bytes of a sector of the file `e` to their place in `buf`. */
    method ReadInto(lba: nat, buf: array<Byte>, off: nat, n: nat, ghost e: Entry)
      requires n <= 512 && off % 512 == 0 && off + n <= buf.Length && off + n <= e.size && lba == e.start + off / 512
      modifies buf
      ensures forall k :: off <= k < off + n ==> buf[k] == Content(disk, e)[k]
      ensures forall k :: 0 <= k < buf.Length && !(off <= k < off + n) ==> buf[k] == old(buf[k])
    {
      var s := ReadSector(disk, lba);
      forall k | 0 <= k < n {
        buf[off + k] := s[k];
      }
      forall k | off <= k < off + n
        ensures buf[k] == Content(disk, e)[k]
      {
        assert k / 512 == off / 512 && k % 512 == k - off;
        assert buf[off + (k - off)] == s[k - off];
      }
    }

    /** Writes `len` bytes to the sectors from `start` on, the last one padded with zeros. */
    method WriteData(start: nat, buf: seq<Byte>, len: nat)
      requires len <= |buf|
      modifies this`disk, this`history
      ensures FileBytes(disk, start, len) == buf[..len]
      ensures FileBytes(disk, start, 512 * Need(len)) == Padded(buf[..len])
      ensures SameOutside(old(disk), disk, start, Need(len))
      ensures old(history) <= history
      ensures forall k :: |old(history)| <= k < |history| ==> SameOutside(old(disk), history[k], start, Need(len))
    {
      hide SameOutside, FileBytes, Padded, Slice, ReadSector;
      var whole := len / 512;
      if whole > 0 {
        WriteSectors(start, whole, buf);
      } else {
        WroteNothing(disk, start, buf);
      }
      ghost var d, d1, h1 := old(disk), disk, history;
      var rest := len - whole * 512;
      if rest > 0 {
        var tail := Padded(buf[512 * whole..len]);
        WriteSectors(start + whole, 1, tail);
        RunThenTail(d, d1, disk, start, buf, len, tail);
        RunsTogether(d, d1, start, whole, old(history), h1, history);
      } else {
        RunAlone(d, d1, start, buf, len);
      }
    }

    /** Replaces the contents of a file. Returns 0, or -1 and changes nothing. */
    method WriteFile(id: int, buf: seq<Byte>, len: int, now: U32) returns (r: int)
      requires Valid() && (0 <= len <= FS_MAX_FILE_SIZE ==> len <= |buf|)
      modifies this`disk, this`history, this`super, table
      ensures Valid() && old(history) <= history
      ensures r == if WriteOk(old(table[..]), old(super.next), id, len) then 0 else -1
      ensures r != 0 ==> table[..] == old(table[..]) && super == old(super) && disk == old(disk) && history == old(history)
      ensures r == 0 ==>
        WriteDone(old(table[..]), old(super), old(disk), table[..], super, disk, |old(history)|, history, id, buf, len, now)
    {
      hide DecodeSuper, Forest, Extents, SameOutside, DiskTable, FlushedDisk, SuperDisk, Ready, WriteDone, FileBytes, Padded,
        Content;
      if !Used(table[..], id) || table[id].kind != FILE {
        return -1;
      }
      if len < 0 || len > FS_MAX_FILE_SIZE {
        return -1;
      }
      ghost var t, d, s, h := table[..], disk, super, history;
      var need := (len + 511) / 512;
      InPlaceReady(t, s, d, id, Need(len));
      if need > table[id].alloc {
        if super.next + need > FS_END_LBA {
          return -1;
        }
        table[id] := table[id].(start := super.next, alloc := need);
        super := super.(next := super.next + need);
        FlushSuper();
        GrowShows(t, d, s, super, id, need);
      }
      Fill(id, buf, len, now, t, s, d, |h|);
      return 0;
    }

    /** The data first, then the entry; the entry `t[id]` in memory may have got its fresh run already. */
    method Fill(id: int, buf: seq<Byte>, len: nat, now: U32, ghost t: Table, ghost s: Super, ghost d: Disk, ghost before: nat)
      requires table.Length == FS_MAX_ENTRIES && Used(t, id) && t[id].kind == FILE && len <= FS_MAX_FILE_SIZE && len <= |buf|
      requires table[..] == t[id := table[id]] && table[id].(size := len, modified := now) == Written(t[id], s.next, len, now)
      requires Ready(t, s, super, d, disk, id, table[id].start, Need(len)) && super == s.(next := super.next)
      requires before <= |history| && forall k :: before <= k < |history| ==> history[k] == disk
      modifies this`disk, this`history, table
      ensures Valid() && old(history) <= history
      ensures WriteDone(t, s, d, table[..], super, disk, before, history, id, buf, len, now)
    {
      hide DecodeSuper, Forest, Extents, SameOutside, DiskTable, FlushedDisk, Inv, Shows, RunFor, WriteDone, FileBytes, Padded,
        Content;
      ghost var d1, lba := disk, table[id].start;
      SameOutsideSelf(d1, lba, Need(len));
      WriteData(table[id].start, buf, len);
      ghost var d2 := disk;
      table[id] := table[id].(size := len, modified := now);
      FlushEntry(id);
      WriteEnds(t, s, super, d, d1, d2, table[..], id, buf, len, now, before, history);
    }
  }

  /** Sectors `len` bytes take. */
  function Need(len: int): int { (len + 511) / 512 }

  ghost predicate WriteOk(t: Table, next: int, id: int, len: int) {
    && Used(t, id) && t[id].kind == FILE && 0 <= len <= FS_MAX_FILE_SIZE
    && (Need(len) > t[id].alloc ==> next + Need(len) <= FS_END_LBA)
  }

  /** The entry after a write: a run that is too short is given up for a fresh one. */
  function Written(e: Entry, next: U32, len: int, now: U32): Entry
    requires 0 <= len <= FS_MAX_FILE_SIZE
  {
    if Need(len) > e.alloc then e.(start := next, alloc := Need(len), size := len, modified := now)
    else e.(size := len, modified := now)
  }

  /** The state after a successful write, from `t`, `s`, `d` before: the file has the new bytes and every other file its
      old ones; on the way each disk still showed the old directory and all other files or was the final one; and if
      the file got a fresh run, its old contents too. */
  ghost predicate WriteDone(t: Table, s: Super, d: Disk, t': Table, s': Super, d': Disk, before: nat, history: seq<Disk>,
                            id: int, buf: seq<Byte>, len: int, now: U32)
  {
    && Used(t, id) && 0 <= len <= FS_MAX_FILE_SIZE && len <= |buf|
    && var e := Written(t[id], s.next, len, now);
    && t' == t[id := e] && s' == s.(next := s'.next)
    && s'.next == (if Need(len) > t[id].alloc then s.next + Need(len) else s.next)
    && Content(d', e) == buf[..len]
    && OthersSame(t, d, d', id)
    && OnlyFile(history, before, t, d, d', id)
    && (Need(len) > t[id].alloc ==> AllOrNothing(history, before, t, d, d'))
  }

  /** Every disk on the way is the final one, or still shows the old directory with all other files untouched. */
  ghost predicate OnlyFile(history: seq<Disk>, before: nat, t: Table, d: Disk, final: Disk, id: int) {
    forall k :: before <= k < |history| ==>
      CrashOk(history[k]) && (history[k] == final || (DiskTable(history[k]) == t && OthersSame(t, d, history[k], id)))
  }

  ghost predicate OthersSame(t: Table, d: Disk, h: Disk, id: int) {
    forall j :: Used(t, j) && j != id ==> Content(h, t[j]) == Content(d, t[j])
  }

  // ---- writing ----

  /** Whole sectors: the bytes with zeros behind them. */
  function Padded(bs: seq<Byte>): (s: seq<Byte>)
    ensures |s| == 512 * Need(|bs|) && bs <= s
  {
    bs + seq(512 * Need(|bs|) - |bs|, _ => 0)
  }

  lemma WroteNothing(d: Disk, start: nat, buf: seq<Byte>)
    ensures WroteRun(d, d, start, 0, buf)
  {
  }

  lemma WroteNext(d: Disk, d1: Disk, d2: Disk, lba: nat, i: nat, count: nat, data: seq<Byte>)
    requires i < count && 512 * count <= |data| && WroteRun(d, d1, lba, i, data) && d2 == d1[lba + i := Slice(data, i)]
    ensures WroteRun(d, d2, lba, i + 1, data) && SameOutside(d, d2, lba, count)
  {
    hide Slice;
  }

  lemma RunBytes(d: Disk, d': Disk, start: nat, n: nat, buf: seq<Byte>)
    requires 512 * n <= |buf| && WroteRun(d, d', start, n, buf)
    ensures FileBytes(d', start, 512 * n) == buf[..512 * n]
  {
    forall k | 0 <= k < 512 * n
      ensures FileBytes(d', start, 512 * n)[k] == buf[k]
    {
      assert k / 512 < n;
      assert Slice(buf, k / 512)[k % 512] == buf[512 * (k / 512) + k % 512];
    }
  }

  lemma BytesJoin(d: Disk, start: nat, a: nat, n: nat)
    ensures FileBytes(d, start, 512 * a + n) == FileBytes(d, start, 512 * a) + FileBytes(d, start + a, n)
  {
    var joined := FileBytes(d, start, 512 * a + n);
    forall k | 512 * a <= k < 512 * a + n
      ensures joined[k] == FileBytes(d, start + a, n)[k - 512 * a]
    {
      assert k / 512 == a + (k - 512 * a) / 512 && k % 512 == (k - 512 * a) % 512;
    }
  }

  lemma BytesPrefix(d: Disk, start: nat, n: nat, m: nat)
    requires n <= m
    ensures FileBytes(d, start, n) == FileBytes(d, start, m)[..n]
  {
  }

  lemma RunAlone(d: Disk, d1: Disk, start: nat, buf: seq<Byte>, len: nat)
    requires len <= |buf| && len % 512 == 0 && WroteRun(d, d1, start, len / 512, buf)
    ensures Need(len) == len / 512 && SameOutside(d, d1, start, Need(len))
    ensures FileBytes(d1, start, len) == buf[..len] && FileBytes(d1, start, 512 * Need(len)) == Padded(buf[..len])
  {
    hide SameOutside, FileBytes;
    RunBytes(d, d1, start, len / 512, buf);
  }

  /** Whole sectors followed by a padded one. */
  lemma RunThenTail(d: Disk, d1: Disk, d2: Disk, start: nat, buf: seq<Byte>, len: nat, tail: seq<Byte>)
    requires len <= |buf| && len % 512 != 0 && WroteRun(d, d1, start, len / 512, buf)
    requires tail == Padded(buf[512 * (len / 512)..len]) && |tail| == 512 && WroteRun(d1, d2, start + len / 512, 1, tail)
    ensures Need(len) == len / 512 + 1 && SameOutside(d, d2, start, Need(len))
    ensures FileBytes(d2, start, len) == buf[..len] && FileBytes(d2, start, 512 * Need(len)) == Padded(buf[..len])
  {
    hide FileBytes, Padded, SameOutside;
    var whole := len / 512;
    RunBytes(d, d1, start, whole, buf);
    RunBytes(d1, d2, start + whole, 1, tail);
    assert SameOutside(d, d2, start, whole + 1) by { OutsideTrans(d, d1, d2, start, whole); }
    assert FileBytes(d2, start, 512 * whole) == FileBytes(d1, start, 512 * whole) by { BytesBefore(d1, d2, start, whole); }
    BytesJoin(d2, start, whole, 512);
    PaddedTail(buf, len);
    BytesPrefix(d2, start, len, 512 * (whole + 1));
  }

  lemma BytesBefore(d: Disk, h: Disk, start: nat, n: nat)
    requires SameOutside(d, h, start + n, 1)
    ensures FileBytes(h, start, 512 * n) == FileBytes(d, start, 512 * n)
  {
    hide FileBytes;
    SameBytes(d, h, start, 512 * n);
  }

  lemma PaddedTail(buf: seq<Byte>, len: nat)
    requires len <= |buf| && len % 512 != 0
    ensures Need(len) == len / 512 + 1
    ensures Padded(buf[..len]) == buf[..512 * (len / 512)] + Padded(buf[512 * (len / 512)..len])
  {
    var whole := 512 * (len / 512);
    assert buf[..len] == buf[..whole] + buf[whole..len];
    assert Need(len - whole) == 1;
  }

  lemma RunsTogether(d: Disk, d1: Disk, start: nat, whole: nat, h: seq<Disk>, h1: seq<Disk>, h2: seq<Disk>)
    requires h <= h1 <= h2 && SameOutside(d, d1, start, whole)
    requires forall k :: |h| <= k < |h1| ==> SameOutside(d, h1[k], start, whole)
    requires forall k :: |h1| <= k < |h2| ==> SameOutside(d1, h2[k], start + whole, 1)
    ensures forall k :: |h| <= k < |h2| ==> SameOutside(d, h2[k], start, whole + 1)
  {
    hide SameOutside;
    forall k | |h| <= k < |h2|
      ensures SameOutside(d, h2[k], start, whole + 1)
    {
      if k < |h1| {
        OutsideMore(d, h1[k], start, whole, whole + 1);
      } else {
        OutsideTrans(d, d1, h2[k], start, whole);
      }
    }
  }

  lemma OutsideMore(d: Disk, h: Disk, lba: nat, n: nat, m: nat)
    requires SameOutside(d, h, lba, n) && n <= m
    ensures SameOutside(d, h, lba, m)
  {
  }

  lemma OutsideTrans(d: Disk, d1: Disk, h: Disk, lba: nat, n: nat)
    requires SameOutside(d, d1, lba, n) && SameOutside(d1, h, lba + n, 1)
    ensures SameOutside(d, h, lba, n + 1)
  {
  }

  /** The directory and its contents on disk `d1` are those of `t` and `d`, under superblock `s'`: `d1` is `d`, or `d`
      with a higher mark. The run about to be written is fresh, or the file's own. */
  ghost predicate Ready(t: Table, s: Super, s': Super, d: Disk, d1: Disk, id: int, lba: nat, n: nat) {
    && Inv(t, s.next) && Used(t, id) && InStep(t, s', d1) && Shows(d1, t, d)
    && s.next <= s'.next <= FS_END_LBA && RunFor(t[id], s.next, s'.next, lba, n)
  }

  ghost predicate InStep(t: Table, s: Super, d: Disk) {
    DiskTable(d) == t && DiskSuper(d) == s && s.magic == FS_MAGIC && s.version == FS_VERSION
  }

  predicate RunFor(e: Entry, next: int, next': int, lba: int, n: int) {
    (lba == next && n > e.alloc && next' == next + n) || (lba == e.start && n <= e.alloc && next' == next)
  }

  lemma SameOutsideSelf(d: Disk, lba: nat, n: nat)
    ensures SameOutside(d, d, lba, n)
  {
  }

  lemma InPlaceReady(t: Table, s: Super, d: Disk, id: int, n: nat)
    requires Inv(t, s.next) && DiskTable(d) == t && DiskSuper(d) == s && s.magic == FS_MAGIC && s.version == FS_VERSION
    requires Used(t, id)
    ensures n <= t[id].alloc ==> Ready(t, s, s, d, d, id, t[id].start, n)
  {
    hide DecodeSuper, Forest, DiskTable, Content;
  }

  /** While data sectors are written the disk shows the old directory, all other files, and, if the run is fresh,
      the old contents of this one too. */
  lemma Underway(t: Table, s: Super, s': Super, d: Disk, d1: Disk, id: int, lba: nat, n: nat, h: Disk)
    requires Ready(t, s, s', d, d1, id, lba, n) && SameOutside(d1, h, lba, n)
    ensures CrashOk(h) && DiskTable(h) == t && DiskSuper(h) == s' && OthersSame(t, d, h, id)
    ensures n > t[id].alloc ==> Shows(h, t, d)
  {
    hide DecodeSuper, Forest, Extents, SameOutside, DiskTable, Content;
    assert n > 0 ==> FS_DATA_LBA <= lba by { RunInRegion(t, s.next, id); }
    DirectoryIntact(d1, h, lba, n);
    OthersIntact(t, s.next, d1, h, id, lba, n);
    ExtentsMono(t, s.next, s'.next);
  }

  lemma RunInRegion(t: Table, next: int, id: int)
    requires Extents(t, next) && Used(t, id)
    ensures FS_DATA_LBA <= next && (t[id].alloc > 0 ==> FS_DATA_LBA <= t[id].start)
  {
    assert ExtentOk(t[id], next);
  }

  lemma OnTheWay(t: Table, s: Super, s': Super, d: Disk, d1: Disk, id: int, lba: nat, n: nat, before: nat, history: seq<Disk>)
    requires Used(t, id) && Ready(t, s, s', d, d1, id, lba, n) && before < |history| && CrashOk(history[|history| - 1])
    requires forall k :: before <= k < |history| - 1 ==> SameOutside(d1, history[k], lba, n)
    ensures OnlyFile(history, before, t, d, history[|history| - 1], id)
    ensures n > t[id].alloc ==> AllOrNothing(history, before, t, d, history[|history| - 1])
  {
    hide CrashOk, SameOutside, OthersSame, Shows, DiskTable, Ready;
    forall k | before <= k < |history| - 1
      ensures CrashOk(history[k]) && DiskTable(history[k]) == t && OthersSame(t, d, history[k], id)
      ensures n > t[id].alloc ==> Shows(history[k], t, d)
    {
      Underway(t, s, s', d, d1, id, lba, n, history[k]);
    }
  }

  /** The directory after a write: the same tree, and the runs still apart. */
  lemma WriteKeepsInv(t: Table, s: Super, s': Super, d: Disk, d1: Disk, id: int, e: Entry, len: nat, now: U32)
    requires Ready(t, s, s', d, d1, id, e.start, Need(len)) && len <= FS_MAX_FILE_SIZE && t[id].kind == FILE
    requires e == Written(t[id], s.next, len, now)
    ensures Inv(t[id := e], s'.next)
  {
    hide Shows, DiskTable, Forest, Name;
    TreeUnchanged(t, id, e);
    ExtentsMono(t, s.next, s'.next);
    assert ExtentOk(t[id], s.next);
    forall j | Used(t, j) && j != id
      ensures !Overlap(t[j], e)
    {
      assert ExtentOk(t[j], s.next) && !Overlap(t[j], t[id]);
    }
    ExtentsChange(t, s'.next, id, e);
  }

  lemma TreeUnchanged(t: Table, id: int, e: Entry)
    requires Forest(t) && Used(t, id)
    requires e.used == t[id].used && e.kind == t[id].kind && e.parent == t[id].parent && e.name == t[id].name
    ensures Forest(t[id := e])
  {
    hide AllRooted, Name;
    RenamedRooted(t, id, e);
    SameName(t[id], e);
    AddedSiblings(t, id, e);
    AddedForest(t, id, e);
  }

  /** Flushing the entry after its data brings memory and disk back in step. */
  lemma WriteSyncs(t: Table, s: Super, s': Super, d: Disk, d1: Disk, d2: Disk, id: int, e: Entry, buf: seq<Byte>, len: nat, now: U32)
    requires Ready(t, s, s', d, d1, id, e.start, Need(len)) && len <= FS_MAX_FILE_SIZE && t[id].kind == FILE
    requires e == Written(t[id], s.next, len, now) && SameOutside(d1, d2, e.start, Need(len)) && len <= |buf|
    requires FileBytes(d2, e.start, len) == buf[..len]
    ensures Used(t, id)
    ensures var f := FlushedDisk(d2, t[id := e], id);
      && DiskTable(f) == t[id := e] && DiskSuper(f) == s' && Inv(t[id := e], s'.next) && CrashOk(f)
      && Content(f, e) == buf[..len] && OthersSame(t, d, f, id)
  {
    hide DecodeSuper, Forest, Extents, SameOutside, DiskTable, FlushedDisk, FileBytes, Shows, ReadSector;
    WriteKeepsInv(t, s, s', d, d1, id, e, len, now);
    Underway(t, s, s', d, d1, id, e.start, Need(len), d2);
    FlushSyncs(d2, t[id := e], id);
    var f := FlushedDisk(d2, t[id := e], id);
    ContentKept(t[id := e], s'.next, d2, f, id);
    forall j | Used(t, j) && j != id
      ensures Content(f, t[j]) == Content(d, t[j])
    {
      ContentKept(t, s.next, d2, f, j);
    }
  }

  /** Contents lie in the data region. */
  lemma ContentKept(t: Table, next: int, d: Disk, h: Disk, i: int)
    requires Extents(t, next) && Used(t, i)
    requires forall start: nat, size: nat :: FS_DATA_LBA <= start ==> FileBytes(h, start, size) == FileBytes(d, start, size)
    ensures Content(h, t[i]) == Content(d, t[i])
  {
    hide FileBytes;
    RunInRegion(t, next, i);
    assert ExtentOk(t[i], next);
    if t[i].size == 0 {
      assert Content(h, t[i]) == [] == Content(d, t[i]);
    }
  }

  lemma WriteEnds(t: Table, s: Super, s': Super, d: Disk, d1: Disk, d2: Disk, t': Table, id: int, buf: seq<Byte>, len: nat,
                  now: U32, before: nat, history: seq<Disk>)
    requires len <= FS_MAX_FILE_SIZE && len <= |buf| && Used(t, id) && t[id].kind == FILE
    requires t' == t[id := Written(t[id], s.next, len, now)]
    requires Ready(t, s, s', d, d1, id, t'[id].start, Need(len)) && SameOutside(d1, d2, t'[id].start, Need(len))
    requires FileBytes(d2, t'[id].start, len) == buf[..len]
    requires before < |history| && history[|history| - 1] == FlushedDisk(d2, t', id)
    requires forall k :: before <= k < |history| - 1 ==> SameOutside(d1, history[k], t'[id].start, Need(len))
    requires s' == s.(next := s'.next)
    ensures var f := FlushedDisk(d2, t', id);
      && DiskTable(f) == t' && DiskSuper(f) == s' && Inv(t', s'.next)
      && WriteDone(t, s, d, t', s', f, before, history, id, buf, len, now)
  {
    hide DecodeSuper, Inv, SameOutside, DiskTable, FlushedDisk, Content, OthersSame, AllOrNothing, OnlyFile, CrashOk, Shows;
    WriteSyncs(t, s, s', d, d1, d2, id, t'[id], buf, len, now);
    OnTheWay(t, s, s', d, d1, id, t'[id].start, Need(len), before, history);
  }

  /** The superblock with the higher mark, on its own, changes nothing that can be seen. */
  lemma GrowShows(t: Table, d: Disk, s: Super, s': Super, id: int, n: nat)
    requires Inv(t, s.next) && DiskTable(d) == t && DiskSuper(d) == s && s.magic == FS_MAGIC && s.version == FS_VERSION
    requires Used(t, id) && n > t[id].alloc && s.next + n <= FS_END_LBA && s' == s.(next := s.next + n)
    ensures Ready(t, s, s', d, SuperDisk(d, s'), id, s.next, n)
  {
    hide DecodeSuper, Forest, Extents, DiskTable, SuperDisk, Content;
    SuperSyncs(d, s');
    ShowsSame(t, s.next, d, SuperDisk(d, s'));
  }

  /** The chain of a parent, which is short enough to be walked. */
  lemma ParentChain(t: Table, p: int) returns (c: seq<int>)
    requires Forest(t) && ParentOk(t, p)
    ensures IsChain(t, c, p) && |c| <= FS_MAX_ENTRIES
    ensures p != FS_ROOT ==> Rooted(t, p) && c == ChainOf(t, p)
    ensures p == FS_ROOT ==> c == []
  {
    c := if p == FS_ROOT then [] else ChainOf(t, p);
    ChainLength(t, c, p);
  }

  lemma ChainStep(t: Table, c: seq<int>, k: nat, cur: int)
    requires k <= |c| && IsChain(t, c[k..], cur) && cur != FS_ROOT
    ensures k < |c| && c[k] == cur && Used(t, cur) && IsChain(t, c[k + 1..], t[cur].parent)
    ensures c[..k + 1] == c[..k] + [cur]
  {
    assert c[k..][1..] == c[k + 1..];
  }

  lemma ChainEnd(t: Table, c: seq<int>, k: nat, cur: int)
    requires k <= |c| <= FS_MAX_ENTRIES && IsChain(t, c[k..], cur) && (cur == FS_ROOT || k == FS_MAX_ENTRIES)
    ensures k == |c| && c[..k] == c && cur == FS_ROOT
  {
    assert c[k..] == [] || Used(t, cur);
  }

  lemma MoveKeepsInv(t: Table, next: int, id: int, p: int)
    requires 0 <= id < FS_MAX_ENTRIES && FS_ROOT <= p < FS_MAX_ENTRIES
    requires Inv(t, next) && MoveOk(t, id, p)
    ensures Inv(t[id := t[id].(parent := p)], next)
  {
    hide Forest, Extents, Find;
    MoveKeepsForest(t, id, p);
    ExtentsSame(t, next, id, t[id].(parent := p));
  }

  lemma NameIsString(t: Table, id: int)
    requires Used(t, id)
    ensures IsString(Name(t[id]))
  {
  }

  lemma SelfAbove(t: Table, id: int)
    requires Forest(t) && Used(t, id)
    ensures Above(t, id, id)
  {
    assert Rooted(t, id);
  }

  ghost predicate MoveOk(t: Table, id: int, p: int) {
    Used(t, id) && ParentOk(t, p) && (p != FS_ROOT ==> !Above(t, id, p)) && Find(t, p, Name(t[id])) < 0
  }

  lemma ExtentsSame(t: Table, next: int, id: int, e: Entry)
    requires Extents(t, next) && Used(t, id)
    requires e.start == t[id].start && e.size == t[id].size && e.alloc == t[id].alloc && e.kind == t[id].kind
    ensures Extents(t[id := e], next)
  {
    ExtentsChange(t, next, id, e);
  }

  // ---- C strings ----

  lemma {:induction false} StringEnds(s: seq<Byte>, k: nat)
    requires k < |s| && s[k] == 0 && 0 !in s[..k]
    ensures CString(s) == s[..k]
  {
    var n := |CString(s)|;
    assert forall q :: 0 <= q < k ==> s[q] in s[..k];
    assert forall q :: 0 <= q < n ==> s[q] in s[..n];
  }

  lemma StringLonger(s: seq<Byte>, k: nat)
    requires k < |s| && s[k] != 0 && 0 !in s[..k] && 0 in s
    ensures |CString(s)| > k
  {
  }

  lemma StringDiffers(s: seq<Byte>, name: seq<Byte>, k: nat)
    requires k < |s| && k < |name| && s[k] != name[k] && s[k] != 0 && 0 !in s[..k] && 0 in s
    ensures CString(s) != name
  {
    StringLonger(s, k);
  }

  lemma NameTerminated(t: Table, i: int)
    requires Forest(t) && Used(t, i)
    ensures 0 in t[i].name
  {
    assert GoodName(Name(t[i]));
  }

  // ---- volumes ----

  lemma EmptyVolume(t: Table)
    requires forall i :: 0 <= i < FS_MAX_ENTRIES ==> t[i].used == 0
    ensures Inv(t, FS_DATA_LBA)
  {
  }

  lemma CreateKeepsExtents(t: Table, next: int, id: int, e: Entry)
    requires Extents(t, next) && 0 <= id < FS_MAX_ENTRIES && !Used(t, id) && e.alloc == 0 && e.size == 0
    ensures Extents(t[id := e], next)
  {
    ExtentsChange(t, next, id, e);
  }
}
