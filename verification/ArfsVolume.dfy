/** The ARFS v2 volume of kernel/arfs.c as a value: the live entry table, the
    sectors of the block device, and the operations that change them. */
module ArfsVolume {
  import opened Words
  import opened Wrappers
  import opened ArfsManifest
  import opened ArfsRemount

  const SUPERBLOCK_LBA := 3
  const FILE_BUFFER := 196609
  const WRITE_BUFFER := 8192

  type Sector = s: seq<byte> | |s| == 512 witness seq(512, _ => 0)
  type Disk = d: seq<Sector> | |d| < 0x1_0000_0000_0000_0000

  datatype Geometry = Geometry(manifestLba: u64, manifestSectors: u64, dataLba: u64)
  datatype Volume = Volume(geo: Geometry, table: seq<Entry>, disk: Disk)

  /** What the device does with a write: all of it, or a failure that may leave
      anything in the addressed sectors. */
  datatype Outcome = Done | Torn(junk: seq<Sector>)

  // ----- kernel/block_device.c

  predicate RangeFits(disk: Disk, lba: u64, count: nat) {
    count != 0 && lba + count <= |disk|
  }

  function Chunk(buffer: seq<byte>, i: nat): Sector
    requires (i + 1) * 512 <= |buffer|
  {
    buffer[i * 512..(i + 1) * 512]
  }

  /** Sector `s` after a write of `count` sectors at `lba`. */
  function Written(disk: Disk, lba: u64, count: nat, buffer: seq<byte>, o: Outcome, s: nat): Sector
    requires RangeFits(disk, lba, count) && count * 512 <= |buffer| && s < |disk|
  {
    if s < lba || lba + count <= s then disk[s]
    else if o.Done? then Chunk(buffer, s - lba)
    else if s - lba < |o.junk| then o.junk[s - lba]
    else disk[s]
  }

  function BlockWrite(disk: Disk, lba: u64, count: nat, buffer: seq<byte>, o: Outcome): (r: (Disk, bool))
    ensures |r.0| == |disk|
  {
    if !RangeFits(disk, lba, count) || |buffer| < count * 512 then (disk, false)
    else (seq(|disk|, s requires 0 <= s < |disk| => Written(disk, lba, count, buffer, o, s)), o.Done?)
  }

  // ----- entries and paths

  function SectorsFor(size: u64): nat {
    if size == 0 then 0 else U64(size + 511) / 512
  }

  function EntrySectors(e: Entry): nat {
    if e.kind != File then 0 else SectorsFor(e.size)
  }

  /** The first entry with this path. */
  function Find(table: seq<Entry>, path: seq<byte>): (r: Option<nat>)
    ensures r.Some? ==> r.value < |table| && table[r.value].path == path
    ensures r.None? ==> forall e :: e in table ==> e.path != path
  {
    FindFrom(table, path, 0)
  }

  function FindFrom(table: seq<Entry>, path: seq<byte>, i: nat): (r: Option<nat>)
    requires i <= |table|
    ensures r.Some? ==> i <= r.value < |table| && table[r.value].path == path
    ensures r.None? ==> forall k :: i <= k < |table| ==> table[k].path != path
    decreases |table| - i
  {
    if i == |table| then None
    else if table[i].path == path then Some(i)
    else FindFrom(table, path, i + 1)
  }

  function SegmentsOk(path: seq<byte>, index: nat, segment: nat): bool
    requires 1 <= index <= |path|
    decreases |path| - index
  {
    if index == |path| then 0 < segment < MAX_NAME
    else if path[index] == SPACE || (path[index] == SLASH && path[index - 1] == SLASH) then false
    else if path[index] == SLASH then 0 < segment < MAX_NAME && SegmentsOk(path, index + 1, 0)
    else SegmentsOk(path, index + 1, segment + 1)
  }

  predicate PathValid(path: seq<byte>) {
    && 2 <= |path| < MAX_PATH && path[0] == SLASH && path[|path| - 1] != SLASH
    && SegmentsOk(path, 1, 0)
  }

  predicate IsDirectory(table: seq<Entry>, path: seq<byte>) {
    var r := Find(table, path);
    r.Some? && table[r.value].kind == Directory
  }

  /** The root needs no entry. */
  predicate ParentExists(table: seq<Entry>, path: seq<byte>) {
    LastSlash(path) == 0 || IsDirectory(table, path[..LastSlash(path)])
  }

  predicate IsTail(tail: seq<byte>) {
    tail != [] && forall i :: 0 <= i < |tail| ==> tail[i] != SLASH
  }

  predicate IsChildOf(path: seq<byte>, dir: seq<byte>) {
    if dir == [SLASH] then path != [] && IsTail(path[1..])
    else |dir| < |path| && path[..|dir|] == dir && path[|dir|] == SLASH && IsTail(path[|dir| + 1..])
  }

  // ----- allocation

  predicate Overlaps(e: Entry, first: u64, count: nat) {
    var used := EntrySectors(e);
    used != 0 && first < U64(e.lba + used) && e.lba < U64(first + count)
  }

  predicate RangeFree(table: seq<Entry>, first: u64, count: nat) {
    forall e :: e in table ==> !Overlaps(e, first, count)
  }

  /** The first free range at or after `candidate`, none starting after `last`. */
  function FirstFree(table: seq<Entry>, candidate: u64, last: u64, count: nat): (r: Option<u64>)
    ensures r.Some? ==> candidate <= r.value <= last && RangeFree(table, r.value, count) &&
                        forall k: u64 :: candidate <= k < r.value ==> !RangeFree(table, k, count)
    ensures r.None? ==> forall k: u64 :: candidate <= k <= last ==> !RangeFree(table, k, count)
    decreases last - candidate
  {
    if candidate > last then None
    else if RangeFree(table, candidate, count) then Some(candidate)
    else if candidate == last then None
    else FirstFree(table, candidate + 1, last, count)
  }

  function Allocate(v: Volume, count: nat): Option<u64> {
    if count == 0 || count > |v.disk| || v.geo.dataLba > |v.disk| - count then None
    else FirstFree(v.table, v.geo.dataLba, |v.disk| - count, count)
  }

  // ----- operations

  /** Prints the table and writes it to the manifest sectors. */
  function Persist(geo: Geometry, disk: Disk, table: seq<Entry>, o: Outcome): (r: (Disk, bool))
    ensures |r.0| == |disk|
  {
    if |Print(table)| >= MANIFEST_CAPACITY then (disk, false)
    else BlockWrite(disk, geo.manifestLba, geo.manifestSectors, Image(table, MANIFEST_CAPACITY), o)
  }

  /** The new table takes effect only if it was persisted. */
  function Commit(v: Volume, table: seq<Entry>, o: Outcome): (Volume, bool) {
    var (disk, ok) := Persist(v.geo, v.disk, table, o);
    (v.(disk := disk, table := if ok then table else v.table), ok)
  }

  function DirectoryEntry(path: seq<byte>, previous: seq<byte>): Entry {
    Entry(Directory, Binary, path, NameFor(path, previous), 0, 0)
  }

  predicate CanCreate(v: Volume, path: seq<byte>) {
    PathValid(path) && Find(v.table, path).None? && ParentExists(v.table, path) &&
    |v.table| < MAX_ENTRIES
  }

  function CreateDirectory(v: Volume, path: seq<byte>, o: Outcome): (Volume, bool) {
    if CanCreate(v, path) then Commit(v, v.table + [DirectoryEntry(path, [])], o) else (v, false)
  }

  /** The data buffer of a write: the contents, then zeros. */
  function Padded(contents: seq<byte>): (s: seq<byte>)
    requires |contents| <= WRITE_BUFFER
    ensures |s| == WRITE_BUFFER
  {
    contents + Zeros(WRITE_BUFFER - |contents|)
  }

  /** Where the data of a write goes: over the old extent if it is long enough. */
  function Place(v: Volume, found: Option<nat>, sectors: nat): Option<u64>
    requires found.Some? ==> found.value < |v.table|
  {
    if sectors == 0 then Some(0)
    else if found.Some? && EntrySectors(v.table[found.value]) >= sectors
    then Some(v.table[found.value].lba)
    else Allocate(v, sectors)
  }

  predicate CanWrite(v: Volume, path: seq<byte>, size: nat) {
    && PathValid(path) && ParentExists(v.table, path) && size <= WRITE_BUFFER
    && (var found := Find(v.table, path);
        if found.Some? then v.table[found.value].kind == File else |v.table| < MAX_ENTRIES)
  }

  function FileEntry(path: seq<byte>, t: FileType, lba: u64, size: u64): Entry {
    Entry(File, t, path, NameFor(path, []), lba, size)
  }

  function WithFile(table: seq<Entry>, found: Option<nat>, e: Entry): seq<Entry>
    requires found.Some? ==> found.value < |table|
  {
    if found.Some? then table[found.value := e] else table + [e]
  }

  function WriteBytes(v: Volume, path: seq<byte>, t: FileType, contents: seq<byte>,
                      data: Outcome, meta: Outcome): (Volume, bool)
  {
    if !CanWrite(v, path, |contents|) then (v, false)
    else
      var found := Find(v.table, path);
      var sectors := SectorsFor(|contents|);
      match Place(v, found, sectors)
      case None => (v, false)
      case Some(lba) =>
        var (disk, ok) := if sectors == 0 then (v.disk, true)
                          else BlockWrite(v.disk, lba, sectors, Padded(contents), data);
        if !ok then (v.(disk := disk), false)
        else Commit(v.(disk := disk), WithFile(v.table, found, FileEntry(path, t, lba, |contents|)), meta)
  }

  predicate HasChildren(table: seq<Entry>, path: seq<byte>) {
    exists e :: e in table && IsChildOf(e.path, path)
  }

  predicate CanRemove(table: seq<Entry>, path: seq<byte>) {
    var found := Find(table, path);
    found.Some? && (table[found.value].kind == Directory ==> !HasChildren(table, path))
  }

  function Without(table: seq<Entry>, i: nat): seq<Entry>
    requires i < |table|
  {
    table[..i] + table[i + 1..]
  }

  function Remove(v: Volume, path: seq<byte>, o: Outcome): (Volume, bool) {
    if CanRemove(v.table, path)
    then Commit(v, Without(v.table, Find(v.table, path).value), o)
    else (v, false)
  }

  /** The bytes of a file whose extent starts at `lba`. */
  function FileBytes(disk: Disk, lba: u64, size: nat): (s: seq<byte>)
    requires lba + (size + 511) / 512 <= |disk|
    ensures |s| == size
  {
    seq(size, k requires 0 <= k < size => disk[lba + k / 512][k % 512])
  }

  function ReadEntry(disk: Disk, e: Entry): Option<(FileType, seq<byte>)> {
    if e.kind != File then None
    else if e.size == 0 then Some((e.fileType, []))
    else if e.size >= FILE_BUFFER || !RangeFits(disk, e.lba, SectorsFor(e.size)) then None
    else
      U64Small(e.size + 511);
      Some((e.fileType, FileBytes(disk, e.lba, e.size)))
  }

  function ReadFile(v: Volume, path: seq<byte>): Option<(FileType, seq<byte>)> {
    var found := Find(v.table, path);
    if found.None? then None else ReadEntry(v.disk, v.table[found.value])
  }

  datatype Listing = Listing(name: seq<byte>, size: u64, kind: Kind)

  function ItemOf(e: Entry): Listing {
    Listing(e.name, e.size, e.kind)
  }

  /** The children of `dir` among the entries from `i` on. */
  function ListFrom(table: seq<Entry>, dir: seq<byte>, i: nat): seq<Listing>
    requires i <= |table|
    decreases |table| - i
  {
    if i == |table| then []
    else if IsChildOf(table[i].path, dir) then [ItemOf(table[i])] + ListFrom(table, dir, i + 1)
    else ListFrom(table, dir, i + 1)
  }

  function List(v: Volume, dir: seq<byte>): Option<seq<Listing>> {
    if dir == [SLASH] || IsDirectory(v.table, dir) then Some(ListFrom(v.table, dir, 0)) else None
  }

  /** The bytes of the manifest sectors. */
  function ManifestBytes(v: Volume): seq<byte>
    requires v.geo.manifestLba + v.geo.manifestSectors <= |v.disk|
  {
    seq(v.geo.manifestSectors * 512,
        k requires 0 <= k < v.geo.manifestSectors * 512 => v.disk[v.geo.manifestLba + k / 512][k % 512])
  }

  /** Mounting reads the manifest sectors and parses them. */
  function Mount(v: Volume, slots: Slots): Option<seq<Entry>> {
    if v.geo.manifestSectors == 0 || v.geo.manifestSectors > 2 ||
       !RangeFits(v.disk, v.geo.manifestLba, v.geo.manifestSectors) then None
    else ParseManifest(ManifestBytes(v), slots)
  }
}
