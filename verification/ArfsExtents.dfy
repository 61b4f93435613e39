/** What every run of ARFS operations keeps: extents stay apart, files that are
    not written keep their contents, a written file reads back. */
module ArfsExtents {
  import opened Words
  import opened Wrappers
  import opened ArfsManifest
  import opened ArfsRemount
  import opened ArfsVolume

  // ----- the invariant

  /** The extent of `e` and the range of `count` sectors at `lba` have no sector in common. */
  predicate Apart(e: Entry, lba: int, count: nat) {
    EntrySectors(e) == 0 || count == 0 || e.lba + EntrySectors(e) <= lba || lba + count <= e.lba
  }

  /** Superblock and manifest lie before the data region and apart from each other. */
  predicate GeometryOk(v: Volume) {
    var g := v.geo;
    && 1 <= g.manifestSectors <= 2
    && g.manifestLba + g.manifestSectors <= g.dataLba <= |v.disk|
    && SUPERBLOCK_LBA < g.dataLba
    && (SUPERBLOCK_LBA < g.manifestLba || g.manifestLba + g.manifestSectors <= SUPERBLOCK_LBA)
  }

  /** In the device, and clear of the superblock and the manifest. */
  predicate Placed(v: Volume, e: Entry) {
    && (EntrySectors(e) != 0 ==> e.lba + EntrySectors(e) <= |v.disk|)
    && Apart(e, v.geo.manifestLba, v.geo.manifestSectors)
    && Apart(e, SUPERBLOCK_LBA, 1)
  }

  predicate PairwiseApart(table: seq<Entry>) {
    forall i, j :: 0 <= i < |table| && 0 <= j < |table| && i != j ==>
      Apart(table[i], table[j].lba, EntrySectors(table[j]))
  }

  predicate ExtentsOk(v: Volume) {
    && GeometryOk(v)
    && (forall e :: e in v.table ==> Placed(v, e))
    && PairwiseApart(v.table)
  }

  // ----- writes touch only what they address

  lemma BlockWriteFrame(disk: Disk, lba: u64, count: nat, buffer: seq<byte>, o: Outcome, s: nat)
    requires s < |disk| && (s < lba || lba + count <= s)
    ensures BlockWrite(disk, lba, count, buffer, o).0[s] == disk[s]
  {
  }

  /** A write apart from an entry's extent does not change what the entry reads. */
  lemma ReadUnchanged(disk: Disk, e: Entry, lba: u64, count: nat, buffer: seq<byte>, o: Outcome)
    requires Apart(e, lba, count)
    ensures ReadEntry(BlockWrite(disk, lba, count, buffer, o).0, e) == ReadEntry(disk, e)
  {
    var d := BlockWrite(disk, lba, count, buffer, o).0;
    var n := SectorsFor(e.size);
    if e.kind == File && 0 < e.size < FILE_BUFFER && RangeFits(disk, e.lba, n) {
      U64Small(e.size + 511);
      forall k | 0 <= k < e.size
        ensures d[e.lba + k / 512] == disk[e.lba + k / 512]
      {
        WithinExtent(e.size, k);
        BlockWriteFrame(disk, lba, count, buffer, o, e.lba + k / 512);
      }
      assert FileBytes(d, e.lba, e.size) == FileBytes(disk, e.lba, e.size);
    }
  }

  lemma WithinExtent(size: nat, k: nat)
    requires k < size
    ensures k / 512 < (size + 511) / 512
  {
  }

  lemma PersistKeepsReads(v: Volume, table: seq<Entry>, o: Outcome, e: Entry)
    requires Placed(v, e)
    ensures ReadEntry(Persist(v.geo, v.disk, table, o).0, e) == ReadEntry(v.disk, e)
  {
    hide Print, Image, BlockWrite, ReadEntry;
    if |Print(table)| < MANIFEST_CAPACITY {
      ReadUnchanged(v.disk, e, v.geo.manifestLba, v.geo.manifestSectors,
                    Image(table, MANIFEST_CAPACITY), o);
    }
  }

  // ----- allocation

  lemma AllocateIsApart(v: Volume, n: nat, e: Entry)
    requires ExtentsOk(v) && Allocate(v, n).Some? && e in v.table
    ensures Apart(e, Allocate(v, n).value, n)
  {
    var lba := Allocate(v, n).value;
    assert Placed(v, e) && !Overlaps(e, lba, n);
    if EntrySectors(e) != 0 {
      U64Small(e.lba + EntrySectors(e));
      U64Small(lba + n);
    }
  }

  /** Where a file goes is in the device, clear of the reserved sectors, and apart
      from every other file. */
  lemma PlaceIsApart(v: Volume, found: Option<nat>, n: nat)
    requires ExtentsOk(v) && (found.Some? ==> found.value < |v.table|)
    requires n > 0 && Place(v, found, n).Some?
    ensures var lba := Place(v, found, n).value;
            && lba + n <= |v.disk|
            && (SUPERBLOCK_LBA < lba || lba + n <= SUPERBLOCK_LBA)
            && (v.geo.manifestLba + v.geo.manifestSectors <= lba || lba + n <= v.geo.manifestLba)
            && forall i :: 0 <= i < |v.table| && Some(i) != found ==> Apart(v.table[i], lba, n)
  {
    hide EntrySectors;
    var lba := Place(v, found, n).value;
    if found.Some? && EntrySectors(v.table[found.value]) >= n {
      assert Placed(v, v.table[found.value]);
    }
    forall i | 0 <= i < |v.table| && Some(i) != found
      ensures Apart(v.table[i], lba, n)
    {
      if found.Some? && EntrySectors(v.table[found.value]) >= n {
        assert Apart(v.table[i], v.table[found.value].lba, EntrySectors(v.table[found.value]));
      } else {
        AllocateIsApart(v, n, v.table[i]);
      }
    }
  }

  // ----- tables

  /** The entry that a path names. */
  function Lookup(table: seq<Entry>, path: seq<byte>): Option<Entry> {
    var r := Find(table, path);
    if r.None? then None else Some(table[r.value])
  }

  predicate DistinctPaths(table: seq<Entry>) {
    forall i, j :: 0 <= i < j < |table| ==> table[i].path != table[j].path
  }

  lemma LookupUnique(table: seq<Entry>, i: nat)
    requires DistinctPaths(table) && i < |table|
    ensures Find(table, table[i].path) == Some(i)
  {
    assert table[i] in table;
  }

  lemma LookupIn(table: seq<Entry>, e: Entry)
    requires DistinctPaths(table) && e in table
    ensures Lookup(table, e.path) == Some(e)
  {
    var i :| 0 <= i < |table| && table[i] == e;
    LookupUnique(table, i);
  }

  lemma LookupAfterFile(table: seq<Entry>, found: Option<nat>, e: Entry, p: seq<byte>)
    requires DistinctPaths(table) && found == Find(table, e.path)
    ensures DistinctPaths(WithFile(table, found, e))
    ensures p != e.path ==> Lookup(WithFile(table, found, e), p) == Lookup(table, p)
    ensures Lookup(WithFile(table, found, e), e.path) == Some(e)
  {
    var t := WithFile(table, found, e);
    assert DistinctPaths(t) by {
      if found.None? {
        forall i | 0 <= i < |table| ensures t[i].path != e.path { assert table[i] in table; }
      }
    }
    var k := if found.Some? then found.value else |table|;
    assert t[k] == e;
    LookupUnique(t, k);
    if p != e.path {
      forall i | 0 <= i < |table| && table[i].path == p
        ensures table[i] in t
      {
        assert t[i] == table[i];
      }
      SameLookup(table, t, p);
    }
  }

  /** Two tables with distinct paths and the same entries under `p` agree on `p`. */
  lemma SameLookup(s: seq<Entry>, t: seq<Entry>, p: seq<byte>)
    requires DistinctPaths(s) && DistinctPaths(t)
    requires forall i :: 0 <= i < |s| && s[i].path == p ==> s[i] in t
    requires forall i :: 0 <= i < |t| && t[i].path == p ==> t[i] in s
    ensures Lookup(s, p) == Lookup(t, p)
  {
    var a, b := Find(s, p), Find(t, p);
    if a.Some? {
      LookupIn(t, s[a.value]);
    } else {
      assert b.None?;
    }
  }

  lemma LookupAfterRemove(table: seq<Entry>, i: nat, p: seq<byte>)
    requires DistinctPaths(table) && i < |table|
    ensures DistinctPaths(Without(table, i))
    ensures p != table[i].path ==> Lookup(Without(table, i), p) == Lookup(table, p)
    ensures Lookup(Without(table, i), table[i].path) == None
  {
    var t := Without(table, i);
    assert forall k :: 0 <= k < |t| ==> t[k] == table[if k < i then k else k + 1];
    if p != table[i].path {
      forall k | 0 <= k < |table| && table[k].path == p
        ensures table[k] in t
      {
        assert t[if k < i then k else k - 1] == table[k];
      }
      SameLookup(table, t, p);
    }
  }

  // ----- every operation

  datatype Op =
    | WriteOp(path: seq<byte>, fileType: FileType, contents: seq<byte>, data: Outcome, meta: Outcome)
    | MakeOp(path: seq<byte>, meta: Outcome)
    | RemoveOp(path: seq<byte>, meta: Outcome)

  function Apply(v: Volume, op: Op): (Volume, bool) {
    match op
    case WriteOp(path, t, contents, data, meta) => WriteBytes(v, path, t, contents, data, meta)
    case MakeOp(path, meta) => CreateDirectory(v, path, meta)
    case RemoveOp(path, meta) => Remove(v, path, meta)
  }

  lemma CommitKeeps(v: Volume, table: seq<Entry>, o: Outcome)
    requires ExtentsOk(v) && ExtentsOk(v.(table := table))
    ensures ExtentsOk(Commit(v, table, o).0)
  {
    hide Persist, EntrySectors, Apart;
    var w := Commit(v, table, o).0;
    assert forall e :: Placed(v, e) <==> Placed(w, e);
  }

  /** Everything an operation leaves alone: other paths, the superblock, the size. */
  ghost predicate LeavesOthers(v: Volume, w: Volume, path: seq<byte>) {
    && w.geo == v.geo && |w.disk| == |v.disk|
    && (SUPERBLOCK_LBA < |v.disk| ==> w.disk[SUPERBLOCK_LBA] == v.disk[SUPERBLOCK_LBA])
    && DistinctPaths(w.table)
    && forall p :: p != path ==> Lookup(w.table, p) == Lookup(v.table, p) && ReadFile(w, p) == ReadFile(v, p)
  }

  lemma LookupMember(table: seq<Entry>, p: seq<byte>)
    ensures Lookup(table, p).Some? ==> Lookup(table, p).value in table
  {
  }

  lemma CommitLeaves(v: Volume, table: seq<Entry>, o: Outcome, path: seq<byte>)
    requires ExtentsOk(v) && DistinctPaths(v.table) && DistinctPaths(table)
    requires forall p :: p != path ==> Lookup(table, p) == Lookup(v.table, p)
    ensures LeavesOthers(v, Commit(v, table, o).0, path)
  {
    hide Print, Image, BlockWrite, ReadEntry, Apart, Find;
    var w := Commit(v, table, o).0;
    if |Print(table)| < MANIFEST_CAPACITY {
      BlockWriteFrame(v.disk, v.geo.manifestLba, v.geo.manifestSectors,
                      Image(table, MANIFEST_CAPACITY), o, SUPERBLOCK_LBA);
    }
    forall p | p != path
      ensures Lookup(w.table, p) == Lookup(v.table, p) && ReadFile(w, p) == ReadFile(v, p)
    {
      LookupMember(v.table, p);
      if Lookup(v.table, p).Some? {
        PersistKeepsReads(v, table, o, Lookup(v.table, p).value);
      }
    }
  }

  /** The data of a write goes where no other file reads. */
  lemma DataWriteLeaves(v: Volume, path: seq<byte>, lba: u64, n: nat, buffer: seq<byte>, o: Outcome)
    requires ExtentsOk(v) && DistinctPaths(v.table) && n > 0
    requires Place(v, Find(v.table, path), n) == Some(lba)
    ensures LeavesOthers(v, v.(disk := BlockWrite(v.disk, lba, n, buffer, o).0), path)
  {
    hide BlockWrite, ReadEntry, Apart, Place;
    var found := Find(v.table, path);
    var w := v.(disk := BlockWrite(v.disk, lba, n, buffer, o).0);
    PlaceIsApart(v, found, n);
    BlockWriteFrame(v.disk, lba, n, buffer, o, SUPERBLOCK_LBA);
    forall p | p != path
      ensures ReadFile(w, p) == ReadFile(v, p)
    {
      var r := Find(v.table, p);
      if r.Some? {
        ReadUnchanged(v.disk, v.table[r.value], lba, n, buffer, o);
      }
    }
  }

  lemma SameDiskSize(v: Volume, d: Disk)
    requires ExtentsOk(v) && |d| == |v.disk|
    ensures ExtentsOk(v.(disk := d))
  {
    hide EntrySectors, Apart;
    var w := v.(disk := d);
    assert forall e :: Placed(v, e) <==> Placed(w, e);
  }

  /** The table of a write is as disjoint as the one before. */
  lemma FileTableKeeps(v: Volume, e: Entry)
    requires ExtentsOk(v) && e.kind == File && e.size < M64 - 511
    requires Place(v, Find(v.table, e.path), EntrySectors(e)) == Some(e.lba)
    ensures ExtentsOk(v.(table := WithFile(v.table, Find(v.table, e.path), e)))
  {
    hide Place, Find, EntrySectors;
    var found := Find(v.table, e.path);
    var w := v.(table := WithFile(v.table, found, e));
    if EntrySectors(e) > 0 {
      PlaceIsApart(v, found, EntrySectors(e));
    }
    assert Placed(w, e);
    forall x | x in w.table ensures Placed(w, x) {
      if x != e { assert x in v.table && Placed(v, x); }
    }
    forall i, j | 0 <= i < |w.table| && 0 <= j < |w.table| && i != j
      ensures Apart(w.table[i], w.table[j].lba, EntrySectors(w.table[j]))
    {
      var k := if found.Some? then found.value else |v.table|;
      if j == k {
        assert EntrySectors(e) > 0 ==> Apart(v.table[i], e.lba, EntrySectors(e));
      } else if i == k {
        assert EntrySectors(e) > 0 ==> Apart(v.table[j], e.lba, EntrySectors(e));
      } else {
        assert Apart(v.table[i], v.table[j].lba, EntrySectors(v.table[j]));
      }
    }
  }

  lemma WriteKeeps(v: Volume, path: seq<byte>, t: FileType, contents: seq<byte>,
                   data: Outcome, meta: Outcome)
    requires ExtentsOk(v) && DistinctPaths(v.table)
    ensures var w := WriteBytes(v, path, t, contents, data, meta).0;
            ExtentsOk(w) && LeavesOthers(v, w, path)
  {
    if CanWrite(v, path, |contents|) {
      hide BlockWrite, Find, Place, Commit, ExtentsOk, ReadFile, CanWrite, SectorsFor;
      var found := Find(v.table, path);
      var n := SectorsFor(|contents|);
      if Place(v, found, n).Some? {
        var lba := Place(v, found, n).value;
        var (disk, ok) := if n == 0 then (v.disk, true)
                          else BlockWrite(v.disk, lba, n, Padded(contents), data);
        var v1 := v.(disk := disk);
        assert |disk| == |v.disk|;
        SameDiskSize(v, disk);
        if n > 0 {
          DataWriteLeaves(v, path, lba, n, Padded(contents), data);
        }
        assert LeavesOthers(v, v1, path);
        if ok {
          var e := FileEntry(path, t, lba, |contents|);
          WriteCommits(v, v1, e, meta);
        }
      }
    }
  }

  lemma WriteCommits(v: Volume, v1: Volume, e: Entry, meta: Outcome)
    requires ExtentsOk(v) && ExtentsOk(v1) && DistinctPaths(v.table)
    requires v1 == v.(disk := v1.disk) && LeavesOthers(v, v1, e.path)
    requires e.kind == File && e.size < M64 - 511
    requires Place(v, Find(v.table, e.path), EntrySectors(e)) == Some(e.lba)
    ensures var w := Commit(v1, WithFile(v1.table, Find(v1.table, e.path), e), meta).0;
            ExtentsOk(w) && LeavesOthers(v, w, e.path)
  {
    hide Find, Commit, ExtentsOk, ReadFile, EntrySectors, PairwiseApart;
    var found := Find(v.table, e.path);
    var table := WithFile(v.table, found, e);
    SamePlace(v, v1, found, EntrySectors(e));
    FileTableKeeps(v1, e);
    CommitKeeps(v1, table, meta);
    forall p | p != e.path
      ensures Lookup(table, p) == Lookup(v1.table, p)
    {
      LookupAfterFile(v.table, found, e, p);
    }
    LookupAfterFile(v.table, found, e, e.path);
    CommitLeaves(v1, table, meta, e.path);
  }

  lemma SamePlace(v: Volume, w: Volume, found: Option<nat>, n: nat)
    requires w == v.(disk := w.disk) && |w.disk| == |v.disk|
    requires found.Some? ==> found.value < |v.table|
    ensures Place(w, found, n) == Place(v, found, n)
  {
  }

  lemma MakeKeeps(v: Volume, path: seq<byte>, o: Outcome)
    requires ExtentsOk(v) && DistinctPaths(v.table)
    ensures var w := CreateDirectory(v, path, o).0; ExtentsOk(w) && LeavesOthers(v, w, path)
  {
    if CanCreate(v, path) {
      hide Find, Commit, ReadFile, PathValid, ParentExists, Print;
      var e := DirectoryEntry(path, []);
      var table := v.table + [e];
      forall p | p != path
        ensures Lookup(table, p) == Lookup(v.table, p)
      {
        LookupAfterFile(v.table, None, e, p);
      }
      LookupAfterFile(v.table, None, e, path);
      DirectoryTableKeeps(v, e);
      CommitKeeps(v, table, o);
      CommitLeaves(v, table, o, path);
    }
  }

  lemma DirectoryTableKeeps(v: Volume, e: Entry)
    requires ExtentsOk(v) && EntrySectors(e) == 0
    ensures ExtentsOk(v.(table := v.table + [e]))
  {
    var w := v.(table := v.table + [e]);
    forall x | x in w.table ensures Placed(w, x) {
      if x != e { assert x in v.table && Placed(v, x); }
    }
  }

  lemma RemoveTableKeeps(v: Volume, i: nat)
    requires ExtentsOk(v) && i < |v.table|
    ensures ExtentsOk(v.(table := Without(v.table, i)))
  {
    hide EntrySectors;
    var w := v.(table := Without(v.table, i));
    forall x | x in w.table ensures Placed(w, x) {
      assert x in v.table && Placed(v, x);
    }
    assert forall k :: 0 <= k < |w.table| ==> w.table[k] == v.table[if k < i then k else k + 1];
  }

  lemma RemoveKeeps(v: Volume, path: seq<byte>, o: Outcome)
    requires ExtentsOk(v) && DistinctPaths(v.table)
    ensures var w := Remove(v, path, o).0; ExtentsOk(w) && LeavesOthers(v, w, path)
  {
    if CanRemove(v.table, path) {
      hide Commit, ReadFile, Print;
      var i := Find(v.table, path).value;
      var table := Without(v.table, i);
      forall p | p != path
        ensures Lookup(table, p) == Lookup(v.table, p)
      {
        LookupAfterRemove(v.table, i, p);
      }
      LookupAfterRemove(v.table, i, path);
      RemoveTableKeeps(v, i);
      CommitKeeps(v, table, o);
      CommitLeaves(v, table, o, path);
    }
  }

  /** Extents and contents: an operation, successful or not, keeps the extents
      pairwise apart, in the device and clear of the manifest, and changes what no
      other path reads. */
  lemma ApplyKeeps(v: Volume, op: Op)
    requires ExtentsOk(v) && DistinctPaths(v.table)
    ensures var w := Apply(v, op).0; ExtentsOk(w) && LeavesOthers(v, w, op.path)
  {
    match op
    case WriteOp(path, t, contents, data, meta) => WriteKeeps(v, path, t, contents, data, meta);
    case MakeOp(path, meta) => MakeKeeps(v, path, meta);
    case RemoveOp(path, meta) => RemoveKeeps(v, path, meta);
  }

  /** An operation that fails leaves the live table as it was. */
  lemma FailureKeepsTable(v: Volume, op: Op)
    requires !Apply(v, op).1
    ensures Apply(v, op).0.table == v.table
  {
  }

  function ApplyAll(v: Volume, ops: seq<Op>): Volume
    decreases |ops|
  {
    if ops == [] then v else ApplyAll(Apply(v, ops[0]).0, ops[1..])
  }

  lemma {:induction false} RunKeeps(v: Volume, ops: seq<Op>)
    requires ExtentsOk(v) && DistinctPaths(v.table)
    ensures var w := ApplyAll(v, ops);
            && ExtentsOk(w) && DistinctPaths(w.table) && w.geo == v.geo && |w.disk| == |v.disk|
            && w.disk[SUPERBLOCK_LBA] == v.disk[SUPERBLOCK_LBA]
    decreases |ops|
  {
    if ops != [] {
      hide Apply, EntrySectors, PairwiseApart, Placed, ReadFile;
      ApplyKeeps(v, ops[0]);
      RunKeeps(Apply(v, ops[0]).0, ops[1..]);
    }
  }

  /** A file keeps its contents through any run that does not name it. */
  lemma {:induction false} RunLeavesFile(v: Volume, ops: seq<Op>, path: seq<byte>)
    requires ExtentsOk(v) && DistinctPaths(v.table)
    requires forall op :: op in ops ==> op.path != path
    ensures ReadFile(ApplyAll(v, ops), path) == ReadFile(v, path)
    decreases |ops|
  {
    if ops != [] {
      hide Apply, ExtentsOk, ReadFile;
      assert ops[0] in ops;
      ApplyKeeps(v, ops[0]);
      assert forall op :: op in ops[1..] ==> op in ops;
      RunLeavesFile(Apply(v, ops[0]).0, ops[1..], path);
    }
  }

  // ----- a write reads back

  lemma ChunkByte(buffer: seq<byte>, k: nat, n: nat)
    requires n * 512 <= |buffer| && k < n * 512
    ensures k / 512 < n && Chunk(buffer, k / 512)[k % 512] == buffer[k]
  {
  }

  lemma WrittenBytes(disk: Disk, lba: u64, contents: seq<byte>)
    requires 0 < |contents| <= WRITE_BUFFER
    requires RangeFits(disk, lba, SectorsFor(|contents|))
    ensures (|contents| + 511) / 512 == SectorsFor(|contents|)
    ensures var d := BlockWrite(disk, lba, SectorsFor(|contents|), Padded(contents), Done).0;
            FileBytes(d, lba, |contents|) == contents
  {
    var n := SectorsFor(|contents|);
    U64Small(|contents| + 511);
    var d := BlockWrite(disk, lba, n, Padded(contents), Done).0;
    forall k | 0 <= k < |contents|
      ensures d[lba + k / 512][k % 512] == contents[k]
    {
      WithinExtent(|contents|, k);
      ChunkByte(Padded(contents), k, n);
    }
  }

  lemma FileTakes(size: nat)
    requires size <= WRITE_BUFFER
    ensures SectorsFor(size) * 512 <= WRITE_BUFFER
  {
    if size > 0 { U64Small(size + 511); }
  }

  /** The entry that a successful data write is about to commit reads back. */
  lemma DataReadsBack(v: Volume, path: seq<byte>, t: FileType, contents: seq<byte>, lba: u64)
    requires |contents| <= WRITE_BUFFER
    requires |contents| > 0 ==> RangeFits(v.disk, lba, SectorsFor(|contents|))
    ensures var n := SectorsFor(|contents|);
            var d := if n == 0 then v.disk else BlockWrite(v.disk, lba, n, Padded(contents), Done).0;
            ReadEntry(d, FileEntry(path, t, lba, |contents|)) == Some((t, contents))
  {
    if |contents| > 0 {
      WrittenBytes(v.disk, lba, contents);
      FileTakes(|contents|);
    }
  }

  /** A successful write is read back byte for byte, with its type. */
  lemma WriteReadsBack(v: Volume, path: seq<byte>, t: FileType, contents: seq<byte>,
                       data: Outcome, meta: Outcome)
    requires ExtentsOk(v) && DistinctPaths(v.table)
    requires WriteBytes(v, path, t, contents, data, meta).1
    ensures ReadFile(WriteBytes(v, path, t, contents, data, meta).0, path) == Some((t, contents))
  {
    hide Find, ReadEntry, Print, Image, PathValid, ParentExists, Apart;
    var found := Find(v.table, path);
    var n := SectorsFor(|contents|);
    var lba := Place(v, found, n).value;
    var e := FileEntry(path, t, lba, |contents|);
    FileTakes(|contents|);
    if n > 0 { PlaceIsApart(v, found, n); }
    DataReadsBack(v, path, t, contents, lba);
    var d := if n == 0 then v.disk else BlockWrite(v.disk, lba, n, Padded(contents), data).0;
    var v1 := v.(disk := d);
    var table := WithFile(v.table, found, e);
    LookupAfterFile(v.table, found, e, path);
    assert Placed(v1, e) by { FilePlaced(v, v1, e); }
    PersistKeepsReads(v1, table, meta, e);
  }

  lemma FilePlaced(v: Volume, w: Volume, e: Entry)
    requires ExtentsOk(v) && w == v.(disk := w.disk) && |w.disk| == |v.disk|
    requires e.kind == File && e.size <= WRITE_BUFFER
    requires Place(v, Find(v.table, e.path), EntrySectors(e)) == Some(e.lba)
    ensures Placed(w, e)
  {
    if EntrySectors(e) > 0 {
      PlaceIsApart(v, Find(v.table, e.path), EntrySectors(e));
    }
  }

  /** The last write wins: after a successful write, any run that does not name
      the file, failures included, still reads back what was written. */
  lemma LastWriteWins(v: Volume, path: seq<byte>, t: FileType, contents: seq<byte>,
                      data: Outcome, meta: Outcome, ops: seq<Op>)
    requires ExtentsOk(v) && DistinctPaths(v.table)
    requires WriteBytes(v, path, t, contents, data, meta).1
    requires forall op :: op in ops ==> op.path != path
    ensures ReadFile(ApplyAll(WriteBytes(v, path, t, contents, data, meta).0, ops), path) ==
            Some((t, contents))
  {
    hide WriteBytes, ExtentsOk, ReadFile;
    WriteKeeps(v, path, t, contents, data, meta);
    WriteReadsBack(v, path, t, contents, data, meta);
    RunLeavesFile(WriteBytes(v, path, t, contents, data, meta).0, ops, path);
  }
}
