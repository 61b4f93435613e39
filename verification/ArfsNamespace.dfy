/** Names, listings and remounts of ARFS. */
module ArfsNamespace {
  import opened Words
  import opened Wrappers
  import opened ArfsManifest
  import opened ArfsRemount
  import opened ArfsVolume
  import opened ArfsExtents

  // ----- paths

  /** The callers of the filesystem refuse line ends and zero bytes in a path. */
  predicate Clean(path: seq<byte>) {
    forall i :: 0 <= i < |path| ==> !IsLineEnd(path[i])
  }

  lemma {:induction false} LastSlashIs(path: seq<byte>)
    ensures forall k :: LastSlash(path) < k < |path| ==> path[k] != SLASH
    ensures path != [] && path[0] == SLASH ==> path[LastSlash(path)] == SLASH
  {
    if path != [] && path[|path| - 1] != SLASH {
      LastSlashIs(path[..|path| - 1]);
    }
  }

  lemma {:induction false} LastSlashStep(path: seq<byte>, c: byte)
    ensures LastSlash(path + [c]) == if c == SLASH then |path| else LastSlash(path)
  {
    assert (path + [c])[..|path|] == path;
  }

  /** `SegmentsOk` counts the characters since the last slash. */
  lemma {:induction false} SegmentsMeaning(path: seq<byte>, index: nat, segment: nat)
    requires 1 <= index <= |path| && path[0] == SLASH && SegmentsOk(path, index, segment)
    requires segment == index - 1 - LastSlash(path[..index])
    ensures 0 < |path| - 1 - LastSlash(path) < MAX_NAME
    ensures forall k :: index <= k < |path| ==> path[k] != SPACE
    decreases |path| - index
  {
    if index < |path| {
      assert path[..index + 1] == path[..index] + [path[index]];
      LastSlashStep(path[..index], path[index]);
      SegmentsMeaning(path, index + 1, if path[index] == SLASH then 0 else segment + 1);
    } else {
      assert path[..index] == path;
    }
  }

  /** A valid path: its last component is a proper name and it has no spaces. */
  lemma ValidPath(path: seq<byte>)
    requires PathValid(path)
    ensures BaseName(path) == path[LastSlash(path) + 1..] && 0 < |BaseName(path)| < MAX_NAME
    ensures forall k :: 0 <= k < |path| ==> path[k] != SPACE
  {
    assert path[..1] == [SLASH];
    assert LastSlash([SLASH]) == 0;
    SegmentsMeaning(path, 1, 0);
  }

  /** A path lies directly under its parent. */
  lemma ChildOfParent(path: seq<byte>)
    requires PathValid(path) && LastSlash(path) > 0 && PathValid(path[..LastSlash(path)])
    ensures IsChildOf(path, path[..LastSlash(path)])
  {
    var k := LastSlash(path);
    LastSlashIs(path);
    ValidPath(path);
    var tail := path[k + 1..];
    assert forall i :: 0 <= i < |tail| ==> tail[i] != SLASH;
  }

  /** What stands before the name of a child. */
  function Prefix(dir: seq<byte>): seq<byte> {
    if dir == [SLASH] then [SLASH] else dir + [SLASH]
  }

  /** The children of a directory are the paths that are its own, a slash and a name. */
  lemma ChildMeaning(path: seq<byte>, dir: seq<byte>)
    requires path != [] && path[0] == SLASH
    ensures IsChildOf(path, dir) <==> exists name :: IsTail(name) && path == Prefix(dir) + name
  {
    var p := Prefix(dir);
    if IsChildOf(path, dir) {
      var name := path[|p|..];
      assert path == p + name;
    }
    if exists name :: IsTail(name) && path == p + name {
      var name :| IsTail(name) && path == p + name;
      assert path[|p|..] == name;
      if dir != [SLASH] { assert path[..|dir|] == dir && path[|dir|] == SLASH; }
    }
  }

  /** A path written as its components, each behind a slash. */
  function Spelled(parts: seq<seq<byte>>): seq<byte> {
    if parts == [] then [] else [SLASH] + parts[0] + Spelled(parts[1..])
  }

  predicate GoodPart(part: seq<byte>) {
    0 < |part| < MAX_NAME && forall i :: 0 <= i < |part| ==> part[i] != SLASH && part[i] != SPACE
  }

  /** Inside a component `SegmentsOk` counts characters. */
  lemma {:induction false} PassPart(path: seq<byte>, index: nat, segment: nat, n: nat)
    requires 1 <= index && index + n <= |path|
    requires forall k :: index <= k < index + n ==> path[k] != SLASH && path[k] != SPACE
    ensures SegmentsOk(path, index, segment) == SegmentsOk(path, index + n, segment + n)
    decreases n
  {
    if n > 0 { PassPart(path, index + 1, segment + 1, n - 1); }
  }

  lemma {:induction false} SpelledIsOk(path: seq<byte>, i: nat, parts: seq<seq<byte>>)
    requires parts != [] && forall p :: p in parts ==> GoodPart(p)
    requires 1 <= i <= |path| && path[i..] == parts[0] + Spelled(parts[1..])
    ensures SegmentsOk(path, i, 0)
    decreases |parts|
  {
    hide SegmentsOk, Spelled;
    var p, rest := parts[0], parts[1..];
    assert GoodPart(p) by { assert p in parts; }
    assert forall q :: q in rest ==> q in parts;
    var j := i + |p|;
    SuffixAt(path, i, p, Spelled(rest));
    PassPart(path, i, 0, |p|);
    SpelledIs(rest);
    if rest == [] {
      LastPart(path, |p|);
    } else {
      SuffixAt(path, j, [SLASH], rest[0] + Spelled(rest[1..]));
      SpelledIsOk(path, j + 1, rest);
      SlashFollows(path, j, |p|);
    }
  }

  lemma SpelledIs(parts: seq<seq<byte>>)
    ensures Spelled(parts) == if parts == [] then [] else [SLASH] + (parts[0] + Spelled(parts[1..]))
  {
  }

  lemma SuffixAt(path: seq<byte>, i: nat, a: seq<byte>, b: seq<byte>)
    requires i <= |path| && path[i..] == a + b
    ensures i + |a| <= |path| && path[i + |a|..] == b && forall k :: i <= k < i + |a| ==> path[k] == a[k - i]
  {
    assert path[i + |a|..] == path[i..][|a|..];
    assert forall k :: i <= k < i + |a| ==> path[k] == path[i..][k - i];
  }

  lemma LastPart(path: seq<byte>, n: nat)
    requires |path| >= 1 && 0 < n < MAX_NAME
    ensures SegmentsOk(path, |path|, n)
  {
  }

  lemma SlashFollows(path: seq<byte>, j: nat, n: nat)
    requires 1 <= j < |path| && path[j] == SLASH && path[j - 1] != SLASH && 0 < n < MAX_NAME && SegmentsOk(path, j + 1, 0)
    ensures SegmentsOk(path, j, n)
  {
  }

  lemma {:induction false} SplitParts(path: seq<byte>, start: nat, index: nat) returns (parts: seq<seq<byte>>)
    requires 1 <= start <= index <= |path| && SegmentsOk(path, index, index - start)
    requires forall k :: start <= k < index ==> path[k] != SLASH && path[k] != SPACE
    ensures parts != [] && (forall p :: p in parts ==> GoodPart(p)) && path[start..] == parts[0] + Spelled(parts[1..])
    decreases |path| - index
  {
    if index == |path| {
      parts := [path[start..]];
      assert parts[1..] == [] && path[start..] == parts[0] + [];
    } else if path[index] == SLASH {
      var rest := SplitParts(path, index + 1, index + 1);
      parts := [path[start..index]] + rest;
      assert parts[1..] == rest;
      assert path[start..] == path[start..index] + ([SLASH] + path[index + 1..]);
      assert Spelled(rest) == [SLASH] + (rest[0] + Spelled(rest[1..]));
    } else {
      parts := SplitParts(path, start, index + 1);
    }
  }

  /** A path is valid exactly when it is spelled from components of 1 to 31 bytes without
      slashes and spaces, and shorter than 64 bytes. */
  lemma PathMeaning(path: seq<byte>)
    ensures PathValid(path) <==>
            |path| < MAX_PATH && exists parts ::
              parts != [] && (forall p :: p in parts ==> GoodPart(p)) && path == Spelled(parts)
  {
    hide SegmentsOk;
    if PathValid(path) {
      var parts := SplitParts(path, 1, 1);
      assert path == [SLASH] + path[1..];
      assert Spelled(parts) == [SLASH] + (parts[0] + Spelled(parts[1..]));
    }
    if |path| < MAX_PATH && exists parts :: parts != [] && (forall p :: p in parts ==> GoodPart(p)) && path == Spelled(parts) {
      var parts :| parts != [] && (forall p :: p in parts ==> GoodPart(p)) && path == Spelled(parts);
      assert parts[0] in parts;
      assert path == [SLASH] + (parts[0] + Spelled(parts[1..]));
      assert path[1..] == parts[0] + Spelled(parts[1..]);
      SpelledIsOk(path, 1, parts);
      EndsInPart(parts);
    }
  }

  lemma {:induction false} EndsInPart(parts: seq<seq<byte>>)
    requires parts != [] && forall p :: p in parts ==> GoodPart(p)
    ensures var s := Spelled(parts); |s| >= 2 && s[|s| - 1] != SLASH
  {
    assert parts[0] in parts && forall q :: q in parts[1..] ==> q in parts;
    if parts[1..] != [] {
      EndsInPart(parts[1..]);
    } else {
      assert Spelled(parts) == [SLASH] + parts[0];
    }
  }

  // ----- the invariant

  predicate EntryOk(e: Entry) {
    && PathValid(e.path) && e.name == BaseName(e.path)
    && (e.kind == Directory ==> e.fileType == Binary && e.lba == 0 && e.size == 0)
  }

  /** No path of the table has a line end or a zero byte in it. */
  predicate CleanTable(table: seq<Entry>) {
    forall e :: e in table ==> Clean(e.path)
  }

  lemma EntryIsWellFormed(e: Entry)
    requires EntryOk(e) && Clean(e.path)
    ensures WellFormed(e)
  {
    hide SegmentsOk, LastSlash;
    ValidPath(e.path);
  }

  /** Good entries with clean paths are those that the manifest can hold. */
  lemma CleanIsWellFormed(table: seq<Entry>)
    requires NamespaceOk(table) && CleanTable(table)
    ensures WellFormedTable(table)
  {
    forall e | e in table ensures WellFormed(e) {
      hide EntryOk, Clean, WellFormed;
      EntryIsWellFormed(e);
    }
  }

  predicate NamespaceOk(table: seq<Entry>) {
    && |table| <= MAX_ENTRIES && DistinctPaths(table)
    && (forall e :: e in table ==> EntryOk(e))
    && forall e :: e in table ==> ParentExists(table, e.path)
  }

  lemma DirectoryByLookup(table: seq<Entry>, path: seq<byte>)
    ensures IsDirectory(table, path) <==>
            Lookup(table, path).Some? && Lookup(table, path).value.kind == Directory
  {
  }

  lemma NewEntryOk(path: seq<byte>, kind: Kind, t: FileType, lba: u64, size: u64, previous: seq<byte>)
    requires PathValid(path)
    requires kind == Directory ==> t == Binary && lba == 0 && size == 0
    ensures EntryOk(Entry(kind, t, path, NameFor(path, previous), lba, size))
  {
    ValidPath(path);
  }

  lemma WithFileKeeps(table: seq<Entry>, e: Entry)
    requires NamespaceOk(table) && EntryOk(e) && ParentExists(table, e.path)
    requires var found := Find(table, e.path);
             if found.Some? then table[found.value].kind == e.kind else |table| < MAX_ENTRIES
    ensures NamespaceOk(WithFile(table, Find(table, e.path), e))
  {
    hide EntryOk, Find, LastSlash;
    var found := Find(table, e.path);
    var t := WithFile(table, found, e);
    LookupAfterFile(table, found, e, e.path);
    forall x | x in t
      ensures EntryOk(x) && ParentExists(t, x.path)
    {
      assert x == e || x in table;
      assert ParentExists(table, x.path);
      var p := x.path[..LastSlash(x.path)];
      DirectoryByLookup(table, p);
      DirectoryByLookup(t, p);
      LookupAfterFile(table, found, e, p);
    }
  }

  lemma WithoutKeeps(table: seq<Entry>, i: nat)
    requires NamespaceOk(table) && i < |table|
    requires table[i].kind == Directory ==> !HasChildren(table, table[i].path)
    ensures NamespaceOk(Without(table, i))
  {
    hide Find, LastSlash, PathValid, IsChildOf;
    var t := Without(table, i);
    LookupAfterRemove(table, i, table[i].path);
    assert forall k :: 0 <= k < |t| ==> t[k] == table[if k < i then k else k + 1];
    forall x | x in t
      ensures EntryOk(x) && ParentExists(t, x.path)
    {
      assert x in table;
      assert ParentExists(table, x.path);
      var p := x.path[..LastSlash(x.path)];
      if LastSlash(x.path) != 0 {
        DirectoryByLookup(table, p);
        DirectoryByLookup(t, p);
        if p == table[i].path {
          LookupUnique(table, i);
          LookupIn(table, table[i]);
          assert table[i] in table && EntryOk(table[i]) && EntryOk(x);
          ChildOfParent(x.path);
          assert false;
        } else {
          LookupAfterRemove(table, i, p);
        }
      }
    }
  }

  /** Every operation, successful or not, keeps the namespace. */
  lemma ApplyKeepsNamespace(v: Volume, op: Op)
    requires NamespaceOk(v.table)
    ensures NamespaceOk(Apply(v, op).0.table)
  {
    hide EntryOk, NamespaceOk, PathValid, ParentExists, Print, BlockWrite, Persist, Place;
    match op
    case WriteOp(path, t, contents, data, meta) =>
      if CanWrite(v, path, |contents|) {
        var n := SectorsFor(|contents|);
        var lba := Place(v, Find(v.table, path), n);
        if lba.Some? {
          NewEntryOk(path, File, t, lba.value, |contents|, []);
          WithFileKeeps(v.table, FileEntry(path, t, lba.value, |contents|));
        }
      }
    case MakeOp(path, meta) =>
      if CanCreate(v, path) {
        NewEntryOk(path, Directory, Binary, 0, 0, []);
        WithFileKeeps(v.table, DirectoryEntry(path, []));
      }
    case RemoveOp(path, meta) =>
      if CanRemove(v.table, path) {
        WithoutKeeps(v.table, Find(v.table, path).value);
      }
  }

  lemma {:induction false} RunKeepsNamespace(v: Volume, ops: seq<Op>)
    requires NamespaceOk(v.table)
    ensures NamespaceOk(ApplyAll(v, ops).table)
    decreases |ops|
  {
    if ops != [] {
      hide Apply, NamespaceOk;
      ApplyKeepsNamespace(v, ops[0]);
      RunKeepsNamespace(Apply(v, ops[0]).0, ops[1..]);
    }
  }

  lemma ApplyKeepsClean(v: Volume, op: Op)
    requires CleanTable(v.table) && Clean(op.path)
    ensures CleanTable(Apply(v, op).0.table)
  {
    hide Clean, PathValid, ParentExists, Print, BlockWrite, Persist, Place, Find, CanRemove;
    var t := Apply(v, op).0.table;
    forall e | e in t ensures Clean(e.path) {
      assert e in v.table || e.path == op.path;
    }
  }

  /** Clean calls leave a clean table. */
  lemma {:induction false} RunKeepsClean(v: Volume, ops: seq<Op>)
    requires CleanTable(v.table) && forall op :: op in ops ==> Clean(op.path)
    ensures CleanTable(ApplyAll(v, ops).table)
    decreases |ops|
  {
    if ops != [] {
      hide Apply, CleanTable, Clean;
      assert ops[0] in ops && forall op :: op in ops[1..] ==> op in ops;
      ApplyKeepsClean(v, ops[0]);
      RunKeepsClean(Apply(v, ops[0]).0, ops[1..]);
    }
  }

  // ----- listings

  /** The indices of the children of `dir`, in table order. */
  function Children(table: seq<Entry>, dir: seq<byte>, i: nat): (s: seq<nat>)
    requires i <= |table|
    ensures forall k :: 0 <= k < |s| ==> i <= s[k] < |table|
    decreases |table| - i
  {
    if i == |table| then []
    else if IsChildOf(table[i].path, dir) then [i] + Children(table, dir, i + 1)
    else Children(table, dir, i + 1)
  }

  /** `Children` is strictly increasing and has exactly the children. */
  lemma {:induction false} ChildrenExact(table: seq<Entry>, dir: seq<byte>, i: nat)
    requires i <= |table|
    ensures var s := Children(table, dir, i);
            && (forall k, m :: 0 <= k < m < |s| ==> s[k] < s[m])
            && (forall j :: i <= j < |table| ==> (j in s <==> IsChildOf(table[j].path, dir)))
    decreases |table| - i
  {
    hide IsChildOf;
    if i < |table| {
      ChildrenExact(table, dir, i + 1);
    }
  }

  function ItemsAt(table: seq<Entry>, s: seq<nat>): seq<Listing>
    requires forall k :: 0 <= k < |s| ==> s[k] < |table|
  {
    seq(|s|, k requires 0 <= k < |s| => ItemOf(table[s[k]]))
  }

  lemma {:induction false} ListFromIsExact(table: seq<Entry>, dir: seq<byte>, i: nat)
    requires i <= |table|
    ensures ListFrom(table, dir, i) == ItemsAt(table, Children(table, dir, i))
    decreases |table| - i
  {
    hide IsChildOf, ItemOf;
    if i < |table| {
      ListFromIsExact(table, dir, i + 1);
      var s := Children(table, dir, i + 1);
      assert ItemsAt(table, [i] + s) == [ItemOf(table[i])] + ItemsAt(table, s);
    }
  }

  /** A listing names the direct children of the directory, each once, in table order. */
  lemma ListIsExact(v: Volume, dir: seq<byte>)
    requires List(v, dir).Some?
    ensures List(v, dir).value == ItemsAt(v.table, Children(v.table, dir, 0))
  {
    ListFromIsExact(v.table, dir, 0);
  }

  // ----- remounting

  lemma ManifestOnDisk(v: Volume, table: seq<Entry>)
    requires GeometryOk(v) && Persist(v.geo, v.disk, table, Done).1
    ensures |Print(table)| < MANIFEST_CAPACITY
    ensures ManifestBytes(v.(disk := Persist(v.geo, v.disk, table, Done).0)) ==
            Image(table, v.geo.manifestSectors * 512)
  {
    hide Print;
    var n := v.geo.manifestSectors;
    var buffer := Image(table, MANIFEST_CAPACITY);
    var w := v.(disk := Persist(v.geo, v.disk, table, Done).0);
    forall k | 0 <= k < n * 512
      ensures ManifestBytes(w)[k] == Image(table, n * 512)[k]
    {
      ChunkByte(buffer, k, n);
    }
  }

  /** After an operation succeeded, mounting the disk gives the live table back,
      if and only if at most the final newline of the text missed the manifest
      sectors; with two manifest sectors that is always the case. */
  lemma SuccessRemounts(v: Volume, table: seq<Entry>, o: Outcome, slots: Slots)
    requires GeometryOk(v) && WellFormedTable(table) && table != []
    requires Commit(v, table, o).1
    ensures var w := Commit(v, table, o).0;
            && w.table == table
            && (Mount(w, slots) == Some(table) <==>
                  |Print(table)| <= v.geo.manifestSectors * 512 + 1)
            && (v.geo.manifestSectors == 2 ==> Mount(w, slots) == Some(table))
  {
    hide Print, WellFormed, ParseManifest, Image, BlockWrite;
    assert o == Done by { CommitNeedsDone(v, table, o); }
    ManifestOnDisk(v, table);
    RemountIff(table, v.geo.manifestSectors * 512, slots);
  }

  lemma CommitNeedsDone(v: Volume, table: seq<Entry>, o: Outcome)
    requires Commit(v, table, o).1
    ensures o == Done
  {
  }

  // ----- line ends in paths

  lemma {:induction false} LineIsClean(s: seq<byte>)
    ensures Clean(s[..LineLength(s)])
  {
    if s != [] && !IsLineEnd(s[0]) {
      LineIsClean(s[1..]);
      assert forall i :: 1 <= i < LineLength(s) ==> s[..LineLength(s)][i] == s[1..][..LineLength(s[1..])][i - 1];
    }
  }

  lemma {:induction false} SpacesSkipped(s: seq<byte>)
    ensures exists k: nat :: k <= |s| && SkipSpaces(s) == s[k..]
  {
    if s != [] && s[0] == SPACE {
      SpacesSkipped(s[1..]);
      var k: nat :| k <= |s[1..]| && SkipSpaces(s[1..]) == s[1..][k..];
      assert s[1..][k..] == s[k + 1..];
    } else {
      assert s == s[0..];
    }
  }

  lemma TokenIsClean(s: seq<byte>)
    requires Clean(s)
    ensures Clean(NextToken(s).0)
  {
    hide SkipSpaces, TokenLength, IsLineEnd;
    SpacesSkipped(s);
    var k: nat :| k <= |s| && SkipSpaces(s) == s[k..];
    var n := TokenLength(s[k..]);
    SliceIsClean(s, k, n);
  }

  lemma SliceIsClean(s: seq<byte>, k: nat, n: nat)
    requires Clean(s) && k + n <= |s|
    ensures Clean(s[k..][..n])
  {
    hide IsLineEnd;
    assert forall i :: 0 <= i < n ==> s[k..][..n][i] == s[k + i];
  }

  lemma EntryIsClean(line: seq<byte>, previous: seq<byte>)
    requires Clean(line) && ParseLine(line, previous).Some?
    ensures Clean(ParseLine(line, previous).value.path)
  {
    hide NextToken, NameFor, ParseDecimal;
    TokenIsClean(line[2..]);
  }

  /** Whatever mounts has no line end or zero byte in its paths. */
  lemma {:induction false} MountedIsClean(s: seq<byte>, found: seq<Entry>, slots: Slots)
    requires CleanTable(found) && ParseFrom(s, found, slots).Some?
    ensures CleanTable(ParseFrom(s, found, slots).value)
    decreases |s|
  {
    hide ParseLine, Clean;
    if s == [] || s[0] == NUL {
    } else if s[0] == LF || s[0] == CR {
      MountedIsClean(s[1..], found, slots);
    } else {
      var line := s[..LineLength(s)];
      LineIsClean(s);
      EntryIsClean(line, slots[|found|].name);
      MountedIsClean(s[LineLength(s)..], found + [ParseLine(line, slots[|found|].name).value], slots);
    }
  }

  /** The round trip for every table of the running system, whatever bytes its paths have. */
  lemma RemountIffClean(table: seq<Entry>, n: nat, slots: Slots)
    requires NamespaceOk(table) && table != []
    requires |Print(table)| < MANIFEST_CAPACITY && n <= MANIFEST_CAPACITY
    ensures ParseManifest(Image(table, n), slots) == Some(table) <==> CleanTable(table) && |Print(table)| <= n + 1
  {
    hide Print, NamespaceOk, WellFormed, ParseFrom, CleanTable;
    assert CleanTable([]) by { NothingIsClean(); }
    if CleanTable(table) {
      CleanIsWellFormed(table);
      RemountIff(table, n, slots);
    } else if ParseFrom(Image(table, n), [], slots) == Some(table) {
      MountedIsClean(Image(table, n), [], slots);
      assert false;
    }
  }

  lemma NothingIsClean()
    ensures CleanTable([])
  {
  }

  /** A successful write survives a remount exactly when no path of the table has a line end
      or zero byte and the text of the table fits the manifest sectors, the final newline
      aside: then the mounted table finds the file and reads back what was written.  Two
      manifest sectors always suffice for the text. */
  lemma WriteSurvivesRemount(v: Volume, path: seq<byte>, t: FileType, contents: seq<byte>,
                             data: Outcome, meta: Outcome, slots: Slots)
    requires ExtentsOk(v) && NamespaceOk(v.table)
    requires WriteBytes(v, path, t, contents, data, meta).1
    ensures var w := WriteBytes(v, path, t, contents, data, meta).0;
            && (Mount(w, slots) == Some(w.table) <==>
                  CleanTable(w.table) && |Print(w.table)| <= v.geo.manifestSectors * 512 + 1)
            && (CleanTable(v.table) && Clean(path) ==> CleanTable(w.table))
            && (v.geo.manifestSectors == 2 ==> |Print(w.table)| <= v.geo.manifestSectors * 512)
            && (Mount(w, slots) == Some(w.table) ==>
                  ReadFile(w.(table := Mount(w, slots).value), path) == Some((t, contents)))
  {
    hide Print, ExtentsOk, ParseManifest, BlockWrite, Place, ReadFile, PathValid, ParentExists, Mount, CleanTable, Clean, EntryOk;
    var op := WriteOp(path, t, contents, data, meta);
    WriteReadsBack(v, path, t, contents, data, meta);
    ApplyKeepsNamespace(v, op);
    if CleanTable(v.table) && Clean(path) { ApplyKeepsClean(v, op); }
    var n := SectorsFor(|contents|);
    var lba := Place(v, Find(v.table, path), n).value;
    var d := if n == 0 then v.disk else BlockWrite(v.disk, lba, n, Padded(contents), data).0;
    var v1 := v.(disk := d);
    var table := WithFile(v.table, Find(v.table, path), FileEntry(path, t, lba, |contents|));
    assert GeometryOk(v1) by { SameGeometry(v, v1); }
    CommitRemounts(v1, table, meta, slots);
  }

  /** After an operation succeeded, for every table of the running system. */
  lemma CommitRemounts(v: Volume, table: seq<Entry>, o: Outcome, slots: Slots)
    requires GeometryOk(v) && NamespaceOk(table) && table != [] && Commit(v, table, o).1
    ensures var w := Commit(v, table, o).0;
            && w.table == table && |Print(table)| < MANIFEST_CAPACITY
            && (Mount(w, slots) == Some(table) <==>
                  CleanTable(table) && |Print(table)| <= v.geo.manifestSectors * 512 + 1)
  {
    hide Print, NamespaceOk, CleanTable, ParseManifest, Image, BlockWrite;
    assert o == Done by { CommitNeedsDone(v, table, o); }
    ManifestOnDisk(v, table);
    RemountIffClean(table, v.geo.manifestSectors * 512, slots);
  }

  lemma SameGeometry(v: Volume, w: Volume)
    requires ExtentsOk(v) && w.geo == v.geo && |w.disk| == |v.disk|
    ensures GeometryOk(w)
  {
  }
}
