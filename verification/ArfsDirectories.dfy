/** What mkdir, write and remove do to the name space, and when they succeed. */
module ArfsDirectories {
  import opened Words
  import opened Wrappers
  import opened ArfsManifest
  import opened ArfsRemount
  import opened ArfsVolume
  import opened ArfsExtents
  import opened ArfsNamespace

  // ----- persisting

  /** On a working device a table is persisted exactly when its text fits the buffer. */
  lemma CommitSucceedsIff(v: Volume, table: seq<Entry>)
    requires GeometryOk(v)
    ensures Commit(v, table, Done).1 <==> |Print(table)| < MANIFEST_CAPACITY
  {
    hide Print;
  }

  lemma CommitTakes(v: Volume, table: seq<Entry>, o: Outcome)
    requires Commit(v, table, o).1
    ensures Commit(v, table, o).0.table == table
  {
    hide Print, BlockWrite;
  }

  // ----- parents

  predicate IsDirectoryEntry(o: Option<Entry>) {
    o.Some? && o.value.kind == Directory
  }

  lemma ParentByLookup(table: seq<Entry>, path: seq<byte>)
    ensures ParentExists(table, path) <==>
            LastSlash(path) == 0 || IsDirectoryEntry(Lookup(table, path[..LastSlash(path)]))
  {
    hide Find, LastSlash;
    DirectoryByLookup(table, path[..LastSlash(path)]);
  }

  lemma FindByLookup(table: seq<Entry>, path: seq<byte>)
    ensures Find(table, path).None? <==> Lookup(table, path).None?
    ensures Find(table, path).Some? ==> Lookup(table, path) == Some(table[Find(table, path).value])
  {
    hide FindFrom;
  }

  /** Where a child of a proper directory has its last slash. */
  lemma ChildsParent(path: seq<byte>, dir: seq<byte>)
    requires IsChildOf(path, dir) && dir != [SLASH]
    ensures LastSlash(path) == |dir| && path[..LastSlash(path)] == dir
  {
    LastSlashIs(path);
    var k := LastSlash(path);
    assert path[|dir|] == SLASH;
    assert forall i :: |dir| < i < |path| ==> path[i] == path[|dir| + 1..][i - |dir| - 1];
    LastSlashFrom(path, |dir|);
  }

  lemma {:induction false} LastSlashFrom(path: seq<byte>, k: nat)
    requires k < |path| && path[k] == SLASH && forall i :: k < i < |path| ==> path[i] != SLASH
    ensures LastSlash(path) == k
    decreases |path|
  {
    if k < |path| - 1 { LastSlashFrom(path[..|path| - 1], k); }
  }

  /** Nothing lies under a path that is no directory of the table. */
  lemma NoChildren(table: seq<Entry>, path: seq<byte>)
    requires NamespaceOk(table) && !IsDirectoryEntry(Lookup(table, path)) && |path| >= 2
    ensures forall e :: e in table ==> !IsChildOf(e.path, path)
  {
    hide LastSlash, Find, IsChildOf, EntryOk;
    forall e | e in table ensures !IsChildOf(e.path, path) {
      if IsChildOf(e.path, path) {
        ChildsParent(e.path, path);
        assert ParentExists(table, e.path);
        ParentByLookup(table, e.path);
        assert false;
      }
    }
  }

  // ----- listings

  lemma {:induction false} ListAppends(table: seq<Entry>, e: Entry, dir: seq<byte>, i: nat)
    requires i <= |table|
    ensures ListFrom(table + [e], dir, i) ==
            ListFrom(table, dir, i) + if IsChildOf(e.path, dir) then [ItemOf(e)] else []
    decreases |table| - i
  {
    hide IsChildOf, ItemOf;
    var t := table + [e];
    if i == |table| {
      assert ListFrom(t, dir, i + 1) == [];
    } else {
      assert t[i] == table[i];
      ListAppends(table, e, dir, i + 1);
    }
  }

  lemma {:induction false} ListNothing(table: seq<Entry>, dir: seq<byte>, i: nat)
    requires i <= |table| && forall e :: e in table ==> !IsChildOf(e.path, dir)
    ensures ListFrom(table, dir, i) == []
    decreases |table| - i
  {
    hide IsChildOf;
    if i < |table| {
      assert table[i] in table;
      ListNothing(table, dir, i + 1);
    }
  }

  // ----- mkdir

  /** The entry of a new directory. */
  function NewDirectory(path: seq<byte>): Entry {
    Entry(Directory, Binary, path, BaseName(path), 0, 0)
  }

  lemma MakeTable(v: Volume, path: seq<byte>, o: Outcome)
    requires CreateDirectory(v, path, o).1
    ensures PathValid(path) && Lookup(v.table, path).None? && ParentExists(v.table, path) && |v.table| < MAX_ENTRIES
    ensures CreateDirectory(v, path, o).0.table == v.table + [NewDirectory(path)]
  {
    hide SegmentsOk, Print, BlockWrite, LastSlash;
    ValidPath(path);
    CommitTakes(v, v.table + [DirectoryEntry(path, [])], o);
  }

  /** A successful mkdir makes a directory: the path names it, it is empty, it is not a
      file, its parent lists it behind what it listed before, and no other path changes. */
  lemma MakeMakesDirectory(v: Volume, path: seq<byte>, o: Outcome)
    requires NamespaceOk(v.table) && CreateDirectory(v, path, o).1
    ensures var w := CreateDirectory(v, path, o).0;
            && Lookup(w.table, path) == Some(NewDirectory(path))
            && List(w, path) == Some([]) && ReadFile(w, path) == None
            && (forall p :: p != path ==> Lookup(w.table, p) == Lookup(v.table, p))
            && (forall dir :: List(v, dir).Some? ==>
                  List(w, dir) == Some(List(v, dir).value
                                       + if IsChildOf(path, dir) then [Listing(BaseName(path), 0, Directory)] else []))
  {
    hide LastSlash, Find, IsChildOf, EntryOk, CreateDirectory, PathValid, ListFrom, BaseName;
    MakeTable(v, path, o);
    var w := CreateDirectory(v, path, o).0;
    var e := NewDirectory(path);
    assert |path| >= 2 by { ValidIsLong(path); }
    FindByLookup(v.table, path);
    assert w.table == WithFile(v.table, Find(v.table, path), e);
    LookupAfterFile(v.table, Find(v.table, path), e, path);
    FindByLookup(w.table, path);
    NoChildren(v.table, path);
    ListAppends(v.table, e, path, 0);
    ListNothing(v.table, path, 0);
    NotItsOwnChild(path);
    DirectoryByLookup(w.table, path);
    forall p | p != path ensures Lookup(w.table, p) == Lookup(v.table, p) {
      LookupAfterFile(v.table, Find(v.table, path), e, p);
    }
    forall dir | List(v, dir).Some?
      ensures List(w, dir) == Some(List(v, dir).value
                                   + if IsChildOf(path, dir) then [Listing(BaseName(path), 0, Directory)] else [])
    {
      ListAppends(v.table, e, dir, 0);
      DirectoryByLookup(v.table, dir);
      DirectoryByLookup(w.table, dir);
    }
  }

  lemma ValidIsLong(path: seq<byte>)
    requires PathValid(path)
    ensures |path| >= 2
  {
  }

  lemma NotItsOwnChild(path: seq<byte>)
    requires |path| >= 2
    ensures !IsChildOf(path, path) && path != [SLASH]
  {
  }

  /** On a working device mkdir succeeds exactly for a valid path that is new, whose parent
      is the root or a directory, while the table has room and its text fits the buffer. */
  lemma MakeSucceedsIff(v: Volume, path: seq<byte>)
    requires GeometryOk(v)
    ensures CreateDirectory(v, path, Done).1 <==>
            && PathValid(path) && Lookup(v.table, path) == None
            && (LastSlash(path) == 0 || IsDirectoryEntry(Lookup(v.table, path[..LastSlash(path)])))
            && |v.table| < MAX_ENTRIES && |Print(v.table)| + |path| + 3 < MANIFEST_CAPACITY
  {
    hide SegmentsOk, Print, Commit, LastSlash, PathValid, Find;
    FindByLookup(v.table, path);
    ParentByLookup(v.table, path);
    var table := v.table + [DirectoryEntry(path, [])];
    PrintSnoc(v.table, DirectoryEntry(path, []));
    CommitSucceedsIff(v, table);
  }

  /** In a directory that was just made a child can be made, if its path is valid and there
      is room. */
  lemma ChildCanBeMade(v: Volume, path: seq<byte>, name: seq<byte>, o: Outcome)
    requires NamespaceOk(v.table) && CreateDirectory(v, path, o).1
    requires IsTail(name) && PathValid(path + [SLASH] + name)
    ensures var w := CreateDirectory(v, path, o).0;
            GeometryOk(w) ==>
              (CreateDirectory(w, path + [SLASH] + name, Done).1 <==>
                 |w.table| < MAX_ENTRIES && |Print(w.table)| + |path| + |name| + 4 < MANIFEST_CAPACITY)
  {
    hide LastSlash, Find, IsChildOf, EntryOk, CreateDirectory, PathValid, Print, ListFrom;
    MakeTable(v, path, o);
    MakeMakesDirectory(v, path, o);
    var w := CreateDirectory(v, path, o).0;
    var child := path + [SLASH] + name;
    ValidIsLong(path);
    ChildIsChild(path, name);
    ChildsParent(child, path);
    NoChildren(v.table, path);
    if Lookup(v.table, child).Some? {
      LookupMember(v.table, child);
      FindByLookup(v.table, child);
      assert false;
    }
    if GeometryOk(w) { MakeSucceedsIff(w, child); }
  }

  lemma ChildIsChild(path: seq<byte>, name: seq<byte>)
    requires IsTail(name) && |path| >= 2
    ensures IsChildOf(path + [SLASH] + name, path) && path + [SLASH] + name != path
  {
    var child := path + [SLASH] + name;
    assert child[|path| + 1..] == name && child[..|path|] == path;
  }

  // ----- write

  /** A successful write leaves a file of that type and size under the path, in the parent's
      listing, and changes what no other path names. */
  lemma WriteMakesFile(v: Volume, path: seq<byte>, t: FileType, contents: seq<byte>, data: Outcome, meta: Outcome)
    requires NamespaceOk(v.table) && WriteBytes(v, path, t, contents, data, meta).1
    ensures var w := WriteBytes(v, path, t, contents, data, meta).0;
            && (exists lba: u64 :: Lookup(w.table, path) == Some(Entry(File, t, path, BaseName(path), lba, |contents|)))
            && (forall p :: p != path ==> Lookup(w.table, p) == Lookup(v.table, p))
            && |w.table| == |v.table| + (if Lookup(v.table, path).Some? then 0 else 1)
  {
    hide SegmentsOk, Print, BlockWrite, LastSlash, Place, ParentExists, Find, EntryOk;
    ValidPath(path);
    var found := Find(v.table, path);
    var n := SectorsFor(|contents|);
    var lba := Place(v, found, n).value;
    var e := FileEntry(path, t, lba, |contents|);
    var d := if n == 0 then v.disk else BlockWrite(v.disk, lba, n, Padded(contents), data).0;
    CommitTakes(v.(disk := d), WithFile(v.table, found, e), meta);
    FindByLookup(v.table, path);
    forall p ensures p != path ==> Lookup(WithFile(v.table, found, e), p) == Lookup(v.table, p) {
      LookupAfterFile(v.table, found, e, p);
    }
    LookupAfterFile(v.table, found, e, path);
  }

  // ----- remove

  lemma {:induction false} PrintLength(table: seq<Entry>, i: nat)
    requires i < |table|
    ensures |Print(table)| == |Print(Without(table, i))| + |LineOf(table[i])| + 1
    decreases |table|
  {
    hide LineOf;
    if i == 0 {
      assert Without(table, 0) == table[1..];
    } else {
      assert Without(table, i)[1..] == Without(table[1..], i - 1) && Without(table, i)[0] == table[0];
      PrintLength(table[1..], i - 1);
    }
  }

  /** On a working device remove succeeds exactly for a path that names a file or a directory
      without children, if the text of what is left fits. */
  lemma RemoveSucceedsIff(v: Volume, path: seq<byte>)
    requires GeometryOk(v)
    ensures Remove(v, path, Done).1 <==>
            && Lookup(v.table, path).Some?
            && (IsDirectoryEntry(Lookup(v.table, path)) ==> forall e :: e in v.table ==> !IsChildOf(e.path, path))
            && |Print(v.table)| - |LineOf(Lookup(v.table, path).value)| - 1 < MANIFEST_CAPACITY
  {
    hide Print, Commit, Find, IsChildOf, LineOf;
    FindByLookup(v.table, path);
    if Find(v.table, path).Some? {
      PrintLength(v.table, Find(v.table, path).value);
      CommitSucceedsIff(v, Without(v.table, Find(v.table, path).value));
    }
  }

  lemma OthersStay(table: seq<Entry>, i: nat)
    requires DistinctPaths(table) && i < |table|
    ensures forall e :: e in Without(table, i) <==> e in table && e.path != table[i].path
  {
    var t := Without(table, i);
    assert forall k :: 0 <= k < |t| ==> t[k] == table[if k < i then k else k + 1];
    forall e | e in table && e.path != table[i].path ensures e in t {
      var k :| 0 <= k < |table| && table[k] == e;
      assert t[if k < i then k else k - 1] == e;
    }
  }

  /** After a successful remove the path names nothing, every other entry is still there, and
      no other path changes. */
  lemma RemoveRemoves(v: Volume, path: seq<byte>, o: Outcome)
    requires NamespaceOk(v.table) && Remove(v, path, o).1
    ensures var w := Remove(v, path, o).0;
            && Lookup(w.table, path) == None && ReadFile(w, path) == None && |w.table| == |v.table| - 1
            && (forall p :: p != path ==> Lookup(w.table, p) == Lookup(v.table, p))
            && (forall e :: e in w.table <==> e in v.table && e.path != path)
  {
    hide Print, BlockWrite, Find, IsChildOf, EntryOk, LastSlash, ParentExists, Commit;
    FindByLookup(v.table, path);
    var i := Find(v.table, path).value;
    var t := Without(v.table, i);
    CommitTakes(v, t, o);
    forall p ensures p != path ==> Lookup(t, p) == Lookup(v.table, p) {
      LookupAfterRemove(v.table, i, p);
    }
    LookupAfterRemove(v.table, i, path);
    FindByLookup(t, path);
    OthersStay(v.table, i);
  }
}
