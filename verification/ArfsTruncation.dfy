/** What a manifest mounts to when its text does not fit the manifest sectors. */
module ArfsTruncation {
  import opened Words
  import opened Sequences
  import opened Wrappers
  import opened ArfsManifest
  import opened ArfsRemount
  import opened ArfsVolume
  import opened ArfsExtents
  import opened ArfsNamespace

  // ----- a cut line

  /** `n` without its last `m` decimal digits. */
  function DropDigits(n: nat, m: nat): (r: nat)
    ensures r <= n
  {
    if m == 0 then n else DropDigits(n / 10, m - 1)
  }

  /** What the first `k` bytes of the line of `e` stand for: a directory loses the end of
      its path, a file the end of its size, and a file without a size digit is no entry. */
  function CutEntry(e: Entry, k: nat, previous: seq<byte>): Option<Entry>
    requires k <= |LineOf(e)|
  {
    if e.kind == Directory then
      if k < 2 then None
      else Some(Entry(Directory, Binary, e.path[..k - 2], NameFor(e.path[..k - 2], previous), 0, 0))
    else if k + |Decimal(e.size)| <= |LineOf(e)| then None
    else Some(e.(size := DropDigits(e.size, |LineOf(e)| - k)))
  }

  lemma {:induction false} DecimalCut(n: u64, i: nat)
    requires 1 <= i <= |Decimal(n)|
    ensures ParseDecimal(Decimal(n)[..i]) == Some(DropDigits(n, |Decimal(n)| - i))
    decreases n
  {
    var s := Decimal(n);
    if i == |s| {
      assert s[..i] == s;
      DecimalRoundTrip(n);
    } else {
      assert s[..i] == Decimal(n / 10)[..i];
      DecimalCut(n / 10, i);
    }
  }

  /** The tokens of a text that ends in an unfinished word. */
  lemma LastToken(w: seq<byte>)
    requires forall i :: 0 <= i < |w| ==> w[i] != SPACE
    ensures NextToken(w) == (w, []) && NextToken([SPACE] + w) == (w, [])
  {
    assert w + [] == w && [SPACE] + w + [] == [SPACE] + w;
    if w == [] {
      assert SkipSpaces([SPACE]) == SkipSpaces([SPACE][1..]);
    } else {
      FirstToken(w, []);
      SpacedToken(w, []);
    }
  }

  /** The text of a file line behind its letter, up to the size. */
  function BeforeSize(p: seq<byte>, a: seq<byte>, b: seq<byte>): seq<byte> {
    p + [SPACE] + a + [SPACE] + b + [SPACE]
  }

  lemma CutFirst(p: seq<byte>, previous: seq<byte>)
    requires forall i :: 0 <= i < |p| ==> p[i] != SPACE
    ensures ParseFile(p, previous) == None
  {
    hide SkipSpaces, TokenLength;
    LastToken(p);
    LastToken([]);
  }

  lemma CutSecond(p: seq<byte>, a: seq<byte>, previous: seq<byte>)
    requires IsWord(p) && forall i :: 0 <= i < |a| ==> a[i] != SPACE
    ensures ParseFile(p + ([SPACE] + a), previous) == None
  {
    hide NextToken;
    FirstToken(p, [SPACE] + a);
    LastToken(a);
    LastToken([]);
  }

  lemma CutThird(p: seq<byte>, a: seq<byte>, b: seq<byte>, previous: seq<byte>)
    requires IsWord(p) && IsWord(a) && forall i :: 0 <= i < |b| ==> b[i] != SPACE
    ensures ParseFile(p + ([SPACE] + a + ([SPACE] + b)), previous) == None
  {
    hide NextToken;
    FirstToken(p, [SPACE] + a + ([SPACE] + b));
    SpacedToken(a, [SPACE] + b);
    LastToken(b);
    LastToken([]);
  }

  lemma CutFourth(p: seq<byte>, a: seq<byte>, b: seq<byte>, c: seq<byte>, previous: seq<byte>)
    requires IsWord(p) && IsWord(a) && IsWord(b) && forall i :: 0 <= i < |c| ==> c[i] != SPACE
    ensures var r := ParseFile(p + ([SPACE] + a + ([SPACE] + b + ([SPACE] + c))), previous);
            && (ParseDecimal(c).None? ==> r.None?)
            && (ParseDecimal(b).Some? && ParseDecimal(c).Some? && (a == TEXT || a == BINARY) && |p| < MAX_PATH ==>
                  r == Some(Entry(File, if a == TEXT then Text else Binary, p, NameFor(p, previous),
                                  ParseDecimal(b).value, ParseDecimal(c).value)))
  {
    hide NextToken, ParseDecimal;
    FirstToken(p, [SPACE] + a + ([SPACE] + b + ([SPACE] + c)));
    SpacedToken(a, [SPACE] + b + ([SPACE] + c));
    SpacedToken(b, [SPACE] + c);
    LastToken(c);
  }

  /** Before the first digit of the size nothing can be read. */
  lemma NoSizeNoFile(p: seq<byte>, a: seq<byte>, b: seq<byte>, j: nat, previous: seq<byte>)
    requires IsWord(p) && IsWord(a) && IsWord(b) && j <= |BeforeSize(p, a, b)|
    ensures ParseFile(BeforeSize(p, a, b)[..j], previous) == None
  {
    hide ParseFile, BeforeSize;
    var sa, sb := [SPACE] + a, [SPACE] + b;
    InParts(p, a, b);
    PrefixOfTwo(p, sa + (sb + [SPACE]), j);
    if j <= |p| {
      CutFirst(p[..j], previous);
    } else {
      var k := j - |p|;
      PrefixOfTwo(sa, sb + [SPACE], k);
      if k <= |sa| {
        SpacedPrefix(a, k);
        CutSecond(p, a[..k - 1], previous);
      } else {
        var m := k - |sa|;
        PrefixOfTwo(sb, [SPACE], m);
        if m <= |sb| {
          SpacedPrefix(b, m);
          CutThird(p, a, b[..m - 1], previous);
        } else {
          assert [SPACE][..1] == [SPACE] + [];
          CutFourth(p, a, b, [], previous);
        }
      }
    }
  }

  lemma SpacedPrefix(w: seq<byte>, k: nat)
    requires 1 <= k <= 1 + |w|
    ensures ([SPACE] + w)[..k] == [SPACE] + w[..k - 1]
  {
  }

  lemma InParts(p: seq<byte>, a: seq<byte>, b: seq<byte>)
    ensures BeforeSize(p, a, b) == p + (([SPACE] + a) + (([SPACE] + b) + [SPACE]))
  {
  }

  lemma CutDirectory(e: Entry, k: nat, previous: seq<byte>)
    requires WellFormed(e) && e.kind == Directory && k <= |LineOf(e)|
    ensures ParseLine(LineOf(e)[..k], previous) == CutEntry(e, k, previous)
  {
    hide NextToken, NameFor;
    if k >= 2 {
      var line := LineOf(e)[..k];
      assert line[0] == LETTER_D && line[1] == SPACE && line[2..] == e.path[..k - 2];
      LastToken(e.path[..k - 2]);
    }
  }

  lemma FileParts(e: Entry)
    requires WellFormed(e) && e.kind == File
    ensures var a, b, c := TypeText(e.fileType), Decimal(e.lba), Decimal(e.size);
            && IsWord(e.path) && IsWord(a) && IsWord(b) && IsWord(c) && ParseDecimal(b) == Some(e.lba)
            && LineOf(e) == [LETTER_F, SPACE] + BeforeSize(e.path, a, b) + c
  {
    hide Decimal, ParseDecimal;
    DecimalIsWord(e.lba);
    DecimalIsWord(e.size);
    DecimalRoundTrip(e.lba);
    var a, b, c := TypeText(e.fileType), Decimal(e.lba), Decimal(e.size);
    assert [LETTER_F, SPACE] + e.path + [SPACE] + a + [SPACE] + b + [SPACE] + c ==
           [LETTER_F, SPACE] + (e.path + [SPACE] + a + [SPACE] + b + [SPACE]) + c;
  }

  lemma FileBehindLetter(line: seq<byte>, s: seq<byte>, previous: seq<byte>)
    requires line == [LETTER_F, SPACE] + s
    ensures ParseLine(line, previous) == ParseFile(s, previous)
  {
    hide ParseFile;
    assert line[0] == LETTER_F && line[1] == SPACE && line[2..] == s;
  }

  lemma CutFile(e: Entry, k: nat, previous: seq<byte>)
    requires WellFormed(e) && e.kind == File && k <= |LineOf(e)|
    ensures ParseLine(LineOf(e)[..k], previous) == CutEntry(e, k, previous)
  {
    hide LineOf, Decimal, ParseDecimal, ParseLine, ParseFile, BeforeSize, WellFormed, IsWord, NameFor;
    FileParts(e);
    var a, b, c := TypeText(e.fileType), Decimal(e.lba), Decimal(e.size);
    var s := BeforeSize(e.path, a, b);
    var h := 2 + |s|;
    if k < 2 {
      TooShort(LineOf(e)[..k], previous);
    } else if k <= h {
      assert LineOf(e)[..k] == [LETTER_F, SPACE] + s[..k - 2];
      FileBehindLetter(LineOf(e)[..k], s[..k - 2], previous);
      NoSizeNoFile(e.path, a, b, k - 2, previous);
    } else {
      assert LineOf(e)[..k] == [LETTER_F, SPACE] + (s + c[..k - h]);
      FileBehindLetter(LineOf(e)[..k], s + c[..k - h], previous);
      DecimalCut(e.size, k - h);
      SizeIsCut(e, c[..k - h], previous);
    }
  }

  lemma TooShort(line: seq<byte>, previous: seq<byte>)
    requires |line| < 2
    ensures ParseLine(line, previous) == None
  {
  }

  lemma SizeIsCut(e: Entry, c: seq<byte>, previous: seq<byte>)
    requires WellFormed(e) && e.kind == File && ParseDecimal(c).Some? && forall i :: 0 <= i < |c| ==> c[i] != SPACE
    ensures ParseFile(BeforeSize(e.path, TypeText(e.fileType), Decimal(e.lba)) + c, previous)
            == Some(e.(size := ParseDecimal(c).value))
  {
    hide Decimal, ParseDecimal, ParseFile, LineOf, IsWord;
    FileParts(e);
    var a, b := TypeText(e.fileType), Decimal(e.lba);
    assert e.path + [SPACE] + a + [SPACE] + b + [SPACE] + c == e.path + ([SPACE] + a + ([SPACE] + b + ([SPACE] + c)));
    CutFourth(e.path, a, b, c, previous);
  }

  /** A cut line, read. */
  lemma CutLine(e: Entry, k: nat, previous: seq<byte>)
    requires WellFormed(e) && k <= |LineOf(e)|
    ensures ParseLine(LineOf(e)[..k], previous) == CutEntry(e, k, previous)
  {
    hide LineOf, ParseLine, CutEntry, WellFormed;
    if e.kind == Directory { CutDirectory(e, k, previous); } else { CutFile(e, k, previous); }
  }

  // ----- a cut table

  /** The table that the first `n` bytes of the text of `table` stand for, behind `found`. */
  function CutTable(table: seq<Entry>, n: nat, found: seq<Entry>, slots: Slots): Option<seq<Entry>>
    requires |found| + |table| <= MAX_ENTRIES
    decreases |table|
  {
    if table == [] || n == 0 then Some(found)
    else if n <= |LineOf(table[0])| then
      match CutEntry(table[0], n, slots[|found|].name)
      case None => None
      case Some(e) => Some(found + [e])
    else CutTable(table[1..], n - |LineOf(table[0])| - 1, found + [table[0]], slots)
  }

  lemma {:induction false} CutParses(table: seq<Entry>, n: nat, found: seq<Entry>, slots: Slots)
    requires (forall e :: e in table ==> WellFormed(e)) && |found| + |table| <= MAX_ENTRIES && n <= |Print(table)|
    ensures ParseFrom(Print(table)[..n], found, slots) == CutTable(table, n, found, slots)
    decreases |table|
  {
    hide LineOf, ParseLine, CutEntry, WellFormed;
    if table != [] && n > 0 {
      var e := table[0];
      assert e in table && forall x :: x in table[1..] ==> x in table;
      var line, rest := LineOf(e), Print(table[1..]);
      if n <= |line| {
        assert Print(table)[..n] == line[..n] + [];
        OneCutLine(e, n, found, slots);
      } else {
        var m := n - |line| - 1;
        assert Print(table)[..n] == line + ([LF] + rest[..m]);
        ParseOneLine(e, [LF] + rest[..m], found, slots);
        assert ([LF] + rest[..m])[1..] == rest[..m];
        CutParses(table[1..], m, found + [e], slots);
      }
    }
  }

  lemma OneCutLine(e: Entry, n: nat, found: seq<Entry>, slots: Slots)
    requires WellFormed(e) && 0 < n <= |LineOf(e)| && |found| < MAX_ENTRIES
    ensures ParseFrom(LineOf(e)[..n] + [], found, slots) ==
            match CutEntry(e, n, slots[|found|].name)
            case None => None
            case Some(x) => Some(found + [x])
  {
    hide LineOf, ParseLine, CutEntry, WellFormed;
    var s := LineOf(e)[..n];
    assert s + [] == s;
    LineIsPlain(e);
    LineLengthOf(s, []);
    assert s[0] == LineOf(e)[0] && s[..|s|] == s && s[|s|..] == [];
    CutLine(e, n, slots[|found|].name);
  }

  /** What `n` bytes of manifest mount to, for every table and every `n`: the entries whose
      lines are whole, then what is left of the line where the text stops.  If that is not
      an entry, or if there is no entry at all, the volume does not mount. */
  lemma MountsTo(table: seq<Entry>, n: nat, slots: Slots)
    requires WellFormedTable(table) && |Print(table)| < MANIFEST_CAPACITY && n <= MANIFEST_CAPACITY
    ensures ParseManifest(Image(table, n), slots) ==
            (var r := CutTable(table, n, [], slots); if r == Some([]) then None else r)
  {
    hide Print, WellFormed, ParseFrom, CutTable;
    if n <= |Print(table)| {
      assert Image(table, n) == Print(table)[..n];
      CutParses(table, n, [], slots);
    } else {
      WholeText(table, n, slots);
      WholeTable(table, n, [], slots);
      assert [] + table == table;
    }
  }

  /** After any operation that succeeded. */
  lemma SuccessMountsTo(v: Volume, table: seq<Entry>, o: Outcome, slots: Slots)
    requires GeometryOk(v) && WellFormedTable(table) && Commit(v, table, o).1
    ensures var w := Commit(v, table, o).0;
            var r := CutTable(table, v.geo.manifestSectors * 512, [], slots);
            w.table == table && Mount(w, slots) == if r == Some([]) then None else r
  {
    hide Print, WellFormed, ParseManifest, Image, BlockWrite, CutTable;
    assert o == Done by { CommitNeedsDone(v, table, o); }
    ManifestOnDisk(v, table);
    MountsTo(table, v.geo.manifestSectors * 512, slots);
  }

  lemma {:induction false} WholeTable(table: seq<Entry>, n: nat, found: seq<Entry>, slots: Slots)
    requires |found| + |table| <= MAX_ENTRIES && n >= |Print(table)|
    ensures CutTable(table, n, found, slots) == Some(found + table)
    decreases |table|
  {
    hide LineOf, CutEntry;
    if table == [] {
      assert found + table == found;
    } else {
      WholeTable(table[1..], n - |LineOf(table[0])| - 1, found + [table[0]], slots);
      assert found + [table[0]] + table[1..] == found + table;
    }
  }

  // ----- a volume that forgets

  function LetterPath(c: byte): (path: seq<byte>)
    ensures |path| == 21 && path[0] == SLASH && forall k :: 1 <= k < 21 ==> path[k] == c
  {
    [SLASH] + seq(20, _ => c)
  }

  function LetterDirectory(i: nat): Entry
    requires i < 26
  {
    DirectoryEntry(LetterPath(97 + i), [])
  }

  /** Twenty-three directories with names of twenty letters. */
  function Directories(): seq<Entry> {
    seq(23, i requires 0 <= i < 23 => LetterDirectory(i))
  }

  /** One manifest sector behind the superblock. */
  function SmallVolume(): Volume {
    Volume(Geometry(4, 1, 5), Directories(), seq(6, _ => seq(512, _ => 0)))
  }

  const FILE_PATH: seq<byte> := [SLASH, 102]

  lemma {:induction false} LetterSegments(path: seq<byte>, index: nat)
    requires |path| <= 21 && 1 <= index <= |path| && |path| >= 2
    requires path[0] == SLASH && forall k :: 1 <= k < |path| ==> path[k] != SLASH && path[k] != SPACE
    ensures SegmentsOk(path, index, index - 1)
    decreases |path| - index
  {
    if index < |path| { LetterSegments(path, index + 1); }
  }

  lemma LetterPathValid(path: seq<byte>)
    requires 2 <= |path| <= 21 && path[0] == SLASH
    requires forall k :: 1 <= k < |path| ==> 97 <= path[k] <= 122
    ensures PathValid(path) && LastSlash(path) == 0 && Clean(path)
  {
    LetterSegments(path, 1);
    LastSlashIs(path);
    assert path[LastSlash(path)] == SLASH;
  }

  lemma SmallVolumeOk()
    ensures var v := SmallVolume();
            ExtentsOk(v) && NamespaceOk(v.table) && CleanTable(v.table)
  {
    hide LetterPath, PathValid, Clean, LastSlash;
    var t := Directories();
    forall e | e in t ensures EntryOk(e) && Clean(e.path) && LastSlash(e.path) == 0 && EntrySectors(e) == 0 {
      var i :| 0 <= i < |t| && t[i] == e;
      LetterOk(i);
    }
    forall i, j | 0 <= i < j < |t| ensures t[i].path != t[j].path {
      assert LetterPath(97 + i)[1] != LetterPath(97 + j)[1];
    }
    assert DistinctPaths(t);
  }

  lemma LetterOk(i: nat)
    requires i < 26
    ensures var e := LetterDirectory(i);
            EntryOk(e) && Clean(e.path) && LastSlash(e.path) == 0 && |LineOf(e)| == 23
  {
    hide SegmentsOk, LastSlash;
    LetterPathValid(LetterPath(97 + i));
    ValidPath(LetterPath(97 + i));
  }

  /** Lines of 23 bytes, passed over. */
  lemma {:induction false} PassLines(table: seq<Entry>, j: nat, n: nat, found: seq<Entry>, slots: Slots)
    requires |found| + |table| <= MAX_ENTRIES && j <= |table| && 24 * j <= n
    requires forall i :: 0 <= i < j ==> |LineOf(table[i])| == 23
    ensures CutTable(table, n, found, slots) == CutTable(table[j..], n - 24 * j, found + table[..j], slots)
    ensures |Print(table)| == 24 * j + |Print(table[j..])|
    decreases j
  {
    hide LineOf, CutEntry;
    if j == 0 {
      assert table[0..] == table && found + table[..0] == found;
    } else {
      PassLines(table[1..], j - 1, n - 24, found + [table[0]], slots);
      assert table[1..][j - 1..] == table[j..];
      assert found + [table[0]] + table[1..][..j - 1] == found + table[..j];
    }
  }

  function FullTable(): seq<Entry> {
    Directories() + [FileEntry(FILE_PATH, Text, 0, 0)]
  }

  lemma FileFits()
    ensures PathValid(FILE_PATH) && LastSlash(FILE_PATH) == 0 && Clean(FILE_PATH)
    ensures EntryOk(FileEntry(FILE_PATH, Text, 0, 0)) && |LineOf(FileEntry(FILE_PATH, Text, 0, 0))| == 13
  {
    hide LastSlash, SegmentsOk;
    LetterPathValid(FILE_PATH);
    ValidPath(FILE_PATH);
    assert |Decimal(0)| == 1;
  }

  lemma FullTableOk(slots: Slots)
    ensures |Print(FullTable())| == 566 && WellFormedTable(FullTable())
    ensures CutTable(FullTable(), 512, [], slots) == CutTable(FullTable()[21..], 8, Directories()[..21], slots)
  {
    hide Print, LineOf, CutTable, WellFormed, Directories, EntryOk, Clean;
    var t := FullTable();
    var file := FileEntry(FILE_PATH, Text, 0, 0);
    FileFits();
    EntryIsWellFormed(file);
    DirectoriesOk();
    assert |t| == 24 && t[23] == file && forall i :: 0 <= i < 23 ==> t[i] == Directories()[i];
    PassLines(t, 23, 552, [], slots);
    PassLines(t, 21, 512, [], slots);
    assert t[23..] == [file] && [] + t[..21] == Directories()[..21];
    PrintOne(file);
  }

  lemma DirectoriesOk()
    ensures |Directories()| == 23
    ensures forall i :: 0 <= i < 23 ==> |LineOf(Directories()[i])| == 23 && WellFormed(Directories()[i])
  {
    hide LineOf, EntryOk, Clean, WellFormed, LetterDirectory, LastSlash;
    forall i | 0 <= i < 23
      ensures |LineOf(Directories()[i])| == 23 && WellFormed(Directories()[i])
    {
      LetterOk(i);
      EntryIsWellFormed(LetterDirectory(i));
    }
  }

  lemma PrintOne(e: Entry)
    ensures Print([e]) == LineOf(e) + [LF]
  {
    hide LineOf;
    assert [e][1..] == [] && LineOf(e) + [LF] + [] == LineOf(e) + [LF];
  }

  lemma SmallWrite(slots: Slots)
    ensures WriteBytes(SmallVolume(), FILE_PATH, Text, [], Done, Done) == Commit(SmallVolume(), FullTable(), Done)
    ensures Commit(SmallVolume(), FullTable(), Done).1
  {
    hide Print, PathValid, LastSlash, Clean, Directories, LineOf, WellFormedTable, CutTable, EntryOk, NameFor, Image;
    FileFits();
    FullTableOk(slots);
    NotThere();
    var v := SmallVolume();
    assert Persist(v.geo, v.disk, FullTable(), Done).1;
  }

  lemma NotThere()
    ensures |Directories()| == 23 && Find(Directories(), FILE_PATH).None?
  {
    hide LetterPath, Find;
    var t := Directories();
    assert forall i :: 0 <= i < |t| ==> |t[i].path| == 21;
  }

  /** The empty file is written without an error, and a mount of the same disk knows 21
      directories, a directory that nobody made, and no file. */
  lemma WriteIsForgotten(slots: Slots)
    ensures var v := SmallVolume();
            var (w, ok) := WriteBytes(v, FILE_PATH, Text, [], Done, Done);
            && ExtentsOk(v) && NamespaceOk(v.table) && CleanTable(v.table) && ok
            && w.table == v.table + [FileEntry(FILE_PATH, Text, 0, 0)]
            && Mount(w, slots) == Some(v.table[..21] + [DirectoryEntry(LetterPath(97 + 21)[..6], slots[21].name)])
            && Mount(w, slots) != Some(w.table)
  {
    hide ExtentsOk, NamespaceOk, CleanTable, Print, Mount, LetterPath, CutTable, Commit, WriteBytes, WellFormed;
    var v := SmallVolume();
    SmallVolumeOk();
    SmallWrite(slots);
    FullTableOk(slots);
    assert GeometryOk(v);
    SuccessMountsTo(v, FullTable(), Done, slots);
    CutAtEight(slots);
    assert |v.table[..21] + [DirectoryEntry(LetterPath(97 + 21)[..6], slots[21].name)]| == 22;
    assert |FullTable()| == 24;
  }

  lemma CutAtEight(slots: Slots)
    ensures CutTable(FullTable()[21..], 8, Directories()[..21], slots)
            == Some(Directories()[..21] + [DirectoryEntry(LetterPath(97 + 21)[..6], slots[21].name)])
  {
    hide LetterPath, NameFor, EntryOk, Clean, LastSlash;
    LetterOk(21);
    assert FullTable()[21..][0] == LetterDirectory(21);
  }
}
