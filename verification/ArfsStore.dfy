/** The static context of kernel/arfs.c as an object: an in-place entry table, the
    manifest buffer and the block device.  Every method is proved against the
    function of the same name in `ArfsVolume`. */
module ArfsStore {
  import opened Words
  import opened Sequences
  import opened Wrappers
  import opened ArfsManifest
  import opened ArfsRemount
  import opened ArfsVolume
  import opened ArfsNamespace

  /** A block device whose writes may fail; `outcomes` decides each one. */
  class BlockDevice {
    var sectors: Disk
    var writes: nat
    const outcomes: nat -> Outcome

    constructor (disk: Disk, script: nat -> Outcome)
      ensures sectors == disk && outcomes == script && writes == 0
    {
      sectors, outcomes, writes := disk, script, 0;
    }

    method Write(lba: u64, count: nat, buffer: seq<byte>) returns (ok: bool)
      modifies this
      ensures (sectors, ok) == BlockWrite(old(sectors), lba, count, buffer, outcomes(old(writes)))
      ensures writes == old(writes) + 1
    {
      var (d, done) := BlockWrite(sectors, lba, count, buffer, outcomes(writes));
      sectors, ok := d, done;
      writes := writes + 1;
    }
  }

  const BLANK: Entry := Entry(Directory, Binary, [], [], 0, 0)

  class Store {
    const device: BlockDevice
    const entries: array<Entry>
    const manifest: array<byte>
    var entryCount: nat
    var geo: Geometry

    ghost const Repr: set<object> := {this, device, entries, manifest}

    ghost predicate Valid()
      reads this, entries
    {
      entries.Length == MAX_ENTRIES && manifest.Length == MANIFEST_CAPACITY &&
      entryCount <= MAX_ENTRIES
    }

    ghost function View(): Volume
      requires Valid()
      reads this, device, entries
    {
      Volume(geo, entries[..entryCount], device.sectors)
    }

    /** The outcome of the next device write. */
    ghost function NextOutcome(): Outcome
      reads device
    {
      device.outcomes(device.writes)
    }

    constructor (d: BlockDevice, geometry: Geometry)
      ensures Valid() && device == d && geo == geometry && View() == Volume(geometry, [], d.sectors)
      ensures fresh(entries) && fresh(manifest)
    {
      device, geo := d, geometry;
      entries := new Entry[MAX_ENTRIES](_ => BLANK);
      manifest := new byte[MANIFEST_CAPACITY](_ => 0);
      entryCount := 0;
    }

    // ----- printing into the manifest buffer

    /** The buffer holds `text`, then zeros. */
    ghost predicate Printed(text: seq<byte>)
      reads manifest
    {
      manifest.Length == MANIFEST_CAPACITY && |text| < MANIFEST_CAPACITY &&
      manifest[..] == text + Zeros(MANIFEST_CAPACITY - |text|)
    }

    method PutByte(offset: nat, c: byte, ghost before: seq<byte>)
      requires Printed(before) && offset == |before| && offset + 1 < MANIFEST_CAPACITY
      modifies manifest
      ensures Printed(before + [c])
    {
      ghost var m := manifest[..];
      manifest[offset] := c;
      assert manifest[..] == m[offset := c];
    }

    method PutText(offset: nat, text: seq<byte>, ghost before: seq<byte>) returns (ok: bool, end: nat)
      requires Printed(before) && offset == |before|
      modifies manifest
      ensures ok == (text == [] || offset + |text| < MANIFEST_CAPACITY)
      ensures ok ==> end == offset + |text| && Printed(before + text)
    {
      var index := 0;
      assert before + text[..0] == before;
      while index < |text|
        invariant index <= |text| && Printed(before + text[..index])
      {
        if offset + index + 1 >= MANIFEST_CAPACITY {
          return false, offset + index;
        }
        PutByte(offset + index, text[index], before + text[..index]);
        assert before + text[..index] + [text[index]] == before + text[..index + 1];
        index := index + 1;
      }
      assert text[..index] == text;
      return true, offset + |text|;
    }

    /** The digits are found from the right and copied from the left. */
    method Digits(value: u64) returns (text: seq<byte>)
      ensures text == Decimal(value)
    {
      var rest := value;
      text := [];
      while rest >= 10
        invariant Decimal(value) == Decimal(rest) + text
        decreases rest
      {
        text := [ZERO + rest % 10] + text;
        rest := rest / 10;
      }
      text := [ZERO + rest] + text;
    }

    method PutFields(offset: nat, e: Entry, ghost before: seq<byte>) returns (ok: bool, end: nat)
      requires Printed(before) && offset == |before|
      modifies manifest
      ensures ok == (offset + |FieldsOf(e)| < MANIFEST_CAPACITY)
      ensures ok ==> end == offset + |FieldsOf(e)| && Printed(before + FieldsOf(e))
    {
      hide Printed, Decimal;
      var a := [SPACE] + TypeText(e.fileType) + [SPACE];
      ok, end := PutText(offset, a, before);
      if !ok { return; }
      var lba := Digits(e.lba);
      ok, end := PutText(end, lba, before + a);
      if !ok { return; }
      ok, end := PutText(end, [SPACE], before + a + lba);
      if !ok { return; }
      var size := Digits(e.size);
      ok, end := PutText(end, size, before + a + lba + [SPACE]);
      assert before + a + lba + [SPACE] + size == before + (a + lba + [SPACE] + size);
    }

    method PutEntry(offset: nat, e: Entry, ghost before: seq<byte>) returns (ok: bool, end: nat)
      requires Printed(before) && offset == |before|
      modifies manifest
      ensures ok == (offset + |LineOf(e)| + 1 < MANIFEST_CAPACITY)
      ensures ok ==> end == offset + |LineOf(e)| + 1 && Printed(before + (LineOf(e) + [LF]))
    {
      hide Printed, FieldsOf, LineOf;
      LineInParts(e);
      var a := if e.kind == Directory then [LETTER_D, SPACE] else [LETTER_F, SPACE];
      ok, end := PutText(offset, a, before);
      if !ok { return; }
      ok, end := PutText(end, e.path, before + a);
      if !ok { return; }
      ghost var line := a + e.path;
      Associative(before, a, e.path);
      if e.kind == File {
        ok, end := PutFields(end, e, before + line);
        if !ok { return; }
        Associative(before, line, FieldsOf(e));
        line := line + FieldsOf(e);
      }
      ok, end := PutText(end, [LF], before + line);
      Associative(before, line, [LF]);
    }

    /** Prints the table into the zeroed buffer and writes the manifest sectors. */
    method PersistManifest() returns (ok: bool)
      requires Valid()
      modifies manifest, device
      ensures Valid()
      ensures (device.sectors, ok) == Persist(geo, old(device.sectors), old(View()).table, old(NextOutcome()))
    {
      hide Printed, LineOf;
      ghost var table := entries[..entryCount];
      Zero();
      var offset := 0;
      var index := 0;
      while index < entryCount
        invariant index <= entryCount && table == entries[..entryCount]
        invariant offset == |Print(table[..index])| && Printed(Print(table[..index]))
        invariant unchanged(device)
      {
        ghost var before := Print(table[..index]);
        assert table[..index + 1] == table[..index] + [table[index]];
        PrintSnoc(table[..index], table[index]);
        PrintGrows(table, index);
        ok, offset := PutEntry(offset, entries[index], before);
        if !ok {
          return;
        }
        assert before + (LineOf(table[index]) + [LF]) == before + LineOf(table[index]) + [LF];
        index := index + 1;
      }
      assert table[..index] == table;
      PrintedIsImage(table);
      ok := device.Write(geo.manifestLba, geo.manifestSectors, manifest[..]);
    }

    lemma PrintedIsImage(table: seq<Entry>)
      requires Printed(Print(table))
      ensures |Print(table)| < MANIFEST_CAPACITY
      ensures manifest[..] == Image(table, MANIFEST_CAPACITY)
    {
    }

    method Zero()
      requires manifest.Length == MANIFEST_CAPACITY
      modifies manifest
      ensures Printed(Print([]))
    {
      var index := 0;
      while index < MANIFEST_CAPACITY
        invariant index <= MANIFEST_CAPACITY
        invariant forall k :: 0 <= k < index ==> manifest[k] == 0
      {
        manifest[index] := 0;
        index := index + 1;
      }
    }

    // ----- the entry table

    method FindEntry(path: seq<byte>) returns (found: Option<nat>)
      requires Valid()
      ensures found == Find(View().table, path)
    {
      var index := 0;
      ghost var table := View().table;
      while index < entryCount
        invariant index <= entryCount && FindFrom(table, path, 0) == FindFrom(table, path, index)
      {
        if entries[index].path == path {
          return Some(index);
        }
        index := index + 1;
      }
      return None;
    }

    method ParentDirectoryExists(path: seq<byte>) returns (ok: bool)
      requires Valid()
      ensures ok == ParentExists(View().table, path)
    {
      var slash := LastSlash(path);
      if slash == 0 {
        return true;
      }
      var found := FindEntry(path[..slash]);
      ok := found.Some? && entries[found.value].kind == Directory;
    }

    method SectorRangeIsFree(first: u64, count: nat) returns (ok: bool)
      requires Valid()
      ensures ok == RangeFree(View().table, first, count)
    {
      hide EntrySectors, U64;
      var index := 0;
      while index < entryCount
        invariant index <= entryCount
        invariant forall k :: 0 <= k < index ==> !Overlaps(entries[k], first, count)
      {
        var e := entries[index];
        if Overlaps(e, first, count) {
          assert e in View().table;
          return false;
        }
        index := index + 1;
      }
      return true;
    }

    /** First fit. */
    method AllocateSectors(count: nat) returns (first: Option<u64>)
      requires Valid()
      ensures first == Allocate(View(), count)
    {
      hide RangeFree;
      if count == 0 || count > |device.sectors| || geo.dataLba > |device.sectors| - count {
        return None;
      }
      var last: u64 := |device.sectors| - count;
      var candidate: u64 := geo.dataLba;
      ghost var table := View().table;
      while candidate <= last
        invariant FirstFree(table, geo.dataLba, last, count) == FirstFree(table, candidate, last, count)
        decreases last - candidate
      {
        var free := SectorRangeIsFree(candidate, count);
        if free {
          return Some(candidate);
        }
        if candidate == last {
          return None;
        }
        candidate := candidate + 1;
      }
      return None;
    }

    // ----- operations

    method CreateDirectory(path: seq<byte>) returns (ok: bool)
      requires Valid()
      modifies Repr
      ensures Valid()
      ensures (View(), ok) == ArfsVolume.CreateDirectory(old(View()), path, old(NextOutcome()))
    {
      hide PathValid, Persist, ParentExists;
      var found := FindEntry(path);
      var parent := ParentDirectoryExists(path);
      if !PathValid(path) || found.Some? || !parent || entryCount >= MAX_ENTRIES {
        return false;
      }
      ghost var table := View().table;
      var e := DirectoryEntry(path, entries[entryCount].name);
      assert e == DirectoryEntry(path, []) by { ValidPath(path); }
      entries[entryCount] := e;
      entryCount := entryCount + 1;
      assert entries[..entryCount] == table + [e];
      ok := PersistManifest();
      if !ok {
        entryCount := entryCount - 1;
      }
      assert entries[..entryCount] == if ok then table + [e] else table;
    }

    /** The outcome of the manifest write of a file write. */
    ghost function MetaOutcome(size: nat): Outcome
      requires size < M64
      reads device
    {
      device.outcomes(device.writes + if SectorsFor(size) == 0 then 0 else 1)
    }

    method WriteBytes(path: seq<byte>, t: FileType, contents: seq<byte>) returns (ok: bool)
      requires Valid() && |contents| < M64
      modifies Repr
      ensures Valid()
      ensures (View(), ok) == ArfsVolume.WriteBytes(old(View()), path, t, contents,
                                                    old(NextOutcome()), old(MetaOutcome(|contents|)))
    {
      hide PathValid, Persist, ParentExists, BlockWrite, Place, SectorsFor, EntrySectors, Padded;
      var parent := ParentDirectoryExists(path);
      if !PathValid(path) || !parent || |contents| >= FILE_BUFFER || |contents| > WRITE_BUFFER {
        return false;
      }
      var found := FindEntry(path);
      if found.Some? && entries[found.value].kind != File {
        return false;
      }
      if found.None? && entryCount >= MAX_ENTRIES {
        return false;
      }
      var sectors := SectorsFor(|contents|);
      var place := PlaceFor(found, sectors);
      if place.None? {
        return false;
      }
      if sectors != 0 {
        ok := device.Write(place.value, sectors, Padded(contents));
        if !ok {
          return;
        }
      }
      ok := CommitFile(path, t, place.value, |contents|, found);
    }

    method PlaceFor(found: Option<nat>, sectors: nat) returns (lba: Option<u64>)
      requires Valid() && (found.Some? ==> found.value < entryCount)
      ensures lba == Place(View(), found, sectors)
    {
      hide EntrySectors;
      if sectors == 0 {
        return Some(0);
      }
      var current := if found.None? then 0 else EntrySectors(entries[found.value]);
      if current >= sectors {
        return Some(entries[found.value].lba);
      }
      lba := AllocateSectors(sectors);
    }

    /** Puts the entry in place, persists, and takes it back if that failed. */
    method CommitFile(path: seq<byte>, t: FileType, lba: u64, size: u64, found: Option<nat>)
      returns (ok: bool)
      requires Valid() && PathValid(path) && found == Find(View().table, path)
      requires found.None? ==> entryCount < MAX_ENTRIES
      modifies this, entries, manifest, device
      ensures Valid()
      ensures (View(), ok) == Commit(old(View()), WithFile(old(View()).table, found, FileEntry(path, t, lba, size)),
                                     old(NextOutcome()))
    {
      hide PathValid, Persist, Find;
      ghost var table := View().table;
      var slot := if found.Some? then found.value else entryCount;
      var previous := entries[slot];
      var e := Entry(File, t, path, NameFor(path, previous.name), lba, size);
      assert e == FileEntry(path, t, lba, size) by { ValidPath(path); }
      entries[slot] := e;
      if found.None? {
        entryCount := entryCount + 1;
      }
      assert entries[..entryCount] == WithFile(table, found, e);
      ok := PersistManifest();
      if !ok {
        if found.None? {
          entryCount := entryCount - 1;
        } else {
          entries[slot] := previous;
        }
        assert entries[..entryCount] == table;
      }
    }

    method HasChild(path: seq<byte>) returns (ok: bool)
      requires Valid()
      ensures ok == HasChildren(View().table, path)
    {
      hide IsChildOf;
      var index := 0;
      while index < entryCount
        invariant index <= entryCount
        invariant forall k :: 0 <= k < index ==> !IsChildOf(entries[k].path, path)
      {
        if IsChildOf(entries[index].path, path) {
          assert entries[index] in View().table;
          return true;
        }
        index := index + 1;
      }
      return false;
    }

    /** Closes the gap at `at`. */
    method ShiftDown(at: nat)
      requires Valid() && at < entryCount
      modifies this`entryCount, entries
      ensures Valid() && entryCount == old(entryCount) - 1
      ensures entries[..entryCount] == Without(old(entries[..entryCount]), at)
    {
      var index := at;
      while index + 1 < entryCount
        invariant at <= index < entryCount == old(entryCount)
        invariant forall k :: 0 <= k < entryCount ==>
                    entries[k] == if at <= k < index then old(entries[k + 1]) else old(entries[k])
      {
        entries[index] := entries[index + 1];
        index := index + 1;
      }
      entryCount := entryCount - 1;
    }

    /** Opens a gap at `at` and puts `e` there. */
    method ShiftUp(at: nat, e: Entry)
      requires Valid() && at <= entryCount < MAX_ENTRIES
      modifies this`entryCount, entries
      ensures Valid() && entryCount == old(entryCount) + 1
      ensures var t := old(entries[..entryCount]);
              entries[..entryCount] == t[..at] + [e] + t[at..]
    {
      ghost var t := entries[..entryCount];
      var index := entryCount;
      while index > at
        invariant at <= index <= |t| == entryCount == old(entryCount)
        invariant forall k :: 0 <= k < index ==> entries[k] == t[k]
        invariant forall k :: index < k <= |t| ==> entries[k] == t[k - 1]
      {
        entries[index] := entries[index - 1];
        index := index - 1;
      }
      entries[at] := e;
      entryCount := entryCount + 1;
      WithGap(entries[..entryCount], t, at, e);
    }

    method Remove(path: seq<byte>) returns (ok: bool)
      requires Valid()
      modifies Repr
      ensures Valid()
      ensures (View(), ok) == ArfsVolume.Remove(old(View()), path, old(NextOutcome()))
    {
      hide Persist, Find, HasChildren;
      var found := FindEntry(path);
      if found.None? {
        return false;
      }
      var at := found.value;
      if entries[at].kind == Directory {
        var busy := HasChild(path);
        if busy {
          return false;
        }
      }
      ghost var table := View().table;
      var removed := entries[at];
      ShiftDown(at);
      ok := PersistManifest();
      if !ok {
        ShiftUp(at, removed);
        assert entries[..entryCount] == table by { Reinserted(table, at); }
      }
    }

    method ListDirectory(dir: seq<byte>) returns (r: Option<seq<Listing>>)
      requires Valid()
      ensures r == List(View(), dir)
    {
      hide IsChildOf;
      if dir != [SLASH] {
        var found := FindEntry(dir);
        if found.None? || entries[found.value].kind != Directory {
          return None;
        }
      }
      var listing: seq<Listing> := [];
      var index := 0;
      ghost var table := View().table;
      while index < entryCount
        invariant index <= entryCount
        invariant ListFrom(table, dir, 0) == listing + ListFrom(table, dir, index)
      {
        if IsChildOf(entries[index].path, dir) {
          listing := listing + [ItemOf(entries[index])];
        }
        index := index + 1;
      }
      assert listing + [] == listing;
      return Some(listing);
    }

    // ----- mounting

    /** Every free slot still has its name. */
    ghost predicate NamesFrom(slots: Slots)
      requires Valid()
      reads Repr
    {
      forall k :: entryCount <= k < MAX_ENTRIES ==> entries[k].name == slots[k].name
    }

    /** One line of the manifest becomes the next entry, if it is one and there is room. */
    method TakeLine(line: seq<byte>, ghost slots: Slots) returns (ok: bool)
      requires Valid() && NamesFrom(slots)
      modifies this`entryCount, entries
      ensures Valid() && NamesFrom(slots)
      ensures ok == (old(entryCount) < MAX_ENTRIES && ParseLine(line, slots[old(entryCount)].name).Some?)
      ensures ok ==> entries[..entryCount]
                     == old(entries[..entryCount]) + [ParseLine(line, slots[old(entryCount)].name).value]
    {
      hide ParseLine;
      var previous := if entryCount < MAX_ENTRIES then entries[entryCount].name else [];
      var e := ParseEntry(line, previous);
      if e.None? || entryCount >= MAX_ENTRIES {
        return false;
      }
      entries[entryCount] := e.value;
      entryCount := entryCount + 1;
      ok := true;
    }

    /** Reads the first `size` bytes of the manifest buffer into the entry table. */
    method ParseManifest(size: nat) returns (ok: bool)
      requires Valid() && size <= MANIFEST_CAPACITY
      modifies this`entryCount, entries
      ensures Valid()
      ensures var r := ArfsManifest.ParseManifest(old(manifest[..size]), old(entries[..]));
              ok == r.Some? && (ok ==> entries[..entryCount] == r.value)
    {
      hide ParseLine, ParseFrom, LineLength;
      ghost var slots: Slots := entries[..];
      var m := manifest[..size];
      entryCount := 0;
      var cursor := 0;
      assert m[0..] == m;
      while cursor < size && m[cursor] != NUL
        invariant cursor <= size && Valid() && NamesFrom(slots)
        invariant ParseFrom(m, [], slots) == ParseFrom(m[cursor..], entries[..entryCount], slots)
        decreases size - cursor
      {
        ParseTurn(m[cursor..], entries[..entryCount], slots);
        if m[cursor] == LF || m[cursor] == CR {
          assert m[cursor..][1..] == m[cursor + 1..];
          cursor := cursor + 1;
        } else {
          var end := LineEnd(m, cursor);
          assert m[cursor..][..end - cursor] == m[cursor..end] && m[cursor..][end - cursor..] == m[end..];
          ok := TakeLine(m[cursor..end], slots);
          if !ok {
            return;
          }
          cursor := end;
        }
      }
      ParseTurn(m[cursor..], entries[..entryCount], slots);
      ok := entryCount > 0;
    }
  }

  lemma WithGap(s: seq<Entry>, t: seq<Entry>, at: nat, e: Entry)
    requires |s| == |t| + 1 && at <= |t| && s[at] == e
    requires forall k :: 0 <= k < at ==> s[k] == t[k]
    requires forall k :: at < k <= |t| ==> s[k] == t[k - 1]
    ensures s == t[..at] + [e] + t[at..]
  {
  }

  /** The parser, unfolded once. */
  lemma ParseTurn(s: seq<byte>, found: seq<Entry>, slots: Slots)
    ensures ParseFrom(s, found, slots) ==
            if s == [] || s[0] == NUL then Some(found)
            else if s[0] == LF || s[0] == CR then ParseFrom(s[1..], found, slots)
            else if |found| >= MAX_ENTRIES then None
            else
              match ParseLine(s[..LineLength(s)], slots[|found|].name)
              case None => None
              case Some(e) => ParseFrom(s[LineLength(s)..], found + [e], slots)
  {
    hide ParseLine, LineLength;
  }

  /** What follows the path in the line of a file. */
  function FieldsOf(e: Entry): seq<byte> {
    [SPACE] + TypeText(e.fileType) + [SPACE] + Decimal(e.lba) + [SPACE] + Decimal(e.size)
  }

  lemma LineInParts(e: Entry)
    ensures e.kind == Directory ==> LineOf(e) == [LETTER_D, SPACE] + e.path
    ensures e.kind == File ==> LineOf(e) == [LETTER_F, SPACE] + e.path + FieldsOf(e)
  {
    hide Decimal, TypeText;
    if e.kind == File {
      var t, b, c := TypeText(e.fileType), Decimal(e.lba), Decimal(e.size);
      assert [LETTER_F, SPACE] + e.path + [SPACE] + t + [SPACE] + b + [SPACE] + c ==
             [LETTER_F, SPACE] + e.path + ([SPACE] + t + [SPACE] + b + [SPACE] + c);
    }
  }

  /** `path_is_valid`: one pass that counts the characters of the current component. */
  method PathIsValid(path: seq<byte>) returns (ok: bool)
    ensures ok == PathValid(path)
  {
    if |path| < 2 || |path| >= MAX_PATH || path[0] != SLASH || path[|path| - 1] == SLASH {
      return false;
    }
    var segment := 0;
    var index := 1;
    while index < |path|
      invariant 1 <= index <= |path| && SegmentsOk(path, 1, 0) == SegmentsOk(path, index, segment)
    {
      if path[index] == SPACE || (path[index] == SLASH && path[index - 1] == SLASH) {
        return false;
      }
      if path[index] == SLASH {
        if segment == 0 || segment >= MAX_NAME {
          return false;
        }
        segment := 0;
      } else {
        segment := segment + 1;
      }
      index := index + 1;
    }
    ok := 0 < segment < MAX_NAME;
  }

  lemma Reinserted(table: seq<Entry>, at: nat)
    requires at < |table|
    ensures var t := Without(table, at); t[..at] + [table[at]] + t[at..] == table
  {
  }

  /** Where the line that starts at `cursor` ends. */
  method LineEnd(m: seq<byte>, cursor: nat) returns (end: nat)
    requires cursor <= |m|
    ensures cursor <= end <= |m| && end - cursor == LineLength(m[cursor..])
  {
    end := cursor;
    while end < |m| && m[end] != LF && m[end] != CR && m[end] != NUL
      invariant cursor <= end <= |m|
      invariant LineLength(m[cursor..]) == end - cursor + LineLength(m[end..])
    {
      assert m[end..][1..] == m[end + 1..];
      end := end + 1;
    }
  }

  method SkipBlanks(s: seq<byte>, cursor: nat) returns (start: nat)
    requires cursor <= |s|
    ensures cursor <= start <= |s| && s[start..] == SkipSpaces(s[cursor..])
  {
    start := cursor;
    while start < |s| && s[start] == SPACE
      invariant cursor <= start <= |s| && SkipSpaces(s[cursor..]) == SkipSpaces(s[start..])
    {
      assert s[start..][1..] == s[start + 1..];
      start := start + 1;
    }
  }

  method ScanToken(s: seq<byte>, cursor: nat) returns (token: seq<byte>, next: nat)
    requires cursor <= |s|
    ensures next <= |s| && (token, s[next..]) == NextToken(s[cursor..])
  {
    hide SkipSpaces;
    var start := SkipBlanks(s, cursor);
    next := start;
    while next < |s| && s[next] != SPACE
      invariant start <= next <= |s|
      invariant TokenLength(s[start..]) == next - start + TokenLength(s[next..])
    {
      assert s[next..][1..] == s[next + 1..];
      next := next + 1;
    }
    token := s[start..next];
    assert s[start..][..next - start] == token && s[start..][next - start..] == s[next..];
  }

  method ScanDecimal(s: seq<byte>) returns (r: Option<u64>)
    ensures r == ParseDecimal(s)
  {
    if s == [] {
      return None;
    }
    var value: u64 := 0;
    var index := 0;
    assert s[0..] == s;
    while index < |s|
      invariant index <= |s| && ParseDigits(s, 0) == ParseDigits(s[index..], value)
    {
      if s[index] < ZERO || s[index] > ZERO + 9 {
        return None;
      }
      var digit := s[index] - ZERO;
      if value > (M64 - 1 - digit) / 10 {
        return None;
      }
      assert s[index..][1..] == s[index + 1..];
      value := value * 10 + digit;
      index := index + 1;
    }
    return Some(value);
  }

  method ParseEntry(line: seq<byte>, previous: seq<byte>) returns (r: Option<Entry>)
    ensures r == ParseLine(line, previous)
  {
    hide NextToken, ParseDecimal;
    if |line| >= 2 && line[0] == LETTER_D && line[1] == SPACE {
      var path, _ := ScanToken(line, 2);
      if |path| >= MAX_PATH {
        return None;
      }
      return Some(DirectoryEntry(path, previous));
    }
    if |line| >= 2 && line[0] == LETTER_F && line[1] == SPACE {
      var path, c1 := ScanToken(line, 2);
      var kind, c2 := ScanToken(line, c1);
      var lbaText, c3 := ScanToken(line, c2);
      var sizeText, _ := ScanToken(line, c3);
      var lba := ScanDecimal(lbaText);
      var size := ScanDecimal(sizeText);
      if lba.None? || size.None? || (kind != TEXT && kind != BINARY) || |path| >= MAX_PATH {
        return None;
      }
      return Some(Entry(File, if kind == TEXT then Text else Binary, path, NameFor(path, previous),
                        lba.value, size.value));
    }
    return None;
  }

  /** The text of a table is at least as long as the text up to and with entry `i`. */
  lemma {:induction false} PrintGrows(table: seq<Entry>, i: nat)
    requires i < |table|
    ensures |Print(table)| >= |Print(table[..i])| + |LineOf(table[i])| + 1
  {
    hide LineOf;
    if i == 0 {
      assert table[..0] == [];
    } else {
      PrintGrows(table[1..], i - 1);
      assert table[..i][1..] == table[1..][..i - 1];
    }
  }
}
