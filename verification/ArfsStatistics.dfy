/** The first-fit allocator and the storage statistics of kernel/arfs.c agree. */
module ArfsStatistics {
  import opened Words
  import opened Wrappers
  import opened ArfsManifest
  import opened ArfsRemount
  import opened ArfsVolume
  import opened ArfsExtents

  /** Sector `s` belongs to the extent of `e`. */
  predicate Holds(e: Entry, s: int) {
    e.lba <= s < e.lba + EntrySectors(e)
  }

  predicate IsFree(table: seq<Entry>, s: int) {
    forall e :: e in table ==> !Holds(e, s)
  }

  predicate InDevice(table: seq<Entry>, sectors: nat) {
    forall e :: e in table ==> EntrySectors(e) == 0 || e.lba + EntrySectors(e) <= sectors
  }

  /** A range is free when each of its sectors is. */
  ghost predicate IsFreeRun(table: seq<Entry>, first: int, count: nat) {
    forall s :: first <= s < first + count ==> IsFree(table, s)
  }

  lemma RangeFreeIsRun(table: seq<Entry>, first: u64, count: nat, sectors: nat)
    requires InDevice(table, sectors) && sectors < M64 && count > 0 && first + count <= sectors
    ensures RangeFree(table, first, count) <==> IsFreeRun(table, first, count)
  {
    U64Small(first + count);
    if RangeFree(table, first, count) {
      forall s, e | first <= s < first + count && e in table ensures !Holds(e, s) {
        assert !Overlaps(e, first, count);
        if EntrySectors(e) != 0 { U64Small(e.lba + EntrySectors(e)); }
      }
    }
    if IsFreeRun(table, first, count) {
      forall e | e in table ensures !Overlaps(e, first, count) {
        var used := EntrySectors(e);
        if used != 0 {
          U64Small(e.lba + used);
          var s := if e.lba < first then first else e.lba;
          assert first <= s < first + count ==> IsFree(table, s);
        }
      }
    }
  }

  lemma SectorFree(table: seq<Entry>, s: u64, sectors: nat)
    requires InDevice(table, sectors) && sectors < M64 && s < sectors
    ensures RangeFree(table, s, 1) <==> IsFree(table, s)
  {
    RangeFreeIsRun(table, s, 1, sectors);
    if IsFree(table, s) { assert IsFreeRun(table, s, 1); }
    if IsFreeRun(table, s, 1) { assert IsFree(table, s); }
  }

  // ----- the two statistics

  /** `n` is the length of the longest free run inside [lo, hi). */
  ghost predicate IsLargestRun(table: seq<Entry>, lo: int, hi: int, n: nat) {
    && (n > 0 ==> exists first :: lo <= first && first + n <= hi && IsFreeRun(table, first, n))
    && forall first, m: nat :: lo <= first && first + m <= hi && IsFreeRun(table, first, m) ==> m <= n
  }

  /** The occupied sectors inside [lo, hi). */
  ghost function UsedSectors(table: seq<Entry>, lo: int, hi: int): set<int> {
    set s | lo <= s < hi && !IsFree(table, s)
  }

  /** The scan of the data region: used sectors and longest free run. */
  method Scan(table: seq<Entry>, lo: u64, hi: u64) returns (used: nat, largest: nat)
    requires lo <= hi && InDevice(table, hi)
    ensures used == |UsedSectors(table, lo, hi)|
    ensures IsLargestRun(table, lo, hi, largest)
  {
    hide IsFree, RangeFree, InDevice;
    used, largest := 0, 0;
    var current := 0;
    var sector := lo;
    assert UsedSectors(table, lo, lo) == {};
    while sector < hi
      invariant lo <= sector <= hi && current <= sector - lo
      invariant used == |UsedSectors(table, lo, sector)|
      invariant IsLargestRun(table, lo, sector, largest)
      invariant IsFreeRun(table, sector - current, current) && current <= largest
      invariant sector - current == lo || !IsFree(table, sector - current - 1)
    {
      SectorFree(table, sector, hi);
      if RangeFree(table, sector, 1) {
        assert UsedSectors(table, lo, sector + 1) == UsedSectors(table, lo, sector);
        ExtendRun(table, lo, sector, largest, current);
        current := current + 1;
        if current > largest {
          largest := current;
        }
      } else {
        assert UsedSectors(table, lo, sector + 1) == UsedSectors(table, lo, sector) + {sector as int};
        used := used + 1;
        BreakRun(table, lo, sector, largest);
        current := 0;
      }
      sector := sector + 1;
    }
  }

  lemma ExtendRun(table: seq<Entry>, lo: int, s: int, n: nat, current: nat)
    requires IsFree(table, s) && IsLargestRun(table, lo, s, n) && current <= n
    requires lo <= s - current && IsFreeRun(table, s - current, current)
    requires s - current == lo || !IsFree(table, s - current - 1)
    ensures IsFreeRun(table, s - current, current + 1)
    ensures IsLargestRun(table, lo, s + 1, if current + 1 > n then current + 1 else n)
  {
    hide IsFree;
    var m := if current + 1 > n then current + 1 else n;
    assert IsFreeRun(table, s - current, current + 1);
    if n > 0 {
      var first :| lo <= first && first + n <= s && IsFreeRun(table, first, n);
      assert lo <= first && first + n <= s + 1 && IsFreeRun(table, first, n);
    }
    forall first, k: nat | lo <= first && first + k <= s + 1 && IsFreeRun(table, first, k)
      ensures k <= m
    {
      // a longer run would reach over the last occupied sector
      assert first <= s - current - 1 < first + k ==> IsFree(table, s - current - 1);
    }
  }

  lemma BreakRun(table: seq<Entry>, lo: int, s: int, n: nat)
    requires !IsFree(table, s) && IsLargestRun(table, lo, s, n)
    ensures IsLargestRun(table, lo, s + 1, n)
  {
    hide IsFree;
    if n > 0 {
      var first :| lo <= first && first + n <= s && IsFreeRun(table, first, n);
      assert lo <= first && first + n <= s + 1 && IsFreeRun(table, first, n);
    }
    forall first, k: nat | lo <= first && first + k <= s + 1 && IsFreeRun(table, first, k)
      ensures k <= n
    {
      assert first <= s < first + k ==> IsFree(table, s);
    }
  }

  // ----- agreement

  /** The allocator succeeds for `n` sectors exactly when `n` is at most the
      longest free run, and then it returns the least free start. */
  lemma AllocatorAgrees(v: Volume, n: nat, largest: nat)
    requires ExtentsOk(v) && n > 0
    requires IsLargestRun(v.table, v.geo.dataLba, |v.disk|, largest)
    ensures Allocate(v, n).Some? <==> n <= largest
    ensures Allocate(v, n).Some? ==>
              var first := Allocate(v, n).value;
              && v.geo.dataLba <= first && first + n <= |v.disk| && IsFreeRun(v.table, first, n)
              && forall k :: v.geo.dataLba <= k < first ==> !IsFreeRun(v.table, k, n)
  {
    hide IsFree, Overlaps, EntrySectors, PairwiseApart;
    var lo, hi := v.geo.dataLba, |v.disk|;
    assert InDevice(v.table, hi) by { PlacedInDevice(v); }
    if n <= hi && lo <= hi - n {
      forall k: u64 | lo <= k <= hi - n
        ensures RangeFree(v.table, k, n) <==> IsFreeRun(v.table, k, n)
      {
        RangeFreeIsRun(v.table, k, n, hi);
      }
    }
    if n <= largest {
      var first :| lo <= first && first + largest <= hi && IsFreeRun(v.table, first, largest);
      assert IsFreeRun(v.table, first, n);
      var k: u64 := first;
      assert RangeFree(v.table, k, n);
    }
  }

  /** On a working device a permitted write succeeds exactly when there is room for it, in
      the old extent or in the longest free run, and the new table still prints. */
  lemma WriteSucceedsIff(v: Volume, path: seq<byte>, t: FileType, contents: seq<byte>, largest: nat)
    requires ExtentsOk(v) && CanWrite(v, path, |contents|)
    requires IsLargestRun(v.table, v.geo.dataLba, |v.disk|, largest)
    ensures var n := SectorsFor(|contents|);
            var found := Find(v.table, path);
            var room := n <= largest || (found.Some? && n <= EntrySectors(v.table[found.value]));
            && (Place(v, found, n).Some? <==> room)
            && (WriteBytes(v, path, t, contents, Done, Done).1 <==>
                  room && |Print(WithFile(v.table, found, FileEntry(path, t, Place(v, found, n).value, |contents|)))|
                          < MANIFEST_CAPACITY)
  {
    hide IsLargestRun, Print, PairwiseApart;
    var n := SectorsFor(|contents|);
    var found := Find(v.table, path);
    if n > 0 {
      AllocatorAgrees(v, n, largest);
      if Place(v, found, n).Some? {
        PlaceIsApart(v, found, n);
        FileTakes(|contents|);
      }
    }
  }

  lemma PlacedInDevice(v: Volume)
    requires ExtentsOk(v)
    ensures InDevice(v.table, |v.disk|)
  {
    forall e | e in v.table ensures EntrySectors(e) == 0 || e.lba + EntrySectors(e) <= |v.disk| {
      assert Placed(v, e);
    }
  }

  // ----- used sectors are the extents

  function Max(a: int, b: int): int {
    if a < b then b else a
  }

  /** The number of sectors of `e` inside [lo, hi). */
  function Inside(e: Entry, lo: int, hi: int): nat {
    Max(0, Min(e.lba + EntrySectors(e), hi) - Max(e.lba, lo))
  }

  function TotalInside(table: seq<Entry>, lo: int, hi: int): nat {
    if table == [] then 0 else Inside(table[0], lo, hi) + TotalInside(table[1..], lo, hi)
  }

  predicate Between(a: int, s: int, b: int) {
    a <= s < b
  }

  ghost function Interval(a: int, b: int): set<int> {
    set s | a <= s < b && Between(a, s, b)
  }

  lemma {:induction false} IntervalSize(a: int, b: int)
    requires a <= b
    ensures |Interval(a, b)| == b - a
    decreases b - a
  {
    if a == b {
      assert Interval(a, b) == {};
    } else {
      IntervalSize(a, b - 1);
      assert Interval(a, b) == Interval(a, b - 1) + {b - 1};
    }
  }

  /** The sectors of `e` inside [lo, hi). */
  ghost function Held(e: Entry, lo: int, hi: int): set<int> {
    set s | lo <= s < hi && Holds(e, s)
  }

  lemma HeldSize(e: Entry, lo: int, hi: int)
    ensures |Held(e, lo, hi)| == Inside(e, lo, hi)
  {
    var a, b := Max(e.lba, lo), Min(e.lba + EntrySectors(e), hi);
    if a <= b {
      IntervalSize(a, b);
      assert Held(e, lo, hi) == Interval(a, b);
    } else {
      assert Held(e, lo, hi) == {};
    }
  }

  lemma RestApart(table: seq<Entry>)
    requires PairwiseApart(table) && table != []
    ensures PairwiseApart(table[1..])
    ensures forall x, s :: x in table[1..] && Holds(table[0], s) ==> !Holds(x, s)
  {
    var rest := table[1..];
    forall i, j | 0 <= i < |rest| && 0 <= j < |rest| && i != j
      ensures Apart(rest[i], rest[j].lba, EntrySectors(rest[j]))
    {
      assert rest[i] == table[i + 1] && rest[j] == table[j + 1];
    }
    forall x, s | x in rest && Holds(table[0], s) ensures !Holds(x, s) {
      var j :| 0 <= j < |rest| && rest[j] == x;
      assert table[j + 1] == x;
      assert Apart(table[0], table[j + 1].lba, EntrySectors(table[j + 1]));
    }
  }

  lemma UsedSplit(table: seq<Entry>, lo: int, hi: int)
    requires PairwiseApart(table) && table != []
    ensures UsedSectors(table, lo, hi) == Held(table[0], lo, hi) + UsedSectors(table[1..], lo, hi)
    ensures Held(table[0], lo, hi) !! UsedSectors(table[1..], lo, hi)
  {
    hide Holds, PairwiseApart;
    RestApart(table);
    assert table == [table[0]] + table[1..];
  }

  /** With disjoint extents, the used sectors of the data region are the extents'
      sectors in it, each counted once. */
  lemma {:induction false} UsedIsTotal(table: seq<Entry>, lo: int, hi: int)
    requires PairwiseApart(table)
    ensures |UsedSectors(table, lo, hi)| == TotalInside(table, lo, hi)
  {
    if table == [] {
      assert UsedSectors(table, lo, hi) == {};
    } else {
      RestApart(table);
      UsedIsTotal(table[1..], lo, hi);
      HeldSize(table[0], lo, hi);
      UsedSplit(table, lo, hi);
    }
  }
}
