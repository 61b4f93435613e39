/** The kernel heap of kernel/memory.c: a list of blocks in address order, split
    by `arwill_kmalloc` and merged by `arwill_kfree`. */
module HeapBlocks {
  import opened Wrappers
  const HEADER := 32
  const ALIGNMENT := 16
  const SIZE_LIMIT: int := 0x1_0000_0000_0000_0000

  datatype Block = Block(size: nat, free: bool)

  // ----- positions

  function Total(bs: seq<Block>): nat {
    if bs == [] then 0 else HEADER + bs[0].size + Total(bs[1..])
  }

  /** The allocated blocks as (payload address, size), for a list that starts at `at`. */
  function Live(bs: seq<Block>, at: int): set<(int, nat)> {
    if bs == [] then {}
    else (if bs[0].free then {} else {(at + HEADER, bs[0].size)}) + Live(bs[1..], at + HEADER + bs[0].size)
  }

  function Used(bs: seq<Block>): nat {
    if bs == [] then 0 else (if bs[0].free then 0 else bs[0].size) + Used(bs[1..])
  }

  /** The address of block `i` of a list that starts at `at`. */
  function Address(bs: seq<Block>, at: int, i: nat): int
    requires i <= |bs|
  {
    at + Total(bs[..i])
  }

  // ----- operations

  /** Rounds up to the alignment; `SIZE_LIMIT - 1` when that does not fit. */
  function AlignUp(size: nat): (r: nat)
    requires size < SIZE_LIMIT
    ensures r % ALIGNMENT == 0 || r == SIZE_LIMIT - 1
    ensures r >= size && (r != SIZE_LIMIT - 1 ==> r - size < ALIGNMENT)
  {
    var remainder := size % ALIGNMENT;
    if remainder == 0 then size
    else if size > SIZE_LIMIT - 1 - (ALIGNMENT - remainder) then SIZE_LIMIT - 1
    else size + (ALIGNMENT - remainder)
  }

  predicate Fits(b: Block, n: nat) {
    b.free && b.size >= n
  }

  /** The first block that fits. */
  function FirstFit(bs: seq<Block>, n: nat): (r: Option<nat>)
    ensures r.Some? ==> r.value < |bs| && Fits(bs[r.value], n) &&
                        forall k :: 0 <= k < r.value ==> !Fits(bs[k], n)
    ensures r.None? ==> forall k :: 0 <= k < |bs| ==> !Fits(bs[k], n)
  {
    if bs == [] then None
    else if Fits(bs[0], n) then Some(0)
    else match FirstFit(bs[1..], n)
      case None => None
      case Some(i) => Some(i + 1)
  }

  /** What a free block becomes when `n` bytes of it are taken. */
  function Taken(b: Block, n: nat): (r: seq<Block>)
    requires Fits(b, n)
    ensures r != []
  {
    if b.size >= n + HEADER + ALIGNMENT
    then [Block(n, false), Block(b.size - n - HEADER, true)]
    else [Block(b.size, false)]
  }

  function Take(bs: seq<Block>, i: nat, n: nat): seq<Block>
    requires i < |bs| && Fits(bs[i], n)
  {
    bs[..i] + Taken(bs[i], n) + bs[i + 1..]
  }

  /** Merges every pair of neighbouring free blocks, from the left. */
  function Coalesce(bs: seq<Block>): seq<Block>
    decreases |bs|
  {
    if |bs| < 2 then bs
    else if bs[0].free && bs[1].free
    then Coalesce([Block(bs[0].size + HEADER + bs[1].size, true)] + bs[2..])
    else [bs[0]] + Coalesce(bs[1..])
  }

  function Release(bs: seq<Block>, i: nat): seq<Block>
    requires i < |bs|
  {
    Coalesce(bs[i := bs[i].(free := true)])
  }

  // ----- the invariant

  predicate Proper(b: Block) {
    b.size % ALIGNMENT == 0 && b.size >= ALIGNMENT
  }

  predicate NoFreeNeighbours(bs: seq<Block>) {
    forall i :: 0 <= i < |bs| - 1 ==> !(bs[i].free && bs[i + 1].free)
  }

  /** Headers and payloads tile `extent` bytes, sizes keep the alignment, and free
      space is never split between neighbours. */
  predicate HeapOk(bs: seq<Block>, extent: nat) {
    && bs != [] && Total(bs) == extent && extent < SIZE_LIMIT - HEADER - ALIGNMENT
    && (forall b :: b in bs ==> Proper(b)) && NoFreeNeighbours(bs)
  }

  // ----- lists

  lemma {:induction false} TotalAppend(a: seq<Block>, b: seq<Block>)
    ensures Total(a + b) == Total(a) + Total(b)
  {
    if a == [] {
      assert a + b == b;
    } else {
      assert (a + b)[1..] == a[1..] + b;
      TotalAppend(a[1..], b);
    }
  }

  lemma {:induction false} UsedAppend(a: seq<Block>, b: seq<Block>)
    ensures Used(a + b) == Used(a) + Used(b)
  {
    if a == [] {
      assert a + b == b;
    } else {
      assert (a + b)[1..] == a[1..] + b;
      UsedAppend(a[1..], b);
    }
  }

  lemma {:induction false} LiveAppend(a: seq<Block>, b: seq<Block>, at: int)
    ensures Live(a + b, at) == Live(a, at) + Live(b, at + Total(a))
  {
    if a == [] {
      assert a + b == b;
    } else {
      assert (a + b)[1..] == a[1..] + b && (a + b)[0] == a[0];
      var next := at + HEADER + a[0].size;
      LiveAppend(a[1..], b, next);
      assert at + Total(a) == next + Total(a[1..]);
    }
  }

  /** Every allocated block lies inside the list. */
  lemma {:induction false} LiveInside(bs: seq<Block>, at: int, p: (int, nat))
    requires p in Live(bs, at)
    ensures at + HEADER <= p.0 && p.0 + p.1 <= at + Total(bs)
  {
    if p !in Live(bs[1..], at + HEADER + bs[0].size) {
      assert p == (at + HEADER, bs[0].size);
    } else {
      LiveInside(bs[1..], at + HEADER + bs[0].size, p);
    }
  }

  /** No two allocated blocks share a byte, headers included. */
  lemma {:induction false} LiveDisjoint(bs: seq<Block>, at: int, p: (int, nat), q: (int, nat))
    requires p in Live(bs, at) && q in Live(bs, at) && p != q
    ensures p.0 + p.1 + HEADER <= q.0 || q.0 + q.1 + HEADER <= p.0
  {
    var next := at + HEADER + bs[0].size;
    if p in Live(bs[1..], next) && q in Live(bs[1..], next) {
      LiveDisjoint(bs[1..], next, p, q);
    } else if p in Live(bs[1..], next) {
      LiveInside(bs[1..], next, p);
    } else {
      LiveInside(bs[1..], next, q);
    }
  }

  lemma NextAligned(at: int, b: Block)
    requires at % ALIGNMENT == 0 && Proper(b)
    ensures (at + HEADER) % ALIGNMENT == 0 && (at + HEADER + b.size) % ALIGNMENT == 0
  {
  }

  lemma {:induction false} LiveAligned(bs: seq<Block>, at: int, p: (int, nat))
    requires p in Live(bs, at) && at % ALIGNMENT == 0
    requires forall b :: b in bs ==> Proper(b)
    ensures p.0 % ALIGNMENT == 0
  {
    assert bs[0] in bs;
    NextAligned(at, bs[0]);
    if p in Live(bs[1..], at + HEADER + bs[0].size) {
      assert forall b :: b in bs[1..] ==> b in bs;
      LiveAligned(bs[1..], at + HEADER + bs[0].size, p);
    }
  }

  // ----- allocation

  lemma SplitAt(bs: seq<Block>, i: nat, at: int)
    requires i < |bs|
    ensures Total(bs) == Total(bs[..i]) + HEADER + bs[i].size + Total(bs[i + 1..])
    ensures Used(bs) == Used(bs[..i]) + (if bs[i].free then 0 else bs[i].size) + Used(bs[i + 1..])
    ensures Live(bs, at) == Live(bs[..i], at)
                            + (if bs[i].free then {} else {(Address(bs, at, i) + HEADER, bs[i].size)})
                            + Live(bs[i + 1..], Address(bs, at, i) + HEADER + bs[i].size)
  {
    var tail := bs[i..];
    assert bs == bs[..i] + tail && tail[0] == bs[i] && tail[1..] == bs[i + 1..];
    TotalAppend(bs[..i], tail);
    UsedAppend(bs[..i], tail);
    LiveAppend(bs[..i], tail, at);
  }

  lemma SingleCounts(b: Block, at: int)
    ensures Total([b]) == HEADER + b.size
    ensures Used([b]) == if b.free then 0 else b.size
    ensures Live([b], at) == if b.free then {} else {(at + HEADER, b.size)}
  {
    assert [b][1..] == [];
    assert Live([b][1..], at + HEADER + b.size) == {};
  }

  lemma TakenCounts(b: Block, n: nat, at: int)
    requires Fits(b, n)
    ensures var t := Taken(b, n);
            && Total(t) == HEADER + b.size && Used(t) == t[0].size
            && Live(t, at) == {(at + HEADER, t[0].size)}
            && t[0].size >= n && !t[0].free
  {
    var t := Taken(b, n);
    assert t == [t[0]] + t[1..];
    SingleCounts(t[0], at);
    if |t| == 2 {
      SingleCounts(t[1], at + HEADER + t[0].size);
      assert t[1..] == [t[1]];
    } else {
      assert t[1..] == [];
    }
  }

  /** Allocation keeps the tiling, adds exactly one live block, and moves none. */
  lemma TakeCounts(bs: seq<Block>, i: nat, n: nat, at: int)
    requires i < |bs| && Fits(bs[i], n)
    ensures var t := Take(bs, i, n);
            var size := Taken(bs[i], n)[0].size;
            && Total(t) == Total(bs) && Used(t) == Used(bs) + size
            && Live(t, at) == Live(bs, at) + {(Address(bs, at, i) + HEADER, size)}
            && (Address(bs, at, i) + HEADER, size) !in Live(bs, at)
  {
    hide Total, Used, Live, Taken;
    var a, m, z := bs[..i], Taken(bs[i], n), bs[i + 1..];
    SplitAt(bs, i, at);
    TakenCounts(bs[i], n, Address(bs, at, i));
    TotalAppend(a + m, z);
    TotalAppend(a, m);
    UsedAppend(a + m, z);
    UsedAppend(a, m);
    LiveAppend(a + m, z, at);
    LiveAppend(a, m, at);
    var p := (Address(bs, at, i) + HEADER, m[0].size);
    if p in Live(a, at) { LiveInside(a, at, p); }
    if p in Live(z, Address(bs, at, i) + HEADER + bs[i].size) {
      LiveInside(z, Address(bs, at, i) + HEADER + bs[i].size, p);
    }
  }

  lemma TakeSeparates(bs: seq<Block>, i: nat, n: nat)
    requires NoFreeNeighbours(bs) && i < |bs| && Fits(bs[i], n)
    ensures NoFreeNeighbours(Take(bs, i, n))
  {
    var t, m := Take(bs, i, n), Taken(bs[i], n);
    assert !t[i].free;
    forall k | 0 <= k < |t| - 1 ensures !(t[k].free && t[k + 1].free) {
      if k + 1 < i {
        assert t[k] == bs[k] && t[k + 1] == bs[k + 1];
      } else if k > i {
        var j := k - |m| + 1;
        assert t[k + 1] == bs[j + 1] && (t[k].free ==> bs[j].free);
      }
    }
  }

  lemma TakeKeeps(bs: seq<Block>, i: nat, n: nat, extent: nat)
    requires HeapOk(bs, extent) && i < |bs| && Fits(bs[i], n) && n > 0 && n % ALIGNMENT == 0
    ensures HeapOk(Take(bs, i, n), extent)
  {
    hide Total, Used, Live, NoFreeNeighbours;
    TakeCounts(bs, i, n, 0);
    TakeSeparates(bs, i, n);
    var t := Take(bs, i, n);
    assert bs[i] in bs && Proper(bs[i]);
    forall b | b in t ensures Proper(b) {
      assert b in bs[..i] || b in Taken(bs[i], n) || b in bs[i + 1..];
    }
  }

  // ----- release

  lemma {:induction false} CoalesceCounts(bs: seq<Block>, at: int)
    ensures Total(Coalesce(bs)) == Total(bs) && Used(Coalesce(bs)) == Used(bs)
    ensures Live(Coalesce(bs), at) == Live(bs, at)
    ensures bs != [] ==> Coalesce(bs) != []
    decreases |bs|
  {
    if |bs| >= 2 {
      if bs[0].free && bs[1].free {
        var merged := [Block(bs[0].size + HEADER + bs[1].size, true)] + bs[2..];
        assert merged[1..] == bs[2..] && bs[1..][1..] == bs[2..] && bs[1..][0] == bs[1];
        CoalesceCounts(merged, at);
      } else {
        CoalesceCounts(bs[1..], at + HEADER + bs[0].size);
        var r := [bs[0]] + Coalesce(bs[1..]);
        assert r[1..] == Coalesce(bs[1..]);
      }
    }
  }

  lemma {:induction false} CoalesceKeeps(bs: seq<Block>)
    requires forall b :: b in bs ==> Proper(b)
    ensures forall b :: b in Coalesce(bs) ==> Proper(b)
    ensures NoFreeNeighbours(Coalesce(bs))
    ensures bs != [] ==> Coalesce(bs) != [] && (Coalesce(bs)[0].free ==> bs[0].free)
    decreases |bs|
  {
    hide NoFreeNeighbours;
    if |bs| < 2 {
      FewAreApart(bs);
    } else {
      if bs[0].free && bs[1].free {
        var merged := [Block(bs[0].size + HEADER + bs[1].size, true)] + bs[2..];
        assert bs[0] in bs && bs[1] in bs;
        assert forall b :: b in merged ==> b == merged[0] || b in bs;
        CoalesceKeeps(merged);
      } else {
        assert bs[0] in bs && forall b :: b in bs[1..] ==> b in bs;
        CoalesceKeeps(bs[1..]);
        InFront(bs[0], Coalesce(bs[1..]));
      }
    }
  }

  lemma FewAreApart(bs: seq<Block>)
    requires |bs| < 2
    ensures NoFreeNeighbours(bs)
  {
  }

  lemma InFront(b: Block, bs: seq<Block>)
    requires NoFreeNeighbours(bs) && (bs != [] && b.free ==> !bs[0].free)
    ensures NoFreeNeighbours([b] + bs)
  {
    var r := [b] + bs;
    forall k | 0 <= k < |r| - 1 ensures !(r[k].free && r[k + 1].free) {
      if k > 0 { assert r[k] == bs[k - 1] && r[k + 1] == bs[k]; }
    }
  }

  /** Release keeps the tiling, removes exactly one live block, and moves none. */
  lemma ReleaseKeeps(bs: seq<Block>, i: nat, at: int, extent: nat)
    requires HeapOk(bs, extent) && i < |bs| && !bs[i].free
    ensures HeapOk(Release(bs, i), extent)
    ensures Used(Release(bs, i)) == Used(bs) - bs[i].size
    ensures var p := (Address(bs, at, i) + HEADER, bs[i].size);
            p in Live(bs, at) && Live(Release(bs, i), at) == Live(bs, at) - {p}
  {
    hide Coalesce, Total, Used, Live;
    var t := bs[i := bs[i].(free := true)];
    assert t[..i] == bs[..i] && t[i + 1..] == bs[i + 1..];
    SplitAt(bs, i, at);
    SplitAt(t, i, at);
    CoalesceCounts(t, at);
    assert bs[i] in bs;
    assert forall b :: b in t ==> Proper(b);
    CoalesceKeeps(t);
    var p := (Address(bs, at, i) + HEADER, bs[i].size);
    if p in Live(bs[..i], at) { LiveInside(bs[..i], at, p); }
    var next := Address(bs, at, i) + HEADER + bs[i].size;
    if p in Live(bs[i + 1..], next) { LiveInside(bs[i + 1..], next, p); }
  }

  /** When nothing is allocated any more, the heap is the single initial block. */
  lemma AllFreeIsInitial(bs: seq<Block>, extent: nat, at: int)
    requires HeapOk(bs, extent) && Live(bs, at) == {}
    ensures bs == [Block(extent - HEADER, true)]
  {
    assert |bs| >= 2 ==> !(bs[0].free && bs[0 + 1].free);
    NothingLive(bs, at);
    assert bs == [bs[0]];
    SingleCounts(bs[0], at);
  }

  lemma {:induction false} NothingLive(bs: seq<Block>, at: int)
    requires Live(bs, at) == {}
    ensures forall k :: 0 <= k < |bs| ==> bs[k].free
  {
    if bs != [] {
      var first := bs[0];
      assert first.free || (at + HEADER, first.size) in Live(bs, at);
      NothingLive(bs[1..], at + HEADER + bs[0].size);
      assert forall k :: 1 <= k < |bs| ==> bs[k] == bs[1..][k - 1];
    }
  }
}
