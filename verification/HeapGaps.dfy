/** When `arwill_kmalloc` succeeds, in terms of what callers hold. */
module HeapGaps {
  import opened Wrappers
  import opened HeapBlocks
  import opened HeapRuns

  // ----- how much a request takes

  /** The payload bytes of the free blocks. */
  function FreeBytes(bs: seq<Block>): nat {
    if bs == [] then 0 else (if bs[0].free then bs[0].size else 0) + FreeBytes(bs[1..])
  }

  /** Every byte of the heap is a header byte, held by a caller, or free. */
  lemma {:induction false} BytesAccounted(bs: seq<Block>)
    ensures Total(bs) == HEADER * |bs| + Used(bs) + FreeBytes(bs)
  {
    if bs != [] { BytesAccounted(bs[1..]); }
  }

  /** A request takes the rounded size, or the whole block if what would be left of it is
      too small for a header and 16 bytes. */
  lemma TakenIsTight(b: Block, n: nat)
    requires Fits(b, n)
    ensures var t := Taken(b, n);
            && n <= t[0].size < n + HEADER + ALIGNMENT
            && (t[0].size != n ==> t == [Block(b.size, false)])
            && (|t| == 2 ==> t[0].size == n && t[1].free && t[1].size >= ALIGNMENT && t[0].size + HEADER + t[1].size == b.size)
            && (|t| == 2 <==> b.size >= n + HEADER + ALIGNMENT)
  {
  }

  lemma FreeAfter(bs: seq<Block>, i: nat, n: nat)
    requires i < |bs| && Fits(bs[i], n)
    ensures var t := Take(bs, i, n);
            var taken := Taken(bs[i], n);
            && |t| == |bs| - 1 + |taken| && 1 <= |taken| <= 2
            && FreeBytes(t) == FreeBytes(bs) - taken[0].size - (if |taken| == 2 then HEADER else 0)
  {
    hide Total, Used, Live, Taken, FreeBytes;
    TakeCounts(bs, i, n, 0);
    TakenIsTight(bs[i], n);
    BytesAccounted(bs);
    BytesAccounted(Take(bs, i, n));
    TakenLength(bs, i, n);
  }

  lemma TakenLength(bs: seq<Block>, i: nat, n: nat)
    requires i < |bs| && Fits(bs[i], n)
    ensures |Take(bs, i, n)| == |bs| - 1 + |Taken(bs[i], n)| && 1 <= |Taken(bs[i], n)| <= 2
  {
  }

  /** What a successful request costs: the caller gets the rounded size and less than a
      header and 16 bytes more, and the free bytes fall by what it gets and at most one header. */
  lemma AllocateIsTight(h: Heap, base: int, extent: nat, held: set<(int, nat)>, size: nat)
    requires Sound(h, base, extent, held) && size < SIZE_LIMIT
    ensures var (next, result) := Step(h, base, Allocate(size));
            && (result.Some? ==>
                  && AlignUp(size) <= result.value.1 < AlignUp(size) + HEADER + ALIGNMENT
                  && FreeBytes(h.blocks) - result.value.1 - HEADER <= FreeBytes(next.blocks)
                  && FreeBytes(next.blocks) <= FreeBytes(h.blocks) - result.value.1
                  && (result.value.1 != AlignUp(size) ==> FreeBytes(next.blocks) == FreeBytes(h.blocks) - result.value.1))
            && (result.None? ==> next == h)
  {
    hide Live, Used, Total, HeapOk, Take, Taken, FreeBytes;
    var choice := Choose(h.blocks, size);
    if choice.Some? {
      FreeAfter(h.blocks, choice.value, AlignUp(size));
      TakenIsTight(h.blocks[choice.value], AlignUp(size));
    }
  }

  // ----- when it succeeds

  /** A gap: `n` bytes and a header from `lo` on that lie in the heap and touch nothing
      that callers hold, the headers of their blocks included. */
  predicate IsGap(held: set<(int, nat)>, base: int, extent: nat, lo: int, n: nat) {
    && base <= lo && lo + HEADER + n <= base + extent
    && forall p :: p in held ==> lo + HEADER + n <= p.0 - HEADER || p.0 + p.1 <= lo
  }

  /** Block `i` of the list is at `Address(bs, at, i)`; every allocated block lies before
      or behind it. */
  lemma {:induction false} FreeBlockIsGap(bs: seq<Block>, at: int, i: nat)
    requires i < |bs| && bs[i].free
    ensures IsGap(Live(bs, at), at, Total(bs), Address(bs, at, i), bs[i].size)
  {
    hide Live, Total;
    SplitAt(bs, i, at);
    var a := Address(bs, at, i);
    forall p | p in Live(bs, at)
      ensures a + HEADER + bs[i].size <= p.0 - HEADER || p.0 + p.1 <= a
    {
      if p in Live(bs[..i], at) {
        LiveInside(bs[..i], at, p);
      } else {
        LiveInside(bs[i + 1..], a + HEADER + bs[i].size, p);
      }
    }
  }

  /** A gap lies in a single free block, because no two free blocks are neighbours. */
  lemma {:induction false} GapInBlock(bs: seq<Block>, at: int, lo: int, n: nat)
    requires NoFreeNeighbours(bs) && IsGap(Live(bs, at), at, Total(bs), lo, n)
    ensures exists b :: b in bs && Fits(b, n)
  {
    if bs != [] {
      var next := at + HEADER + bs[0].size;
      if bs[0].free && lo < next {
        GapStopsAtNext(bs, at, lo, n);
        assert bs[0] in bs && Fits(bs[0], n);
      } else {
        RestHasGap(bs, at, lo, n);
        GapInBlock(bs[1..], next, lo, n);
        var b :| b in bs[1..] && Fits(b, n);
        assert b in bs;
      }
    }
  }

  /** The block behind a free one is allocated, so no gap reaches into it. */
  lemma GapStopsAtNext(bs: seq<Block>, at: int, lo: int, n: nat)
    requires bs != [] && bs[0].free && NoFreeNeighbours(bs) && IsGap(Live(bs, at), at, Total(bs), lo, n)
    requires lo < at + HEADER + bs[0].size
    ensures lo + HEADER + n <= at + HEADER + bs[0].size
  {
    var next := at + HEADER + bs[0].size;
    if |bs| == 1 {
      assert bs == [bs[0]];
      SingleCounts(bs[0], at);
    } else {
      assert !bs[1].free && bs[1..][0] == bs[1];
      var p := (next + HEADER, bs[1].size);
      assert p in Live(bs[1..], next);
      assert p in Live(bs, at);
    }
  }

  /** A gap that does not begin in the first block lies in the rest. */
  lemma RestHasGap(bs: seq<Block>, at: int, lo: int, n: nat)
    requires bs != [] && IsGap(Live(bs, at), at, Total(bs), lo, n) && (bs[0].free ==> lo >= at + HEADER + bs[0].size)
    ensures var next := at + HEADER + bs[0].size;
            IsGap(Live(bs[1..], next), next, Total(bs[1..]), lo, n)
    ensures NoFreeNeighbours(bs) ==> NoFreeNeighbours(bs[1..])
  {
    var next := at + HEADER + bs[0].size;
    assert forall p :: p in Live(bs[1..], next) ==> p in Live(bs, at);
    if !bs[0].free {
      var p := (at + HEADER, bs[0].size);
      assert p in Live(bs, at);
    }
  }

  /** A request succeeds if and only if what callers hold leaves a gap that is large enough:
      nothing else about the past of the heap matters. */
  lemma AllocateIffGap(h: Heap, base: int, extent: nat, held: set<(int, nat)>, size: nat)
    requires Sound(h, base, extent, held) && size < SIZE_LIMIT
    ensures Step(h, base, Allocate(size)).1.Some? <==>
            size > 0 && exists lo: int :: IsGap(held, base, extent, lo, AlignUp(size))
  {
    hide Live, Used, Total, Take, Taken, IsGap, FirstFit, AlignUp;
    AllocateKeeps(h, base, extent, held, size);
    var n := AlignUp(size);
    if size > 0 && exists b :: b in h.blocks && Fits(b, n) {
      var b :| b in h.blocks && Fits(b, n);
      var i :| 0 <= i < |h.blocks| && h.blocks[i] == b;
      FreeBlockIsGap(h.blocks, base, i);
      GapShrinks(held, base, extent, Address(h.blocks, base, i), b.size, n);
    }
    if size > 0 && exists lo: int :: IsGap(held, base, extent, lo, n) {
      var lo: int :| IsGap(held, base, extent, lo, n);
      GapInBlock(h.blocks, base, lo, n);
    }
  }

  lemma GapShrinks(held: set<(int, nat)>, base: int, extent: nat, lo: int, m: nat, n: nat)
    requires IsGap(held, base, extent, lo, m) && n <= m
    ensures IsGap(held, base, extent, lo, n)
  {
  }

  /** Over every run from initialisation: whether the next request succeeds depends on the
      ledger alone. */
  lemma RunThenAllocate(base: int, extent: nat, calls: seq<Call>, size: nat)
    requires HEADER + ALIGNMENT <= extent < SIZE_LIMIT - HEADER - ALIGNMENT && extent % ALIGNMENT == 0
    requires base % ALIGNMENT == 0 && Legal(Initial(extent), base, calls) && 0 < size < SIZE_LIMIT
    ensures var h := Run(Initial(extent), base, calls);
            var held := Ledger({}, Initial(extent), base, calls);
            && (Step(h, base, Allocate(size)).1.Some? <==>
                  exists lo: int :: IsGap(held, base, extent, lo, AlignUp(size)))
  {
    hide Legal, Run, Ledger, IsGap, Sound, AlignUp;
    InitialSound(base, extent);
    RunStaysSound(Initial(extent), base, extent, {}, calls);
    AllocateIffGap(Run(Initial(extent), base, calls), base, extent, Ledger({}, Initial(extent), base, calls), size);
  }
}
