/** Whole runs of `arwill_kmalloc` and `arwill_kfree`. */
module HeapRuns {
  import opened Wrappers
  import opened HeapBlocks

  // Runs are judged by a ledger that sees only what callers see: the addresses handed out
  // and given back.

  datatype Heap = Heap(blocks: seq<Block>, used: nat)

  datatype Call =
    | Allocate(size: nat)
    | Free(pointer: int)

  /** The block `arwill_kmalloc` takes, if it succeeds. */
  function Choose(bs: seq<Block>, size: nat): Option<nat>
    requires size < SIZE_LIMIT
  {
    if size == 0 || AlignUp(size) == SIZE_LIMIT - 1 then None else FirstFit(bs, AlignUp(size))
  }

  function Allocated(h: Heap, i: nat, n: nat): Heap
    requires i < |h.blocks| && Fits(h.blocks[i], n)
  {
    Heap(Take(h.blocks, i, n), h.used + Taken(h.blocks[i], n)[0].size)
  }

  /** `used_bytes` never falls below zero. */
  function Freed(h: Heap, i: nat): Heap
    requires i < |h.blocks|
  {
    Heap(Release(h.blocks, i), if h.used >= h.blocks[i].size then h.used - h.blocks[i].size else 0)
  }

  predicate Owned(bs: seq<Block>, base: int, pointer: int, i: nat) {
    i < |bs| && !bs[i].free && pointer == Address(bs, base, i) + HEADER
  }

  /** One call: what is returned (None for null or for no result) and the heap after. */
  ghost function Step(h: Heap, base: int, c: Call): (Heap, Option<(int, nat)>)
    requires Permitted(h, base, c)
  {
    match c
    case Allocate(size) =>
      (match Choose(h.blocks, size)
       case None => (h, None)
       case Some(i) =>
         var n := AlignUp(size);
         (Allocated(h, i, n), Some((Address(h.blocks, base, i) + HEADER, Taken(h.blocks[i], n)[0].size))))
    case Free(pointer) =>
      var i :| Owned(h.blocks, base, pointer, i);
      (Freed(h, i), None)
  }

  /** Sizes fit in `size_t`; only pointers to live blocks are freed. */
  ghost predicate Permitted(h: Heap, base: int, c: Call) {
    match c
    case Allocate(size) => size < SIZE_LIMIT
    case Free(pointer) => exists i: nat :: Owned(h.blocks, base, pointer, i)
  }

  ghost predicate Legal(h: Heap, base: int, calls: seq<Call>)
    decreases |calls|
  {
    calls == [] || (Permitted(h, base, calls[0]) && Legal(Step(h, base, calls[0]).0, base, calls[1..]))
  }

  ghost function Run(h: Heap, base: int, calls: seq<Call>): Heap
    requires Legal(h, base, calls)
    decreases |calls|
  {
    if calls == [] then h else Run(Step(h, base, calls[0]).0, base, calls[1..])
  }

  // ----- the callers' ledger

  function Remaining(held: set<(int, nat)>, pointer: int): set<(int, nat)> {
    set p | p in held && p.0 != pointer
  }

  function Book(held: set<(int, nat)>, c: Call, result: Option<(int, nat)>): set<(int, nat)> {
    match c
    case Allocate(_) => if result.Some? then held + {result.value} else held
    case Free(pointer) => Remaining(held, pointer)
  }

  ghost function Ledger(held: set<(int, nat)>, h: Heap, base: int, calls: seq<Call>): set<(int, nat)>
    requires Legal(h, base, calls)
    decreases |calls|
  {
    if calls == [] then held
    else
      var (next, result) := Step(h, base, calls[0]);
      Ledger(Book(held, calls[0], result), next, base, calls[1..])
  }

  /** The heap is well formed, holds what the ledger holds, and counts its bytes. */
  ghost predicate Sound(h: Heap, base: int, extent: nat, held: set<(int, nat)>) {
    HeapOk(h.blocks, extent) && Live(h.blocks, base) == held && h.used == Used(h.blocks)
  }

  /** What was handed out is 16-aligned, inside the heap, and shares no byte. */
  ghost predicate Separate(held: set<(int, nat)>, base: int, extent: nat) {
    && (forall p :: p in held ==> p.0 % ALIGNMENT == 0 && base + HEADER <= p.0 && p.0 + p.1 <= base + extent)
    && (forall p, q :: p in held && q in held && p != q ==> p.0 + p.1 <= q.0 || q.0 + q.1 <= p.0)
  }

  lemma SoundIsSeparate(h: Heap, base: int, extent: nat, held: set<(int, nat)>)
    requires Sound(h, base, extent, held) && base % ALIGNMENT == 0
    ensures Separate(held, base, extent)
  {
    hide Live, Used, Total;
    forall p | p in held
      ensures p.0 % ALIGNMENT == 0 && base + HEADER <= p.0 && p.0 + p.1 <= base + extent
    {
      LiveAligned(h.blocks, base, p);
      LiveInside(h.blocks, base, p);
    }
    forall p, q | p in held && q in held && p != q
      ensures p.0 + p.1 <= q.0 || q.0 + q.1 <= p.0
    {
      LiveDisjoint(h.blocks, base, p, q);
    }
  }

  lemma {:induction false} UsedOwned(bs: seq<Block>, base: int, i: nat)
    requires i < |bs| && !bs[i].free
    ensures Used(bs) >= bs[i].size
  {
    SplitAt(bs, i, base);
  }

  /** Only the freed block has the freed address. */
  lemma RemainingIsMinus(bs: seq<Block>, base: int, p: (int, nat))
    requires p in Live(bs, base)
    ensures Remaining(Live(bs, base), p.0) == Live(bs, base) - {p}
  {
    forall q | q in Live(bs, base) && q != p ensures q.0 != p.0 {
      LiveDisjoint(bs, base, p, q);
    }
  }

  lemma AllocateKeeps(h: Heap, base: int, extent: nat, held: set<(int, nat)>, size: nat)
    requires Sound(h, base, extent, held) && size < SIZE_LIMIT
    ensures var (next, result) := Step(h, base, Allocate(size));
            && Sound(next, base, extent, Book(held, Allocate(size), result))
            && (result.Some? ==> result.value !in held && result.value.1 >= size)
            && (result.Some? <==> size > 0 && exists b :: b in h.blocks && Fits(b, AlignUp(size)))
  {
    hide Live, Used, Total, HeapOk, Take;
    var choice := Choose(h.blocks, size);
    if choice.Some? {
      var n := AlignUp(size);
      TakeCounts(h.blocks, choice.value, n, base);
      TakenCounts(h.blocks[choice.value], n, base);
      TakeKeeps(h.blocks, choice.value, n, extent);
      assert h.blocks[choice.value] in h.blocks;
    } else if size > 0 && AlignUp(size) == SIZE_LIMIT - 1 {
      forall b | b in h.blocks ensures !Fits(b, AlignUp(size)) {
        SizeBelowExtent(h.blocks, extent, b);
      }
    }
  }

  lemma SizeBelowExtent(bs: seq<Block>, extent: nat, b: Block)
    requires HeapOk(bs, extent) && b in bs
    ensures b.size < extent < SIZE_LIMIT - 1
  {
    var i :| 0 <= i < |bs| && bs[i] == b;
    SplitAt(bs, i, 0);
  }

  lemma FreeKeeps(h: Heap, base: int, extent: nat, held: set<(int, nat)>, pointer: int)
    requires Sound(h, base, extent, held) && Permitted(h, base, Free(pointer))
    ensures Sound(Step(h, base, Free(pointer)).0, base, extent, Book(held, Free(pointer), None))
    ensures exists p :: p in held && p.0 == pointer && Step(h, base, Free(pointer)).0.used == h.used - p.1
  {
    hide Live, Used, Total, HeapOk, Release, Address;
    var i: nat :| Owned(h.blocks, base, pointer, i) && Step(h, base, Free(pointer)) == (Freed(h, i), None);
    UsedOwned(h.blocks, base, i);
    ReleaseKeeps(h.blocks, i, base, extent);
    var p := (Address(h.blocks, base, i) + HEADER, h.blocks[i].size);
    RemainingIsMinus(h.blocks, base, p);
    assert p in held && p.0 == pointer && Step(h, base, Free(pointer)).0 == Freed(h, i);
  }

  /** Over every run: the tiling, the neighbours, the byte count, and a heap that
      holds exactly what callers were given and have not given back. */
  lemma {:induction false} RunStaysSound(h: Heap, base: int, extent: nat, held: set<(int, nat)>, calls: seq<Call>)
    requires Sound(h, base, extent, held) && Legal(h, base, calls) && base % ALIGNMENT == 0
    ensures Sound(Run(h, base, calls), base, extent, Ledger(held, h, base, calls))
    ensures Separate(Ledger(held, h, base, calls), base, extent)
    decreases |calls|
  {
    hide Sound, Separate, Step, Permitted;
    if calls == [] {
      SoundIsSeparate(h, base, extent, held);
    } else {
      var (next, result) := Step(h, base, calls[0]);
      StepKeeps(h, base, extent, held, calls[0]);
      RunStaysSound(next, base, extent, Book(held, calls[0], result), calls[1..]);
    }
  }

  lemma StepKeeps(h: Heap, base: int, extent: nat, held: set<(int, nat)>, c: Call)
    requires Sound(h, base, extent, held) && Permitted(h, base, c)
    ensures var (next, result) := Step(h, base, c);
            Sound(next, base, extent, Book(held, c, result))
  {
    hide Sound;
    match c
    case Allocate(size) => AllocateKeeps(h, base, extent, held, size);
    case Free(pointer) => FreeKeeps(h, base, extent, held, pointer);
  }

  /** `arwill_kernel_heap_init`: one free block over all pages. */
  function Initial(extent: nat): Heap
    requires extent >= HEADER
  {
    Heap([Block(extent - HEADER, true)], 0)
  }

  lemma InitialSound(base: int, extent: nat)
    requires HEADER + ALIGNMENT <= extent < SIZE_LIMIT - HEADER - ALIGNMENT && extent % ALIGNMENT == 0
    ensures Sound(Initial(extent), base, extent, {})
  {
    SingleCounts(Block(extent - HEADER, true), base);
  }

  /** Whatever was allocated and freed in between, and in whatever order, a heap
      whose callers hold nothing is the heap that was initialised. */
  lemma EverythingFreedRestores(base: int, extent: nat, calls: seq<Call>)
    requires HEADER + ALIGNMENT <= extent < SIZE_LIMIT - HEADER - ALIGNMENT && extent % ALIGNMENT == 0
    requires base % ALIGNMENT == 0 && Legal(Initial(extent), base, calls)
    requires Ledger({}, Initial(extent), base, calls) == {}
    ensures Run(Initial(extent), base, calls) == Initial(extent)
  {
    hide Legal, Run, Ledger;
    InitialSound(base, extent);
    RunStaysSound(Initial(extent), base, extent, {}, calls);
    var end := Run(Initial(extent), base, calls);
    AllFreeIsInitial(end.blocks, extent, base);
    SingleCounts(end.blocks[0], base);
  }
}
