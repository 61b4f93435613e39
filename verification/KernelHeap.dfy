/** The heap as kernel/memory.c keeps it: linked headers, split and merged in place, proved
    against HeapBlocks and HeapRuns. */
module KernelHeap {
  import opened Wrappers
  import opened Sequences
  import opened HeapBlocks
  import opened HeapRuns

  /** A `struct heap_block`; `next` is an address, 0 for null. */
  datatype Header = Header(size: nat, free: bool, next: int)

  function HeaderOf(bs: seq<Block>, base: int, i: nat): Header
    requires i < |bs|
  {
    Header(bs[i].size, bs[i].free, if i + 1 < |bs| then Address(bs, base, i + 1) else 0)
  }

  /** Walking from `base` along `next` visits exactly the blocks of `bs`. */
  predicate Linked(memory: map<int, Header>, base: int, bs: seq<Block>) {
    forall i: nat :: i < |bs| ==>
      Address(bs, base, i) in memory && memory[Address(bs, base, i)] == HeaderOf(bs, base, i)
  }

  lemma AddressNext(bs: seq<Block>, base: int, i: nat)
    requires i < |bs|
    ensures Address(bs, base, i + 1) == Address(bs, base, i) + HEADER + bs[i].size
  {
    assert bs[..i + 1] == bs[..i] + [bs[i]];
    TotalAppend(bs[..i], [bs[i]]);
    SingleCounts(bs[i], base);
  }

  lemma {:induction false} AddressBefore(bs: seq<Block>, base: int, i: nat, j: nat)
    requires i < j <= |bs|
    ensures Address(bs, base, i) + HEADER + bs[i].size <= Address(bs, base, j)
    ensures Address(bs, base, j) >= base
    decreases j
  {
    AddressNext(bs, base, j - 1);
    if i < j - 1 { AddressBefore(bs, base, i, j - 1); }
  }

  /** Rewriting one header with the same size keeps the chain. */
  lemma LinkedSet(memory: map<int, Header>, base: int, bs: seq<Block>, i: nat, free: bool)
    requires Linked(memory, base, bs) && i < |bs|
    ensures var a := Address(bs, base, i);
            Linked(memory[a := memory[a].(free := free)], base, bs[i := bs[i].(free := free)])
  {
    hide Total;
    var a := Address(bs, base, i);
    var t := bs[i := bs[i].(free := free)];
    var m := memory[a := memory[a].(free := free)];
    forall k: nat | k <= |bs| ensures Address(t, base, k) == Address(bs, base, k) {
      SetAddress(bs, base, i, free, k);
    }
    forall k: nat | k < |t|
      ensures Address(t, base, k) in m && m[Address(t, base, k)] == HeaderOf(t, base, k)
    {
      if k < i { AddressBefore(bs, base, k, i); } else if i < k { AddressBefore(bs, base, i, k); }
    }
  }

  lemma {:induction false} SetAddress(bs: seq<Block>, base: int, i: nat, free: bool, k: nat)
    requires i < |bs| && k <= |bs|
    ensures Address(bs[i := bs[i].(free := free)], base, k) == Address(bs, base, k)
  {
    var t := bs[i := bs[i].(free := free)];
    if k > 0 {
      SetAddress(bs, base, i, free, k - 1);
      AddressNext(bs, base, k - 1);
      AddressNext(t, base, k - 1);
    }
  }

  /** Replacing blocks in the middle by others of the same total leaves every later
      address where it was. */
  lemma SpliceAddress(a: seq<Block>, m: seq<Block>, m': seq<Block>, z: seq<Block>, base: int, k: nat)
    requires Total(m) == Total(m') && k <= |z|
    ensures Address(a + m + z, base, |a| + |m| + k) == Address(a + m' + z, base, |a| + |m'| + k)
  {
    hide Total;
    PrefixOfThree(a, m, z, k);
    PrefixOfThree(a, m', z, k);
    TotalAppend(a + m, z[..k]);
    TotalAppend(a + m', z[..k]);
    TotalAppend(a, m);
    TotalAppend(a, m');
  }

  /** The list after blocks `i` and `i + 1` are merged. */
  function Merged(bs: seq<Block>, i: nat): seq<Block>
    requires i + 1 < |bs|
  {
    bs[..i] + [Block(bs[i].size + HEADER + bs[i + 1].size, bs[i].free)] + bs[i + 2..]
  }

  lemma MergedAddress(bs: seq<Block>, base: int, i: nat, k: nat)
    requires i + 1 < |bs| && k < |bs|
    ensures k <= i ==> Address(Merged(bs, i), base, k) == Address(bs, base, k)
    ensures k > i ==> Address(Merged(bs, i), base, k) == Address(bs, base, k + 1)
  {
    hide Total;
    var t := Merged(bs, i);
    if k <= i {
      assert t[..k] == bs[..k];
    } else {
      var m, m' := [bs[i], bs[i + 1]], [t[i]];
      assert bs == bs[..i] + m + bs[i + 2..] && t == bs[..i] + m' + bs[i + 2..];
      PairTotal(bs[i], bs[i + 1]);
      SingleCounts(t[i], base);
      SpliceAddress(bs[..i], m, m', bs[i + 2..], base, k - i - 1);
    }
  }

  lemma PairTotal(b: Block, c: Block)
    ensures Total([b, c]) == HEADER + b.size + HEADER + c.size
  {
    assert [b, c] == [b] + [c];
    TotalAppend([b], [c]);
    SingleCounts(b, 0);
    SingleCounts(c, 0);
  }

  lemma LinkedMerge(memory: map<int, Header>, base: int, bs: seq<Block>, i: nat)
    requires Linked(memory, base, bs) && i + 1 < |bs|
    ensures var a, b := Address(bs, base, i), Address(bs, base, i + 1);
            Linked(memory[a := Header(memory[a].size + HEADER + memory[b].size, memory[a].free, memory[b].next)],
                   base, Merged(bs, i))
  {
    hide Total, Address;
    var a, b := Address(bs, base, i), Address(bs, base, i + 1);
    var m := memory[a := Header(memory[a].size + HEADER + memory[b].size, memory[a].free, memory[b].next)];
    var t := Merged(bs, i);
    assert |t| == |bs| - 1;
    assert forall k: nat :: k < i ==> t[k] == bs[k];
    assert forall k: nat :: i < k < |t| ==> t[k] == bs[k + 1];
    forall k: nat | k < |t|
      ensures Address(t, base, k) in m && m[Address(t, base, k)] == HeaderOf(t, base, k)
    {
      MergedAddress(bs, base, i, k);
      if k + 1 < |t| { MergedAddress(bs, base, i, k + 1); }
      if k < i {
        AddressBefore(bs, base, k, i);
        assert memory[Address(bs, base, k)] == HeaderOf(bs, base, k);
      } else if k > i {
        AddressBefore(bs, base, i, k + 1);
        assert memory[Address(bs, base, k + 1)] == HeaderOf(bs, base, k + 1);
      } else {
        assert memory[b] == HeaderOf(bs, base, i + 1) && memory[a] == HeaderOf(bs, base, i);
      }
    }
  }

  /** The list after block `i` is cut behind its first `n` bytes. */
  function Cut(bs: seq<Block>, i: nat, n: nat): seq<Block>
    requires i < |bs| && bs[i].size >= n + HEADER
  {
    bs[..i] + [Block(n, bs[i].free), Block(bs[i].size - n - HEADER, true)] + bs[i + 1..]
  }

  lemma CutAddress(bs: seq<Block>, base: int, i: nat, n: nat, k: nat)
    requires i < |bs| && bs[i].size >= n + HEADER && k <= |bs|
    ensures k <= i ==> Address(Cut(bs, i, n), base, k) == Address(bs, base, k)
    ensures k > i ==> Address(Cut(bs, i, n), base, k + 1) == Address(bs, base, k)
    ensures Address(Cut(bs, i, n), base, i + 1) == Address(bs, base, i) + HEADER + n
  {
    hide Total;
    var t := Cut(bs, i, n);
    assert t[..i] == bs[..i];
    AddressNext(t, base, i);
    if k <= i {
      assert t[..k] == bs[..k];
    } else {
      var m, m' := [bs[i]], [t[i], t[i + 1]];
      assert bs == bs[..i] + m + bs[i + 1..] && t == bs[..i] + m' + bs[i + 1..];
      PairTotal(t[i], t[i + 1]);
      SingleCounts(bs[i], base);
      SpliceAddress(bs[..i], m, m', bs[i + 1..], base, k - i - 1);
    }
  }

  lemma LinkedCut(memory: map<int, Header>, base: int, bs: seq<Block>, i: nat, n: nat)
    requires Linked(memory, base, bs) && i < |bs| && bs[i].size >= n + HEADER
    ensures var a := Address(bs, base, i);
            var b := a + HEADER + n;
            Linked(memory[b := Header(memory[a].size - n - HEADER, true, memory[a].next)]
                         [a := Header(n, memory[a].free, b)], base, Cut(bs, i, n))
  {
    hide Total, Address, Cut;
    HeaderIs(memory, base, bs, i);
    CutLength(bs, i, n);
    var t := Cut(bs, i, n);
    forall k: nat | k < |t|
      ensures var a := Address(bs, base, i);
              var b := a + HEADER + n;
              var m := memory[b := Header(memory[a].size - n - HEADER, true, memory[a].next)][a := Header(n, memory[a].free, b)];
              Address(t, base, k) in m && m[Address(t, base, k)] == HeaderOf(t, base, k)
    {
      CutOne(memory, base, bs, i, n, k);
    }
  }

  lemma CutOne(memory: map<int, Header>, base: int, bs: seq<Block>, i: nat, n: nat, k: nat)
    requires Linked(memory, base, bs) && i < |bs| && bs[i].size >= n + HEADER && k <= |bs|
    ensures |Cut(bs, i, n)| == |bs| + 1 && Address(bs, base, i) in memory
    ensures var a := Address(bs, base, i);
            var b := a + HEADER + n;
            var m := memory[b := Header(memory[a].size - n - HEADER, true, memory[a].next)][a := Header(n, memory[a].free, b)];
            var t := Cut(bs, i, n);
            Address(t, base, k) in m && m[Address(t, base, k)] == HeaderOf(t, base, k)
  {
    hide Total, Address, Cut, HeaderOf, Linked;
    HeaderIs(memory, base, bs, i);
    CutHeaders(bs, base, i, n);
    if k != i && k != i + 1 {
      var j := if k < i then k else k - 1;
      OtherHeader(bs, base, i, n, j);
      HeaderIs(memory, base, bs, j);
    }
  }

  lemma CutLength(bs: seq<Block>, i: nat, n: nat)
    requires i < |bs| && bs[i].size >= n + HEADER
    ensures |Cut(bs, i, n)| == |bs| + 1
  {
  }

  /** The two headers of a block that was cut. */
  lemma CutHeaders(bs: seq<Block>, base: int, i: nat, n: nat)
    requires i < |bs| && bs[i].size >= n + HEADER
    ensures var t := Cut(bs, i, n);
            var a, h := Address(bs, base, i), HeaderOf(bs, base, i);
            && |t| == |bs| + 1 && Address(t, base, i) == a && Address(t, base, i + 1) == a + HEADER + n
            && HeaderOf(t, base, i) == Header(n, h.free, a + HEADER + n)
            && HeaderOf(t, base, i + 1) == Header(h.size - n - HEADER, true, h.next)
  {
    hide Total, Address;
    CutAddress(bs, base, i, n, i);
    CutAddress(bs, base, i, n, i + 1);
  }

  /** Every other header stays where and what it was, and is apart from the two. */
  lemma OtherHeader(bs: seq<Block>, base: int, i: nat, n: nat, j: nat)
    requires i < |bs| && bs[i].size >= n + HEADER && j < |bs| && j != i
    ensures var t := Cut(bs, i, n);
            var k := if j < i then j else j + 1;
            var a, b := Address(bs, base, i), Address(bs, base, j);
            && |t| == |bs| + 1 && Address(t, base, k) == b && HeaderOf(t, base, k) == HeaderOf(bs, base, j)
            && b != a && b != a + HEADER + n
  {
    hide Total, Address;
    CutAddress(bs, base, i, n, j);
    CutAddress(bs, base, i, n, j + 1);
    AddressNext(bs, base, i);
    if j < i { AddressBefore(bs, base, j, i); } else { AddressBefore(bs, base, i, j); }
  }

  class KernelHeap {
    var memory: map<int, Header>
    const base: int
    var usedBytes: nat
    ghost var blocks: seq<Block>
    ghost const extent: nat

    ghost predicate Valid()
      reads this
    {
      && base > 0 && base % ALIGNMENT == 0
      && HeapOk(blocks, extent) && Linked(memory, base, blocks) && usedBytes == Used(blocks)
    }

    ghost function View(): Heap
      reads this
    {
      Heap(blocks, usedBytes)
    }

    /** `arwill_kernel_heap_init`, once the pages are there. */
    constructor (base: int, size: nat)
      requires base > 0 && base % ALIGNMENT == 0
      requires HEADER + ALIGNMENT <= size < SIZE_LIMIT - HEADER - ALIGNMENT && size % ALIGNMENT == 0
      ensures Valid() && View() == Initial(size) && this.base == base && extent == size
    {
      InitialSound(base, size);
      this.base := base;
      this.extent := size;
      memory := map[base := Header(size - HEADER, true, 0)];
      usedBytes := 0;
      blocks := [Block(size - HEADER, true)];
    }

    /** `arwill_kmalloc`: 0 is the null pointer. */
    method Kmalloc(size: nat) returns (pointer: int)
      requires Valid() && size < SIZE_LIMIT
      modifies this`memory, this`usedBytes, this`blocks
      ensures Valid()
      ensures match Choose(old(blocks), size)
              case None => pointer == 0 && View() == old(View())
              case Some(i) => pointer == Address(old(blocks), base, i) + HEADER != 0
                              && View() == Allocated(old(View()), i, AlignUp(size))
    {
      hide Total, Used, Address, Linked, NoFreeNeighbours, Proper, Take;
      if size == 0 { return 0; }
      var n := AlignUp(size);
      if n == SIZE_LIMIT - 1 { return 0; }
      var block := base;
      ghost var i: nat := 0;
      StartOfChain();
      while block != 0
        invariant i <= |blocks| && Valid() && View() == old(View())
        invariant block == if i < |blocks| then Address(blocks, base, i) else 0
        invariant i < |blocks| ==> block != 0
        invariant forall k :: 0 <= k < i ==> !Fits(blocks[k], n)
        decreases |blocks| - i
      {
        OnChain(i);
        if !memory[block].free || memory[block].size < n {
          block := memory[block].next;
          i := i + 1;
        } else {
          FirstIs(blocks, n, i);
          pointer := TakeBlock(block, n, i);
          return;
        }
      }
      NoneFits(blocks, n);
      pointer := 0;
    }

    /** The body of the successful branch: split if worth it, then mark and count. */
    method TakeBlock(block: int, n: nat, ghost i: nat) returns (pointer: int)
      requires Valid() && n > 0 && n % ALIGNMENT == 0
      requires i < |blocks| && Fits(blocks[i], n) && block == Address(blocks, base, i)
      modifies this`memory, this`usedBytes, this`blocks
      ensures Valid() && pointer == block + HEADER && View() == Allocated(old(View()), i, n)
    {
      hide Total, Used, Address, Linked, HeapOk, Live;
      OnChain(i);
      TakeKeeps(blocks, i, n, extent);
      TakeCounts(blocks, i, n, base);
      ghost var taken := Take(blocks, i, n);
      if memory[block].size >= n + HEADER + ALIGNMENT {
        LinkedCut(memory, base, blocks, i, n);
        CutAddress(blocks, base, i, n, i);
        var next := block + HEADER + n;
        memory := memory[next := Header(memory[block].size - n - HEADER, true, memory[block].next)];
        memory := memory[block := Header(n, memory[block].free, next)];
        blocks := Cut(blocks, i, n);
      }
      LinkedSet(memory, base, blocks, i, false);
      HeaderIs(memory, base, blocks, i);
      memory := memory[block := memory[block].(free := false)];
      blocks := blocks[i := blocks[i].(free := false)];
      assert blocks == taken;
      usedBytes := usedBytes + memory[block].size;
      pointer := block + HEADER;
    }

    /** `arwill_kfree` on null, or on a pointer whose header is in the chain; freeing
        what is already free does nothing. */
    method Kfree(pointer: int, ghost i: nat)
      requires Valid()
      requires pointer == 0 || (i < |blocks| && pointer == Address(blocks, base, i) + HEADER)
      modifies this`memory, this`usedBytes, this`blocks
      ensures Valid()
      ensures View() == if pointer == 0 || old(blocks[i].free) then old(View()) else Freed(old(View()), i)
    {
      hide Total, Used, Address, Linked, HeapOk, Live, Release;
      if pointer == 0 { return; }
      var block := pointer - HEADER;
      OnChain(i);
      if memory[block].free { return; }
      LinkedSet(memory, base, blocks, i, true);
      memory := memory[block := memory[block].(free := true)];
      if usedBytes >= memory[block].size {
        usedBytes := usedBytes - memory[block].size;
      } else {
        usedBytes := 0;
      }
      ReleaseKeeps(blocks, i, base, extent);
      blocks := blocks[i := blocks[i].(free := true)];
      CoalesceBlocks();
      assert blocks == Release(old(blocks), i) by { ReleaseIsCoalesce(old(blocks), i); }
    }

    /** `heap_coalesce`: merges in place, from the first block. */
    method CoalesceBlocks()
      requires base > 0 && blocks != [] && Linked(memory, base, blocks)
      modifies this`memory, this`blocks
      ensures blocks == Coalesce(old(blocks)) && Linked(memory, base, blocks)
    {
      hide Total, Address, Linked, Coalesce;
      var block := base;
      ghost var i: nat := 0;
      StartOfChain();
      assert blocks[..0] + Coalesce(blocks[0..]) == Coalesce(blocks) by { assert blocks[0..] == blocks; }
      while memory[block].next != 0
        invariant i < |blocks| && Linked(memory, base, blocks) && block == Address(blocks, base, i)
        invariant block in memory && memory[block] == HeaderOf(blocks, base, i)
        invariant blocks[..i] + Coalesce(blocks[i..]) == Coalesce(old(blocks))
        decreases |blocks| - i
      {
        var next := memory[block].next;
        HeaderIs(memory, base, blocks, i + 1);
        if memory[block].free && memory[next].free {
          CoalesceMerges(blocks, i);
          LinkedMerge(memory, base, blocks, i);
          MergedAddress(blocks, base, i, i);
          memory := memory[block := Header(memory[block].size + HEADER + memory[next].size, memory[block].free,
                                           memory[next].next)];
          blocks := Merged(blocks, i);
          HeaderIs(memory, base, blocks, i);
        } else {
          CoalesceSkips(blocks, i);
          block := next;
          i := i + 1;
        }
      }
      NextIsNull(i);
      CoalesceLast(blocks, i);
    }

    lemma StartOfChain()
      requires blocks != [] && Linked(memory, base, blocks)
      ensures base == Address(blocks, base, 0) && base in memory && memory[base] == HeaderOf(blocks, base, 0)
    {
      assert blocks[..0] == [];
    }

    lemma OnChain(i: nat)
      requires Linked(memory, base, blocks) && i < |blocks| && base > 0
      ensures var a := Address(blocks, base, i);
              a > 0 && a in memory && memory[a] == HeaderOf(blocks, base, i)
              && (i + 1 < |blocks| ==> memory[a].next > 0)
    {
      if i > 0 { AddressBefore(blocks, base, 0, i); }
      if i + 1 < |blocks| { AddressBefore(blocks, base, 0, i + 1); }
    }

    lemma NextIsNull(i: nat)
      requires Linked(memory, base, blocks) && i < |blocks| && base > 0
      requires memory[Address(blocks, base, i)].next == 0
      ensures i + 1 == |blocks|
    {
      OnChain(i);
    }
  }

  lemma HeaderIs(memory: map<int, Header>, base: int, bs: seq<Block>, i: nat)
    requires Linked(memory, base, bs) && i < |bs|
    ensures Address(bs, base, i) in memory && memory[Address(bs, base, i)] == HeaderOf(bs, base, i)
  {
  }

  lemma {:induction false} FirstIs(bs: seq<Block>, n: nat, i: nat)
    requires i < |bs| && Fits(bs[i], n) && forall k :: 0 <= k < i ==> !Fits(bs[k], n)
    ensures FirstFit(bs, n) == Some(i)
  {
  }

  lemma NoneFits(bs: seq<Block>, n: nat)
    requires forall k :: 0 <= k < |bs| ==> !Fits(bs[k], n)
    ensures FirstFit(bs, n) == None
  {
  }

  lemma ReleaseIsCoalesce(bs: seq<Block>, i: nat)
    requires i < |bs|
    ensures Release(bs, i) == Coalesce(bs[i := bs[i].(free := true)])
  {
  }

  lemma CoalesceMerges(bs: seq<Block>, i: nat)
    requires i + 1 < |bs| && bs[i].free && bs[i + 1].free
    ensures Merged(bs, i)[..i] + Coalesce(Merged(bs, i)[i..]) == bs[..i] + Coalesce(bs[i..])
  {
    var t := Merged(bs, i);
    assert t[..i] == bs[..i];
    DropTwice(bs, i, 2);
    assert t[i..] == [Block(bs[i].size + HEADER + bs[i + 1].size, true)] + bs[i..][2..];
  }

  lemma CoalesceSkips(bs: seq<Block>, i: nat)
    requires i + 1 < |bs| && !(bs[i].free && bs[i + 1].free)
    ensures bs[..i + 1] + Coalesce(bs[i + 1..]) == bs[..i] + Coalesce(bs[i..])
  {
    hide Coalesce;
    assert bs[..i + 1] == bs[..i] + [bs[i]];
    DropTwice(bs, i, 1);
    CoalesceKeepsFirst(bs[i..]);
    Associative(bs[..i], [bs[i]], Coalesce(bs[i + 1..]));
  }

  lemma CoalesceKeepsFirst(bs: seq<Block>)
    requires |bs| > 1 && !(bs[0].free && bs[1].free)
    ensures Coalesce(bs) == [bs[0]] + Coalesce(bs[1..])
  {
  }

  lemma CoalesceLast(bs: seq<Block>, i: nat)
    requires i + 1 == |bs|
    ensures bs[..i] + Coalesce(bs[i..]) == bs
  {
    assert bs == bs[..i] + bs[i..];
  }
}
