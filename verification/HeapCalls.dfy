/** What kmalloc and kfree of Heap.dfy promise is what the machine of Isolation.dfy assumes of them:
    the calls of a task to the heap are legal steps of the machine. */
module HeapCalls {
  import opened Prelude
  import opened Switch
  import opened Isolation
  import BlockList
  import HeapImage
  import Heap

  /** w covers the heap below hi. */
  ghost predicate Covers(w: Words, hi: nat) {
    var sound := forall x: nat :: x in w <==> BlockList.BASE <= x < hi && x % 8 == 0;
    sound
  }

  /** The heap's words are those of w. */
  ghost predicate Lies(m: Words, w: Words) {
    var sound := forall x: nat :: x in w ==> Read(m, x) == w[x];
    sound
  }

  /** m is what the call leaves behind: in the heap the words w', outside it anything, and on the
      caller's stack the frames of the call. */
  ghost predicate Returns(k: Machine, m: Words, w': Words, hi': nat) {
    var sound := forall x: nat ::
      && (x in w' ==> Read(m, x) == w'[x] || OwnStack(k, x))
      && (x !in w' ==> Read(m, x) == Read(k.mem, x) || OwnStack(k, x) || BelowHeap(k, x) || x >= hi');
    sound
  }

  lemma PayloadKept(k: Machine, live: map<nat, nat>, w: Words, w': Words, hi': nat, m: Words, a: nat, x: nat)
    requires Owned(k) && Covers(w, k.heap.hi) && Covers(w', hi') && k.heap.hi <= hi'
    requires Lies(k.mem, w) && Returns(k, m, w', hi') && HeapImage.KeptLive(w, w', live)
    requires InPayload(live, a, x) && a in Live(k) && live[a] == Live(k)[a]
    ensures Read(m, x) == Read(k.mem, x) || OwnStack(k, x)
  {
    PayloadInHeap(k, a, x);
    assert HeapImage.Agree(w, w', a + 32, a + 32 + live[a]);
    assert x in w' ==> x in w;
  }

  /** A call that keeps the payloads of `live` does nothing that the kernel may not. */
  lemma HeapCallIsKernelWrites(k: Machine, live: map<nat, nat>, w: Words, w': Words, hi': nat, m: Words)
    requires Owned(k) && Covers(w, k.heap.hi) && Covers(w', hi') && k.heap.hi <= hi'
    requires Lies(k.mem, w) && Returns(k, m, w', hi') && HeapImage.KeptLive(w, w', live)
    requires forall a: nat :: a in live ==> a in Live(k) && live[a] == Live(k)[a]
    ensures KernelWrites(k, live, m)
  {
    BlockList.OrderedEnd(k.heap.blocks, BlockList.BASE, k.heap.hi);
    forall x: nat
      ensures Read(m, x) == Read(k.mem, x) || KernelMayWrite(k, live, x)
    {
      if exists a: nat :: InPayload(live, a, x) {
        var a: nat :| InPayload(live, a, x);
        PayloadKept(k, live, w, w', hi', m, a, x);
      }
    }
  }

  /** The machine's heap is h. */
  ghost predicate Mirrors(k: Machine, h: Heap.Heap)
    reads h, h.space
  {
    k.heap == h.Abstract() && Lies(k.mem, h.space.words)
  }

  lemma HeapCovered(h: Heap.Heap)
    requires h.Valid()
    ensures Covers(h.space.words, h.space.heapEnd)
  {
    forall x: nat
      ensures x in h.space.words <==> BlockList.BASE <= x < h.space.heapEnd && x % 8 == 0
    {
      h.space.WordsOf(x);
    }
  }

  /** A call of `kmalloc` that does not fault is a step of the machine, whatever else it writes. */
  method MallocIsStep(h: Heap.Heap, request: nat, ghost k: Machine)
    returns (p: nat, fault: bool, ghost available: nat)
    requires h.Valid() && 0 < request <= 0xFFFF_FFFF_FFFF_EFE0
    requires Inv(k) && k.sched.queue != [] && Mirrors(k, h)
    modifies h, h.space, h.space.vm, h.space.vm.pmm`used, h.space.vm.pmm`taken, h.space.vm.pmm.bitmap
    ensures !fault ==> h.Valid()
    ensures !fault ==> forall m {:trigger Returns(k, m, h.space.words, h.space.heapEnd)} ::
              Returns(k, m, h.space.words, h.space.heapEnd) ==>
                Legal(k, Malloc(Heap.AlignUp(request, 16), available, m))
    ensures !fault ==>
              && k.sched.queue != []
              && Allocated(k, Heap.AlignUp(request, 16), available, k.mem).heap == h.Abstract()
              && p == Heap.PointerTo(BlockList.Result(k.heap, Heap.AlignUp(request, 16), available))
  {
    ghost var w := h.space.words;
    HeapCovered(h);
    Heap.RoundedRequest(request);
    p, fault, available := h.Kmalloc(request);
    if !fault {
      HeapCovered(h);
      MallocLegal(k, Heap.AlignUp(request, 16), available, w, h.space.words, h.space.heapEnd);
    }
  }

  lemma MallocLegal(k: Machine, size: nat, available: nat, w: Words, w': Words, hi': nat)
    requires Inv(k) && k.sched.queue != [] && size > 0 && size % 16 == 0
    requires Covers(w, k.heap.hi) && Covers(w', hi') && k.heap.hi <= hi' && Lies(k.mem, w)
    requires HeapImage.KeptLive(w, w', Live(k))
    ensures forall m {:trigger Returns(k, m, w', hi')} ::
              Returns(k, m, w', hi') ==> Legal(k, Malloc(size, available, m))
  {
    forall m | Returns(k, m, w', hi')
      ensures Legal(k, Malloc(size, available, m))
    {
      HeapCallIsKernelWrites(k, Live(k), w, w', hi', m);
    }
  }

  /** A call of `kfree` on a block that the caller may use is a step of the machine. */
  method ReleaseIsStep(h: Heap.Heap, p: nat, ghost k: Machine)
    requires h.Valid() && Inv(k) && k.sched.queue != [] && Mirrors(k, h)
    requires p >= 32 && HeapImage.HasBlock(h.blocks, p - 32) && Usable(k, p - 32)
    modifies h.space.vm`mem, h.space`words, h`blocks, h`usedBytes
    ensures h.Valid() && BlockList.Step(k.heap, BlockList.Release(p - 32)) == h.Abstract()
    ensures forall m {:trigger Returns(k, m, h.space.words, h.space.heapEnd)} ::
              Returns(k, m, h.space.words, h.space.heapEnd) ==> Legal(k, Release(p - 32, m))
  {
    ghost var w := h.space.words;
    HeapCovered(h);
    h.Kfree(p);
    HeapCovered(h);
    ReleaseLegal(k, p - 32, w, h.space.words, h.space.heapEnd);
  }

  lemma ReleaseLegal(k: Machine, a: nat, w: Words, w': Words, hi': nat)
    requires Inv(k) && k.sched.queue != [] && Usable(k, a)
    requires Covers(w, k.heap.hi) && Covers(w', hi') && k.heap.hi <= hi' && Lies(k.mem, w)
    requires HeapImage.KeptLive(w, w', Live(k) - {a})
    ensures forall m {:trigger Returns(k, m, w', hi')} :: Returns(k, m, w', hi') ==> Legal(k, Release(a, m))
  {
    forall m | Returns(k, m, w', hi')
      ensures Legal(k, Release(a, m))
    {
      HeapCallIsKernelWrites(k, Live(k) - {a}, w, w', hi', m);
    }
  }
}
