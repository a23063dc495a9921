/** The order in which src/kernel/kernel.c brings the memory stack up, from the boot loader's memory
    map and page tables to an empty heap. */
module Boot {
  import opened Prelude
  import opened PageTable
  import opened Pmm
  import opened Vmm
  import opened HeapGrowth
  import opened HeapSpace
  import opened Heap
  import BlockList

  /** The pages the heap can grow into lie in the upper half. */
  lemma HeapPagesInUpperHalf(i: nat)
    requires HeapPage(i) < PAGES
    ensures Index(HeapPage(i), 3) >= 256
  {
    var p := HeapPage(i);
    assert Above(p, 1) == p / 512;
    assert Above(p, 2) == p / 0x4_0000;
    assert Above(p, 3) == p / 0x800_0000;
  }

  lemma RoomInherited(m: Memory, cr3: nat, m': Memory, root: nat, total: nat)
    requires RoomToGrow(m, cr3, total)
    requires Inherits(m, cr3, m', root)
    ensures RoomToGrow(m', root, total)
  {
    forall i | 0 <= i < total
      ensures Plain(m', root, HeapPage(i)) && LinkRights(m', root, 3, HeapPage(i)).write
    {
      HeapPagesInUpperHalf(i);
      assert Plain(m, cr3, HeapPage(i));
      assert Walk(m', root, 3, HeapPage(i)) == Walk(m, cr3, 3, HeapPage(i));
    }
  }

  /** The frames that can be had after `pmm_init`: the usable ones without frame 0 and the bitmap's. */
  ghost function FramesAtBoot(entries: seq<Entry>, host: nat): nat
    requires WellFormedMap(entries) && IsHost(entries, host)
  {
    var total := TotalFrames(entries);
    Spare(Range(0, total) - (UsableFrames(entries) - BitmapFrames(entries, host)), total)
  }

  lemma {:induction false} SpareAgrees(s: set<nat>, s': set<nat>, n: nat)
    requires forall f: nat :: f < n ==> (f in s <==> f in s')
    ensures Spare(s, n) == Spare(s', n)
  {
    if n > 1 {
      SpareAgrees(s, s', n - 1);
    }
  }

  lemma TakenAtBoot(entries: seq<Entry>, host: nat, taken: set<nat>)
    requires WellFormedMap(entries) && IsHost(entries, host)
    requires
      var total := TotalFrames(entries);
      Range(0, total) - taken == UsableFrames(entries) - BitmapFrames(entries, host)
    ensures Spare(taken, TotalFrames(entries)) == FramesAtBoot(entries, host)
  {
    var total, free := TotalFrames(entries), UsableFrames(entries) - BitmapFrames(entries, host);
    forall f: nat | f < total
      ensures f in taken <==> f in Range(0, total) - free
    {
      assert f in Range(0, total) - taken <==> f in free;
    }
    SpareAgrees(taken, Range(0, total) - free, total);
  }

  /** The new root misses the tables for heap pages that the old one missed. */
  lemma {:induction false} NeedInherited(m: Memory, cr3: nat, m': Memory, root: nat, n: nat)
    requires Inherits(m, cr3, m', root) && HeapPage(n) <= PAGES
    ensures Needed(m', root, 0, n) == Needed(m, cr3, 0, n)
  {
    if n > 0 {
      NeedInherited(m, cr3, m', root, n - 1);
      MissingInherited(m, cr3, m', root, n - 1);
      var p := HeapPage(n - 1);
      if n > 1 {
        assert HeapPage(0 + n - 2) + 1 == p;
      } else {
        assert HeapPage(0) == p;
      }
    }
  }

  lemma MissingInherited(m: Memory, cr3: nat, m': Memory, root: nat, i: nat)
    requires Inherits(m, cr3, m', root) && HeapPage(i) < PAGES
    ensures Missing(m', root, HeapPage(i)) == Missing(m, cr3, HeapPage(i))
  {
    HeapPagesInUpperHalf(i);
  }

  lemma OutlookInherited(m: Memory, cr3: nat, m': Memory, root: nat, n: nat, spare: nat)
    requires Inherits(m, cr3, m', root) && HeapPage(n) <= PAGES
    ensures Supply(m', root, 0, n, spare) == Supply(m, cr3, 0, n, spare)
    ensures Outlook(m', root, 0, n, spare) == Outlook(m, cr3, 0, n, spare)
  {
    forall d: nat | d <= n
      ensures Needed(m', root, 0, d) == Needed(m, cr3, 0, d)
    {
      NeedInherited(m, cr3, m', root, d);
    }
    SameOutlook(m, cr3, m', root, 0, n, spare);
  }

  /** All that the new root inherits for the heap. */
  lemma GrowthInherited(m: Memory, cr3: nat, m': Memory, root: nat, total: nat, n: nat, spare: nat)
    requires Inherits(m, cr3, m', root) && RoomToGrow(m, cr3, total) && HeapPage(n) <= PAGES
    ensures RoomToGrow(m', root, total) && Needed(m', root, 0, n) == Needed(m, cr3, 0, n)
    ensures Outlook(m', root, 0, n, spare) == Outlook(m, cr3, 0, n, spare)
  {
    RoomInherited(m, cr3, m', root, total);
    NeedInherited(m, cr3, m', root, n);
    OutlookInherited(m, cr3, m', root, n, spare);
  }

  /** The inherited tables are in reserved frames. */
  lemma InheritedOwned(entries: seq<Entry>, host: nat, mem: Memory, inherited: map<nat, Position>, taken: set<nat>)
    requires WellFormedMap(entries) && IsHost(entries, host)
    requires
      var total := TotalFrames(entries);
      Range(0, total) - taken == UsableFrames(entries) - BitmapFrames(entries, host)
    requires forall f :: 1 <= f < TotalFrames(entries) ==> f in mem
    requires forall t :: t in inherited ==> t !in UsableFrames(entries)
    ensures Ownership(View(mem, inherited, {}, taken), taken, TotalFrames(entries))
  {
    var total := TotalFrames(entries);
    forall t | t in inherited && t < total
      ensures t in taken
    {
      assert t !in Range(0, total) - taken;
    }
  }

  /** What is left for the heap once the root has been taken. */
  function LeftForHeap(frames: nat): nat { if frames == 0 then 0 else frames - 1 }

  /** pmm_init, vmm_init and heap_init in the order of kmain. Hypotheses: the memory map is as the
      Limine Boot Protocol promises and can hold the bitmap; the inherited tables form a tree in
      frames the allocator never hands out; no large page lies where the heap can grow. */
  method BringUp(entries: seq<Entry>, mem: Memory, cr3: nat, ghost inherited: map<nat, Position>)
    returns (pmm: FrameAllocator, h: Option<Heap>, g: Growth)
    requires Bootable(entries, mem, cr3, inherited)
    ensures WellFormedMap(entries) && pmm.total == TotalFrames(entries) && IsHost(entries, pmm.host)
    ensures g == Outlook(mem, cr3, 0, 16, LeftForHeap(FramesAtBoot(entries, pmm.host)))
    ensures h.Some? <==> g.Enough?
    ensures h.Some? ==>
              && h.value.Valid() && h.value.Abstract() == BlockList.INITIAL && fresh(h.value)
              && h.value.space.vm.pmm == pmm
              && h.value.space.Left() == FramesAtBoot(entries, pmm.host) - 1 - Needed(mem, cr3, 0, 16)
    ensures h.None? ==> AllTaken(pmm.taken, pmm.total)
  {
    pmm := new FrameAllocator.Init(entries);
    TakenAtBoot(entries, pmm.host, pmm.taken);
    InheritedOwned(entries, pmm.host, mem, inherited, pmm.taken);
    h, g := Rise(pmm, mem, cr3, inherited);
  }

  /** vmm_init and heap_init, on the frames that pmm_init left. */
  method Rise(pmm: FrameAllocator, mem: Memory, cr3: nat, ghost inherited: map<nat, Position>)
    returns (h: Option<Heap>, g: Growth)
    requires pmm.Valid() && pmm.total <= 0x100_0000_0000 && pmm.reserved == pmm.taken
    requires Tree(mem, inherited, cr3) && RoomToGrow(mem, cr3, pmm.total)
    requires Ownership(View(mem, inherited, {}, pmm.taken), pmm.reserved, pmm.total)
    modifies pmm`used, pmm`taken, pmm.bitmap
    ensures g == Outlook(mem, cr3, 0, 16, LeftForHeap(old(Spare(pmm.taken, pmm.total))))
    ensures h.Some? <==> g.Enough?
    ensures h.Some? ==>
              && h.value.Valid() && h.value.Abstract() == BlockList.INITIAL && fresh(h.value)
              && h.value.space.vm.pmm == pmm
              && h.value.space.Left() == old(Spare(pmm.taken, pmm.total)) - 1 - Needed(mem, cr3, 0, 16)
    ensures h.None? ==> AllTaken(pmm.taken, pmm.total)
  {
    ghost var left := LeftForHeap(Spare(pmm.taken, pmm.total));
    SpareZero(pmm.taken, pmm.total);
    var vm := new AddressSpace.Init(pmm, mem, cr3, inherited);
    if vm.root == 0 {
      // The first page of heap_init finds no frame either.
      NoFrameNoHeap(mem, cr3);
      var frame := pmm.Alloc();
      h, g := None, Short;
    } else {
      GrowthInherited(mem, cr3, vm.mem, vm.root, pmm.total, 16, left);
      h, g := HeapInit(vm);
    }
  }

  lemma NoFrameNoHeap(m: Memory, cr3: nat)
    ensures Outlook(m, cr3, 0, 16, 0) == Short
  {
    OutlookIff(m, cr3, 0, 16, 0);
  }

  ghost predicate Bootable(entries: seq<Entry>, mem: Memory, cr3: nat, inherited: map<nat, Position>) {
    && WellFormedMap(entries) && TotalFrames(entries) <= 0x100_0000_0000
    && (exists i :: 0 <= i < |entries| && Fits(entries[i], TotalFrames(entries)))
    && Tree(mem, inherited, cr3) && RoomToGrow(mem, cr3, TotalFrames(entries))
    && (forall f :: 1 <= f < TotalFrames(entries) ==> f in mem)
    && (forall t :: t in inherited ==> t !in UsableFrames(entries))
  }

  /** A machine of four usable frames, with an empty upper half: the bitmap and the root take one
      each, and heap_init faults. */
  lemma BootCanFault()
    ensures
      var entries, z := [Entry(4096, 4 * 4096, true)], ZeroPage();
      var mem := map[0 := z, 1 := z, 2 := z, 3 := z, 4 := z];
      && Bootable(entries, mem, 0, map[0 := At(3, 0)]) && IsHost(entries, 0)
      && Outlook(mem, 0, 0, 16, LeftForHeap(FramesAtBoot(entries, 0))) == Fault
  {
    var entries, z := [Entry(4096, 4 * 4096, true)], ZeroPage();
    var mem := map[0 := z, 1 := z, 2 := z, 3 := z, 4 := z];
    FourFrames(entries);
    forall i | 0 <= i < 5
      ensures Plain(mem, 0, HeapPage(i)) && LinkRights(mem, 0, 3, HeapPage(i)).write
    {
      EmptyRoot(mem, HeapPage(i));
    }
    EmptyRoot(mem, HeapPage(0));
    GrowthCanFault(mem, 2);
  }

  lemma FourFrames(entries: seq<Entry>)
    requires entries == [Entry(4096, 4 * 4096, true)]
    ensures WellFormedMap(entries) && TotalFrames(entries) == 5 && IsHost(entries, 0) && Fits(entries[0], 5)
    ensures UsableFrames(entries) == Range(1, 5) && FramesAtBoot(entries, 0) == 3
  {
    assert entries[..0] == [];
    assert Highest(entries) == 5 * 4096;
    assert UsableFrames(entries) == Range(1, 5);
    var s := Range(0, 5) - (UsableFrames(entries) - BitmapFrames(entries, 0));
    assert BitmapFrames(entries, 0) == Range(1, 2);
    assert 1 in s && 2 !in s && 3 !in s && 4 !in s;
    assert Spare(s, 2) == 0;
    assert Spare(s, 3) == 1;
    assert Spare(s, 4) == 2;
  }
}
