/** The virtual range [HEAP_BASE, heap_end) of src/mm/heap.c: `grow_pages` maps a fresh frame behind
    each of its pages, and the heap reads and writes its words through the page tables. */
module HeapSpace {
  import opened PageTable
  import opened Pmm
  import opened Vmm
  import opened HeapGrowth
  import BlockList

  ghost function FrameSet(frames: seq<nat>): set<nat> {
    set f | f in frames
  }

  /** Heap page i is mapped writable to frames[i]. */
  ghost predicate Mapped(mem: Memory, root: nat, frames: seq<nat>) {
    forall i {:trigger HeapPage(i)} :: 0 <= i < |frames| ==>
      Walk(mem, root, 3, HeapPage(i)) == Leaf(0, PageEntry(frames[i], WRITE))
  }

  ghost predicate Distinct(frames: seq<nat>) {
    forall i, j :: 0 <= i < j < |frames| ==> frames[i] != frames[j]
  }

  /** Each frame in use is reserved, a page table, or behind exactly one heap page. */
  ghost predicate Partition(v: View, reserved: set<nat>, total: nat, frames: seq<nat>) {
    && Distinct(frames)
    && (forall i :: 0 <= i < |frames| ==> 1 <= frames[i] < total && frames[i] !in reserved)
    && v.taken - v.made == reserved + FrameSet(frames)
  }

  /** No large page where the heap can grow to, and no table that forbids writing. */
  ghost predicate RoomToGrow(mem: Memory, root: nat, total: nat) {
    && HeapPage(total) <= PAGES
    && forall i {:trigger HeapPage(i)} :: 0 <= i < total ==>
         Plain(mem, root, HeapPage(i)) && LinkRights(mem, root, 3, HeapPage(i)).write
  }

  /** Where a heap word lies. */
  function PageIndex(v: nat): nat {
    if v < BlockList.BASE then 0 else (v - BlockList.BASE) / 4096
  }

  function WordIndex(v: nat): (i: nat)
    ensures i < 512
  {
    v % 4096 / 8
  }

  predicate IsWord(v: nat, pages: nat) {
    BlockList.BASE <= v < BlockList.BASE + pages * 4096 && v % 8 == 0
  }

  /** `words` is what the heap's addresses hold. */
  ghost predicate Shows(words: map<nat, nat>, mem: Memory, frames: seq<nat>) {
    && (forall v {:trigger IsWord(v, |frames|)} :: v in words <==> IsWord(v, |frames|))
    && (forall v {:trigger PageIndex(v)} :: v in words ==>
          PageIndex(v) < |frames| && words[v] == Word(mem, frames[PageIndex(v)], WordIndex(v)))
  }

  lemma PageOfWord(v: nat, pages: nat)
    requires IsWord(v, pages) && HeapPage(pages) <= PAGES
    ensures PageIndex(v) < pages && PageOf(v) == HeapPage(PageIndex(v))
  {
    var d := v - BlockList.BASE;
    assert v / 4096 == 0xF_FFFA_0000_0000 + d / 4096;
  }

  /** Different heap words are different physical words. */
  lemma WordsApart(v: nat, w: nat, pages: nat, frames: seq<nat>)
    requires IsWord(v, pages) && IsWord(w, pages) && v != w
    requires |frames| == pages && Distinct(frames) && PageIndex(v) < pages && PageIndex(w) < pages
    ensures frames[PageIndex(v)] != frames[PageIndex(w)] || WordIndex(v) != WordIndex(w)
  {
    if PageIndex(v) < PageIndex(w) || PageIndex(w) < PageIndex(v) {
      assert frames[PageIndex(v)] != frames[PageIndex(w)];
    } else {
      SamePageApart(v, w);
    }
  }

  lemma SamePageApart(v: nat, w: nat)
    requires BlockList.BASE <= v && BlockList.BASE <= w && v % 8 == 0 && w % 8 == 0 && v != w
    requires PageIndex(v) == PageIndex(w)
    ensures WordIndex(v) != WordIndex(w)
  {
    WordOffset(v);
    WordOffset(w);
    OffsetAligned(v);
    OffsetAligned(w);
    PartsApart(v - BlockList.BASE, w - BlockList.BASE);
  }

  lemma PartsApart(d: nat, d': nat)
    requires d % 8 == 0 && d' % 8 == 0 && d != d' && d / 4096 == d' / 4096
    ensures d % 4096 / 8 != d' % 4096 / 8
  {
    WordParts(d);
    WordParts(d');
  }

  lemma WordOffset(v: nat)
    requires v >= BlockList.BASE
    ensures (v - BlockList.BASE) % 4096 == v % 4096
  {
  }

  lemma OffsetAligned(v: nat)
    requires v >= BlockList.BASE && v % 8 == 0
    ensures (v - BlockList.BASE) % 8 == 0
  {
    var n := v / 8;
    assert v - BlockList.BASE == 8 * (n - 0x1FFF_F400_0000_0000);
  }

  lemma WordParts(d: nat)
    requires d % 8 == 0
    ensures d == d / 4096 * 4096 + d % 4096 / 8 * 8
  {
    var r := d % 4096;
    assert r % 8 == 0;
  }

  // -------------------------------------------------------------------------------------------
  // One page more
  // -------------------------------------------------------------------------------------------

  /** What the range relies on beside the page tables' own invariants. */
  ghost predicate Holds(v: View, root: nat, reserved: set<nat>, total: nat, frames: seq<nat>, words: map<nat, nat>) {
    var sound :=
      && RoomToGrow(v.mem, root, total)
      && Mapped(v.mem, root, frames)
      && Partition(v, reserved, total, frames)
      && Shows(words, v.mem, frames);
    sound
  }

  /** Heap frames hold no page table. */
  lemma HeapFrameIsNoTable(v: View, reserved: set<nat>, total: nat, frames: seq<nat>, i: nat)
    requires Ownership(v, reserved, total) && Partition(v, reserved, total, frames) && i < |frames|
    ensures frames[i] !in v.own && frames[i] in v.mem && frames[i] in v.taken - v.made
  {
    assert frames[i] in FrameSet(frames);
  }

  /** Distinct allocatable frames are fewer than all frames. */
  lemma {:induction false} FewerThanTotal(frames: seq<nat>, total: nat)
    requires Distinct(frames) && forall i :: 0 <= i < |frames| ==> 1 <= frames[i] < total
    ensures |frames| == 0 || |frames| < total
    decreases total
  {
    if total > 0 && total - 1 in frames {
      var k :| 0 <= k < |frames| && frames[k] == total - 1;
      var rest := frames[..k] + frames[k + 1..];
      assert forall i :: 0 <= i < |rest| ==> rest[i] == frames[if i < k then i else i + 1];
      FewerThanTotal(rest, total - 1);
    } else if |frames| > 0 {
      assert frames[0] < total - 1 by {
        assert frames[0] in frames;
      }
      forall i | 0 <= i < |frames| ensures frames[i] < total - 1 {
        assert frames[i] in frames;
      }
      FewerThanTotal(frames, total - 1);
    }
  }

  lemma PartitionGrows(v: View, w: View, reserved: set<nat>, total: nat, frames: seq<nat>, f: nat)
    requires Ownership(v, reserved, total) && Partition(v, reserved, total, frames) && reserved <= v.taken
    requires f !in v.taken && 1 <= f < total
    requires OnlyTables(v.(taken := v.taken + {f}), w)
    ensures Partition(w, reserved, total, frames + [f])
  {
    forall i | 0 <= i < |frames|
      ensures frames[i] != f
    {
      HeapFrameIsNoTable(v, reserved, total, frames, i);
    }
    assert FrameSet(frames + [f]) == FrameSet(frames) + {f} by {
      forall g ensures g in frames + [f] <==> g in frames || g == f {}
    }
  }

  lemma MappingsGrow(v: View, w: View, root: nat, frames: seq<nat>, f: nat)
    requires Mapped(v.mem, root, frames) && HeapPage(|frames|) < PAGES
    requires SameTranslationsBut(v, w, root, HeapPage(|frames|))
    requires Walk(w.mem, root, 3, HeapPage(|frames|)) == Leaf(0, PageEntry(f, WRITE))
    ensures Mapped(w.mem, root, frames + [f])
  {
    forall i | 0 <= i < |frames|
      ensures Walk(w.mem, root, 3, HeapPage(i)) == Leaf(0, PageEntry(frames[i], WRITE))
    {
      assert Translate(w.mem, root, HeapPage(i)) == Translate(v.mem, root, HeapPage(i));
    }
  }

  lemma RoomStays(v: View, w: View, root: nat, total: nat, page: nat)
    requires RoomToGrow(v.mem, root, total)
    requires SameTranslationsBut(v, w, root, page) && Plain(w.mem, root, page)
    ensures RoomToGrow(w.mem, root, total)
  {
    forall i | 0 <= i < total
      ensures Plain(w.mem, root, HeapPage(i)) && LinkRights(w.mem, root, 3, HeapPage(i)).write
    {
      assert Plain(v.mem, root, HeapPage(i));
      assert LinkRights(w.mem, root, 3, HeapPage(i)) == LinkRights(v.mem, root, 3, HeapPage(i));
      if HeapPage(i) != page {
        assert Translate(w.mem, root, HeapPage(i)) == Translate(v.mem, root, HeapPage(i));
      }
    }
  }

  /** The words after a page backed by frame f has been added. */
  ghost function MoreWords(words: map<nat, nat>, mem: Memory, pages: nat, f: nat): map<nat, nat> {
    map v | BlockList.BASE <= v < BlockList.BASE + (pages + 1) * 4096 && v % 8 == 0 ::
      if v in words then words[v] else Word(mem, f, WordIndex(v))
  }

  lemma WordsGrow(v: View, w: View, reserved: set<nat>, total: nat, frames: seq<nat>, f: nat, words: map<nat, nat>)
    requires Ownership(w, reserved, total) && Partition(w, reserved, total, frames + [f])
    requires OnlyTables(v.(taken := v.taken + {f}), w) && Shows(words, v.mem, frames)
    ensures Shows(MoreWords(words, w.mem, |frames|, f), w.mem, frames + [f])
    ensures forall a :: a in words ==>
              && a in MoreWords(words, w.mem, |frames|, f)
              && MoreWords(words, w.mem, |frames|, f)[a] == words[a]
  {
    var more := MoreWords(words, w.mem, |frames|, f);
    forall a | a in words
      ensures a in more
    {
      assert IsWord(a, |frames|);
    }
    forall a | a in more
      ensures PageIndex(a) < |frames| + 1
      ensures more[a] == Word(w.mem, (frames + [f])[PageIndex(a)], WordIndex(a))
    {
      if a in words {
        HeapFrameIsNoTable(w, reserved, total, frames + [f], PageIndex(a));
      } else {
        assert !IsWord(a, |frames|);
        assert PageIndex(a) == |frames|;
      }
    }
  }

  // -------------------------------------------------------------------------------------------
  // Loads and stores
  // -------------------------------------------------------------------------------------------

  /** A store through the page tables changes one heap word and nothing else that the kernel
      relies on: no table, no translation, no other heap word. */
  lemma StoreEffect(v: View, root: nat, reserved: set<nat>, total: nat, frames: seq<nat>, words: map<nat, nat>,
                    a: nat, x: nat)
    requires Tree(v.mem, v.own, root) && Ownership(v, reserved, total)
    requires Holds(v, root, reserved, total, frames, words) && a in words
    ensures PageIndex(a) < |frames| && frames[PageIndex(a)] in v.mem
    ensures Tree(SetWord(v.mem, frames[PageIndex(a)], WordIndex(a), x), v.own, root)
    ensures Holds(v.(mem := SetWord(v.mem, frames[PageIndex(a)], WordIndex(a), x)), root, reserved, total, frames,
                  words[a := x])
  {
    var f, i := frames[PageIndex(a)], WordIndex(a);
    HeapFrameIsNoTable(v, reserved, total, frames, PageIndex(a));
    DataWrite(v.mem, v.own, root, f, i, x);
    var w := v.(mem := SetWord(v.mem, f, i, x));
    forall k | 0 <= k < total
      ensures Plain(w.mem, root, HeapPage(k)) && LinkRights(w.mem, root, 3, HeapPage(k)).write
    {
      assert Plain(v.mem, root, HeapPage(k));
      assert LinkRights(w.mem, root, 3, HeapPage(k)) == LinkRights(v.mem, root, 3, HeapPage(k));
    }
    FewerThanTotal(frames, total);
    assert Mapped(w.mem, root, frames);
    StoreShows(v.mem, frames, words, a, x);
  }

  lemma StoreShows(m: Memory, frames: seq<nat>, words: map<nat, nat>, a: nat, x: nat)
    requires Shows(words, m, frames) && Distinct(frames) && a in words && frames[PageIndex(a)] in m
    ensures Shows(words[a := x], SetWord(m, frames[PageIndex(a)], WordIndex(a), x), frames)
  {
    var f, i := frames[PageIndex(a)], WordIndex(a);
    forall b | b in words
      ensures words[a := x][b] == Word(SetWord(m, f, i, x), frames[PageIndex(b)], WordIndex(b))
    {
      assert IsWord(a, |frames|) && IsWord(b, |frames|);
      if b != a {
        WordsApart(a, b, |frames|, frames);
      }
    }
  }

  /** The walk for a heap address ends at the frame behind its page. */
  lemma AccessEffect(v: View, root: nat, reserved: set<nat>, total: nat, frames: seq<nat>, words: map<nat, nat>, a: nat)
    requires Holds(v, root, reserved, total, frames, words) && a in words && total <= 0x100_0000_0000
    ensures PageIndex(a) < |frames|
    ensures
      var o := Walk(v.mem, root, 3, PageOf(a));
      && o.Leaf? && FrameOf(o.entry) == frames[PageIndex(a)]
      && words[a] == Word(v.mem, FrameOf(o.entry), WordIndex(a))
    ensures PageRights(v.mem, root, PageOf(a)).write
  {
    FewerThanTotal(frames, total);
    assert IsWord(a, |frames|);
    PageOfWord(a, |frames|);
    PageEntryFields(frames[PageIndex(a)], WRITE);
    WriteAllowed(v, root, reserved, total, frames, words, PageIndex(a));
  }

  /** The processor lets the kernel write every heap page. */
  lemma WriteAllowed(v: View, root: nat, reserved: set<nat>, total: nat, frames: seq<nat>, words: map<nat, nat>, i: nat)
    requires Holds(v, root, reserved, total, frames, words) && i < |frames| && total <= 0x100_0000_0000
    ensures PageRights(v.mem, root, HeapPage(i)).write
  {
    FewerThanTotal(frames, total);
    assert Plain(v.mem, root, HeapPage(i));
    WriteEntry(frames[i]);
    WritableLeaf(v.mem, root, HeapPage(i), PageEntry(frames[i], WRITE));
  }

  lemma WriteEntry(frame: nat)
    requires frame < 0x100_0000_0000
    ensures RightsOf(PageEntry(frame, WRITE)).write
  {
    PageEntryFields(frame, WRITE);
    assert RightsOf(2).write;
  }

  lemma WritableLeaf(m: Memory, root: nat, page: nat, e: nat)
    requires Walk(m, root, 3, page) == Leaf(0, e) && RightsOf(e).write && LinkRights(m, root, 3, page).write
    ensures PageRights(m, root, page).write
  {
  }

  /** Each frame of physical memory has exactly one owner: it is free, or reserved (unusable, or the
      bitmap's), or a page table that the kernel made, or behind one heap page. */
  lemma SingleOwner(s: Space, f: nat)
    requires s.Valid() && f < s.vm.pmm.total
    ensures
      (if f !in s.vm.pmm.taken then 1 else 0) + (if f in s.vm.pmm.reserved then 1 else 0)
      + (if f in s.vm.made then 1 else 0) + (if f in s.frames then 1 else 0) == 1
    ensures f in s.vm.own ==> f in s.vm.pmm.reserved || f in s.vm.made
    ensures forall i, j :: 0 <= i < j < |s.frames| ==> s.frames[i] != s.frames[j]
  {
    var v := s.vm.Now();
    assert f in v.taken - v.made <==> f in s.vm.pmm.reserved || f in FrameSet(s.frames);
    if f in s.frames {
      var i :| 0 <= i < |s.frames| && s.frames[i] == f;
      HeapFrameIsNoTable(v, s.vm.pmm.reserved, s.vm.pmm.total, s.frames, i);
    }
  }

  class Space {
    const vm: AddressSpace
    var heapEnd: nat                   // heap_end
    ghost var frames: seq<nat>         // the frame behind each heap page
    ghost var words: map<nat, nat>     // what the heap's addresses hold

    ghost predicate Valid()
      reads this, vm, vm.pmm, vm.pmm.bitmap
    {
      var sound :=
        && vm.Valid()
        && Holds(vm.Now(), vm.root, vm.pmm.reserved, vm.pmm.total, frames, words)
        && heapEnd == BlockList.BASE + |frames| * 4096;
      sound
    }

    /** The start of `heap_init`: no heap page is mapped yet. */
    constructor (vm: AddressSpace)
      requires vm.Valid() && RoomToGrow(vm.mem, vm.root, vm.pmm.total)
      requires vm.pmm.taken - vm.made == vm.pmm.reserved
      ensures Valid() && this.vm == vm && frames == []
    {
      this.vm := vm;
      heapEnd := BlockList.BASE;
      frames := [];
      words := map[];
    }

    // What can be told before growing: the frames left, the tables missing for the next page, the
    // frames n pages take, how many of n pages the frames left suffice for, and how it will end.
    ghost function Left(): nat
      reads vm, vm.pmm
    {
      Spare(vm.pmm.taken, vm.pmm.total)
    }

    ghost function Toll(): nat
      reads this, vm
    {
      Missing(vm.mem, vm.root, HeapPage(|frames|))
    }

    ghost function Price(n: nat): nat
      reads this, vm
    {
      Needed(vm.mem, vm.root, |frames|, n)
    }

    ghost function Reach(n: nat): nat
      reads this, vm, vm.pmm
    {
      Supply(vm.mem, vm.root, |frames|, n, Left())
    }

    ghost function Foresee(n: nat): Growth
      reads this, vm, vm.pmm
    {
      Outlook(vm.mem, vm.root, |frames|, n, Left())
    }

    lemma WordsOf(a: nat)
      requires Valid()
      ensures a in words <==> BlockList.BASE <= a < heapEnd && a % 8 == 0
    {
      assert IsWord(a, |frames|) <==> BlockList.BASE <= a < heapEnd && a % 8 == 0;
    }

    /** One load from the heap range. */
    method Load(a: nat) returns (x: nat)
      requires Valid() && a in words
      ensures x == words[a]
    {
      AccessEffect(vm.Now(), vm.root, vm.pmm.reserved, vm.pmm.total, frames, words, a);
      var o := Walk(vm.mem, vm.root, 3, PageOf(a));
      x := Word(vm.mem, FrameOf(o.entry), WordIndex(a));
    }

    /** One store into the heap range. */
    method Store(a: nat, x: nat)
      requires Valid() && a in words
      modifies vm`mem, this`words
      ensures old(PageRights(vm.mem, vm.root, PageOf(a)).write)
      ensures Valid() && words == old(words)[a := x]
    {
      AccessEffect(vm.Now(), vm.root, vm.pmm.reserved, vm.pmm.total, frames, words, a);
      var o := Walk(vm.mem, vm.root, 3, PageOf(a));
      StoreEffect(vm.Now(), vm.root, vm.pmm.reserved, vm.pmm.total, frames, words, a, x);
      vm.mem := SetWord(vm.mem, FrameOf(o.entry), WordIndex(a), x);
      words := words[a := x];
    }

    /** One round of the loop in `grow_pages`. */
    method GrowOne() returns (g: Growth)
      requires Valid()
      modifies this, vm`mem, vm`own, vm`made, vm.pmm`used, vm.pmm`taken, vm.pmm.bitmap
      ensures g.Enough? ==>
                && Valid() && heapEnd == old(heapEnd) + 4096 && |frames| == old(|frames|) + 1
                && forall a :: a in old(words) ==> a in words && words[a] == old(words)[a]
      ensures g.Enough? ==>
                Left() == old(Left()) - 1 - old(Toll()) && Opened(old(vm.mem), vm.mem, vm.root, HeapPage(old(|frames|)))
      ensures g.Short? ==> Valid() && heapEnd == old(heapEnd) && words == old(words) && Left() == old(Left())
      ensures g.Short? <==> old(Left()) == 0
      ensures g.Fault? <==> 0 < old(Left()) < 1 + old(Toll())
      ensures !g.Enough? ==> vm.Exhausted()
    {
      ghost var v := vm.Now();
      SpareZero(v.taken, vm.pmm.total);
      var frame := vm.pmm.Alloc();
      if frame.None? {
        g := Short;
      } else {
        SpareUpdate(v.taken, vm.pmm.total, frame.value);
        g := MapFrame(frame.value, v);
      }
    }

    /** The rest of the round, once a frame has been had: v is the view before it was. */
    method MapFrame(frame: nat, ghost v: View) returns (g: Growth)
      requires vm.Valid() && v == vm.Now().(taken := v.taken) && vm.pmm.taken == v.taken + {frame}
      requires Ownership(v, vm.pmm.reserved, vm.pmm.total) && vm.pmm.reserved <= v.taken
      requires Holds(v, vm.root, vm.pmm.reserved, vm.pmm.total, frames, words)
      requires frame !in v.taken && 1 <= frame < vm.pmm.total
      requires heapEnd == BlockList.BASE + |frames| * 4096
      modifies this, vm`mem, vm`own, vm`made, vm.pmm`used, vm.pmm`taken, vm.pmm.bitmap
      ensures g.Enough? || g.Fault?
      ensures g.Fault? <==> old(Left()) < old(Toll())
      ensures g.Fault? ==> vm.Exhausted()
      ensures g.Enough? ==>
                Left() == old(Left()) - old(Toll()) && Opened(old(vm.mem), vm.mem, vm.root, HeapPage(old(|frames|)))
      ensures g.Enough? ==>
                && Valid() && heapEnd == old(heapEnd) + 4096 && |frames| == old(|frames|) + 1
                && forall a :: a in old(words) ==> a in words && words[a] == old(words)[a]
    {
      NextPage(v, vm.root, vm.pmm.reserved, vm.pmm.total, frames);
      var fault := vm.Map(heapEnd, frame, WRITE);
      if fault {
        SpareZero(vm.pmm.taken, vm.pmm.total);
        g := Fault;
      } else {
        AddPage(frame, v);
        g := Enough;
      }
    }

    /** The page at the end of the heap has been mapped to `frame`: `heap_end += PAGE_SIZE`. */
    method AddPage(frame: nat, ghost v: View)
      requires vm.Valid() && OnlyTables(v.(taken := v.taken + {frame}), vm.Now())
      requires Ownership(v, vm.pmm.reserved, vm.pmm.total) && vm.pmm.reserved <= v.taken
      requires Holds(v, vm.root, vm.pmm.reserved, vm.pmm.total, frames, words)
      requires |frames| < vm.pmm.total && HeapPage(|frames|) < PAGES
      requires frame !in v.taken && 1 <= frame < vm.pmm.total
      requires heapEnd == BlockList.BASE + |frames| * 4096
      requires SameTranslationsBut(v, vm.Now(), vm.root, HeapPage(|frames|))
      requires Walk(vm.mem, vm.root, 3, HeapPage(|frames|)) == Leaf(0, PageEntry(frame, WRITE))
      modifies this
      ensures Valid() && heapEnd == old(heapEnd) + 4096 && |frames| == old(|frames|) + 1
      ensures forall a :: a in old(words) ==> a in words && words[a] == old(words)[a]
    {
      GrowEffect(v, vm.Now(), vm.root, vm.pmm.reserved, vm.pmm.total, frames, words, frame);
      words := MoreWords(words, vm.mem, |frames|, frame);
      frames := frames + [frame];
      heapEnd := heapEnd + 4096;
    }

    /** `grow_pages`: how it ends, and after how many pages, can be told before. */
    method GrowPages(pages: nat) returns (g: Growth, done: nat)
      requires Valid()
      modifies this, vm`mem, vm`own, vm`made, vm.pmm`used, vm.pmm`taken, vm.pmm.bitmap
      ensures g == old(Foresee(pages)) && done == old(Reach(pages))
      ensures done <= pages && (g.Enough? <==> done == pages)
      ensures !g.Enough? ==> vm.Exhausted()
      ensures !g.Fault? ==>
                && Valid() && heapEnd == old(heapEnd) + done * 4096
                && Left() == old(Left()) - old(Price(done))
                && forall a :: a in old(words) ==> a in words && words[a] == old(words)[a]
    {
      ghost var m0, i, spare := vm.mem, |frames|, Left();
      done := 0;
      g := Enough;
      while done < pages
        invariant done <= pages && g.Enough? && |frames| == i + done
        invariant Valid() && heapEnd == old(heapEnd) + done * 4096
        invariant forall a :: a in old(words) ==> a in words && words[a] == old(words)[a]
        invariant Underway(m0, vm.mem, vm.root, i, done, spare, Left())
      {
        g := GrowNext(m0, i, done, pages, spare);
        if !g.Enough? {
          return;
        }
        done := done + 1;
      }
      Arrives(m0, vm.mem, vm.root, i, pages, spare, Left());
    }

    /** One round of the loop, as part of a growth by `pages` pages that began at page i with memory m0
        and `spare` frames left. */
    method GrowNext(ghost m0: Memory, ghost i: nat, ghost done: nat, ghost pages: nat, ghost spare: nat)
      returns (g: Growth)
      requires Valid() && |frames| == i + done && done < pages
      requires Underway(m0, vm.mem, vm.root, i, done, spare, Left())
      modifies this, vm`mem, vm`own, vm`made, vm.pmm`used, vm.pmm`taken, vm.pmm.bitmap
      ensures g.Enough? ==>
                && Valid() && heapEnd == old(heapEnd) + 4096 && |frames| == i + done + 1
                && forall a :: a in old(words) ==> a in words && words[a] == old(words)[a]
      ensures g.Enough? ==> Underway(m0, vm.mem, vm.root, i, done + 1, spare, Left())
      ensures !g.Enough? ==> vm.Exhausted() && Stopped(m0, vm.root, i, done, pages, spare, old(Left()), g)
      ensures g.Short? ==> Valid() && heapEnd == old(heapEnd) && words == old(words) && Left() == old(Left())
    {
      ghost var m, left, page, toll := vm.mem, Left(), HeapPage(|frames|), Toll();
      NextPageExists();
      assert page == HeapPage(i + done) && toll == Missing(m, vm.root, page);
      g := GrowOne();
      if g.Enough? {
        Goes(m0, m, vm.mem, vm.root, i, done, spare, left, Left());
      } else {
        Stops(m0, m, vm.root, i, done, pages, spare, left);
      }
    }

    lemma NextPageExists()
      requires Valid()
      ensures HeapPage(|frames|) < PAGES
    {
      FewerThanTotal(frames, vm.pmm.total);
    }
  }

  lemma EndOfHeap(pages: nat)
    ensures IsWord(BlockList.BASE + pages * 4096, pages + 1)
    ensures PageIndex(BlockList.BASE + pages * 4096) == pages
  {
    assert BlockList.BASE % 8 == 0;
  }

  /** The page that grows next lies in the heap's range and has no large page on its path. */
  lemma NextPage(v: View, root: nat, reserved: set<nat>, total: nat, frames: seq<nat>)
    requires RoomToGrow(v.mem, root, total) && Partition(v, reserved, total, frames)
    requires total > 1
    ensures |frames| < total && HeapPage(|frames|) < PAGES
    ensures PageOf(BlockList.BASE + |frames| * 4096) == HeapPage(|frames|)
    ensures Plain(v.mem, root, HeapPage(|frames|))
  {
    FewerThanTotal(frames, total);
    EndOfHeap(|frames|);
    assert HeapPage(|frames| + 1) <= HeapPage(total);
    PageOfWord(BlockList.BASE + |frames| * 4096, |frames| + 1);
  }

  lemma GrowEffect(v: View, w: View, root: nat, reserved: set<nat>, total: nat, frames: seq<nat>, words: map<nat, nat>,
                   f: nat)
    requires Ownership(v, reserved, total) && Holds(v, root, reserved, total, frames, words)
    requires reserved <= v.taken
    requires |frames| < total && HeapPage(|frames|) < PAGES
    requires f !in v.taken && 1 <= f < total
    requires Ownership(w, reserved, total)
    requires OnlyTables(v.(taken := v.taken + {f}), w)
    requires SameTranslationsBut(v, w, root, HeapPage(|frames|))
    requires Walk(w.mem, root, 3, HeapPage(|frames|)) == Leaf(0, PageEntry(f, WRITE))
    ensures Holds(w, root, reserved, total, frames + [f], MoreWords(words, w.mem, |frames|, f))
    ensures forall a :: a in words ==>
              && a in MoreWords(words, w.mem, |frames|, f)
              && MoreWords(words, w.mem, |frames|, f)[a] == words[a]
  {
    PartitionGrows(v, w, reserved, total, frames, f);
    MappingsGrow(v, w, root, frames, f);
    RoomStays(v, w, root, total, HeapPage(|frames|));
    WordsGrow(v, w, reserved, total, frames, f, words);
  }
}
