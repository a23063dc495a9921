/** The page-table editor of src/mm/vmm.c, drawing its tables from the frame allocator. */
module Vmm {
  import opened Prelude
  import opened PageTable
  import opened Pmm

  /** No large page lies on the path of this page. */
  ghost predicate Plain(m: Memory, root: nat, page: nat) {
    var o := Walk(m, root, 3, page);
    o.Hole? || o.level == 0
  }

  /** The number of tables that must be created to map this page. */
  ghost function Missing(m: Memory, root: nat, page: nat): nat {
    var o := Walk(m, root, 3, page);
    if o.Hole? then o.level else 0
  }

  function Min(a: nat, b: nat): nat { if a <= b then a else b }

  /** The number of tables on the path of q that are not on the path of `page`. */
  function Unshared(page: nat, q: nat): nat {
    if Above(q, 1) == Above(page, 1) then 0
    else if Above(q, 2) == Above(page, 2) then 1
    else if Above(q, 3) == Above(page, 3) then 2
    else 3
  }

  /** From m to m' the path of `page` has been dug down to the table below `level`: exactly the pages
      that share that table miss no table above it. */
  ghost predicate Dug(m: Memory, m': Memory, root: nat, level: nat, page: nat)
    requires level > 0
  {
    var sound := forall q :: 0 <= q < PAGES ==>
      Missing(m', root, q)
      == if Above(q, level) == Above(page, level) then Min(Missing(m, root, q), level - 1) else Missing(m, root, q);
    sound
  }

  /** From m to m' all tables for `page` have come to exist, and no others. */
  ghost predicate Opened(m: Memory, m': Memory, root: nat, page: nat) {
    var sound := forall q :: 0 <= q < PAGES ==> Missing(m', root, q) == Min(Missing(m, root, q), Unshared(page, q));
    sound
  }

  /** No table has come to exist. */
  ghost predicate SameMissing(m: Memory, m': Memory, root: nat) {
    var sound := forall q :: 0 <= q < PAGES ==> Missing(m', root, q) == Missing(m, root, q);
    sound
  }

  lemma OpenedThenSame(m: Memory, m': Memory, m'': Memory, root: nat, page: nat)
    requires Opened(m, m', root, page) && SameMissing(m', m'', root)
    ensures Opened(m, m'', root, page)
  {
  }

  /** The last-level entry is no table. */
  lemma PtWriteKeepsMissing(m: Memory, own: map<nat, Position>, root: nat, t: nat, page: nat, e: nat)
    requires Tree(m, own, root) && page < PAGES && Reaches(m, root, 3, page, t, 0)
    ensures t in m && SameMissing(m, SetWord(m, t, Index(page, 0), e), root)
  {
    PtWrite(m, own, root, t, page, e);
    WalkFrom(m, root, 3, page, t, 0);
    WalkLevel(m, t, 0, page);
  }

  lemma {:induction false} WalkLevel(m: Memory, t: nat, level: nat, page: nat)
    ensures Walk(m, t, level, page).level <= level
    decreases level
  {
    var e := Word(m, t, Index(page, level));
    if IsLink(level, e) {
      WalkLevel(m, FrameOf(e), level - 1, page);
    }
  }

  lemma NewTableDigs(m: Memory, own: map<nat, Position>, root: nat, t: nat, level: nat, page: nat, f: nat)
    requires Tree(m, own, root) && page < PAGES && 1 <= level <= 3
    requires Reaches(m, root, 3, page, t, level)
    requires !Present(Word(m, t, Index(page, level)))
    requires f !in own && f < 0x100_0000_0000
    ensures t in own && Dug(m, NewTable(m, t, Index(page, level), f), root, level, page)
  {
    NewTableWalks(m, own, root, t, level, page, f, page);
    forall q | 0 <= q < PAGES
      ensures Missing(NewTable(m, t, Index(page, level), f), root, q)
           == if Above(q, level) == Above(page, level) then Min(Missing(m, root, q), level - 1) else Missing(m, root, q)
    {
      NewTableWalks(m, own, root, t, level, page, f, q);
    }
  }

  /** Where the table exists there is nothing to dig. */
  lemma PresentDigs(m: Memory, own: map<nat, Position>, root: nat, t: nat, level: nat, page: nat)
    requires Tree(m, own, root) && page < PAGES && 1 <= level <= 3
    requires Reaches(m, root, 3, page, t, level) && IsLink(level, Word(m, t, Index(page, level)))
    ensures Dug(m, m, root, level, page)
  {
    var f := FrameOf(Word(m, t, Index(page, level)));
    ReachesExtend(m, root, 3, page, t, level);
    AboveTop(page);
    forall q | 0 <= q < PAGES && Above(q, level) == Above(page, level)
      ensures Missing(m, root, q) <= level - 1
    {
      ReachesShared(m, m, own, root, root, 3, page, q, f, level - 1);
      WalkFrom(m, root, 3, q, f, level - 1);
      WalkLevel(m, f, level - 1, q);
    }
  }

  /** Digging three times opens the page. */
  lemma DugThrice(m: Memory, m1: Memory, m2: Memory, m3: Memory, root: nat, page: nat)
    requires page < PAGES && Dug(m, m1, root, 3, page) && Dug(m1, m2, root, 2, page) && Dug(m2, m3, root, 1, page)
    ensures Opened(m, m3, root, page)
  {
    forall q | 0 <= q < PAGES
      ensures Missing(m3, root, q) == Min(Missing(m, root, q), Unshared(page, q))
    {
      WalkLevel(m, root, 3, q);
      if Above(q, 1) == Above(page, 1) {
        AboveShared(page, q, 1, 2);
      }
      if Above(q, 2) == Above(page, 2) {
        AboveShared(page, q, 2, 3);
      }
    }
  }

  /** A view of the address space: physical memory, the table frames and their places in the tree,
      those of them that were drawn from the allocator, and the frames in use. */
  datatype View = View(mem: Memory, own: map<nat, Position>, made: set<nat>, taken: set<nat>)

  /** Frames that hold no table keep their contents, and the frames in use that are not tables
      stay the same ones. */
  ghost predicate OnlyTables(v: View, w: View) {
    var same :=
      && w.mem.Keys == v.mem.Keys
      && v.own.Keys <= w.own.Keys
      && (forall f :: f in v.mem && f !in w.own ==> w.mem[f] == v.mem[f])
      && w.taken - w.made == v.taken - v.made;
    same
  }

  /** Every page translates as before, and its tables leave it the same rights. */
  ghost predicate SameTranslations(v: View, w: View, root: nat) {
    var same :=
      && (forall q :: 0 <= q < PAGES ==> Translate(w.mem, root, q) == Translate(v.mem, root, q))
      && SameLinks(v.mem, w.mem, root);
    same
  }

  /** As above, except for one page, whose tables leave it the same rights. */
  ghost predicate SameTranslationsBut(v: View, w: View, root: nat, page: nat) {
    && (forall q :: 0 <= q < PAGES && q != page ==> Translate(w.mem, root, q) == Translate(v.mem, root, q))
    && SameLinks(v.mem, w.mem, root)
  }

  lemma SameTransitive(u: View, v: View, w: View, root: nat)
    requires SameTranslations(u, v, root) && SameTranslations(v, w, root)
    ensures SameTranslations(u, w, root)
  {
    forall q | 0 <= q < PAGES
      ensures LinkRights(w.mem, root, 3, q) == LinkRights(u.mem, root, 3, q)
    {
      assert LinkRights(v.mem, root, 3, q) == LinkRights(u.mem, root, 3, q);
    }
  }

  /** No other page's rights change. */
  lemma RightsOfOthers(v: View, w: View, root: nat, page: nat, q: nat)
    requires SameTranslationsBut(v, w, root, page) && q < PAGES && q != page
    ensures PageRights(w.mem, root, q) == PageRights(v.mem, root, q)
  {
    assert Translate(w.mem, root, q) == Translate(v.mem, root, q);
    assert LinkRights(w.mem, root, 3, q) == LinkRights(v.mem, root, 3, q);
  }

  /** The address space as a plain map: which pages are mapped, and by which entries. */
  ghost function Mappings(m: Memory, root: nat): map<nat, Outcome> {
    map q | 0 <= q < PAGES && Translate(m, root, q).Some? :: Translate(m, root, q).value
  }

  lemma MappingsButOne(v: View, w: View, root: nat, page: nat)
    requires page < PAGES && SameTranslationsBut(v, w, root, page)
    ensures Translate(w.mem, root, page).Some? ==>
              Mappings(w.mem, root) == Mappings(v.mem, root)[page := Translate(w.mem, root, page).value]
    ensures Translate(w.mem, root, page).None? ==> Mappings(w.mem, root) == Mappings(v.mem, root) - {page}
  {
    var a, b := Mappings(v.mem, root), Mappings(w.mem, root);
    forall q
      ensures q != page ==> (q in b <==> q in a) && (q in a ==> b[q] == a[q])
    {
      if q != page && 0 <= q < PAGES {
        assert Translate(w.mem, root, q) == Translate(v.mem, root, q);
      }
    }
  }

  lemma OnlyTablesTransitive(u: View, v: View, w: View)
    requires OnlyTables(u, v) && OnlyTables(v, w)
    ensures OnlyTables(u, w)
  {
  }

  /** Every page table is inherited (in a reserved frame, or beyond the bitmap) or was allocated
      and is still taken; the HHDM reaches every frame that can be allocated. */
  ghost predicate Ownership(v: View, reserved: set<nat>, total: nat) {
    && (forall f :: 1 <= f < total ==> f in v.mem)
    && v.made <= v.own.Keys && v.made <= v.taken && v.made !! reserved
    && (forall f :: f in v.made ==> f < total)
    && (forall t :: t in v.own ==> t in v.made || t in reserved || t >= total)
  }

  /** Upper-half pages are walked from the new root as they were from the old, with the same rights,
      and lower-half pages find nothing. */
  ghost predicate Inherits(m: Memory, cr3: nat, m': Memory, root: nat) {
    forall q :: 0 <= q < PAGES ==>
      if Index(q, 3) >= 256
      then Walk(m', root, 3, q) == Walk(m, cr3, 3, q) && LinkRights(m', root, 3, q) == LinkRights(m, cr3, 3, q)
      else Walk(m', root, 3, q) == Hole(3)
  }

  lemma NewRootInherits(m: Memory, own: map<nat, Position>, cr3: nat, f: nat)
    requires Tree(m, own, cr3) && f !in own
    ensures Inherits(m, cr3, NewRoot(m, cr3, f), f)
  {
    forall q | 0 <= q < PAGES
      ensures
        var m' := NewRoot(m, cr3, f);
        if Index(q, 3) >= 256
        then Walk(m', f, 3, q) == Walk(m, cr3, 3, q) && LinkRights(m', f, 3, q) == LinkRights(m, cr3, 3, q)
        else Walk(m', f, 3, q) == Hole(3)
    {
      NewRootWalks(m, own, cr3, f, q);
    }
  }

  /** A frame that has just been taken becomes the root. */
  lemma NewRootOwned(m: Memory, own: map<nat, Position>, cr3: nat, f: nat, taken: set<nat>, reserved: set<nat>,
                     total: nat)
    requires cr3 in m && Ownership(View(m, own, {}, taken), reserved, total)
    requires 1 <= f < total && f !in taken && reserved <= taken && f !in own
    ensures
      var w := View(NewRoot(m, cr3, f), (own - {cr3})[f := At(3, 0)], {f}, taken + {f});
      Ownership(w, reserved, total) && OnlyTables(View(m, own - {cr3}, {}, taken), w)
  {
  }

  /** All that holds of a new root in a frame that has just been taken. */
  lemma NewRootWhole(m: Memory, own: map<nat, Position>, cr3: nat, f: nat, taken: set<nat>, reserved: set<nat>,
                     total: nat)
    requires Tree(m, own, cr3) && Ownership(View(m, own, {}, taken), reserved, total)
    requires 1 <= f < total && f !in taken && reserved <= taken
    ensures
      var w := View(NewRoot(m[f := ZeroPage()], cr3, f), (own - {cr3})[f := At(3, 0)], {f}, taken + {f});
      && Tree(w.mem, w.own, f) && Ownership(w, reserved, total)
      && OnlyTables(View(m, own - {cr3}, {}, taken), w) && Inherits(m, cr3, w.mem, f)
  {
    assert f !in own;
    assert NewRoot(m[f := ZeroPage()], cr3, f) == NewRoot(m, cr3, f);
    NewRootTree(m, own, cr3, f);
    NewRootOwned(m, own, cr3, f, taken, reserved, total);
    NewRootInherits(m, own, cr3, f);
  }

  /** A frame that has just been taken becomes a table. */
  lemma NewTableOwned(v: View, reserved: set<nat>, total: nat, t: nat, i: nat, f: nat, p: Position)
    requires Ownership(v, reserved, total) && t in v.mem && t in v.own && i < 512
    requires 1 <= f < total && f in v.taken && f !in reserved && f !in v.own
    ensures
      var w := View(NewTable(v.mem, t, i, f), v.own[f := p], v.made + {f}, v.taken);
      Ownership(w, reserved, total) && OnlyTables(v.(taken := v.taken - {f}), w)
  {
  }

  class AddressSpace {
    const pmm: FrameAllocator
    var mem: Memory                     // physical memory, seen through the HHDM
    var root: nat                       // kernel_pml4
    ghost var own: map<nat, Position>
    ghost var made: set<nat>

    ghost function Now(): View
      reads this, pmm
    {
      View(mem, own, made, pmm.taken)
    }

    /** No frame is left. */
    ghost predicate Exhausted()
      reads this, pmm
    {
      AllTaken(pmm.taken, pmm.total)
    }

    ghost predicate Valid()
      reads this, pmm, pmm.bitmap
    {
      var sound :=
        && pmm.Valid() && pmm.total <= 0x100_0000_0000
        && Tree(mem, own, root)
        && Ownership(Now(), pmm.reserved, pmm.total);
      sound
    }

    /** The frames still to be had, less the tables needed to map `page`. */
    ghost function Balance(page: nat): int
      reads this, pmm
    {
      Spare(pmm.taken, pmm.total) - Missing(mem, root, page)
    }

    /** `vmm_init`, run on the tables inherited from the bootloader. The NULL of an exhausted frame
        allocator is not checked: it makes the page at physical address 0 the root. */
    constructor Init(pmm: FrameAllocator, mem: Memory, cr3: nat, ghost inherited: map<nat, Position>)
      requires pmm.Valid() && pmm.total <= 0x100_0000_0000
      requires Tree(mem, inherited, cr3)
      requires Ownership(View(mem, inherited, {}, pmm.taken), pmm.reserved, pmm.total)
      modifies pmm`used, pmm`taken, pmm.bitmap
      ensures this.pmm == pmm && pmm.Valid()
      ensures old(Spare(pmm.taken, pmm.total)) == 0 ==>
                && root == 0 && this.mem == NewRoot(mem[0 := ZeroPage()], cr3, 0) && pmm.taken == old(pmm.taken)
      ensures old(Spare(pmm.taken, pmm.total)) > 0 ==>
                && Valid() && made == {root} && pmm.taken == old(pmm.taken) + {root} && root !in old(pmm.taken)
                && root >= 1 && Spare(pmm.taken, pmm.total) == old(Spare(pmm.taken, pmm.total)) - 1
                && OnlyTables(View(mem, inherited - {cr3}, {}, old(pmm.taken)), Now())
                && Inherits(mem, cr3, this.mem, root)
    {
      this.pmm := pmm;
      this.mem := mem;
      new;
      SpareZero(pmm.taken, pmm.total);
      var frame := pmm.Alloc();
      root := if frame.None? then 0 else frame.value;
      this.mem := BuildRoot(mem, cr3, root);
      own := (inherited - {cr3})[root := At(3, 0)];
      made := {root};
      if frame.Some? {
        SpareUpdate(old(pmm.taken), pmm.total, root);
        NewRootWhole(mem, inherited, cr3, root, old(pmm.taken), pmm.reserved, pmm.total);
      }
    }

    /** The page at `root` is cleared, and filled from the current root. */
    static method BuildRoot(mem: Memory, cr3: nat, root: nat) returns (m: Memory)
      requires cr3 in mem
      ensures m == NewRoot(mem[root := ZeroPage()], cr3, root)
    {
      m := mem[root := ZeroPage()];
      var page := CopyUpperHalf(m[cr3]);
      m := m[root := page];
    }

    /** The loop of `vmm_init`. */
    static method CopyUpperHalf(current: Page) returns (page: Page)
      ensures page == UpperHalf(current)
    {
      page := ZeroPage();
      for i := 256 to 512
        invariant page == ZeroPage()[..256] + current[256..i] + ZeroPage()[i..]
      {
        page := page[i := current[i]];
      }
    }

    /** `get_next_level`. */
    method GetNextLevel(t: nat, index: nat, allocate: bool, ghost level: nat, ghost page: nat)
      returns (r: Option<nat>)
      requires Valid() && page < PAGES && 1 <= level <= 3 && index == Index(page, level)
      requires Reaches(mem, root, 3, page, t, level) && Plain(mem, root, page)
      modifies this`mem, this`own, this`made, pmm`used, pmm`taken, pmm.bitmap
      ensures Valid() && Plain(mem, root, page)
      ensures OnlyTables(old(Now()), Now()) && SameTranslations(old(Now()), Now(), root)
      ensures Balance(page) == old(Balance(page))
      ensures r.Some? ==> Reaches(mem, root, 3, page, r.value, level - 1)
      ensures r.None? ==> Walk(mem, root, 3, page) == Hole(level)
      ensures r.None? && allocate ==> Spare(pmm.taken, pmm.total) == 0
      ensures r.Some? && allocate ==> Dug(old(mem), mem, root, level, page)
      ensures !allocate ==> Now() == old(Now())
    {
      AboveTop(page);
      ReachesOnPath(mem, own, root, root, 3, page, t, level);
      WalkFrom(mem, root, 3, page, t, level);
      if Present(mem[t][index]) {
        ReachesExtend(mem, root, 3, page, t, level);
        PresentDigs(mem, own, root, t, level, page);
        r := Some(FrameOf(mem[t][index]));
      } else if allocate {
        r := NewLevel(t, index, level, page);
      } else {
        r := None;
      }
    }

    /** The allocating half of `get_next_level`. */
    method NewLevel(t: nat, index: nat, ghost level: nat, ghost page: nat) returns (r: Option<nat>)
      requires Valid() && page < PAGES && 1 <= level <= 3 && index == Index(page, level)
      requires Reaches(mem, root, 3, page, t, level) && Walk(mem, root, 3, page) == Hole(level)
      requires t in mem && !Present(mem[t][index])
      modifies this`mem, this`own, this`made, pmm`used, pmm`taken, pmm.bitmap
      ensures Valid()
      ensures OnlyTables(old(Now()), Now()) && SameTranslations(old(Now()), Now(), root)
      ensures Balance(page) == old(Balance(page))
      ensures r.None? ==> Now() == old(Now()) && Spare(pmm.taken, pmm.total) == 0
      ensures r.Some? ==>
                && Walk(mem, root, 3, page) == Hole(level - 1) && Reaches(mem, root, 3, page, r.value, level - 1)
                && Dug(old(mem), mem, root, level, page)
    {
      SpareZero(pmm.taken, pmm.total);
      r := pmm.Alloc();
      if r.Some? {
        SpareUpdate(old(pmm.taken), pmm.total, r.value);
        AddTable(t, index, r.value, level, page);
      }
    }

    /** The rest of `get_next_level`: the new frame is cleared and linked. */
    method AddTable(t: nat, index: nat, frame: nat, ghost level: nat, ghost page: nat)
      requires pmm.Valid() && pmm.total <= 0x100_0000_0000 && Tree(mem, own, root)
      requires Ownership(Now(), pmm.reserved, pmm.total)
      requires page < PAGES && 1 <= level <= 3 && index == Index(page, level)
      requires Reaches(mem, root, 3, page, t, level) && Walk(mem, root, 3, page) == Hole(level)
      requires t in mem && !Present(mem[t][index])
      requires 1 <= frame < pmm.total && frame in pmm.taken && frame !in pmm.reserved && frame !in own
      modifies this`mem, this`own, this`made
      ensures Valid()
      ensures Walk(mem, root, 3, page) == Hole(level - 1) && Reaches(mem, root, 3, page, frame, level - 1)
      ensures OnlyTables(View(old(mem), old(own), old(made), pmm.taken - {frame}), Now())
      ensures SameTranslations(old(Now()), Now(), root) && Dug(old(mem), mem, root, level, page)
    {
      NewTableDigs(mem, own, root, t, level, page, frame);
      NewTableEffect(mem, own, root, t, level, page, frame);
      NewTableOwned(Now(), pmm.reserved, pmm.total, t, index, frame, At(level - 1, Above(page, level)));
      mem := mem[frame := ZeroPage()];
      mem := SetWord(mem, t, index, TableEntry(frame));
      own := own[frame := At(level - 1, Above(page, level))];
      made := made + {frame};
    }

    /** The three calls with which `vmm_map` and `vmm_unmap` begin. */
    method FindPt(virt: nat, allocate: bool) returns (pt: Option<nat>)
      requires Valid() && Plain(mem, root, PageOf(virt))
      modifies this`mem, this`own, this`made, pmm`used, pmm`taken, pmm.bitmap
      ensures Valid() && Plain(mem, root, PageOf(virt))
      ensures OnlyTables(old(Now()), Now()) && SameTranslations(old(Now()), Now(), root)
      ensures Balance(PageOf(virt)) == old(Balance(PageOf(virt)))
      ensures pt.Some? ==> Reaches(mem, root, 3, PageOf(virt), pt.value, 0)
      ensures pt.None? ==> Translate(mem, root, PageOf(virt)) == None
      ensures pt.None? && allocate ==> Balance(PageOf(virt)) < 0 && Spare(pmm.taken, pmm.total) == 0
      ensures pt.Some? && allocate ==> Opened(old(mem), mem, root, PageOf(virt))
      ensures !allocate ==> Now() == old(Now())
    {
      ghost var page := PageOf(virt);
      IndexMacros(virt);
      pt := GetNextLevel(root, Pml4Index(virt), allocate, 3, page);
      ghost var v1 := Now();
      if pt.Some? {
        pt := GetNextLevel(pt.value, PdptIndex(virt), allocate, 2, page);
        ghost var v2 := Now();
        OnlyTablesTransitive(old(Now()), v1, v2);
        SameTransitive(old(Now()), v1, v2, root);
        if pt.Some? {
          pt := GetNextLevel(pt.value, PdIndex(virt), allocate, 1, page);
          OnlyTablesTransitive(old(Now()), v2, Now());
          SameTransitive(old(Now()), v2, Now(), root);
          if pt.Some? && allocate {
            DugThrice(old(mem), v1.mem, v2.mem, mem, root, page);
          }
        }
      }
    }

    /** `vmm_map` on a page with no large page on its path. The NULL that `get_next_level` returns
        when no frame is left is not checked: `fault` says that it is dereferenced. */
    method Map(virt: nat, frame: nat, flags: Flags) returns (fault: bool)
      requires Valid() && Plain(mem, root, PageOf(virt)) && frame < 0x100_0000_0000
      modifies this`mem, this`own, this`made, pmm`used, pmm`taken, pmm.bitmap
      ensures Valid()
      ensures fault <==> old(Spare(pmm.taken, pmm.total)) < old(Missing(mem, root, PageOf(virt)))
      ensures fault ==> Spare(pmm.taken, pmm.total) == 0
      ensures !fault ==>
                && Spare(pmm.taken, pmm.total)
                   == old(Spare(pmm.taken, pmm.total)) - old(Missing(mem, root, PageOf(virt)))
                && Opened(old(mem), mem, root, PageOf(virt))
      ensures !fault ==>
                && Walk(mem, root, 3, PageOf(virt)) == Leaf(0, PageEntry(frame, flags))
                && SameTranslationsBut(old(Now()), Now(), root, PageOf(virt))
                && PageRights(mem, root, PageOf(virt))
                   == Both(old(LinkRights(mem, root, 3, PageOf(virt))), RightsOf(flags.low))
      ensures !fault ==>
                Mappings(mem, root) == old(Mappings(mem, root))[PageOf(virt) := Leaf(0, PageEntry(frame, flags))]
      ensures OnlyTables(old(Now()), Now())
    {
      ghost var page := PageOf(virt);
      IndexMacros(virt);
      var pt := FindPt(virt, true);
      fault := pt.None?;
      if !fault {
        WalkFrom(mem, root, 3, page, pt.value, 0);
        PageEntryFields(frame, flags);
        ghost var m1 := mem;
        SetEntry(virt, pt.value, PageEntry(frame, flags));
        OpenedThenSame(old(mem), m1, mem, root, page);
        assert LinkRights(mem, root, 3, page) == LinkRights(m1, root, 3, page) == old(LinkRights(mem, root, 3, page));
        MappingsButOne(old(Now()), Now(), root, page);
      }
    }

    /** `vmm_unmap`. */
    method Unmap(virt: nat)
      requires Valid() && Plain(mem, root, PageOf(virt))
      modifies this`mem, this`own, this`made, pmm`used, pmm`taken, pmm.bitmap
      ensures Valid()
      ensures Translate(mem, root, PageOf(virt)) == None
      ensures SameTranslationsBut(old(Now()), Now(), root, PageOf(virt))
      ensures Mappings(mem, root) == old(Mappings(mem, root)) - {PageOf(virt)}
      ensures OnlyTables(old(Now()), Now()) && made == old(made) && own == old(own)
    {
      var pt := FindPt(virt, false);
      if pt.Some? {
        SetEntry(virt, pt.value, 0);
      }
      MappingsButOne(old(Now()), Now(), root, PageOf(virt));
    }

    /** The write to the PT with which `vmm_map` and `vmm_unmap` end. */
    method SetEntry(virt: nat, pt: nat, e: nat)
      requires Valid() && Reaches(mem, root, 3, PageOf(virt), pt, 0)
      modifies this`mem
      ensures Valid()
      ensures Walk(mem, root, 3, PageOf(virt)) == (if Present(e) then Leaf(0, e) else Hole(0))
      ensures SameTranslationsBut(old(Now()), Now(), root, PageOf(virt))
      ensures OnlyTables(old(Now()), Now()) && SameMissing(old(mem), mem, root)
    {
      ghost var page := PageOf(virt);
      IndexMacros(virt);
      AboveTop(page);
      PtWriteKeepsMissing(mem, own, root, pt, page, e);
      ReachesOnPath(mem, own, root, root, 3, page, pt, 0);
      PtWrite(mem, own, root, pt, page, e);
      mem := SetWord(mem, pt, PtIndex(virt), e);
    }
  }

  /** With an empty root table every page misses three tables. */
  lemma EmptyRoot(m: Memory, page: nat)
    requires page < PAGES && 0 in m && m[0] == ZeroPage()
    ensures Tree(m, map[0 := At(3, 0)], 0) && Plain(m, 0, page) && Missing(m, 0, page) == 3
  {
    var own := map[0 := At(3, 0)];
    forall t, i | t in own && 0 <= i < 512
      ensures LinkOk(m, own, t, i)
    {
      assert Word(m, 0, i) == 0;
    }
    assert Word(m, 0, Index(page, 3)) == 0;
  }

  /** With an empty root table and no frame left, mapping any page faults. */
  lemma MappingCanFault(page: nat)
    requires page < PAGES
    ensures
      var m, own, taken: set<nat> := map[0 := ZeroPage()], map[0 := At(3, 0)], {0};
      && Tree(m, own, 0) && Ownership(View(m, own, {}, taken), {0}, 1) && Plain(m, 0, page)
      && Missing(m, 0, page) == 3 && Spare(taken, 1) == 0
  {
    EmptyRoot(map[0 := ZeroPage()], page);
  }
}
