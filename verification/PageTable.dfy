/** x86-64 4-level page tables as src/mm/vmm.c reads and writes them (Intel SDM Volume 3A, "4-Level
    Paging and 5-Level Paging"). Physical memory is a map from frame numbers to pages of 512 words;
    a table is named by its frame, `phys_to_virt` and its HHDM offset being a fixed translation.
    Levels count downwards: 3 is the PML4, 2 a PDPT, 1 a PD and 0 a PT. */
module PageTable {
  import opened Prelude

  type Page = s: seq<nat> | |s| == 512 witness seq(512, _ => 0)
  type Memory = map<nat, Page>

  function ZeroPage(): Page { seq(512, _ => 0) }

  /** Virtual pages: bits 12 to 47 of a virtual address. */
  const PAGES: nat := 0x10_0000_0000

  function PageOf(virt: nat): (p: nat)
    ensures p < 0x10_0000_0000
  {
    virt / 4096 % 0x10_0000_0000
  }

  // The four index macros.
  function Pml4Index(virt: nat): nat { virt / 0x80_0000_0000 % 512 }
  function PdptIndex(virt: nat): nat { virt / 0x4000_0000 % 512 }
  function PdIndex(virt: nat): nat { virt / 0x20_0000 % 512 }
  function PtIndex(virt: nat): nat { virt / 4096 % 512 }

  // Entries: PAGE_PRESENT is bit 0, the page-size bit is bit 7, PAGE_ADDR_MASK is bits 12 to 51.
  predicate Present(e: nat) { e % 2 == 1 }

  predicate LargeBit(e: nat) { e / 128 % 2 == 1 }

  function FrameOf(e: nat): nat { e / 4096 % 0x100_0000_0000 }

  /** What an entry allows beside reading: PAGE_WRITE is bit 1 and PAGE_USER bit 2. */
  datatype Rights = Rights(write: bool, user: bool)

  function RightsOf(e: nat): Rights { Rights(e / 2 % 2 == 1, e / 4 % 2 == 1) }

  function Both(a: Rights, b: Rights): Rights { Rights(a.write && b.write, a.user && b.user) }

  /** `phys | PAGE_PRESENT | PAGE_WRITE | PAGE_USER` for a page-aligned address. */
  function TableEntry(frame: nat): nat { frame * 4096 + 7 }

  /** `(phys & PAGE_ADDR_MASK) | flags | PAGE_PRESENT` for flags outside the address bits:
      `low` holds bits 0 to 11 and `high` bits 52 to 63. */
  function PageEntry(frame: nat, flags: Flags): nat {
    flags.high * 0x10_0000_0000_0000 + frame % 0x100_0000_0000 * 4096 + flags.low + (1 - flags.low % 2)
  }

  datatype RawFlags = Flags(low: nat, high: nat)
  type Flags = f: RawFlags | f.low < 4096 && f.high < 4096 witness Flags(0, 0)

  /** PAGE_WRITE. */
  const WRITE: Flags := Flags(2, 0)

  // -------------------------------------------------------------------------------------------
  // Index arithmetic
  // -------------------------------------------------------------------------------------------

  /** The page number without its lowest `level` indices. */
  function Above(page: nat, level: nat): nat {
    if level == 0 then page else Above(page, level - 1) / 512
  }

  /** The entry number of a page in a level-l table. */
  function Index(page: nat, level: nat): (i: nat)
    ensures i < 512
  {
    Above(page, level) % 512
  }

  lemma Shifts(v: nat)
    ensures v / 4096 / 512 == v / 0x20_0000
    ensures v / 0x20_0000 / 512 == v / 0x4000_0000
    ensures v / 0x4000_0000 / 512 == v / 0x80_0000_0000
    ensures v / 0x80_0000_0000 / 512 == v / 0x1_0000_0000_0000
  {
  }

  /** A page number is its four indices, nine bits each. */
  lemma PageFromIndices(v: nat)
    ensures PageOf(v) == Pml4Index(v) * 0x800_0000 + PdptIndex(v) * 0x4_0000 + PdIndex(v) * 0x200 + PtIndex(v)
  {
    Shifts(v);
    var a, b, c, d, e := v / 4096, v / 0x20_0000, v / 0x4000_0000, v / 0x80_0000_0000, v / 0x1_0000_0000_0000;
    assert a == b * 512 + PtIndex(v);
    assert b == c * 512 + PdIndex(v);
    assert c == d * 512 + PdptIndex(v);
    assert d == e * 512 + Pml4Index(v);
    Remainder(a, e, Pml4Index(v) * 0x800_0000 + PdptIndex(v) * 0x4_0000 + PdIndex(v) * 0x200 + PtIndex(v));
  }

  lemma Remainder(a: nat, e: nat, r: nat)
    requires a == e * 0x10_0000_0000 + r && r < 0x10_0000_0000
    ensures a % 0x10_0000_0000 == r
  {
  }

  /** The macros pick out the index at each level. */
  lemma IndexMacros(virt: nat)
    ensures Index(PageOf(virt), 3) == Pml4Index(virt)
    ensures Index(PageOf(virt), 2) == PdptIndex(virt)
    ensures Index(PageOf(virt), 1) == PdIndex(virt)
    ensures Index(PageOf(virt), 0) == PtIndex(virt)
  {
    PageFromIndices(virt);
    IndexOf(Pml4Index(virt), PdptIndex(virt), PdIndex(virt), PtIndex(virt));
  }

  lemma IndexOf(i3: nat, i2: nat, i1: nat, i0: nat)
    requires i3 < 512 && i2 < 512 && i1 < 512 && i0 < 512
    ensures
      var page := i3 * 0x800_0000 + i2 * 0x4_0000 + i1 * 0x200 + i0;
      && Index(page, 3) == i3 && Index(page, 2) == i2 && Index(page, 1) == i1 && Index(page, 0) == i0
      && Above(page, 4) == 0
  {
    var page := i3 * 0x800_0000 + i2 * 0x4_0000 + i1 * 0x200 + i0;
    NineBits(i3 * 0x4_0000 + i2 * 0x200 + i1, i0);
    assert Above(page, 1) == page / 512 == i3 * 0x4_0000 + i2 * 0x200 + i1;
    NineBits(i3 * 0x200 + i2, i1);
    assert Above(page, 2) == i3 * 0x200 + i2;
    NineBits(i3, i2);
    assert Above(page, 3) == i3;
  }

  lemma NineBits(hi: nat, lo: nat)
    requires lo < 512
    ensures (hi * 512 + lo) / 512 == hi && (hi * 512 + lo) % 512 == lo
  {
  }

  lemma AboveStep(page: nat, level: nat)
    ensures Above(page, level + 1) * 512 + Index(page, level) == Above(page, level)
  {
  }

  lemma AboveTop(page: nat)
    requires page < PAGES
    ensures Above(page, 4) == 0
  {
    assert Above(page, 1) == page / 512 < 0x800_0000;
    assert Above(page, 2) == Above(page, 1) / 512 < 0x4_0000;
    assert Above(page, 3) == Above(page, 2) / 512 < 0x200;
  }

  /** Two addresses are in the same page exactly when the four indices agree. */
  lemma IndicesInjective(v: nat, w: nat)
    ensures PageOf(v) == PageOf(w) <==>
      && Pml4Index(v) == Pml4Index(w) && PdptIndex(v) == PdptIndex(w)
      && PdIndex(v) == PdIndex(w) && PtIndex(v) == PtIndex(w)
  {
    PageFromIndices(v);
    PageFromIndices(w);
    if PageOf(v) == PageOf(w) {
      IndexMacros(v);
      IndexMacros(w);
    }
  }

  lemma TableEntryFields(frame: nat)
    requires frame < 0x100_0000_0000
    ensures Present(TableEntry(frame)) && !LargeBit(TableEntry(frame)) && FrameOf(TableEntry(frame)) == frame
    ensures RightsOf(TableEntry(frame)) == Rights(true, true)
  {
    Fields(frame, 7);
    SmallPage(frame);
    HighPart(0, frame);
  }

  lemma SmallPage(frame: nat)
    ensures (frame * 4096 + 7) / 128 % 2 == 0
  {
    Below128(frame * 32);
    Even(frame * 16);
  }

  lemma Below128(n: nat)
    ensures (n * 128 + 7) / 128 == n
  {
  }

  lemma Even(n: nat)
    ensures n * 2 % 2 == 0
  {
  }

  lemma PageEntryFields(frame: nat, flags: Flags)
    requires frame < 0x100_0000_0000
    ensures Present(PageEntry(frame, flags)) && FrameOf(PageEntry(frame, flags)) == frame
    ensures PageEntry(frame, flags) % 4096 == if flags.low % 2 == 1 then flags.low else flags.low + 1
    ensures PageEntry(frame, flags) / 0x10_0000_0000_0000 == flags.high
    ensures RightsOf(PageEntry(frame, flags)) == RightsOf(flags.low)
  {
    var low := flags.low + (1 - flags.low % 2);
    Fields(flags.high * 0x100_0000_0000 + frame, low);
    HighPart(flags.high, frame);
    TopBits(flags.high, frame * 4096 + low);
    SetsBitZero(flags.low);
  }

  lemma Fields(top: nat, low: nat)
    requires low < 4096
    ensures (top * 4096 + low) / 4096 == top && (top * 4096 + low) % 4096 == low
    ensures (top * 4096 + low) % 2 == low % 2
    ensures RightsOf(top * 4096 + low) == RightsOf(low)
  {
    Halves(top * 2048, low);
    Quarters(top * 1024, low);
    Even(top * 1024);
    Parity(top * 1024, low / 2);
    Parity(top * 512, low / 4);
  }

  lemma Halves(n: nat, low: nat)
    ensures (n * 2 + low) / 2 == n + low / 2
  {
  }

  lemma Quarters(n: nat, low: nat)
    ensures (n * 4 + low) / 4 == n + low / 4
  {
  }

  lemma Parity(n: nat, low: nat)
    ensures (n * 2 + low) % 2 == low % 2
  {
  }

  /** Setting bit 0 leaves the other bits alone. */
  lemma SetsBitZero(low: nat)
    ensures RightsOf(low + (1 - low % 2)) == RightsOf(low)
  {
    var n := low / 2;
    assert low + (1 - low % 2) == n * 2 + 1 && low == n * 2 + low % 2;
    Halves(n, 1);
    Quarter(n, 1);
    Quarter(n, low % 2);
  }

  lemma Quarter(n: nat, bit: nat)
    requires bit < 2
    ensures (n * 2 + bit) / 4 == n / 2
  {
  }

  lemma TopBits(high: nat, rest: nat)
    requires rest < 0x10_0000_0000_0000
    ensures (high * 0x10_0000_0000_0000 + rest) / 0x10_0000_0000_0000 == high
  {
  }

  lemma HighPart(high: nat, frame: nat)
    requires frame < 0x100_0000_0000
    ensures (high * 0x100_0000_0000 + frame) % 0x100_0000_0000 == frame
    ensures frame % 0x100_0000_0000 == frame
  {
  }

  // -------------------------------------------------------------------------------------------
  // Translation
  // -------------------------------------------------------------------------------------------

  /** The word at index i of frame f. */
  function Word(m: Memory, f: nat, i: nat): nat
    requires i < 512
  {
    if f in m then m[f][i] else 0
  }

  function SetWord(m: Memory, f: nat, i: nat, x: nat): Memory
    requires f in m && i < 512
  {
    m[f := m[f][i := x]]
  }

  /** A page walk ends at an absent entry or at the entry that maps the page: a PT entry, or a
      large page in a PD or PDPT. */
  datatype Outcome = Hole(level: nat) | Leaf(level: nat, entry: nat)

  predicate IsLink(level: nat, e: nat) {
    Present(e) && level > 0 && !(level <= 2 && LargeBit(e))
  }

  /** What the processor does to translate a page. */
  function Walk(m: Memory, table: nat, level: nat, page: nat): Outcome
    decreases level
  {
    var e := Word(m, table, Index(page, level));
    if !Present(e) then Hole(level)
    else if IsLink(level, e) then Walk(m, FrameOf(e), level - 1, page)
    else Leaf(level, e)
  }

  /** What the tables on its path leave to a page: the rights that all their links grant. */
  function LinkRights(m: Memory, table: nat, level: nat, page: nat): Rights
    decreases level
  {
    var e := Word(m, table, Index(page, level));
    if IsLink(level, e) then Both(RightsOf(e), LinkRights(m, FrameOf(e), level - 1, page)) else Rights(true, true)
  }

  /** What the processor allows on a page: the rights that every entry of its walk grants. */
  function PageRights(m: Memory, root: nat, page: nat): Rights {
    var o := Walk(m, root, 3, page);
    if o.Hole? then Rights(false, false) else Both(LinkRights(m, root, 3, page), RightsOf(o.entry))
  }

  function Translate(m: Memory, root: nat, page: nat): Option<Outcome> {
    var o := Walk(m, root, 3, page);
    if o.Hole? then None else Some(o)
  }

  /** The position of a table in the tree: its level and the indices that lead to it. */
  datatype Position = At(level: nat, prefix: nat)

  predicate LinkOk(m: Memory, own: map<nat, Position>, t: nat, i: nat)
    requires t in own && i < 512
  {
    var e := Word(m, t, i);
    own[t].level <= 3 &&
    (IsLink(own[t].level, e) ==>
      FrameOf(e) in own && own[FrameOf(e)] == At(own[t].level - 1, own[t].prefix * 512 + i))
  }

  /** The tables in `own` form a tree below `root`: each is reached in one way only. */
  ghost predicate Tree(m: Memory, own: map<nat, Position>, root: nat) {
    && root in own && own[root] == At(3, 0)
    && own.Keys <= m.Keys
    && forall t, i :: t in own && 0 <= i < 512 ==> LinkOk(m, own, t, i)
  }

  /** Table t is the one a walk for `page` visits at `level`. */
  predicate OnPath(own: map<nat, Position>, t: nat, level: nat, page: nat) {
    t in own && own[t] == At(level, Above(page, level + 1))
  }

  /** Entry i of table t covers `page`. */
  predicate Covers(own: map<nat, Position>, t: nat, i: nat, page: nat) {
    t in own && own[t].prefix * 512 + i == Above(page, own[t].level)
  }

  /** A walk depends only on the entries that cover its page. */
  lemma {:induction false} WalkDepends(m: Memory, m': Memory, own: map<nat, Position>, root: nat,
                                       t: nat, level: nat, page: nat)
    requires Tree(m, own, root) && OnPath(own, t, level, page)
    requires forall u, i :: 0 <= i < 512 && Covers(own, u, i, page) ==> Word(m', u, i) == Word(m, u, i)
    ensures Walk(m', t, level, page) == Walk(m, t, level, page)
    ensures LinkRights(m', t, level, page) == LinkRights(m, t, level, page)
    decreases level
  {
    AboveStep(page, level);
    var i := Index(page, level);
    assert Covers(own, t, i, page);
    var e := Word(m, t, i);
    if IsLink(level, e) {
      assert LinkOk(m, own, t, i);
      WalkDepends(m, m', own, root, FrameOf(e), level - 1, page);
    }
  }

  /** The walk for `page` that is at table t at `level` comes to table u at `target`. */
  predicate Reaches(m: Memory, t: nat, level: nat, page: nat, u: nat, target: nat)
    decreases level
  {
    if level == target then t == u
    else
      var e := Word(m, t, Index(page, level));
      IsLink(level, e) && Reaches(m, FrameOf(e), level - 1, page, u, target)
  }

  lemma {:induction false} WalkFrom(m: Memory, t: nat, level: nat, page: nat, u: nat, target: nat)
    requires Reaches(m, t, level, page, u, target)
    ensures Walk(m, t, level, page) == Walk(m, u, target, page)
    decreases level
  {
    if level != target {
      WalkFrom(m, FrameOf(Word(m, t, Index(page, level))), level - 1, page, u, target);
    }
  }

  lemma {:induction false} ReachesOnPath(m: Memory, own: map<nat, Position>, root: nat,
                                         t: nat, level: nat, page: nat, u: nat, target: nat)
    requires Tree(m, own, root) && OnPath(own, t, level, page)
    requires Reaches(m, t, level, page, u, target)
    ensures OnPath(own, u, target, page) && target <= level
    decreases level
  {
    if level != target {
      AboveStep(page, level);
      assert LinkOk(m, own, t, Index(page, level));
      ReachesOnPath(m, own, root, FrameOf(Word(m, t, Index(page, level))), level - 1, page, u, target);
    }
  }

  /** Pages that agree above `target` share their tables down to that level, also after changes
      to tables at or below it. */
  lemma {:induction false} ReachesShared(m: Memory, m': Memory, own: map<nat, Position>, root: nat,
                                         t: nat, level: nat, page: nat, q: nat, u: nat, target: nat)
    requires Tree(m, own, root) && OnPath(own, t, level, page)
    requires Reaches(m, t, level, page, u, target)
    requires Above(q, target + 1) == Above(page, target + 1)
    requires forall w, i :: w in own && own[w].level > target && 0 <= i < 512 ==> Word(m', w, i) == Word(m, w, i)
    ensures Reaches(m', t, level, q, u, target)
    decreases level
  {
    if level != target {
      ReachesOnPath(m, own, root, t, level, page, u, target);
      AboveShared(page, q, target + 1, level);
      AboveStep(page, level);
      var e := Word(m, t, Index(page, level));
      assert LinkOk(m, own, t, Index(page, level));
      ReachesShared(m, m', own, root, FrameOf(e), level - 1, page, q, u, target);
    }
  }

  /** Below it, the rights granted by the shared tables are the same. */
  lemma {:induction false} RightsShared(m: Memory, m': Memory, own: map<nat, Position>, root: nat,
                                        t: nat, level: nat, page: nat, q: nat, u: nat, target: nat)
    requires Tree(m, own, root) && OnPath(own, t, level, page)
    requires Reaches(m, t, level, page, u, target)
    requires Above(q, target + 1) == Above(page, target + 1)
    requires forall w, i :: w in own && own[w].level > target && 0 <= i < 512 ==> Word(m', w, i) == Word(m, w, i)
    requires LinkRights(m', u, target, q) == LinkRights(m, u, target, q)
    ensures LinkRights(m', t, level, q) == LinkRights(m, t, level, q)
    decreases level
  {
    if level != target {
      ReachesOnPath(m, own, root, t, level, page, u, target);
      AboveShared(page, q, target + 1, level);
      AboveStep(page, level);
      var e := Word(m, t, Index(page, level));
      assert LinkOk(m, own, t, Index(page, level));
      RightsShared(m, m', own, root, FrameOf(e), level - 1, page, q, u, target);
    }
  }

  lemma {:induction false} AboveShared(page: nat, q: nat, low: nat, level: nat)
    requires low <= level && Above(page, low) == Above(q, low)
    ensures Above(page, level) == Above(q, level)
    decreases level - low
  {
    if low < level {
      AboveShared(page, q, low + 1, level);
    }
  }

  // -------------------------------------------------------------------------------------------
  // The three kinds of writes
  // -------------------------------------------------------------------------------------------

  /** The tables leave the same rights to every page. */
  ghost predicate SameLinks(m: Memory, m': Memory, root: nat) {
    var same := forall q :: 0 <= q < PAGES ==> LinkRights(m', root, 3, q) == LinkRights(m, root, 3, q);
    same
  }

  /** A write to an entry that does not cover `page`, or to no table at all. */
  lemma UnrelatedWrite(m: Memory, own: map<nat, Position>, root: nat, f: nat, i: nat, x: nat, page: nat)
    requires Tree(m, own, root) && page < PAGES
    requires f in m && i < 512 && !Covers(own, f, i, page)
    ensures Walk(SetWord(m, f, i, x), root, 3, page) == Walk(m, root, 3, page)
    ensures LinkRights(SetWord(m, f, i, x), root, 3, page) == LinkRights(m, root, 3, page)
  {
    AboveTop(page);
    WalkDepends(m, SetWord(m, f, i, x), own, root, root, 3, page);
  }

  /** Writing a PT entry changes the translation of its own page only. */
  lemma PtWrite(m: Memory, own: map<nat, Position>, root: nat, t: nat, page: nat, e: nat)
    requires Tree(m, own, root) && page < PAGES
    requires Reaches(m, root, 3, page, t, 0)
    ensures t in m && Index(page, 0) == page % 512
    ensures
      var m' := SetWord(m, t, Index(page, 0), e);
      && Tree(m', own, root)
      && Walk(m', root, 3, page) == (if Present(e) then Leaf(0, e) else Hole(0))
      && (forall q :: 0 <= q < PAGES && q != page ==> Walk(m', root, 3, q) == Walk(m, root, 3, q))
      && SameLinks(m, m', root)
  {
    AboveTop(page);
    ReachesOnPath(m, own, root, root, 3, page, t, 0);
    var i := Index(page, 0);
    var m' := SetWord(m, t, i, e);
    forall u, k | u in own && 0 <= k < 512
      ensures LinkOk(m', own, u, k)
    {
      assert LinkOk(m, own, u, k);
    }
    ReachesShared(m, m', own, root, root, 3, page, page, t, 0);
    WalkFrom(m', root, 3, page, t, 0);
    RightsShared(m, m', own, root, root, 3, page, page, t, 0);
    forall q | 0 <= q < PAGES && q != page
      ensures Walk(m', root, 3, q) == Walk(m, root, 3, q) && LinkRights(m', root, 3, q) == LinkRights(m, root, 3, q)
    {
      AboveStep(page, 0);
      UnrelatedWrite(m, own, root, t, i, e, q);
    }
  }

  /** Writing to a frame that holds no table changes no translation. */
  lemma DataWrite(m: Memory, own: map<nat, Position>, root: nat, f: nat, i: nat, x: nat)
    requires Tree(m, own, root) && f in m && f !in own && i < 512
    ensures Tree(SetWord(m, f, i, x), own, root)
    ensures forall q :: 0 <= q < PAGES ==> Walk(SetWord(m, f, i, x), root, 3, q) == Walk(m, root, 3, q)
    ensures SameLinks(m, SetWord(m, f, i, x), root)
  {
    var m' := SetWord(m, f, i, x);
    forall u, k | u in own && 0 <= k < 512
      ensures LinkOk(m', own, u, k)
    {
      assert LinkOk(m, own, u, k);
    }
    forall q | 0 <= q < PAGES
      ensures Walk(m', root, 3, q) == Walk(m, root, 3, q) && LinkRights(m', root, 3, q) == LinkRights(m, root, 3, q)
    {
      UnrelatedWrite(m, own, root, f, i, x, q);
    }
  }

  function NewTable(m: Memory, t: nat, i: nat, f: nat): Memory
    requires t in m && i < 512
  {
    SetWord(m[f := ZeroPage()], t, i, TableEntry(f))
  }

  /** Everything about f is new, so the tree gains one leaf table. */
  lemma NewTableTree(m: Memory, own: map<nat, Position>, root: nat, t: nat, level: nat, page: nat, f: nat)
    requires Tree(m, own, root) && OnPath(own, t, level, page) && 1 <= level <= 3
    requires !Present(Word(m, t, Index(page, level)))
    requires f !in own && f < 0x100_0000_0000
    ensures Tree(NewTable(m, t, Index(page, level), f), own[f := At(level - 1, Above(page, level))], root)
  {
    var i := Index(page, level);
    var m', own' := NewTable(m, t, i, f), own[f := At(level - 1, Above(page, level))];
    TableEntryFields(f);
    AboveStep(page, level);
    forall u, k | u in own' && 0 <= k < 512
      ensures LinkOk(m', own', u, k)
    {
      if u != f && !(u == t && k == i) {
        assert LinkOk(m, own, u, k);
      }
    }
  }

  /** Where a new table goes, seen from a page that shares the table above it. */
  lemma SharedWalks(m: Memory, own: map<nat, Position>, root: nat, t: nat, level: nat, page: nat, f: nat, q: nat)
    requires Tree(m, own, root) && page < PAGES && q < PAGES && 1 <= level <= 3
    requires Reaches(m, root, 3, page, t, level) && t in own && Above(q, level) == Above(page, level)
    requires !Present(Word(m, t, Index(page, level)))
    requires f !in own && f < 0x100_0000_0000
    ensures
      var m' := NewTable(m, t, Index(page, level), f);
      && Walk(m, root, 3, q) == Hole(level) && Walk(m', root, 3, q) == Hole(level - 1)
      && Reaches(m', root, 3, q, f, level - 1) && LinkRights(m', root, 3, q) == LinkRights(m, root, 3, q)
  {
    AboveTop(page);
    AboveTop(q);
    ReachesOnPath(m, own, root, root, 3, page, t, level);
    var m' := NewTable(m, t, Index(page, level), f);
    AboveStep(page, level);
    AboveStep(q, level);
    TableEntryFields(f);
    ReachesShared(m, m, own, root, root, 3, page, q, t, level);
    ReachesShared(m, m', own, root, root, 3, page, q, t, level);
    WalkFrom(m, root, 3, q, t, level);
    WalkFrom(m', root, 3, q, t, level);
    ReachesExtend(m', root, 3, q, t, level);
    RightsShared(m, m', own, root, root, 3, page, q, t, level);
  }

  /** A page that does not share it does not notice the new table. */
  lemma UnsharedWalks(m: Memory, own: map<nat, Position>, root: nat, t: nat, level: nat, page: nat, f: nat, q: nat)
    requires Tree(m, own, root) && page < PAGES && q < PAGES && 1 <= level <= 3
    requires Reaches(m, root, 3, page, t, level) && t in own && Above(q, level) != Above(page, level)
    requires f !in own
    ensures Walk(NewTable(m, t, Index(page, level), f), root, 3, q) == Walk(m, root, 3, q)
    ensures LinkRights(NewTable(m, t, Index(page, level), f), root, 3, q) == LinkRights(m, root, 3, q)
  {
    AboveTop(page);
    AboveTop(q);
    ReachesOnPath(m, own, root, root, 3, page, t, level);
    AboveStep(page, level);
    WalkDepends(m, NewTable(m, t, Index(page, level), f), own, root, root, 3, q);
  }

  /** `get_next_level` creating a missing table: no page gains or loses a translation. */
  lemma NewTableWalks(m: Memory, own: map<nat, Position>, root: nat, t: nat, level: nat, page: nat, f: nat, q: nat)
    requires Tree(m, own, root) && page < PAGES && q < PAGES && 1 <= level <= 3
    requires Reaches(m, root, 3, page, t, level)
    requires !Present(Word(m, t, Index(page, level)))
    requires f !in own && f < 0x100_0000_0000
    ensures t in own
    ensures
      var m' := NewTable(m, t, Index(page, level), f);
      && (Above(q, level) == Above(page, level) ==>
            && Walk(m, root, 3, q) == Hole(level) && Walk(m', root, 3, q) == Hole(level - 1)
            && Reaches(m', root, 3, q, f, level - 1))
      && (Above(q, level) != Above(page, level) ==> Walk(m', root, 3, q) == Walk(m, root, 3, q))
      && LinkRights(m', root, 3, q) == LinkRights(m, root, 3, q)
  {
    AboveTop(page);
    ReachesOnPath(m, own, root, root, 3, page, t, level);
    if Above(q, level) == Above(page, level) {
      SharedWalks(m, own, root, t, level, page, f, q);
    } else {
      UnsharedWalks(m, own, root, t, level, page, f, q);
    }
  }

  /** The whole effect of creating a missing table. */
  lemma NewTableEffect(m: Memory, own: map<nat, Position>, root: nat, t: nat, level: nat, page: nat, f: nat)
    requires Tree(m, own, root) && page < PAGES && 1 <= level <= 3
    requires Reaches(m, root, 3, page, t, level)
    requires !Present(Word(m, t, Index(page, level)))
    requires f !in own && f < 0x100_0000_0000
    ensures t in own
    ensures
      var m' := NewTable(m, t, Index(page, level), f);
      && Tree(m', own[f := At(level - 1, Above(page, level))], root)
      && Walk(m', root, 3, page) == Hole(level - 1) && Reaches(m', root, 3, page, f, level - 1)
      && (forall q :: 0 <= q < PAGES ==> Translate(m', root, q) == Translate(m, root, q))
      && SameLinks(m, m', root)
  {
    AboveTop(page);
    ReachesOnPath(m, own, root, root, 3, page, t, level);
    NewTableTree(m, own, root, t, level, page, f);
    NewTableWalks(m, own, root, t, level, page, f, page);
    forall q | 0 <= q < PAGES
      ensures
        var m' := NewTable(m, t, Index(page, level), f);
        Translate(m', root, q) == Translate(m, root, q) && LinkRights(m', root, 3, q) == LinkRights(m, root, 3, q)
    {
      NewTableWalks(m, own, root, t, level, page, f, q);
    }
  }

  lemma {:induction false} ReachesExtend(m: Memory, t: nat, level: nat, page: nat, u: nat, target: nat)
    requires Reaches(m, t, level, page, u, target) && target <= level
    requires IsLink(target, Word(m, u, Index(page, target)))
    ensures Reaches(m, t, level, page, FrameOf(Word(m, u, Index(page, target))), target - 1)
    decreases level
  {
    if level != target {
      var next := FrameOf(Word(m, t, Index(page, level)));
      ReachesExtend(m, next, level - 1, page, u, target);
    }
  }

  // -------------------------------------------------------------------------------------------
  // The kernel's own PML4
  // -------------------------------------------------------------------------------------------

  /** The PML4 that `vmm_init` builds: the upper half of the current one over zeroes. */
  function UpperHalf(current: Page): Page {
    ZeroPage()[..256] + current[256..]
  }

  function NewRoot(m: Memory, cr3: nat, f: nat): Memory
    requires cr3 in m
  {
    m[f := UpperHalf(m[cr3])]
  }

  lemma NewRootTree(m: Memory, own: map<nat, Position>, cr3: nat, f: nat)
    requires Tree(m, own, cr3) && f !in own
    ensures Tree(NewRoot(m, cr3, f), (own - {cr3})[f := At(3, 0)], f)
  {
    var m', own' := NewRoot(m, cr3, f), (own - {cr3})[f := At(3, 0)];
    forall t, i | t in own' && 0 <= i < 512
      ensures LinkOk(m', own', t, i)
    {
      if t == f {
        assert LinkOk(m, own, cr3, i);
      } else {
        assert LinkOk(m, own, t, i);
      }
    }
  }

  /** Upper-half pages are walked as before and lower-half pages find nothing. */
  lemma NewRootWalks(m: Memory, own: map<nat, Position>, cr3: nat, f: nat, q: nat)
    requires Tree(m, own, cr3) && f !in own && q < PAGES
    ensures Walk(NewRoot(m, cr3, f), f, 3, q) == if Index(q, 3) >= 256 then Walk(m, cr3, 3, q) else Hole(3)
    ensures Index(q, 3) >= 256 ==> LinkRights(NewRoot(m, cr3, f), f, 3, q) == LinkRights(m, cr3, 3, q)
  {
    var m', i := NewRoot(m, cr3, f), Index(q, 3);
    if i >= 256 {
      var e := Word(m, cr3, i);
      assert Word(m', f, i) == e;
      AboveTop(q);
      AboveStep(q, 3);
      assert LinkOk(m, own, cr3, i);
      if IsLink(3, e) {
        WalkDepends(m, m', own, cr3, FrameOf(e), 2, q);
      }
    } else {
      assert Word(m', f, i) == 0;
    }
  }
}
