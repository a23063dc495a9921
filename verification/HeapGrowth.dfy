/** How many frames it takes to grow the heap of src/mm/heap.c, told from the page tables as they are
    before the growth. */
module HeapGrowth {
  import opened PageTable
  import opened Vmm

  /** The virtual page number of heap page i: HEAP_BASE is page 0xA_0000_0000. */
  function HeapPage(i: nat): nat { 0xA_0000_0000 + i }

  /** What `grow_pages` comes to: all pages mapped, frames ran out, or `vmm_map` faulted because no
      frame was left for a page table. */
  datatype Growth = Enough | Short | Fault

  /** The frames taken by n heap pages from page i on: one for each page, and one for each table that
      is missing and not shared with the page before. */
  ghost function Needed(m: Memory, root: nat, i: nat, n: nat): nat {
    if n == 0 then 0
    else if n == 1 then 1 + Missing(m, root, HeapPage(i))
    else
      var p := HeapPage(i + n - 2);
      Needed(m, root, i, n - 1) + 1 + Min(Missing(m, root, p + 1), Unshared(p, p + 1))
  }

  /** The number of pages, out of n, that `spare` frames suffice for. */
  ghost function Supply(m: Memory, root: nat, i: nat, n: nat, spare: nat): nat {
    if n == 0 || Needed(m, root, i, n) <= spare then n else Supply(m, root, i, n - 1, spare)
  }

  /** How a growth by n pages will end. */
  ghost function Outlook(m: Memory, root: nat, i: nat, n: nat, spare: nat): Growth {
    if Needed(m, root, i, n) <= spare then Enough
    else if Needed(m, root, i, Supply(m, root, i, n, spare)) == spare then Short
    else Fault
  }

  lemma {:induction false} NeededGrows(m: Memory, root: nat, i: nat, d: nat, n: nat)
    requires d <= n
    ensures Needed(m, root, i, d) + (n - d) <= Needed(m, root, i, n)
    decreases n
  {
    if d < n {
      NeededGrows(m, root, i, d, n - 1);
    }
  }

  /** Growth goes exactly as far as the frames do. */
  lemma {:induction false} SupplyIs(m: Memory, root: nat, i: nat, n: nat, spare: nat, d: nat)
    requires d <= n && Needed(m, root, i, d) <= spare
    requires d < n ==> spare < Needed(m, root, i, d + 1)
    ensures Supply(m, root, i, n, spare) == d
    ensures Needed(m, root, i, n) <= spare <==> d == n
    decreases n
  {
    if d < n {
      assert Needed(m, root, i, n) > spare by {
        NeededGrows(m, root, i, d + 1, n);
      }
      SupplyIs(m, root, i, n - 1, spare, d);
    }
  }

  /** How growth ends depends on nothing but the frames needed. */
  lemma {:induction false} SameOutlook(m: Memory, root: nat, m': Memory, root': nat, i: nat, n: nat, spare: nat)
    requires forall d: nat :: d <= n ==> Needed(m', root', i, d) == Needed(m, root, i, d)
    ensures Supply(m', root', i, n, spare) == Supply(m, root, i, n, spare) <= n
    ensures Outlook(m', root', i, n, spare) == Outlook(m, root, i, n, spare)
  {
    assert Needed(m', root', i, n) == Needed(m, root, i, n);
    if n > 0 {
      SameOutlook(m, root, m', root', i, n - 1, spare);
    }
    var d := Supply(m, root, i, n, spare);
    assert Needed(m', root', i, d) == Needed(m, root, i, d);
  }

  /** A frame for the first page and not for all its tables: the growth faults at once. */
  lemma FaultsAtOnce(m: Memory, root: nat, i: nat, n: nat, spare: nat)
    requires n > 0 && 0 < spare < 1 + Missing(m, root, HeapPage(i))
    ensures Outlook(m, root, i, n, spare) == Fault
  {
    NeededGrows(m, root, i, 1, n);
    SupplyIs(m, root, i, n, spare, 0);
  }

  /** With an empty root table, the first growth of the heap faults if it has one to three frames. */
  lemma GrowthCanFault(m: Memory, spare: nat)
    requires 0 in m && m[0] == ZeroPage() && 1 <= spare <= 3
    ensures Outlook(m, 0, 0, 16, spare) == Fault
  {
    EmptyRoot(m, HeapPage(0));
    FaultsAtOnce(m, 0, 0, 16, spare);
  }

  /** It takes one to four frames a page. */
  lemma {:induction false} NeededBounds(m: Memory, root: nat, i: nat, n: nat)
    ensures n <= Needed(m, root, i, n) <= 4 * n
  {
    if n == 1 {
      WalkLevel(m, root, 3, HeapPage(i));
    } else if n > 1 {
      NeededBounds(m, root, i, n - 1);
    }
  }

  /** Growth succeeds if and only if there are as many frames as it takes; four a page are enough. */
  lemma OutlookIff(m: Memory, root: nat, i: nat, n: nat, spare: nat)
    ensures Outlook(m, root, i, n, spare).Enough? <==> Needed(m, root, i, n) <= spare
    ensures Supply(m, root, i, n, spare) == n <==> Needed(m, root, i, n) <= spare
    ensures 4 * n <= spare ==> Outlook(m, root, i, n, spare).Enough?
    ensures n > 0 && spare == 0 ==> Outlook(m, root, i, n, spare).Short?
  {
    NeededBounds(m, root, i, n);
    var d := SupplyFits(m, root, i, n, spare);
    NeededBounds(m, root, i, d);
    if d < n {
      NeededGrows(m, root, i, d + 1, n);
    }
  }

  /** More frames than these are needed for n pages. */
  ghost predicate Exceeds(m: Memory, root: nat, i: nat, n: nat, spare: nat) {
    var beyond := spare < Needed(m, root, i, n);
    beyond
  }

  lemma SupplyFits(m: Memory, root: nat, i: nat, n: nat, spare: nat) returns (d: nat)
    ensures d == Supply(m, root, i, n, spare) <= n && Needed(m, root, i, d) <= spare
    ensures d < n ==> spare < Needed(m, root, i, d + 1)
  {
    d := SupplyStops(m, root, i, n, spare);
  }

  lemma {:induction false} SupplyStops(m: Memory, root: nat, i: nat, n: nat, spare: nat) returns (d: nat)
    ensures d == Supply(m, root, i, n, spare) <= n && !Exceeds(m, root, i, d, spare)
    ensures d < n ==> Exceeds(m, root, i, d + 1, spare)
  {
    if n == 0 || !Exceeds(m, root, i, n, spare) {
      d := n;
    } else {
      d := SupplyStops(m, root, i, n - 1, spare);
    }
  }

  // -------------------------------------------------------------------------------------------
  // Page after page
  // -------------------------------------------------------------------------------------------

  /** m is m0 after `done` heap pages from page i on have been mapped, as far as missing tables go. */
  ghost predicate Ahead(m0: Memory, m: Memory, root: nat, i: nat, done: nat) {
    var sound := forall q :: HeapPage(i + done) <= q < PAGES ==>
      Missing(m, root, q)
      == if done == 0 then Missing(m0, root, q) else Min(Missing(m0, root, q), Unshared(HeapPage(i + done - 1), q));
    sound
  }

  lemma AboveMonotone(p: nat, r: nat, q: nat, level: nat)
    requires p <= r <= q && Above(p, level) == Above(q, level)
    ensures Above(r, level) == Above(q, level)
  {
    AboveOrder(p, r, level);
    AboveOrder(r, q, level);
  }

  lemma {:induction false} AboveOrder(p: nat, q: nat, level: nat)
    requires p <= q
    ensures Above(p, level) <= Above(q, level)
  {
    if level > 0 {
      AboveOrder(p, q, level - 1);
    }
  }

  /** A page shares at least as many tables with a nearer one. */
  lemma UnsharedNearer(p: nat, r: nat, q: nat)
    requires p <= r <= q
    ensures Unshared(r, q) <= Unshared(p, q)
  {
    if Above(p, 1) == Above(q, 1) {
      AboveMonotone(p, r, q, 1);
    } else if Above(p, 2) == Above(q, 2) {
      AboveMonotone(p, r, q, 2);
    } else if Above(p, 3) == Above(q, 3) {
      AboveMonotone(p, r, q, 3);
    }
  }

  lemma AheadStep(m0: Memory, m: Memory, m': Memory, root: nat, i: nat, done: nat)
    requires Ahead(m0, m, root, i, done) && Opened(m, m', root, HeapPage(i + done))
    requires HeapPage(i + done) < PAGES
    ensures Ahead(m0, m', root, i, done + 1)
  {
    var p := HeapPage(i + done);
    forall q | p + 1 <= q < PAGES
      ensures Missing(m', root, q) == Min(Missing(m0, root, q), Unshared(p, q))
    {
      if done > 0 {
        UnsharedNearer(p - 1, p, q);
      }
    }
  }

  /** Pages after the first: a frame each, and the tables not shared with the page before. */
  lemma NeededStep(m: Memory, root: nat, i: nat, d: nat)
    requires d > 0
    ensures Needed(m, root, i, d + 1)
         == Needed(m, root, i, d) + 1
            + Min(Missing(m, root, HeapPage(i + d)), Unshared(HeapPage(i + d - 1), HeapPage(i + d)))
  {
    assert HeapPage(i + (d + 1) - 2) == HeapPage(i + d - 1);
    assert HeapPage(i + d - 1) + 1 == HeapPage(i + d);
  }

  lemma AheadNext(m0: Memory, m: Memory, root: nat, i: nat, done: nat)
    requires Ahead(m0, m, root, i, done) && HeapPage(i + done) < PAGES
    ensures
      var q := HeapPage(i + done);
      Missing(m, root, q)
      == if done == 0 then Missing(m0, root, q) else Min(Missing(m0, root, q), Unshared(HeapPage(i + done - 1), q))
  {
  }

  lemma NextNeeded(m0: Memory, m: Memory, root: nat, i: nat, done: nat)
    requires Ahead(m0, m, root, i, done) && HeapPage(i + done) < PAGES
    ensures Needed(m0, root, i, done + 1) == Needed(m0, root, i, done) + 1 + Missing(m, root, HeapPage(i + done))
  {
    AheadNext(m0, m, root, i, done);
    if done > 0 {
      NeededStep(m0, root, i, done);
    }
  }

  /** `done` pages from page i on have been mapped, with `left` of `spare` frames left. */
  ghost predicate Underway(m0: Memory, m: Memory, root: nat, i: nat, done: nat, spare: nat, left: nat) {
    var sound := Ahead(m0, m, root, i, done) && spare == left + Needed(m0, root, i, done);
    sound
  }

  lemma Goes(m0: Memory, m: Memory, m': Memory, root: nat, i: nat, done: nat, spare: nat, left: nat, left': nat)
    requires Underway(m0, m, root, i, done, spare, left) && HeapPage(i + done) < PAGES
    requires Opened(m, m', root, HeapPage(i + done)) && left == left' + 1 + Missing(m, root, HeapPage(i + done))
    ensures Underway(m0, m', root, i, done + 1, spare, left')
  {
    AheadStep(m0, m, m', root, i, done);
    NextNeeded(m0, m, root, i, done);
  }

  /** A growth by `pages` pages ends here, short of them. */
  ghost predicate Stopped(m0: Memory, root: nat, i: nat, done: nat, pages: nat, spare: nat, left: nat, g: Growth) {
    var sound :=
      && done < pages && Supply(m0, root, i, pages, spare) == done && Outlook(m0, root, i, pages, spare) == g
      && spare == left + Needed(m0, root, i, done);
    sound
  }

  lemma Stops(m0: Memory, m: Memory, root: nat, i: nat, done: nat, pages: nat, spare: nat, left: nat)
    requires Underway(m0, m, root, i, done, spare, left) && HeapPage(i + done) < PAGES
    requires done < pages && left < 1 + Missing(m, root, HeapPage(i + done))
    ensures Stopped(m0, root, i, done, pages, spare, left, if left == 0 then Short else Fault)
  {
    NextNeeded(m0, m, root, i, done);
    SupplyIs(m0, root, i, pages, spare, done);
  }

  lemma Arrives(m0: Memory, m: Memory, root: nat, i: nat, pages: nat, spare: nat, left: nat)
    requires Underway(m0, m, root, i, pages, spare, left)
    ensures Supply(m0, root, i, pages, spare) == pages && Outlook(m0, root, i, pages, spare) == Enough
  {
  }
}
