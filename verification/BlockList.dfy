/** The block list of src/mm/heap.c as a value: what kmalloc, kfree and extend_heap do to it, and
    what they keep. Addresses are those of the block headers; a header is 32 bytes long. */
module BlockList {
  import opened Prelude

  datatype Block = Block(addr: nat, size: nat, free: bool)

  datatype Blocks = Nil | Cons(head: Block, tail: Blocks)

  function End(b: Block): nat { b.addr + 32 + b.size }

  // -------------------------------------------------------------------------------------------
  // Invariants
  // -------------------------------------------------------------------------------------------

  /** Address-ordered, non-overlapping, inside [from, hi), sizes positive multiples of 16. */
  predicate Ordered(l: Blocks, from: nat, hi: nat) {
    match l
    case Nil => from <= hi
    case Cons(b, t) =>
      from <= b.addr && b.addr % 16 == 0 && b.size > 0 && b.size % 16 == 0 && Ordered(t, End(b), hi)
  }

  /** No two list neighbours are both free. */
  predicate Coalesced(l: Blocks, previousFree: bool) {
    match l
    case Nil => true
    case Cons(b, t) => !(previousFree && b.free) && Coalesced(t, b.free)
  }

  predicate WellFormed(l: Blocks, lo: nat, hi: nat) {
    l.Cons? && l.head.addr == lo && Ordered(l, lo, hi) && Coalesced(l, false)
  }

  /** The allocated blocks: header address to payload size. */
  function Live(l: Blocks): map<nat, nat> {
    match l
    case Nil => map[]
    case Cons(b, t) => if b.free then Live(t) else Live(t)[b.addr := b.size]
  }

  /** The sum of the live sizes. */
  function LiveBytes(l: Blocks): nat {
    match l
    case Nil => 0
    case Cons(b, t) => (if b.free then 0 else b.size) + LiveBytes(t)
  }

  /** The bytes of [from, hi) in no header and no payload. */
  function Slack(l: Blocks, from: nat, hi: nat): int {
    match l
    case Nil => hi - from
    case Cons(b, t) => b.addr - from + Slack(t, End(b), hi)
  }

  predicate Fits(b: Block, size: nat) { b.free && b.size >= size }

  // -------------------------------------------------------------------------------------------
  // The operations
  // -------------------------------------------------------------------------------------------

  /** The first block of the list that fits. */
  function FirstFit(l: Blocks, size: nat): Option<Block> {
    match l
    case Nil => None
    case Cons(b, t) => if Fits(b, size) then Some(b) else FirstFit(t, size)
  }

  /** `split_block` and marking: block b followed by t after `size` bytes of it are handed out. */
  function Carve(b: Block, t: Blocks, size: nat): Blocks
    requires size <= b.size
  {
    if b.size - size < 48 then
      Cons(Block(b.addr, b.size, false), t)
    else
      Cons(Block(b.addr, size, false), Cons(Block(b.addr + 32 + size, b.size - size - 32, true), t))
  }

  /** The list after the first fitting block has been handed out. */
  function Allocate(l: Blocks, size: nat): Blocks {
    match l
    case Nil => Nil
    case Cons(b, t) => if Fits(b, size) then Carve(b, t, size) else Cons(b, Allocate(t, size))
  }

  /** Block b in front of t, merged with the first block of t when both are free. */
  function Join(b: Block, t: Blocks): Blocks {
    if b.free && t.Cons? && t.head.free
    then Cons(Block(b.addr, b.size + 32 + t.head.size, true), t.tail)
    else Cons(b, t)
  }

  /** `kfree` of the block whose header is at a. */
  function Free(l: Blocks, a: nat): Blocks {
    match l
    case Nil => Nil
    case Cons(b, t) =>
      if b.addr == a && !b.free then Join(Block(b.addr, b.size, true), t) else Join(b, Free(t, a))
  }

  /** `extend_heap` linking the new block nb. */
  function Extend(l: Blocks, nb: Block): Blocks {
    match l
    case Nil => Cons(nb, Nil)
    case Cons(b, Nil) => Join(b, Cons(nb, Nil))
    case Cons(b, t) => Cons(b, Extend(t, nb))
  }

  // -------------------------------------------------------------------------------------------
  // kmalloc on an existing block
  // -------------------------------------------------------------------------------------------

  lemma {:induction false} AllocateOrdered(l: Blocks, from: nat, hi: nat, size: nat)
    requires Ordered(l, from, hi) && size > 0 && size % 16 == 0
    ensures Ordered(Allocate(l, size), from, hi)
  {
    match l
    case Nil =>
    case Cons(b, t) =>
      if !Fits(b, size) {
        AllocateOrdered(t, End(b), hi, size);
      } else if b.size - size >= 48 {
        CutAligned(b.addr, b.size, size);
      }
  }

  /** Cutting multiples of 16 leaves multiples of 16. */
  lemma CutAligned(a: nat, all: nat, size: nat)
    requires a % 16 == 0 && all % 16 == 0 && size % 16 == 0 && all - size >= 48
    ensures (a + 32 + size) % 16 == 0 && all - size - 32 > 0 && (all - size - 32) % 16 == 0
  {
    Sixteens(a / 16, 2);
    Sixteens(a / 16 + 2, size / 16);
    Sixteens(all / 16 - size / 16, -2);
  }

  lemma Sixteens(m: int, n: int)
    ensures 16 * m + 16 * n == 16 * (m + n) && 16 * (m + n) % 16 == 0
  {
  }

  lemma {:induction false} AllocateCoalesced(l: Blocks, previousFree: bool, size: nat)
    requires Coalesced(l, previousFree)
    ensures Coalesced(Allocate(l, size), previousFree)
  {
    match l
    case Nil =>
    case Cons(b, t) =>
      if !Fits(b, size) {
        AllocateCoalesced(t, b.free, size);
      } else {
        CoalescedAfterLive(t, b.free);
      }
  }

  lemma CoalescedAfterLive(t: Blocks, previousFree: bool)
    requires Coalesced(t, previousFree)
    ensures Coalesced(t, false)
  {
  }

  lemma {:induction false} LiveAbove(l: Blocks, from: nat, hi: nat, a: nat)
    requires Ordered(l, from, hi) && a in Live(l)
    ensures from <= a && a + 32 + Live(l)[a] <= hi && a % 16 == 0 && Live(l)[a] > 0 && Live(l)[a] % 16 == 0
  {
    match l
    case Nil =>
    case Cons(b, t) =>
      OrderedEnd(t, End(b), hi);
      if a in Live(t) {
        LiveAbove(t, End(b), hi, a);
      }
  }

  lemma {:induction false} OrderedEnd(l: Blocks, from: nat, hi: nat)
    requires Ordered(l, from, hi)
    ensures from <= hi
  {
    match l
    case Nil =>
    case Cons(b, t) => OrderedEnd(t, End(b), hi);
  }

  /** `kmalloc` adds exactly one live block, which was not live before, and it is large enough. */
  lemma {:induction false} AllocateLive(l: Blocks, from: nat, hi: nat, size: nat)
    requires Ordered(l, from, hi) && FirstFit(l, size).Some?
    ensures
      var a := FirstFit(l, size).value.addr;
      && a !in Live(l) && a in Live(Allocate(l, size))
      && Live(Allocate(l, size))[a] >= size
      && Live(Allocate(l, size)) == Live(l)[a := Live(Allocate(l, size))[a]]
      && LiveBytes(Allocate(l, size)) == LiveBytes(l) + Live(Allocate(l, size))[a]
      && from <= a
  {
    match l
    case Cons(b, t) =>
      if Fits(b, size) {
        NotLiveBelow(t, End(b), hi, b.addr);
      } else {
        AllocateLive(t, End(b), hi, size);
      }
  }

  lemma NotLiveBelow(l: Blocks, from: nat, hi: nat, a: nat)
    requires Ordered(l, from, hi) && a < from
    ensures a !in Live(l)
  {
    if a in Live(l) {
      LiveAbove(l, from, hi, a);
    }
  }

  /** Splitting takes its header from the block itself: no byte is lost or gained. */
  lemma {:induction false} AllocateSlack(l: Blocks, from: nat, hi: nat, size: nat)
    ensures Slack(Allocate(l, size), from, hi) == Slack(l, from, hi)
  {
    match l
    case Nil =>
    case Cons(b, t) =>
      if !Fits(b, size) {
        AllocateSlack(t, End(b), hi, size);
      }
  }

  /** First fit: the chosen block is free and large enough, and no free block at a lower address is. */
  lemma {:induction false} FirstFitLowest(l: Blocks, from: nat, hi: nat, size: nat)
    requires Ordered(l, from, hi)
    ensures FirstFit(l, size).None? ==> forall b :: b in Members(l) ==> !Fits(b, size)
    ensures FirstFit(l, size).Some? ==>
              var c := FirstFit(l, size).value;
              && c in Members(l) && Fits(c, size)
              && forall b :: b in Members(l) && b.addr < c.addr ==> !Fits(b, size)
  {
    match l
    case Nil =>
    case Cons(b, t) =>
      if !Fits(b, size) {
        FirstFitLowest(t, End(b), hi, size);
      } else {
        forall c | c in Members(t) ensures b.addr < c.addr {
          MembersAbove(t, End(b), hi, c);
        }
      }
  }

  function Members(l: Blocks): set<Block> {
    match l
    case Nil => {}
    case Cons(b, t) => {b} + Members(t)
  }

  lemma {:induction false} MembersAbove(l: Blocks, from: nat, hi: nat, c: Block)
    requires Ordered(l, from, hi) && c in Members(l)
    ensures from <= c.addr && End(c) <= hi
  {
    match l
    case Cons(b, t) =>
      OrderedEnd(t, End(b), hi);
      if c != b {
        MembersAbove(t, End(b), hi, c);
      }
  }

  /** The chosen block b is handed out whole if less than a header and 16 bytes would be left of it;
      otherwise it is cut to `size`, and what is left becomes a free block behind it. */
  function Handed(b: Block, size: nat): set<Block> {
    if b.size < size + 48 then {Block(b.addr, b.size, false)}
    else {Block(b.addr, size, false), Block(b.addr + size + 32, b.size - size - 32, true)}
  }

  /** No other block changes. */
  lemma {:induction false} AllocateMembers(l: Blocks, from: nat, hi: nat, size: nat)
    requires Ordered(l, from, hi) && FirstFit(l, size).Some?
    ensures
      var b := FirstFit(l, size).value;
      && b in Members(l)
      && Members(Allocate(l, size)) == Members(l) - {b} + Handed(b, size)
  {
    match l
    case Cons(b, t) =>
      OrderedEnd(t, End(b), hi);
      if b in Members(t) {
        MembersAbove(t, End(b), hi, b);
      }
      if Fits(b, size) {
        assert Members(Carve(b, t, size)) == Handed(b, size) + Members(t);
      } else {
        AllocateMembers(t, End(b), hi, size);
      }
  }

  /** The size handed out: never 48 bytes more than was asked for. */
  lemma AllocateSize(l: Blocks, from: nat, hi: nat, size: nat)
    requires Ordered(l, from, hi) && FirstFit(l, size).Some? && size > 0 && size % 16 == 0
    ensures
      var b := FirstFit(l, size).value;
      b.addr in Live(Allocate(l, size))
      && Live(Allocate(l, size))[b.addr] == if b.size < size + 48 then b.size else size
  {
    var b := FirstFit(l, size).value;
    AllocateMembers(l, from, hi, size);
    AllocateOrdered(l, from, hi, size);
    LiveMember(Allocate(l, size), from, hi, b.addr);
    assert Block(b.addr, if b.size < size + 48 then b.size else size, false) in Handed(b, size);
  }

  /** Two blocks of the list share no byte, headers included. */
  lemma {:induction false} BlocksDisjoint(l: Blocks, from: nat, hi: nat, b: Block, c: Block)
    requires Ordered(l, from, hi) && b in Members(l) && c in Members(l) && b != c
    ensures End(b) <= c.addr || End(c) <= b.addr
  {
    var x, t := l.head, l.tail;
    if b == x {
      MembersAbove(t, End(x), hi, c);
    } else if c == x {
      MembersAbove(t, End(x), hi, b);
    } else {
      BlocksDisjoint(t, End(x), hi, b, c);
    }
  }

  lemma {:induction false} LiveMember(l: Blocks, from: nat, hi: nat, a: nat)
    requires Ordered(l, from, hi)
    ensures a in Live(l) ==> Block(a, Live(l)[a], false) in Members(l)
    ensures forall n :: Block(a, n, false) in Members(l) ==> a in Live(l) && Live(l)[a] == n
  {
    match l
    case Nil =>
    case Cons(b, t) =>
      LiveMember(t, End(b), hi, a);
      if b.addr == a {
        NotLiveBelow(t, End(b), hi, a);
      }
  }

  /** Live payloads are pairwise disjoint. */
  lemma LiveDisjoint(l: Blocks, from: nat, hi: nat, a: nat, c: nat)
    requires Ordered(l, from, hi) && a in Live(l) && c in Live(l) && a != c
    ensures a + 32 + Live(l)[a] <= c || c + 32 + Live(l)[c] <= a
  {
    LiveMember(l, from, hi, a);
    LiveMember(l, from, hi, c);
    BlocksDisjoint(l, from, hi, Block(a, Live(l)[a], false), Block(c, Live(l)[c], false));
  }

  // -------------------------------------------------------------------------------------------
  // kfree
  // -------------------------------------------------------------------------------------------

  lemma JoinOrdered(b: Block, t: Blocks, from: nat, hi: nat)
    requires Ordered(Cons(b, t), from, hi)
    ensures Ordered(Join(b, t), from, hi)
  {
    if t.Cons? {
      Sixteens(b.size / 16, 2);
      Sixteens(b.size / 16 + 2, t.head.size / 16);
      OrderedLower(t.tail, End(t.head), End(b) + 32 + t.head.size, hi);
    }
  }

  lemma OrderedLower(l: Blocks, from: nat, lower: nat, hi: nat)
    requires Ordered(l, from, hi) && lower <= from
    ensures Ordered(l, lower, hi)
  {
  }

  lemma {:induction false} FreeOrdered(l: Blocks, from: nat, hi: nat, a: nat)
    requires Ordered(l, from, hi)
    ensures Ordered(Free(l, a), from, hi)
  {
    match l
    case Nil =>
    case Cons(b, t) =>
      if b.addr == a && !b.free {
        JoinOrdered(Block(b.addr, b.size, true), t, from, hi);
      } else {
        FreeOrdered(t, End(b), hi, a);
        JoinOrdered(b, Free(t, a), from, hi);
      }
  }

  /** Freed blocks merge on both sides; the head of the rest may have become free. */
  lemma {:induction false} FreeCoalesced(l: Blocks, a: nat)
    requires Coalesced(l, false)
    ensures Coalesced(Free(l, a), false)
  {
    match l
    case Nil =>
    case Cons(b, t) =>
      if !(b.addr == a && !b.free) {
        CoalescedAfterLive(t, b.free);
        FreeCoalesced(t, a);
      }
  }

  /** `kfree` removes exactly the block at a from the live ones, and nothing if none is there. */
  lemma {:induction false} FreeLive(l: Blocks, from: nat, hi: nat, a: nat)
    requires Ordered(l, from, hi)
    ensures Live(Free(l, a)) == Live(l) - {a}
    ensures LiveBytes(Free(l, a)) == LiveBytes(l) - if a in Live(l) then Live(l)[a] else 0
  {
    match l
    case Nil =>
    case Cons(b, t) =>
      FreeLive(t, End(b), hi, a);
      if b.addr == a {
        NotLiveBelow(t, End(b), hi, a);
      }
  }

  /** Merging turns a header into payload: no byte is lost or gained. */
  lemma {:induction false} FreeSlack(l: Blocks, from: nat, hi: nat, a: nat)
    ensures Slack(Free(l, a), from, hi) == Slack(l, from, hi)
  {
    match l
    case Nil =>
    case Cons(b, t) =>
      FreeSlack(t, End(b), hi, a);
      if b.addr == a && !b.free {
        JoinSlack(Block(b.addr, b.size, true), t, from, hi);
      } else {
        JoinSlack(b, Free(t, a), from, hi);
      }
  }

  lemma JoinSlack(b: Block, t: Blocks, from: nat, hi: nat)
    ensures Slack(Join(b, t), from, hi) == Slack(Cons(b, t), from, hi)
  {
    if t.Cons? {
      SlackShift(t.tail, End(t.head), End(b) + 32 + t.head.size, hi);
    }
  }

  lemma SlackShift(l: Blocks, from: nat, from': nat, hi: nat)
    ensures Slack(l, from', hi) == Slack(l, from, hi) + from - from'
  {
  }

  /** Freeing what was just allocated restores the list exactly. */
  lemma {:induction false} FreeUndoesAllocate(l: Blocks, from: nat, hi: nat, previousFree: bool, size: nat)
    requires Ordered(l, from, hi) && Coalesced(l, previousFree) && FirstFit(l, size).Some?
    ensures Free(Allocate(l, size), FirstFit(l, size).value.addr) == l
  {
    match l
    case Cons(b, t) =>
      if !Fits(b, size) {
        FreeUndoesAllocate(t, End(b), hi, b.free, size);
        AllocateLive(t, End(b), hi, size);
      }
  }

  // -------------------------------------------------------------------------------------------
  // extend_heap
  // -------------------------------------------------------------------------------------------

  lemma {:induction false} ExtendOrdered(l: Blocks, from: nat, hi: nat, nb: Block)
    requires Ordered(l, from, hi)
    requires nb.addr == hi && nb.addr % 16 == 0 && nb.size > 0 && nb.size % 16 == 0
    ensures Ordered(Extend(l, nb), from, End(nb))
  {
    match l
    case Nil =>
    case Cons(b, t) =>
      if t.Cons? {
        ExtendOrdered(t, End(b), hi, nb);
      }
  }

  lemma {:induction false} ExtendCoalesced(l: Blocks, previousFree: bool, nb: Block)
    requires Coalesced(l, previousFree) && l.Cons?
    ensures Coalesced(Extend(l, nb), previousFree)
  {
    if l.tail.Cons? {
      ExtendCoalesced(l.tail, l.head.free, nb);
    }
  }

  lemma {:induction false} ExtendLive(l: Blocks, nb: Block)
    requires nb.free
    ensures Live(Extend(l, nb)) == Live(l) && LiveBytes(Extend(l, nb)) == LiveBytes(l)
  {
    if l.Cons? && l.tail.Cons? {
      ExtendLive(l.tail, nb);
    }
  }

  lemma {:induction false} ExtendSlack(l: Blocks, from: nat, hi: nat, nb: Block)
    requires nb.addr == hi
    ensures Slack(Extend(l, nb), from, End(nb)) == Slack(l, from, hi)
  {
    if l.Cons? && l.tail.Cons? {
      ExtendSlack(l.tail, End(l.head), hi, nb);
    } else if l.Cons? {
      JoinSlack(l.head, Cons(nb, Nil), from, End(nb));
      assert Slack(Cons(nb, Nil), End(l.head), End(nb)) == hi - End(l.head) + Slack(Nil, End(nb), End(nb));
    }
  }

  /** The extended list serves the request for which it was extended, from its last block. */
  lemma {:induction false} ExtendServes(l: Blocks, nb: Block, size: nat)
    requires FirstFit(l, size).None? && Fits(nb, size)
    ensures FirstFit(Extend(l, nb), size) == Some(Last(Extend(l, nb)))
  {
    if l.Cons? && l.tail.Cons? {
      ExtendServes(l.tail, nb, size);
    }
  }

  function Last(l: Blocks): Block
    requires l.Cons?
  {
    if l.tail.Nil? then l.head else Last(l.tail)
  }

  // -------------------------------------------------------------------------------------------
  // The heap as a state machine
  // -------------------------------------------------------------------------------------------

  /** HEAP_BASE. */
  const BASE: nat := 0xFFFF_A000_0000_0000

  datatype State = State(blocks: Blocks, hi: nat)

  /** A request, already rounded up to a multiple of 16, with the number of pages the frame
      allocator can supply should the heap have to grow; or the release of a header address. */
  datatype Op = Malloc(size: nat, available: nat) | Release(a: nat)

  predicate IsOp(op: Op) { op.Malloc? ==> op.size > 0 && op.size % 16 == 0 }

  predicate Inv(s: State) {
    WellFormed(s.blocks, BASE, s.hi) && s.hi % 4096 == 0
  }

  /** The pages `extend_heap` asks for. */
  function PagesFor(size: nat): nat { (size + 32 + 4095) / 4096 }

  function NewBlock(hi: nat, pages: nat): Block
    requires pages > 0
  {
    Block(hi, pages * 4096 - 32, true)
  }

  /** The list and the end of the heap when the request is served: grown first if nothing fits. */
  function Grown(s: State, size: nat): State {
    if FirstFit(s.blocks, size).Some? then s
    else State(Extend(s.blocks, NewBlock(s.hi, PagesFor(size))), s.hi + PagesFor(size) * 4096)
  }

  predicate Served(s: State, size: nat, available: nat) {
    FirstFit(s.blocks, size).Some? || available >= PagesFor(size)
  }

  /** The header address of the block `kmalloc` returns, or NULL. */
  function Result(s: State, size: nat, available: nat): Option<nat> {
    if Served(s, size, available) && FirstFit(Grown(s, size).blocks, size).Some?
    then Some(FirstFit(Grown(s, size).blocks, size).value.addr)
    else None
  }

  function Step(s: State, op: Op): State {
    match op
    case Malloc(size, available) =>
      if Served(s, size, available) then
        var g := Grown(s, size);
        State(Allocate(g.blocks, size), g.hi)
      else
        State(s.blocks, s.hi + available * 4096)
    case Release(a) => State(Free(s.blocks, a), s.hi)
  }

  /** The pages that a failing request maps and abandons. */
  function Leaked(s: State, op: Op): nat {
    if op.Malloc? && !Served(s, op.size, op.available) then op.available else 0
  }

  lemma GrownInv(s: State, size: nat)
    requires Inv(s) && size > 0 && size % 16 == 0
    ensures
      var g := Grown(s, size);
      && Inv(g) && FirstFit(g.blocks, size).Some?
      && Live(g.blocks) == Live(s.blocks) && LiveBytes(g.blocks) == LiveBytes(s.blocks)
      && Slack(g.blocks, BASE, g.hi) == Slack(s.blocks, BASE, s.hi)
  {
    if FirstFit(s.blocks, size).None? {
      PagesEnough(size);
      PagesAligned(s.hi, PagesFor(size));
      Whole(s.hi / 4096);
      NewBlockSound(s.hi, PagesFor(size));
      var nb := NewBlock(s.hi, PagesFor(size));
      ExtendOrdered(s.blocks, BASE, s.hi, nb);
      ExtendCoalesced(s.blocks, false, nb);
      ExtendLive(s.blocks, nb);
      ExtendSlack(s.blocks, BASE, s.hi, nb);
      ExtendServes(s.blocks, nb, size);
    }
  }

  lemma PagesEnough(size: nat)
    requires size > 0
    ensures PagesFor(size) > 0 && PagesFor(size) * 4096 - 32 >= size
  {
  }

  /** The pages asked for are the fewest that hold a header and the request. */
  lemma PagesFewest(size: nat, pages: nat)
    ensures pages * 4096 >= size + 32 <==> pages >= PagesFor(size)
  {
    var n := size + 32 + 4095;
    assert n == n / 4096 * 4096 + n % 4096;
  }

  /** A heap that has to grow serves the request from its new pages, with what was free at its end. */
  lemma GrownFit(s: State, size: nat)
    requires Inv(s) && size > 0 && FirstFit(s.blocks, size).None?
    ensures
      var last, b := Last(s.blocks), FirstFit(Grown(s, size).blocks, size);
      b == Some(if last.free then Block(last.addr, last.size + 32 + (PagesFor(size) * 4096 - 32), true)
                else Block(s.hi, PagesFor(size) * 4096 - 32, true))
  {
    PagesEnough(size);
    var nb := NewBlock(s.hi, PagesFor(size));
    ExtendServes(s.blocks, nb, size);
    LastExtended(s.blocks, nb);
  }

  lemma {:induction false} LastExtended(l: Blocks, nb: Block)
    requires l.Cons? && nb.free
    ensures Last(Extend(l, nb))
         == if Last(l).free then Block(Last(l).addr, Last(l).size + 32 + nb.size, true) else nb
  {
    if l.tail.Cons? {
      LastExtended(l.tail, nb);
    }
  }

  lemma NewBlockSound(hi: nat, pages: nat)
    requires pages > 0
    ensures
      var nb := NewBlock(hi, pages);
      nb.size > 0 && nb.size % 16 == 0 && nb.free && nb.addr == hi && End(nb) == hi + pages * 4096
  {
    Whole(pages);
    TwoHeaders(pages * 4096);
  }

  lemma Whole(pages: nat)
    ensures pages * 4096 % 16 == 0
  {
    Sixteens(pages * 256, 0);
  }

  lemma TwoHeaders(n: nat)
    requires n % 16 == 0 && n >= 32
    ensures (n - 32) % 16 == 0
  {
  }

  lemma AllocateHead(l: Blocks, size: nat)
    requires l.Cons?
    ensures Allocate(l, size).Cons? && Allocate(l, size).head.addr == l.head.addr
  {
  }

  lemma FreeHead(l: Blocks, a: nat)
    requires l.Cons?
    ensures Free(l, a).Cons? && Free(l, a).head.addr == l.head.addr
  {
  }

  lemma OrderedRaise(l: Blocks, from: nat, hi: nat, hi': nat)
    requires Ordered(l, from, hi) && hi <= hi'
    ensures Ordered(l, from, hi') && Slack(l, from, hi') == Slack(l, from, hi) + hi' - hi
  {
  }

  lemma PagesAligned(hi: nat, pages: nat)
    requires hi % 4096 == 0
    ensures (hi + pages * 4096) % 4096 == 0
  {
    assert hi + pages * 4096 == (hi / 4096 + pages) * 4096;
  }

  lemma ServedInv(s: State, size: nat)
    requires Inv(s) && size > 0 && size % 16 == 0
    ensures
      var g := Grown(s, size);
      Inv(State(Allocate(g.blocks, size), g.hi))
  {
    var g := Grown(s, size);
    GrownInv(s, size);
    AllocateOrdered(g.blocks, BASE, g.hi, size);
    AllocateCoalesced(g.blocks, false, size);
    AllocateHead(g.blocks, size);
  }

  lemma FreeInv(s: State, a: nat)
    requires Inv(s)
    ensures Inv(State(Free(s.blocks, a), s.hi))
  {
    FreeOrdered(s.blocks, BASE, s.hi, a);
    FreeCoalesced(s.blocks, a);
    FreeHead(s.blocks, a);
  }

  /** Well-formedness survives every operation, growth that fails part-way included. */
  lemma StepInv(s: State, op: Op)
    requires Inv(s) && IsOp(op)
    ensures Inv(Step(s, op))
  {
    match op
    case Malloc(size, available) =>
      if Served(s, size, available) {
        ServedInv(s, size);
      } else {
        PagesAligned(s.hi, available);
        OrderedRaise(s.blocks, BASE, s.hi, s.hi + available * 4096);
      }
    case Release(a) => FreeInv(s, a);
  }

  /** What an operation does to the live blocks: it adds one that was not live, of the size asked for
      or less than 48 bytes larger, or removes the released one, or leaves them all. */
  lemma StepLive(s: State, op: Op)
    requires Inv(s) && IsOp(op)
    ensures op.Release? ==> Live(Step(s, op).blocks) == Live(s.blocks) - {op.a}
    ensures op.Malloc? ==>
              match Result(s, op.size, op.available)
              case None => !Served(s, op.size, op.available) && Step(s, op).blocks == s.blocks
              case Some(a) =>
                && Served(s, op.size, op.available)
                && a !in Live(s.blocks) && a in Live(Step(s, op).blocks)
                && op.size <= Live(Step(s, op).blocks)[a] < op.size + 48
                && Live(Step(s, op).blocks) == Live(s.blocks)[a := Live(Step(s, op).blocks)[a]]
  {
    match op
    case Malloc(size, available) =>
      var g := Grown(s, size);
      GrownInv(s, size);
      AllocateLive(g.blocks, BASE, g.hi, size);
      AllocateSize(g.blocks, BASE, g.hi, size);
    case Release(a) => FreeLive(s.blocks, BASE, s.hi, a);
  }

  /** The unaccounted bytes grow by exactly the pages abandoned. */
  lemma StepSlack(s: State, op: Op)
    requires Inv(s) && IsOp(op)
    ensures Slack(Step(s, op).blocks, BASE, Step(s, op).hi) == Slack(s.blocks, BASE, s.hi) + Leaked(s, op) * 4096
  {
    match op
    case Malloc(size, available) =>
      if Served(s, size, available) {
        var g := Grown(s, size);
        GrownInv(s, size);
        AllocateSlack(g.blocks, BASE, g.hi, size);
      } else {
        OrderedRaise(s.blocks, BASE, s.hi, s.hi + available * 4096);
      }
    case Release(a) => FreeSlack(s.blocks, BASE, s.hi, a);
  }

  // -------------------------------------------------------------------------------------------
  // Whole runs
  // -------------------------------------------------------------------------------------------

  /** The state that `heap_init` leaves: one free block over 16 pages. */
  const INITIAL: State := State(Cons(Block(BASE, 16 * 4096 - 32, true), Nil), BASE + 16 * 4096)

  predicate AreOps(ops: seq<Op>) { forall op :: op in ops ==> IsOp(op) }

  function Run(s: State, ops: seq<Op>): State
    decreases ops
  {
    if ops == [] then s else Run(Step(s, ops[0]), ops[1..])
  }

  function LeakedInRun(s: State, ops: seq<Op>): nat
    decreases ops
  {
    if ops == [] then 0 else Leaked(s, ops[0]) + LeakedInRun(Step(s, ops[0]), ops[1..])
  }

  lemma InitialInv()
    ensures Inv(INITIAL) && Slack(INITIAL.blocks, BASE, INITIAL.hi) == 0 && Live(INITIAL.blocks) == map[]
  {
  }

  lemma {:induction false} RunInv(s: State, ops: seq<Op>)
    requires Inv(s) && AreOps(ops)
    ensures Inv(Run(s, ops))
    ensures Slack(Run(s, ops).blocks, BASE, Run(s, ops).hi)
         == Slack(s.blocks, BASE, s.hi) + LeakedInRun(s, ops) * 4096
    decreases ops
  {
    if ops != [] {
      StepInv(s, ops[0]);
      StepSlack(s, ops[0]);
      RunInv(Step(s, ops[0]), ops[1..]);
    }
  }

  /** Every block begins where the one before it ends, and the last ends at the end of the heap. */
  predicate Tiles(l: Blocks, from: nat, hi: nat) {
    match l
    case Nil => from == hi
    case Cons(b, t) => b.addr == from && Tiles(t, End(b), hi)
  }

  lemma {:induction false} TilesNoSlack(l: Blocks, from: nat, hi: nat)
    requires Ordered(l, from, hi)
    ensures Slack(l, from, hi) >= 0
    ensures Tiles(l, from, hi) <==> Slack(l, from, hi) == 0
  {
    match l
    case Nil =>
    case Cons(b, t) => TilesNoSlack(t, End(b), hi);
  }

  /** Headers and payloads tile the heap exactly as long as no growth has failed part-way: once a
      page has been abandoned they never do again. */
  lemma TilesIffNothingLeaked(ops: seq<Op>)
    requires AreOps(ops)
    ensures Inv(Run(INITIAL, ops))
    ensures Tiles(Run(INITIAL, ops).blocks, BASE, Run(INITIAL, ops).hi) <==> LeakedInRun(INITIAL, ops) == 0
  {
    InitialInv();
    RunInv(INITIAL, ops);
    TilesNoSlack(Run(INITIAL, ops).blocks, BASE, Run(INITIAL, ops).hi);
  }

  /** A live block keeps its address and its size under every run of other operations. */
  lemma {:induction false} LiveBlockStable(s: State, ops: seq<Op>, a: nat)
    requires Inv(s) && AreOps(ops) && a in Live(s.blocks)
    requires forall op :: op in ops && op.Release? ==> op.a != a
    ensures a in Live(Run(s, ops).blocks) && Live(Run(s, ops).blocks)[a] == Live(s.blocks)[a]
    decreases ops
  {
    if ops != [] {
      StepInv(s, ops[0]);
      StepLive(s, ops[0]);
      LiveBlockStable(Step(s, ops[0]), ops[1..], a);
    }
  }

  /** Releasing header addresses one after the other. */
  function Releases(order: seq<nat>): seq<Op> {
    if order == [] then [] else [Release(order[0])] + Releases(order[1..])
  }

  lemma {:induction false} ReleasesAreOps(order: seq<nat>)
    ensures AreOps(Releases(order))
  {
    if order != [] {
      ReleasesAreOps(order[1..]);
    }
  }

  lemma {:induction false} ReleasesLive(s: State, order: seq<nat>)
    requires Inv(s)
    ensures Inv(Run(s, Releases(order))) && Run(s, Releases(order)).hi == s.hi
    ensures Live(Run(s, Releases(order)).blocks) == Live(s.blocks) - (set a | a in order)
    ensures Slack(Run(s, Releases(order)).blocks, BASE, s.hi) == Slack(s.blocks, BASE, s.hi)
    decreases order
  {
    if order != [] {
      var op, rest := Release(order[0]), Releases(order[1..]);
      assert Releases(order)[0] == op && Releases(order)[1..] == rest;
      StepInv(s, op);
      StepLive(s, op);
      StepSlack(s, op);
      ReleasesLive(Step(s, op), order[1..]);
    }
  }

  /** A well-formed list without live blocks is one free block. */
  lemma NothingLive(l: Blocks, lo: nat, hi: nat)
    requires WellFormed(l, lo, hi) && Live(l) == map[]
    ensures hi - lo - 32 - Slack(l, lo, hi) >= 0
    ensures l == Cons(Block(lo, hi - lo - 32 - Slack(l, lo, hi), true), Nil)
  {
    LiveHead(l);
    assert Coalesced(l.tail, l.head.free);
    if l.tail.Cons? {
      LiveHead(l.tail);
    } else {
      assert Slack(l.tail, End(l.head), hi) == hi - End(l.head);
    }
  }

  lemma LiveHead(l: Blocks)
    requires l.Cons?
    ensures !l.head.free ==> l.head.addr in Live(l)
    ensures l.head.free ==> Live(l) == Live(l.tail)
  {
  }

  /** Freeing all live blocks, in any order, leaves one free block; it spans the whole heap up to
      the bytes abandoned. */
  lemma FreeingAllRestores(ops: seq<Op>, order: seq<nat>)
    requires AreOps(ops)
    requires Live(Run(INITIAL, ops).blocks).Keys <= (set a | a in order)
    ensures AreOps(ops + Releases(order))
    ensures
      var s := Run(INITIAL, ops);
      && s.hi - BASE - 32 - LeakedInRun(INITIAL, ops) * 4096 >= 0
      && Run(s, Releases(order)).blocks
         == Cons(Block(BASE, s.hi - BASE - 32 - LeakedInRun(INITIAL, ops) * 4096, true), Nil)
  {
    var s := Run(INITIAL, ops);
    InitialInv();
    RunInv(INITIAL, ops);
    ReleasesAreOps(order);
    ReleasesLive(s, order);
    NothingLive(Run(s, Releases(order)).blocks, BASE, s.hi);
  }

  /** A request for a megabyte when three pages can be had leaves a heap that its blocks do not tile. */
  lemma GrowthCanLeak()
    ensures
      var ops := [Malloc(0x10_0000, 3)];
      && AreOps(ops) && LeakedInRun(INITIAL, ops) == 3
      && !Tiles(Run(INITIAL, ops).blocks, BASE, Run(INITIAL, ops).hi)
  {
    var ops := [Malloc(0x10_0000, 3)];
    assert ops[1..] == [];
    assert Run(INITIAL, ops) == State(INITIAL.blocks, INITIAL.hi + 3 * 4096);
  }
}
