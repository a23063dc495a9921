/** The kernel heap of src/mm/heap.c: an address-ordered doubly linked list of blocks kept in the
    heap's own virtual range. */
module Heap {
  import opened Prelude
  import opened BlockList
  import opened HeapImage
  import opened HeapGrowth
  import opened HeapSpace
  import opened Vmm
  import opened Pmm

  /** The list in memory, neighbours possibly both free (as between the steps of `kfree`). */
  ghost predicate Image(w: Words, l: Blocks, hi: nat) {
    var sound := l.Cons? && l.head.addr == BASE && Ordered(l, BASE, hi) && Linked(w, l, 0);
    sound
  }

  /** `align_up` on 64-bit unsigned numbers. */
  function AlignUp(n: nat, a: nat): nat
    requires a > 0
  {
    var sum := (n + a - 1) % 0x1_0000_0000_0000_0000;
    if a <= sum then sum - sum % a else 0
  }

  /** Rounding a request up keeps it exactly when the sum does not wrap; otherwise the result is
      less than was asked for. */
  lemma AlignUpExact(n: nat)
    requires n < 0x1_0000_0000_0000_0000
    ensures AlignUp(n, 16) % 16 == 0
    ensures n <= AlignUp(n, 16) < n + 16 <==> n <= 0xFFFF_FFFF_FFFF_FFF0
    ensures n > 0xFFFF_FFFF_FFFF_FFF0 ==> AlignUp(n, 16) == 0
  {
  }

  /** The address of the k-th word from p on. */
  function WordAt(p: nat, k: nat): nat { p + 8 * k }

  lemma WordAligned(a: nat, i: nat)
    requires a % 16 == 0
    ensures WordAt(a + 32, i) % 8 == 0
  {
    EightDivides(a);
    EightsFurther(a, 4);
    EightsFurther(a + 32, i);
  }

  lemma {:induction false} EightsFurther(n: nat, k: nat)
    requires n % 8 == 0
    ensures (n + 8 * k) % 8 == 0
  {
    if k > 0 {
      EightsFurther(n, k - 1);
      EightFurther(n + 8 * (k - 1));
    }
  }

  lemma EightFurther(n: nat)
    requires n % 8 == 0
    ensures (n + 8) % 8 == 0
  {
  }

  lemma FieldsAligned(a: nat)
    requires a % 16 == 0
    ensures a % 8 == 0 && FreeAt(a) % 8 == 0 && NextAt(a) % 8 == 0 && PrevAt(a) % 8 == 0
  {
    EightDivides(a);
    EightFurther(a);
    EightFurther(a + 8);
    EightFurther(a + 16);
  }

  /** The first n words at `to` are now what those at `from` were. */
  ghost predicate Copied(w: Words, w': Words, from: nat, to: nat, n: nat) {
    forall k {:trigger WordAt(to, k)} :: 0 <= k < n ==>
      && WordAt(from, k) in w && WordAt(to, k) in w'
      && w'[WordAt(to, k)] == w[WordAt(from, k)]
  }

  ghost predicate Readable(w: Words, p: nat, n: nat) {
    forall k {:trigger WordAt(p, k)} :: 0 <= k < n ==> WordAt(p, k) in w
  }

  /** What `krealloc` promises for the live block b and a nonzero size: on NULL nothing has changed;
      otherwise the result is a live block of at least `size` bytes in place of b, with the contents
      that b had, and the other live blocks are as they were. */
  ghost predicate Resized(w: Words, live: map<nat, nat>, w': Words, live': map<nat, nat>, b: nat, p: nat, size: nat)
    requires b in live
  {
    var sound :=
      if p == 0 then live' == live && KeptLive(w, w', live)
      else
        && p >= 32 && p - 32 in live' && live'[p - 32] >= size
        && live' == (live - {b})[p - 32 := live'[p - 32]]
        && (p != b + 32 ==> p - 32 !in live)
        && KeptLive(w, w', live - {b})
        && Copied(w, w', b + 32, p, live[b] / 8);
    sound
  }

  lemma MovedResized(w: Words, live: map<nat, nat>, live1: map<nat, nat>, w': Words, b: nat, p: nat, size: nat)
    requires b in live && p >= 32 && p - 32 !in live && p - 32 in live1 && live1[p - 32] >= size
    requires live1 == live[p - 32 := live1[p - 32]]
    requires KeptLive(w, w', live - {b}) && Copied(w, w', b + 32, p, live[b] / 8)
    ensures Resized(w, live, w', live1 - {b}, b, p, size)
  {
    assert live1 - {b} == (live - {b})[p - 32 := live1[p - 32]];
  }

  lemma CopiedOne(w: Words, w1: Words, w2: Words, from: nat, to: nat, n: nat, x: nat)
    requires Copied(w, w1, from, to, n) && WordAt(from, n) in w && w[WordAt(from, n)] == x
    requires w2 == w1[WordAt(to, n) := x]
    ensures Copied(w, w2, from, to, n + 1)
  {
    forall k | 0 <= k < n + 1
      ensures WordAt(from, k) in w && WordAt(to, k) in w2 && w2[WordAt(to, k)] == w[WordAt(from, k)]
    {
      assert k < n ==> WordAt(to, k) in w1 && w1[WordAt(to, k)] == w[WordAt(from, k)];
    }
  }

  lemma MoveKeeps(w: Words, w1: Words, w2: Words, w3: Words, live: map<nat, nat>, live1: map<nat, nat>, b: nat, d: nat)
    requires d !in live && d in live1 && b in live && live1 == live[d := live1[d]]
    requires KeptLive(w, w1, live) && KeptLive(w1, w2, live1 - {d}) && KeptLive(w2, w3, live1 - {b})
    ensures KeptLive(w, w3, live - {b})
  {
    forall a | a in live - {b}
      ensures Agree(w, w3, a + 32, a + 32 + live[a])
    {
      assert a in live && a in live1 - {d} && a in live1 - {b};
    }
  }

  lemma MoveCopies(w: Words, w1: Words, w2: Words, w3: Words, live: map<nat, nat>, live1: map<nat, nat>,
                   b: nat, d: nat, n: nat)
    requires d !in live && d in live1 && b in live && live1 == live[d := live1[d]]
    requires 8 * n <= live[b] && 8 * n <= live1[d]
    requires KeptLive(w, w1, live) && KeptLive(w2, w3, live1 - {b})
    requires Copied(w1, w2, b + 32, d + 32, n)
    requires Readable(w, b + 32, n)
    ensures Copied(w, w3, b + 32, d + 32, n)
  {
    assert d in live1 - {b} && (live1 - {b})[d] == live1[d];
    var from, to := b + 32, d + 32;
    forall k | 0 <= k < n
      ensures WordAt(from, k) in w && WordAt(to, k) in w3 && w3[WordAt(to, k)] == w[WordAt(from, k)]
    {
      assert w2[WordAt(to, k)] == w1[WordAt(from, k)];
    }
  }

  lemma RoundedRequest(n: nat)
    requires 0 < n <= 0xFFFF_FFFF_FFFF_EFE0
    ensures n <= AlignUp(n, 16) <= 0xFFFF_FFFF_FFFF_EFE0 && AlignUp(n, 16) < n + 16 && AlignUp(n, 16) % 16 == 0
  {
    var sum := n + 15;
    assert sum % 0x1_0000_0000_0000_0000 == sum;
    RoundDown(sum);
  }

  /** p is the payload of a block that was not live before, of the size asked for or less than 64
      bytes larger. */
  ghost predicate Granted(live: map<nat, nat>, live': map<nat, nat>, p: nat, request: nat) {
    var sound :=
      p >= 32 && p - 32 !in live && p - 32 in live' && request <= live'[p - 32] < request + 64;
    sound
  }

  lemma StepGrants(s: State, request: nat, available: nat)
    requires Inv(s) && 0 < request <= 0xFFFF_FFFF_FFFF_EFE0
    ensures
      var size := AlignUp(request, 16);
      Result(s, size, available).Some? ==>
        Granted(Live(s.blocks), Live(Step(s, Malloc(size, available)).blocks),
                PointerTo(Result(s, size, available)), request)
  {
    RoundedRequest(request);
    StepLive(s, Malloc(AlignUp(request, 16), available));
  }

  lemma RoundDown(n: nat)
    ensures (n - n % 16) % 16 == 0 && n < n - n % 16 + 16
  {
    assert n - n % 16 == n / 16 * 16;
  }

  /** The pointer handed out for a header address: its payload, or NULL. */
  function PointerTo(r: Option<nat>): nat {
    match r
    case None => 0
    case Some(a) => a + 32
  }

  /** How a request ends, how many of the pages it needs it can have, and how many frames it takes. */
  datatype Forecast = Forecast(ends: Growth, pages: nat, frames: nat)

  /** A request that faults, or returns p, with this many frames left before and after. */
  ghost predicate AsForetold(f: Forecast, fault: bool, p: nat, available: nat, before: nat, after: nat) {
    var sound :=
      && available == f.pages && (fault <==> f.ends.Fault?) && (p != 0 <==> f.ends.Enough?)
      && (!fault ==> after == before - f.frames);
    sound
  }

  /** The list after `krealloc` of the live block b to a rounded size: a block that is large enough
      stays; otherwise a new one is had and, if that succeeds, b is released. */
  function Reallocated(s: State, b: nat, size: nat, available: nat): State {
    if b in Live(s.blocks) && Live(s.blocks)[b] >= size then s
    else
      var s' := Step(s, Malloc(size, available));
      if Result(s, size, available).None? then s' else Step(s', Release(b))
  }

  function ReallocatedTo(s: State, b: nat, size: nat, available: nat): nat {
    if b in Live(s.blocks) && Live(s.blocks)[b] >= size then b + 32 else PointerTo(Result(s, size, available))
  }

  lemma MovedState(s: State, b: nat, size: nat, available: nat)
    requires b in Live(s.blocks) && Live(s.blocks)[b] < size
    ensures ReallocatedTo(s, b, size, available) == PointerTo(Result(s, size, available))
    ensures Reallocated(s, b, size, available)
         == if Result(s, size, available).None? then Step(s, Malloc(size, available))
            else Step(Step(s, Malloc(size, available)), Release(b))
  {
  }

  /** What `krealloc` does to the live blocks: nothing if the block is large enough; otherwise the
      block gives way to a new one, or stays if there is none. */
  lemma ReallocatedLive(s: State, b: nat, size: nat, available: nat)
    requires Inv(s) && b in Live(s.blocks) && size > 0 && size % 16 == 0
    ensures
      var s', p := Reallocated(s, b, size, available), ReallocatedTo(s, b, size, available);
      && (p == b + 32 <==> Live(s.blocks)[b] >= size)
      && (p == b + 32 ==> s' == s)
      && (p == 0 ==> Live(s'.blocks) == Live(s.blocks))
      && (p != 0 && p != b + 32 ==>
            && p - 32 !in Live(s.blocks) && p - 32 in Live(s'.blocks)
            && size <= Live(s'.blocks)[p - 32] < size + 48
            && Live(s'.blocks) == (Live(s.blocks) - {b})[p - 32 := Live(s'.blocks)[p - 32]])
  {
    var op := Malloc(size, available);
    StepInv(s, op);
    StepLive(s, op);
    StepLive(Step(s, op), Release(b));
  }

  lemma PagesNeeded(size: nat)
    requires 0 < size <= 0xFFFF_FFFF_FFFF_EFE0
    ensures AlignUp(size + 32, 4096) / 4096 == PagesFor(size)
    ensures PagesFor(size) > 0 && PagesFor(size) * 4096 - 32 >= size
  {
    PagesEnough(size);
  }

  lemma ExtendOutcome(s: State, size: nat)
    requires FirstFit(s.blocks, size).None? && size > 0
    ensures PagesFor(size) > 0
    ensures
      var l := Extend(s.blocks, NewBlock(s.hi, PagesFor(size)));
      && Grown(s, size) == State(l, s.hi + PagesFor(size) * 4096)
      && FirstFit(l, size) == Some(Last(l))
  {
    PagesEnough(size);
    ExtendServes(s.blocks, NewBlock(s.hi, PagesFor(size)), size);
  }

  /** Growing leaves the list where it was. */
  lemma Regrown(w: Words, w': Words, l: Blocks, hi: nat, hi': nat)
    requires Image(w, l, hi) && hi <= hi'
    requires forall a :: a in w ==> a in w' && w'[a] == w[a]
    ensures Image(w', l, hi) && Image(w', l, hi') && Kept(w, w', l)
  {
    LinkedFrame(w, w', l, BASE, hi, 0);
    KeptFrame(w, w', l, BASE, hi);
    OrderedRaise(l, BASE, hi, hi');
  }

  /** What the merging statements read, and what they make of the list. */
  lemma AbsorbPlan(w: Words, l: Blocks, hi: nat, a: nat)
    requires Image(w, l, hi) && HasBlock(l, a) && After(l, a).Cons?
    ensures a in w && NextAt(a) in w && w[NextAt(a)] in w && NextAt(w[NextAt(a)]) in w
    ensures w[NextAt(a)] > a + 32
    ensures AbsorbLink(w, a)[NextAt(a)] != 0 ==> PrevAt(AbsorbLink(w, a)[NextAt(a)]) in AbsorbLink(w, a)
    ensures Image(AbsorbWords(w, a), Absorb(l, a), hi)
    ensures Kept(w, AbsorbWords(w, a), l)
  {
    AbsorbImage(w, l, BASE, hi, 0, a);
    AbsorbFacts(l, a);
    AbsorbWhere(w, l, BASE, hi, 0, a);
    HeaderAt(w, l, 0, a);
    var n := After(l, a).head;
    assert HeaderIs(w, n, FirstAddr(After(l, a).tail), a) && Linked(w, After(l, a).tail, n.addr);
  }

  class Heap {
    const space: Space
    var head: nat
    var usedBytes: nat
    ghost var blocks: Blocks

    ghost predicate Shape()
      reads this, space, space.vm, space.vm.pmm, space.vm.pmm.bitmap
    {
      space.Valid() && Image(space.words, blocks, space.heapEnd) && head == BASE
    }

    ghost predicate Valid()
      reads this, space, space.vm, space.vm.pmm, space.vm.pmm.bitmap
    {
      Shape() && Coalesced(blocks, false) && usedBytes == LiveBytes(blocks)
    }

    /** The last statements of `heap_init`: one free block over the first 16 pages. */
    constructor (space: Space)
      requires space.Valid() && space.heapEnd == BASE + 16 * 4096
      modifies space.vm`mem, space`words
      ensures Valid() && this.space == space && State(blocks, space.heapEnd) == INITIAL
    {
      this.space := space;
      head := BASE;
      usedBytes := 0;
      blocks := INITIAL.blocks;
      new;
      WriteHeader(BASE, 16 * 4096 - 32, 0, 0);
      assert Linked(space.words, blocks, 0);
    }

    /** `b->free = free`. */
    method SetFree(b: nat, free: bool)
      requires Shape() && HasBlock(blocks, b)
      modifies space.vm`mem, space`words, this`blocks
      ensures Shape() && blocks == Mark(old(blocks), b, free)
      ensures Kept(old(space.words), space.words, old(blocks))
    {
      HeaderAt(space.words, blocks, 0, b);
      MarkImage(space.words, blocks, BASE, space.heapEnd, 0, b, free);
      MarkFacts(blocks, b, free);
      space.Store(FreeAt(b), Flag(free));
      blocks := Mark(blocks, b, free);
    }

    /** `if (b) b->prev = prev`. */
    method SetPrev(b: nat, prev: nat)
      requires space.Valid() && (b != 0 ==> PrevAt(b) in space.words)
      modifies space.vm`mem, space`words
      ensures space.Valid()
      ensures space.words == WithPrev(old(space.words), b, prev)
    {
      if b != 0 {
        space.Store(PrevAt(b), prev);
      }
    }

    /** The statements with which `kfree` and `extend_heap` merge a block with its successor. */
    method AbsorbNext(b: nat)
      requires Shape() && HasBlock(blocks, b) && After(blocks, b).Cons?
      modifies space.vm`mem, space`words, this`blocks
      ensures Shape() && blocks == Absorb(old(blocks), b)
      ensures Kept(old(space.words), space.words, old(blocks))
    {
      ghost var w := space.words;
      AbsorbPlan(w, blocks, space.heapEnd, b);
      WriteAbsorb(b);
      blocks := Absorb(blocks, b);
    }

    method WriteAbsorb(b: nat)
      requires
        var w := space.words;
        && space.Valid() && b in w && NextAt(b) in w && w[NextAt(b)] in w && NextAt(w[NextAt(b)]) in w
        && w[NextAt(b)] > b + 32
        && (AbsorbLink(w, b)[NextAt(b)] != 0 ==> PrevAt(AbsorbLink(w, b)[NextAt(b)]) in AbsorbLink(w, b))
      modifies space.vm`mem, space`words
      ensures space.Valid() && space.words == AbsorbWords(old(space.words), b)
    {
      ghost var w := space.words;
      var size := space.Load(b);
      var next := space.Load(NextAt(b));
      var nextSize := space.Load(next);
      var merged := size + 32 + nextSize;
      assert merged == MergedSize(w, b);
      space.Store(b, merged);
      assert space.words == AbsorbSize(w, b);
      Unlink(b, next, w);
    }

    /** `b->next = b->next->next; if (b->next) b->next->prev = b`, after the size has been set. */
    method Unlink(b: nat, next: nat, ghost w: Words)
      requires space.Valid() && b in w && NextAt(b) in w && w[NextAt(b)] == next && next in w && NextAt(next) in w
      requires space.words == AbsorbSize(w, b)
      requires AbsorbLink(w, b)[NextAt(b)] != 0 ==>
                 PrevAt(AbsorbLink(w, b)[NextAt(b)]) in AbsorbLink(w, b)
      modifies space.vm`mem, space`words
      ensures space.Valid() && space.words == AbsorbWords(w, b)
    {
      var nextNext := space.Load(NextAt(next));
      space.Store(NextAt(b), nextNext);
      assert space.words == AbsorbLink(w, b);
      SetPrev(nextNext, b);
    }

    /** `split_block` on a free block. */
    method SplitBlock(b: nat, size: nat)
      requires Shape() && HasBlock(blocks, b) && size > 0 && size % 16 == 0
      requires BlockAt(blocks, b).free && BlockAt(blocks, b).size >= size
      modifies space.vm`mem, space`words, this`blocks
      ensures Shape() && blocks == SplitIfLarge(old(blocks), BlockAt(old(blocks), b), size)
      ensures HasBlock(blocks, b)
      ensures BlockAt(blocks, b).size
           == if BlockAt(old(blocks), b).size < size + 48 then BlockAt(old(blocks), b).size else size
      ensures Kept(old(space.words), space.words, old(blocks))
    {
      ghost var w := space.words;
      SplitSizes(blocks, b, size);
      HeaderAt(w, blocks, 0, b);
      HasBlockAbove(blocks, BASE, space.heapEnd, b);
      var total := space.Load(b);
      var remaining := total - size;
      if remaining < 48 {
        KeptFrame(w, w, blocks, BASE, space.heapEnd);
      } else {
        SplitLarge(b, size, remaining);
      }
    }

    /** `split_block` past its test. */
    method SplitLarge(b: nat, size: nat, remaining: nat)
      requires Shape() && HasBlock(blocks, b) && size > 0 && size % 16 == 0 && remaining >= 48
      requires BlockAt(blocks, b).free && BlockAt(blocks, b).size == size + remaining
      modifies space.vm`mem, space`words, this`blocks
      ensures Shape() && blocks == Split(old(blocks), b, size)
      ensures Kept(old(space.words), space.words, old(blocks))
    {
      ghost var w := space.words;
      var nb := SecondAt(b, size);
      var rest := remaining - 32;
      HeaderAt(w, blocks, 0, b);
      var next := space.Load(NextAt(b));
      SplitPlan(w, blocks, space.heapEnd, b, size, rest, next);
      WriteSplit(b, size, rest, next, nb);
      blocks := Split(blocks, b, size);
    }

    /** The search loop of `kmalloc`: NULL or the first block that fits. */
    method FindFit(size: nat) returns (b: nat)
      requires Shape()
      ensures b == 0 <==> FirstFit(blocks, size).None?
      ensures b != 0 ==> b == FirstFit(blocks, size).value.addr
    {
      b := head;
      ghost var rest, from, prev := blocks, BASE, 0;
      while b != 0
        invariant b == FirstAddr(rest) && FirstFit(rest, size) == FirstFit(blocks, size)
        invariant Linked(space.words, rest, prev) && Ordered(rest, from, space.heapEnd) && from > 0
        decreases rest
      {
        var free := space.Load(FreeAt(b));
        var have := space.Load(b);
        if free != 0 && have >= size {
          return;
        }
        rest, from, prev := rest.tail, End(rest.head), b;
        b := space.Load(NextAt(b));
      }
    }

    /** The loop of `extend_heap` that finds the last block. */
    method FindLast(ghost hi: nat) returns (last: nat)
      requires space.Valid() && Image(space.words, blocks, hi) && head == BASE
      ensures last == Last(blocks).addr
    {
      last := head;
      var next := space.Load(NextAt(last));
      ghost var rest, from, prev := blocks, BASE, 0;
      while next != 0
        invariant rest.Cons? && last == rest.head.addr && next == FirstAddr(rest.tail) && Last(rest) == Last(blocks)
        invariant Linked(space.words, rest, prev) && Ordered(rest, from, hi) && from > 0
        decreases rest
      {
        rest, from, prev := rest.tail, End(rest.head), last;
        last := next;
        next := space.Load(NextAt(last));
      }
    }

    /** `extend_heap` once the pages are mapped from `nb` on. */
    method AttachBlock(nb: nat, pages: nat) returns (b: nat)
      requires space.Valid() && Image(space.words, blocks, nb) && head == BASE
      requires pages > 0 && space.heapEnd == nb + pages * 4096 && nb % 16 == 0
      modifies space.vm`mem, space`words, this`blocks
      ensures Shape() && blocks == Extend(old(blocks), NewBlock(nb, pages))
      ensures b == Last(blocks).addr
      ensures Kept(old(space.words), space.words, old(blocks))
    {
      ghost var w, l, block := space.words, blocks, NewBlock(nb, pages);
      var last := LinkBlock(nb, pages);
      ghost var w1 := space.words;
      ExtendBySteps(l, BASE, nb, block);
      HeaderAt(w1, blocks, 0, last);
      var free := space.Load(FreeAt(last));
      b := nb;
      if free != 0 {
        AbsorbNext(last);
        KeptAppended(w1, space.words, l, block);
        KeptTransitive(w, w1, space.words, l);
        b := last;
      }
    }

    /** The new header and its links. */
    method LinkBlock(nb: nat, pages: nat) returns (last: nat)
      requires space.Valid() && Image(space.words, blocks, nb) && head == BASE
      requires pages > 0 && space.heapEnd == nb + pages * 4096 && nb % 16 == 0
      modifies space.vm`mem, space`words, this`blocks
      ensures Shape() && blocks == Append(old(blocks), NewBlock(nb, pages))
      ensures last == Last(old(blocks)).addr
      ensures Kept(old(space.words), space.words, old(blocks))
    {
      ghost var l, block := blocks, NewBlock(nb, pages);
      NewBlockSound(nb, pages);
      AppendPlan(space.words, l, nb, block, space.heapEnd);
      last := FindLast(nb);
      WriteLinks(nb, pages * 4096 - 32, last, block);
      blocks := Append(l, block);
    }

    method WriteLinks(nb: nat, size: nat, last: nat, ghost block: Block)
      requires space.Valid() && NextAt(last) in space.words && BASE <= nb && nb % 16 == 0 && nb + 32 <= space.heapEnd
      requires block == Block(nb, size, true)
      modifies space.vm`mem, space`words
      ensures space.Valid() && space.words == AppendWords(old(space.words), last, block)
    {
      WriteHeader(nb, size, 0, last);
      space.Store(NextAt(last), nb);
    }

    /** `extend_heap`. */
    method ExtendHeap(minSize: nat) returns (b: nat, g: Growth, ghost done: nat)
      requires Shape() && FirstFit(blocks, minSize).None? && space.heapEnd % 4096 == 0
      requires 0 < minSize <= 0xFFFF_FFFF_FFFF_EFE0 && minSize % 16 == 0
      modifies this`blocks, space, space.vm, space.vm.pmm`used, space.vm.pmm`taken, space.vm.pmm.bitmap
      ensures g.Enough? ==>
                && Shape() && State(blocks, space.heapEnd) == Grown(old(State(blocks, space.heapEnd)), minSize)
                && FirstFit(blocks, minSize).Some? && b == FirstFit(blocks, minSize).value.addr
      ensures g.Short? ==>
                && Shape() && blocks == old(blocks) && b == 0
                && done < PagesFor(minSize) && space.heapEnd == old(space.heapEnd) + done * 4096
      ensures !g.Fault? ==> Kept(old(space.words), space.words, old(blocks))
      ensures !g.Enough? ==> b == 0
      ensures !g.Enough? ==> space.vm.Exhausted()
      ensures g == old(space.Foresee(PagesFor(minSize))) && done == old(space.Reach(PagesFor(minSize)))
      ensures !g.Fault? ==> space.Left() == old(space.Left()) - old(space.Price(done))
    {
      var pages := PageCount(minSize);
      ExtendOutcome(State(blocks, space.heapEnd), minSize);
      var n;
      b, g, n := ExtendBy(pages);
      done := n;
    }

    method ExtendBy(pages: nat) returns (b: nat, g: Growth, done: nat)
      requires Shape() && pages > 0 && space.heapEnd % 16 == 0
      modifies this`blocks, space, space.vm, space.vm.pmm`used, space.vm.pmm`taken, space.vm.pmm.bitmap
      ensures g.Enough? ==>
                && Shape() && blocks == Extend(old(blocks), NewBlock(old(space.heapEnd), pages))
                && space.heapEnd == old(space.heapEnd) + pages * 4096 && b == Last(blocks).addr
      ensures g.Short? ==>
                && Shape() && blocks == old(blocks) && b == 0
                && done < pages && space.heapEnd == old(space.heapEnd) + done * 4096
      ensures !g.Fault? ==> Kept(old(space.words), space.words, old(blocks))
      ensures !g.Enough? ==> b == 0
      ensures !g.Enough? ==> space.vm.Exhausted()
      ensures g == old(space.Foresee(pages)) && done == old(space.Reach(pages))
      ensures !g.Fault? ==> space.Left() == old(space.Left()) - old(space.Price(done))
    {
      var nb := space.heapEnd;
      ghost var w := space.words;
      g, done := GrowBy(pages);
      b := 0;
      if g.Enough? {
        b := Attach(nb, pages, w);
      }
    }

    /** The first statements of `extend_heap`. */
    static method PageCount(minSize: nat) returns (pages: nat)
      requires 0 < minSize <= 0xFFFF_FFFF_FFFF_EFE0
      ensures pages == PagesFor(minSize) > 0
    {
      PagesNeeded(minSize);
      var need := AlignUp(minSize + 32, 4096);
      pages := need / 4096;
    }

    /** As AttachBlock, seen from an earlier moment at which memory held w. */
    method Attach(nb: nat, pages: nat, ghost w: Words) returns (b: nat)
      requires space.Valid() && Image(space.words, blocks, nb) && head == BASE
      requires pages > 0 && space.heapEnd == nb + pages * 4096 && nb % 16 == 0
      requires Kept(w, space.words, blocks)
      modifies space.vm`mem, space`words, this`blocks
      ensures Shape() && blocks == Extend(old(blocks), NewBlock(nb, pages))
      ensures b == Last(blocks).addr
      ensures Kept(w, space.words, old(blocks))
    {
      ghost var w1, l := space.words, blocks;
      b := AttachBlock(nb, pages);
      KeptTransitive(w, w1, space.words, l);
    }

    method GrowBy(pages: nat) returns (g: Growth, done: nat)
      requires Shape()
      modifies space, space.vm, space.vm.pmm`used, space.vm.pmm`taken, space.vm.pmm.bitmap
      ensures g.Enough? ==> done == pages
      ensures g.Short? ==> done < pages
      ensures !g.Fault? ==>
                && Shape() && Image(space.words, blocks, old(space.heapEnd))
                && space.heapEnd == old(space.heapEnd) + done * 4096
                && Kept(old(space.words), space.words, blocks)
      ensures !g.Enough? ==> space.vm.Exhausted()
      ensures g == old(space.Foresee(pages)) && done == old(space.Reach(pages))
      ensures !g.Fault? ==> space.Left() == old(space.Left()) - old(space.Price(done))
    {
      ghost var w, hi := space.words, space.heapEnd;
      g, done := space.GrowPages(pages);
      if !g.Fault? {
        Regrown(w, space.words, blocks, hi, space.heapEnd);
      }
    }

    /** The end of `kmalloc`: the block found is split, marked and accounted for. */
    method TakeBlock(b: nat, size: nat)
      requires Shape() && usedBytes == LiveBytes(blocks) && size > 0 && size % 16 == 0
      requires FirstFit(blocks, size).Some? && b == FirstFit(blocks, size).value.addr
      modifies space.vm`mem, space`words, this`blocks, this`usedBytes
      ensures Shape() && blocks == Allocate(old(blocks), size) && usedBytes == LiveBytes(blocks)
      ensures KeptLive(old(space.words), space.words, old(Live(blocks)))
    {
      ghost var w, l, hi := space.words, blocks, space.heapEnd;
      AllocateBySteps(l, BASE, hi, size);
      AllocateLive(l, BASE, hi, size);
      SplitBlock(b, size);
      ghost var w1, l1 := space.words, blocks;
      KeptIsKeptLive(w, w1, l, BASE, hi);
      SetFree(b, false);
      KeptIsKeptLive(w1, space.words, l1, BASE, hi);
      KeptLiveTransitive(w, w1, space.words, Live(l));
      AllocatedSize(b, l);
      var taken := space.Load(b);
      usedBytes := usedBytes + taken;
    }

    /** The size in the header of a live block. */
    lemma AllocatedSize(b: nat, l: Blocks)
      requires Shape() && b in Live(blocks)
      ensures b in space.words && space.words[b] == Live(blocks)[b]
    {
      LiveIsBlock(blocks, BASE, space.heapEnd, b);
      HeaderAt(space.words, blocks, 0, b);
    }

    ghost function Abstract(): State
      reads this, space
    {
      State(blocks, space.heapEnd)
    }

    lemma AbstractInv()
      requires Valid()
      ensures Inv(Abstract())
    {
    }

    /** What can be told of a request of `size` bytes before it is made. */
    ghost function Foretell(size: nat): Forecast
      reads this, space, space.vm, space.vm.pmm
    {
      if FirstFit(blocks, size).Some? then Forecast(Enough, PagesFor(size), 0)
      else
        var pages := space.Reach(PagesFor(size));
        Forecast(space.Foresee(PagesFor(size)), pages, space.Price(pages))
    }

    /** A free block fits, or there are frames for the pages and for the tables they miss. */
    ghost predicate HasRoom(size: nat)
      reads this, space, space.vm, space.vm.pmm
    {
      FirstFit(blocks, size).Some? || space.Price(PagesFor(size)) <= space.Left()
    }

    /** A request is served exactly if there is room; four frames a page are always room enough. It
        faults exactly if the frames run out between a page's own frame and its last table. */
    lemma ServedIffRoom(size: nat)
      ensures Foretell(size).ends.Enough? <==> HasRoom(size)
      ensures Foretell(size).ends.Enough? <==> Served(Abstract(), size, Foretell(size).pages)
      ensures 4 * PagesFor(size) <= space.Left() ==> HasRoom(size)
      ensures Foretell(size).ends.Fault? <==> !HasRoom(size) && Foretell(size).frames < space.Left()
    {
      OutlookIff(space.vm.mem, space.vm.root, |space.frames|, PagesFor(size), space.Left());
      var d := SupplyFits(space.vm.mem, space.vm.root, |space.frames|, PagesFor(size), space.Left());
    }

    /** `kmalloc`, for requests whose rounding does not wrap. Unless mapping a page faults, it takes
        the step of the block list for the number of pages that could be mapped. */
    method Kmalloc(request: nat) returns (p: nat, fault: bool, ghost available: nat)
      requires Valid() && request <= 0xFFFF_FFFF_FFFF_EFE0
      modifies this, space, space.vm, space.vm.pmm`used, space.vm.pmm`taken, space.vm.pmm.bitmap
      ensures !fault ==> Valid() && KeptLive(old(space.words), space.words, old(Live(blocks)))
      ensures request == 0 ==> !fault && p == 0 && Abstract() == old(Abstract()) && space.Left() == old(space.Left())
      ensures !fault && request > 0 ==>
                && Abstract() == Step(old(Abstract()), Malloc(AlignUp(request, 16), available))
                && p == PointerTo(Result(old(Abstract()), AlignUp(request, 16), available))
      ensures p != 0 ==> Granted(old(Live(blocks)), Live(blocks), p, request)
      ensures request > 0 && (fault || p == 0) ==> space.vm.Exhausted()
      ensures request > 0 ==>
                AsForetold(old(Foretell(AlignUp(request, 16))), fault, p, available, old(space.Left()), space.Left())
    {
      p, fault, available := 0, false, 0;
      KeptFrame(space.words, space.words, blocks, BASE, space.heapEnd);
      KeptIsKeptLive(space.words, space.words, blocks, BASE, space.heapEnd);
      if request != 0 {
        RoundedRequest(request);
        var size := AlignUp(request, 16);
        ghost var s := Abstract();
        AbstractInv();
        p, fault, available := AllocateRounded(size);
        StepGrants(s, request, available);
      }
    }

    method AllocateRounded(size: nat) returns (p: nat, fault: bool, ghost available: nat)
      requires Valid() && 0 < size <= 0xFFFF_FFFF_FFFF_EFE0 && size % 16 == 0
      modifies this, space, space.vm, space.vm.pmm`used, space.vm.pmm`taken, space.vm.pmm.bitmap
      ensures !fault ==> Valid() && KeptLive(old(space.words), space.words, old(Live(blocks)))
      ensures !fault ==>
                && Abstract() == Step(old(Abstract()), Malloc(size, available))
                && p == PointerTo(Result(old(Abstract()), size, available))
      ensures fault || p == 0 ==> space.vm.Exhausted()
      ensures AsForetold(old(Foretell(size)), fault, p, available, old(space.Left()), space.Left())
    {
      ghost var s, w := Abstract(), space.words;
      AbstractInv();
      var b, g;
      b, g, available := Obtain(size);
      p, fault := 0, g.Fault?;
      if b != 0 {
        p := Hand(b, size, w);
      }
      StepInv(s, Malloc(size, available));
    }

    /** The block that serves the request, from the list or from new pages. */
    method Obtain(size: nat) returns (b: nat, g: Growth, ghost available: nat)
      requires Valid() && 0 < size <= 0xFFFF_FFFF_FFFF_EFE0 && size % 16 == 0
      modifies this`blocks, space, space.vm, space.vm.pmm`used, space.vm.pmm`taken, space.vm.pmm.bitmap
      ensures !g.Fault? ==>
                && Shape() && usedBytes == LiveBytes(blocks) && Live(blocks) == old(Live(blocks))
                && KeptLive(old(space.words), space.words, old(Live(blocks)))
                && (b != 0 <==> Served(old(Abstract()), size, available))
      ensures g.Fault? ==> b == 0
      ensures b != 0 ==>
                && Abstract() == Grown(old(Abstract()), size)
                && FirstFit(blocks, size).Some? && b == FirstFit(blocks, size).value.addr
      ensures b == 0 && !g.Fault? ==> Abstract() == Step(old(Abstract()), Malloc(size, available))
      ensures b == 0 ==> space.vm.Exhausted()
      ensures AsForetold(old(Foretell(size)), g.Fault?, b, available, old(space.Left()), space.Left())
      ensures b != 0 <==> g.Enough?
    {
      ghost var s, w := Abstract(), space.words;
      AbstractInv();
      GrownInv(s, size);
      g, available := Enough, PagesFor(size);
      b := FindFit(size);
      if b == 0 {
        ghost var done;
        b, g, done := ExtendHeap(size);
        if g.Enough? {
          AllocateLive(blocks, BASE, space.heapEnd, size);
        } else {
          available := done;
        }
      } else {
        KeptFrame(w, w, blocks, BASE, space.heapEnd);
      }
      if !g.Fault? {
        KeptIsKeptLive(w, space.words, s.blocks, BASE, s.hi);
      }
    }

    /** TakeBlock, seen from an earlier moment at which memory held w. */
    method Hand(b: nat, size: nat, ghost w: Words) returns (p: nat)
      requires Shape() && usedBytes == LiveBytes(blocks) && size > 0 && size % 16 == 0
      requires FirstFit(blocks, size).Some? && b == FirstFit(blocks, size).value.addr
      requires KeptLive(w, space.words, Live(blocks))
      modifies space.vm`mem, space`words, this`blocks, this`usedBytes
      ensures Shape() && blocks == Allocate(old(blocks), size) && usedBytes == LiveBytes(blocks)
      ensures KeptLive(w, space.words, old(Live(blocks))) && p == b + 32
    {
      ghost var w1, live := space.words, Live(blocks);
      TakeBlock(b, size);
      KeptLiveTransitive(w, w1, space.words, live);
      p := b + 32;
    }

    /** `if (b->next && b->next->free)` and what follows it in `kfree`. */
    method MergeForward(b: nat)
      requires Shape() && HasBlock(blocks, b)
      modifies space.vm`mem, space`words, this`blocks
      ensures Shape() && blocks == MergeNext(old(blocks), b)
      ensures Kept(old(space.words), space.words, old(blocks))
    {
      ghost var w, l, hi := space.words, blocks, space.heapEnd;
      HeaderAt(w, l, 0, b);
      HasBlockAbove(l, BASE, hi, b);
      KeptFrame(w, w, l, BASE, hi);
      var next := space.Load(NextAt(b));
      if next != 0 {
        var free := space.Load(FreeAt(next));
        if free != 0 {
          AbsorbNext(b);
        }
      }
    }

    /** `if (b->prev && b->prev->free)` and what follows it in `kfree`. */
    method MergeBackward(b: nat)
      requires Shape() && HasBlock(blocks, b)
      modifies space.vm`mem, space`words, this`blocks
      ensures Shape()
      ensures FreeBlockBefore(old(blocks), b) ==>
                && HasBlock(old(blocks), Before(old(blocks), b, 0))
                && blocks == Absorb(old(blocks), Before(old(blocks), b, 0))
      ensures !FreeBlockBefore(old(blocks), b) ==> blocks == old(blocks)
      ensures Kept(old(space.words), space.words, old(blocks))
    {
      ghost var w, l, hi := space.words, blocks, space.heapEnd;
      HeaderAt(w, l, 0, b);
      BlockBefore(l, BASE, hi, b, 0);
      KeptFrame(w, w, l, BASE, hi);
      var prev := space.Load(PrevAt(b));
      if prev != 0 {
        HeaderAt(w, l, 0, prev);
        var free := space.Load(FreeAt(prev));
        if free != 0 {
          AbsorbNext(prev);
        }
      }
    }

    /** `kfree` of NULL or of the payload of a block in the list; a free block stays as it is. */
    method Kfree(p: nat)
      requires Valid() && (p != 0 ==> p >= 32 && HasBlock(blocks, p - 32))
      modifies space.vm`mem, space`words, this`blocks, this`usedBytes
      ensures Valid() && KeptLive(old(space.words), space.words, old(Live(blocks)) - {p - 32})
      ensures Abstract() == if p == 0 then old(Abstract()) else Step(old(Abstract()), Release(p - 32))
    {
      ghost var w, l, hi := space.words, blocks, space.heapEnd;
      KeptFrame(w, w, l, BASE, hi);
      KeptIsKeptLive(w, w, l, BASE, hi);
      if p != 0 {
        var b := p - 32;
        HeaderAt(w, l, 0, b);
        LiveIsBlock(l, BASE, hi, b);
        var free := space.Load(FreeAt(b));
        if free != 0 {
          FreeTwice(l, BASE, hi, false, b);
        } else {
          AbstractInv();
          StepInv(Abstract(), Release(b));
          ReleaseBlock(b);
        }
      }
    }

    /** `kfree` past its test. */
    method ReleaseBlock(b: nat)
      requires Valid() && b in Live(blocks)
      modifies space.vm`mem, space`words, this`blocks, this`usedBytes
      ensures Shape() && blocks == Free(old(blocks), b) && usedBytes == LiveBytes(blocks)
      ensures KeptLive(old(space.words), space.words, old(Live(blocks)) - {b})
    {
      ghost var l, hi := blocks, space.heapEnd;
      LiveIsBlock(l, BASE, hi, b);
      FreeBySteps(l, BASE, hi, false, b);
      FreeLive(l, BASE, hi, b);
      ghost var w := space.words;
      MarkReleased(b);
      MergeAround(b, w);
    }

    /** `b->free = true; used_bytes -= b->size`. */
    method MarkReleased(b: nat)
      requires Valid() && b in Live(blocks)
      modifies space.vm`mem, space`words, this`blocks, this`usedBytes
      ensures Shape() && blocks == Mark(old(blocks), b, true) && HasBlock(blocks, b) && BlockAt(blocks, b).free
      ensures usedBytes == old(usedBytes) - old(Live(blocks))[b] && Live(blocks) == old(Live(blocks)) - {b}
      ensures KeptLive(old(space.words), space.words, Live(blocks))
    {
      ghost var w, l, hi := space.words, blocks, space.heapEnd;
      ReleasedFacts(l, hi, b);
      SetFree(b, true);
      KeptIsKeptLive(w, space.words, l, BASE, hi);
      KeptLiveWithout(w, space.words, Live(l), b);
      HeaderAt(space.words, blocks, 0, b);
      var size := space.Load(b);
      usedBytes := usedBytes - size;
    }

    /** Marking a live block free takes it, and its size, from the live ones. */
    lemma ReleasedFacts(l: Blocks, hi: nat, b: nat)
      requires Ordered(l, BASE, hi) && b in Live(l)
      ensures HasBlock(l, b) && HasBlock(Mark(l, b, true), b)
      ensures BlockAt(Mark(l, b, true), b) == Block(b, Live(l)[b], true)
      ensures Live(Mark(l, b, true)) == Live(l) - {b} && Live(l)[b] <= LiveBytes(l)
    {
      LiveIsBlock(l, BASE, hi, b);
      FreeLive(l, BASE, hi, b);
      LiveAfterMark(l, BASE, hi, b);
      MarkFacts(l, b, true);
    }

    /** The two merges of `kfree`, seen from an earlier moment at which memory held w. */
    method MergeAround(b: nat, ghost w: Words)
      requires Shape() && HasBlock(blocks, b) && BlockAt(blocks, b).free && KeptLive(w, space.words, Live(blocks))
      modifies space.vm`mem, space`words, this`blocks
      ensures Shape()
      ensures
        var merged := MergeNext(old(blocks), b);
        && HasBlock(merged, b)
        && (!FreeBlockBefore(merged, b) ==> blocks == merged)
        && (FreeBlockBefore(merged, b) ==>
              HasBlock(merged, Before(merged, b, 0)) && blocks == Absorb(merged, Before(merged, b, 0)))
      ensures KeptLive(w, space.words, old(Live(blocks)))
    {
      ghost var w0, l, hi := space.words, blocks, space.heapEnd;
      AbsorbFacts(l, b);
      LiveAfterMerge(l, b);
      MergeForward(b);
      ghost var w1, l1 := space.words, blocks;
      KeptIsKeptLive(w0, w1, l, BASE, hi);
      KeptLiveTransitive(w, w0, w1, Live(l));
      MergeBackward(b);
      KeptIsKeptLive(w1, space.words, l1, BASE, hi);
      KeptLiveTransitive(w, w1, space.words, Live(l));
    }

    /** A store into the payload of the live block with header a, as a task makes it. */
    method StorePayload(a: nat, x: nat, v: nat)
      requires Valid() && a in Live(blocks) && a + 32 <= x < a + 32 + Live(blocks)[a] && x % 8 == 0
      modifies space.vm`mem, space`words
      ensures Valid() && space.words == old(space.words)[x := v]
      ensures KeptLive(old(space.words), space.words, Live(blocks) - {a})
    {
      LiveAbove(blocks, BASE, space.heapEnd, a);
      space.WordsOf(x);
      PayloadWrite(space.words, blocks, BASE, space.heapEnd, 0, a, x, v);
      PayloadWriteKeeps(space.words, blocks, BASE, space.heapEnd, a, x, v);
      space.Store(x, v);
    }

    /** `memcpy` of n words from one live payload to another. */
    method CopyPayload(d: nat, s: nat, n: nat)
      requires Valid() && d in Live(blocks) && s in Live(blocks) && d != s
      requires 8 * n <= Live(blocks)[d] && 8 * n <= Live(blocks)[s]
      modifies space.vm`mem, space`words
      ensures Valid() && KeptLive(old(space.words), space.words, Live(blocks) - {d})
      ensures Copied(old(space.words), space.words, s + 32, d + 32, n)
    {
      ghost var w := space.words;
      var i := 0;
      KeptFrame(w, w, blocks, BASE, space.heapEnd);
      KeptIsKeptLive(w, w, blocks, BASE, space.heapEnd);
      ghost var source := s + 32;
      forall k | 0 <= k < n
        ensures WordAt(source, k) in w
      {
        PayloadWords(s, WordAt(source, k), k);
      }
      while i < n
        invariant 0 <= i <= n && Valid() && blocks == old(blocks)
        invariant KeptLive(w, space.words, Live(blocks) - {d})
        invariant Copied(w, space.words, s + 32, d + 32, i)
      {
        CopyWord(d, s, i, w);
        i := i + 1;
      }
    }

    /** One round of that loop; memory held w when it began. */
    method CopyWord(d: nat, s: nat, i: nat, ghost w: Words)
      requires Valid() && d in Live(blocks) && s in Live(blocks) && d != s
      requires 8 * i < Live(blocks)[d] && 8 * i < Live(blocks)[s] && WordAt(s + 32, i) in w
      requires KeptLive(w, space.words, Live(blocks) - {d}) && Copied(w, space.words, s + 32, d + 32, i)
      modifies space.vm`mem, space`words
      ensures Valid() && KeptLive(w, space.words, Live(blocks) - {d})
      ensures Copied(w, space.words, s + 32, d + 32, i + 1)
    {
      ghost var w1 := space.words;
      PayloadWords(d, WordAt(d + 32, i), i);
      PayloadWords(s, WordAt(s + 32, i), i);
      var x := space.Load(WordAt(s + 32, i));
      assert w[WordAt(s + 32, i)] == x by {
        assert s in Live(blocks) - {d};
      }
      StorePayload(d, WordAt(d + 32, i), x);
      KeptLiveTransitive(w, w1, space.words, Live(blocks) - {d});
      CopiedOne(w, w1, space.words, s + 32, d + 32, i, x);
    }

    lemma PayloadWords(a: nat, x: nat, i: nat)
      requires Valid() && a in Live(blocks) && x == WordAt(a + 32, i) && 8 * i < Live(blocks)[a]
      ensures x in space.words && a + 32 <= x < a + 32 + Live(blocks)[a] && x % 8 == 0
    {
      LiveAbove(blocks, BASE, space.heapEnd, a);
      WordAligned(a, i);
      space.WordsOf(x);
    }

    /** `krealloc` of NULL or a live pointer. */
    method Krealloc(ptr: nat, size: nat) returns (p: nat, fault: bool, ghost available: nat)
      requires Valid() && (ptr != 0 ==> ptr >= 32 && ptr - 32 in Live(blocks)) && size <= 0xFFFF_FFFF_FFFF_EFE0
      modifies this, space, space.vm, space.vm.pmm`used, space.vm.pmm`taken, space.vm.pmm.bitmap
      ensures !fault ==> Valid()
      ensures !fault && ptr == 0 && size > 0 ==>
                && Abstract() == Step(old(Abstract()), Malloc(AlignUp(size, 16), available))
                && p == PointerTo(Result(old(Abstract()), AlignUp(size, 16), available))
      ensures !fault && ptr == 0 && size == 0 ==> p == 0 && Abstract() == old(Abstract())
      ensures !fault && ptr != 0 && size == 0 ==>
                p == 0 && Abstract() == Step(old(Abstract()), Release(ptr - 32))
      ensures !fault && ptr != 0 && size > 0 ==>
                && Resized(old(space.words), old(Live(blocks)), space.words, Live(blocks), ptr - 32, p, size)
                && Abstract() == Reallocated(old(Abstract()), ptr - 32, AlignUp(size, 16), available)
                && p == ReallocatedTo(old(Abstract()), ptr - 32, AlignUp(size, 16), available)
      ensures size > 0 && (fault || p == 0) ==> space.vm.Exhausted()
      ensures size > 0 && (ptr == 0 || old(Live(blocks)[ptr - 32]) < AlignUp(size, 16)) ==>
                AsForetold(old(Foretell(AlignUp(size, 16))), fault, p, available, old(space.Left()), space.Left())
      ensures size == 0 || (ptr != 0 && old(Live(blocks)[ptr - 32]) >= AlignUp(size, 16)) ==>
                !fault && space.Left() == old(space.Left())
    {
      available := 0;
      if ptr == 0 {
        p, fault, available := Kmalloc(size);
      } else if size == 0 {
        LiveIsBlock(blocks, BASE, space.heapEnd, ptr - 32);
        Kfree(ptr);
        p, fault := 0, false;
      } else {
        p, fault, available := Resize(ptr, size);
      }
    }

    /** `krealloc` of a live pointer to a nonzero size. */
    method Resize(ptr: nat, size: nat) returns (p: nat, fault: bool, ghost available: nat)
      requires Valid() && ptr >= 32 && ptr - 32 in Live(blocks) && 0 < size <= 0xFFFF_FFFF_FFFF_EFE0
      modifies this, space, space.vm, space.vm.pmm`used, space.vm.pmm`taken, space.vm.pmm.bitmap
      ensures !fault ==> Valid()
      ensures !fault ==>
                && Resized(old(space.words), old(Live(blocks)), space.words, Live(blocks), ptr - 32, p, size)
                && Abstract() == Reallocated(old(Abstract()), ptr - 32, AlignUp(size, 16), available)
                && p == ReallocatedTo(old(Abstract()), ptr - 32, AlignUp(size, 16), available)
      ensures fault || p == 0 ==> space.vm.Exhausted()
      ensures old(Live(blocks)[ptr - 32]) >= AlignUp(size, 16) ==> !fault && space.Left() == old(space.Left())
      ensures old(Live(blocks)[ptr - 32]) < AlignUp(size, 16) ==>
                AsForetold(old(Foretell(AlignUp(size, 16))), fault, p, available, old(space.Left()), space.Left())
    {
      ghost var w := space.words;
      var b := ptr - 32;
      AllocatedSize(b, blocks);
      RoundedRequest(size);
      var have := space.Load(b);
      var newSize := AlignUp(size, 16);
      CopiedInPlace(b, have / 8);
      if have >= newSize {
        KeptFrame(w, w, blocks, BASE, space.heapEnd);
        KeptIsKeptLive(w, w, blocks, BASE, space.heapEnd);
        p, fault, available := ptr, false, 0;
      } else {
        p, fault, available := MoveToNew(b, size, have);
      }
    }

    /** `krealloc` once the block is found too small. */
    method MoveToNew(b: nat, size: nat, have: nat) returns (p: nat, fault: bool, ghost available: nat)
      requires Valid() && b in Live(blocks) && 0 < size <= 0xFFFF_FFFF_FFFF_EFE0
      requires Live(blocks)[b] == have < AlignUp(size, 16) && Readable(space.words, b + 32, have / 8)
      modifies this, space, space.vm, space.vm.pmm`used, space.vm.pmm`taken, space.vm.pmm.bitmap
      ensures !fault ==> Valid()
      ensures !fault ==>
                && Resized(old(space.words), old(Live(blocks)), space.words, Live(blocks), b, p, size)
                && Abstract() == Reallocated(old(Abstract()), b, AlignUp(size, 16), available)
                && p == ReallocatedTo(old(Abstract()), b, AlignUp(size, 16), available)
      ensures fault || p == 0 ==> space.vm.Exhausted()
      ensures AsForetold(old(Foretell(AlignUp(size, 16))), fault, p, available, old(space.Left()), space.Left())
    {
      ghost var w, live, s := space.words, Live(blocks), Abstract();
      p, fault, available := Reserve(size);
      MovedState(s, b, AlignUp(size, 16), available);
      if p != 0 {
        Replace(b, p, size, have, w, live);
      }
    }

    /** What `krealloc` does once it has the new block; memory held w, and `live` were the live blocks,
        before it had. */
    method Replace(b: nat, p: nat, size: nat, have: nat, ghost w: Words, ghost live: map<nat, nat>)
      requires Valid() && b in live && p >= 32 && p - 32 !in live && p - 32 in Live(blocks)
      requires live[b] == have < Live(blocks)[p - 32] && Live(blocks)[p - 32] >= size
      requires Live(blocks) == live[p - 32 := Live(blocks)[p - 32]]
      requires KeptLive(w, space.words, live) && Readable(w, b + 32, have / 8)
      modifies space.vm`mem, space`words, this`blocks, this`usedBytes
      ensures Valid() && Abstract() == Step(old(Abstract()), Release(b))
      ensures Resized(w, live, space.words, Live(blocks), b, p, size)
    {
      ghost var live1 := Live(blocks);
      Move(b, p - 32, have, w, live);
      MovedResized(w, live, live1, space.words, b, p, size);
    }

    /** The new block of `krealloc`. */
    method Reserve(size: nat) returns (p: nat, fault: bool, ghost available: nat)
      requires Valid() && 0 < size <= 0xFFFF_FFFF_FFFF_EFE0
      modifies this, space, space.vm, space.vm.pmm`used, space.vm.pmm`taken, space.vm.pmm.bitmap
      ensures !fault ==> Valid() && KeptLive(old(space.words), space.words, old(Live(blocks)))
      ensures !fault ==> Abstract() == Step(old(Abstract()), Malloc(AlignUp(size, 16), available))
      ensures !fault ==> p == PointerTo(Result(old(Abstract()), AlignUp(size, 16), available))
      ensures !fault && p == 0 ==> Live(blocks) == old(Live(blocks))
      ensures p != 0 ==>
                && p >= 32 && p - 32 !in old(Live(blocks)) && p - 32 in Live(blocks)
                && Live(blocks)[p - 32] >= AlignUp(size, 16) >= size
                && Live(blocks) == old(Live(blocks))[p - 32 := Live(blocks)[p - 32]]
      ensures fault || p == 0 ==> space.vm.Exhausted()
      ensures fault ==> p == 0
      ensures AsForetold(old(Foretell(AlignUp(size, 16))), fault, p, available, old(space.Left()), space.Left())
    {
      ghost var s := Abstract();
      AbstractInv();
      RoundedRequest(size);
      p, fault, available := Kmalloc(size);
      if !fault {
        StepLive(s, Malloc(AlignUp(size, 16), available));
      }
    }

    lemma CopiedInPlace(b: nat, n: nat)
      requires Valid() && b in Live(blocks) && 8 * n <= Live(blocks)[b]
      ensures Copied(space.words, space.words, b + 32, b + 32, n) && Readable(space.words, b + 32, n)
    {
      ghost var source := b + 32;
      forall k | 0 <= k < n
        ensures WordAt(source, k) in space.words
      {
        PayloadWords(b, WordAt(source, k), k);
      }
    }

    /** The copy and the release with which `krealloc` ends; memory held w before the new block d
        was had, when the live blocks were `live`. */
    method Move(b: nat, d: nat, have: nat, ghost w: Words, ghost live: map<nat, nat>)
      requires Valid() && b in Live(blocks) && d in Live(blocks) && d !in live
      requires Live(blocks)[b] == have < Live(blocks)[d] && Live(blocks) == live[d := Live(blocks)[d]]
      requires KeptLive(w, space.words, live)
      requires Readable(w, b + 32, have / 8)
      modifies space.vm`mem, space`words, this`blocks, this`usedBytes
      ensures Valid() && Live(blocks) == old(Live(blocks)) - {b}
      ensures Abstract() == Step(old(Abstract()), Release(b))
      ensures KeptLive(w, space.words, live - {b})
      ensures Copied(w, space.words, b + 32, d + 32, have / 8)
    {
      ghost var w1, live1 := space.words, Live(blocks);
      LiveAbove(blocks, BASE, space.heapEnd, b);
      CopyPayload(d, b, have / 8);
      ghost var w2 := space.words;
      AbstractInv();
      StepLive(Abstract(), Release(b));
      LiveIsBlock(blocks, BASE, space.heapEnd, b);
      Kfree(b + 32);
      MoveKeeps(w, w1, w2, space.words, live, live1, b, d);
      MoveCopies(w, w1, w2, space.words, live, live1, b, d, have / 8);
    }

    method WriteSplit(b: nat, size: nat, rest: nat, next: nat, nb: nat)
      requires space.Valid() && b in space.words && NextAt(b) in space.words && nb == SecondAt(b, size)
      requires nb % 16 == 0 && BASE <= nb && nb + 32 <= space.heapEnd
      requires next != 0 ==> PrevAt(next) in space.words
      modifies space.vm`mem, space`words
      ensures space.Valid() && space.words == SplitWords(old(space.words), b, size, rest, next)
    {
      WriteHeader(nb, rest, next, b);
      SetPrev(next, nb);
      Relink(b, size, nb);
    }

    /** `b->size = size; b->next = next`. */
    method Relink(b: nat, size: nat, next: nat)
      requires space.Valid() && b in space.words && NextAt(b) in space.words
      modifies space.vm`mem, space`words
      ensures space.Valid() && space.words == old(space.words)[b := size][NextAt(b) := next]
    {
      space.Store(b, size);
      space.Store(NextAt(b), next);
    }

    lemma HeaderWords(a: nat)
      requires space.Valid() && a % 16 == 0 && BASE <= a && a + 32 <= space.heapEnd
      ensures a in space.words && FreeAt(a) in space.words && NextAt(a) in space.words && PrevAt(a) in space.words
    {
      FieldsAligned(a);
      space.WordsOf(a);
      space.WordsOf(FreeAt(a));
      space.WordsOf(NextAt(a));
      space.WordsOf(PrevAt(a));
    }

    /** The four fields of a new free block. */
    method WriteHeader(a: nat, size: nat, next: nat, prev: nat)
      requires space.Valid() && a % 16 == 0 && BASE <= a && a + 32 <= space.heapEnd
      modifies space.vm`mem, space`words
      ensures space.Valid() && space.words == NewHeader(old(space.words), a, size, next, prev)
    {
      HeaderWords(a);
      space.Store(a, size);
      space.Store(FreeAt(a), 1);
      space.Store(NextAt(a), next);
      space.Store(PrevAt(a), prev);
    }
  }

  /** `heap_init`; the heap is there exactly when the frames suffice for its 16 pages and the tables
      they miss. With g Short the kernel halts, with g Fault it has faulted. */
  method HeapInit(vm: AddressSpace) returns (h: Option<Heap>, g: Growth)
    requires vm.Valid() && RoomToGrow(vm.mem, vm.root, vm.pmm.total)
    requires vm.pmm.taken - vm.made == vm.pmm.reserved
    modifies vm, vm.pmm`used, vm.pmm`taken, vm.pmm.bitmap
    ensures g == Outlook(old(vm.mem), old(vm.root), 0, 16, old(Spare(vm.pmm.taken, vm.pmm.total)))
    ensures h.Some? <==> g.Enough?
    ensures h.Some? ==>
              && h.value.Valid() && h.value.space.vm == vm && fresh(h.value) && fresh(h.value.space)
              && h.value.Abstract() == INITIAL
              && Spare(vm.pmm.taken, vm.pmm.total)
                 == old(Spare(vm.pmm.taken, vm.pmm.total)) - Needed(old(vm.mem), old(vm.root), 0, 16)
    ensures h.None? ==> vm.Exhausted()
  {
    var space := new Space(vm);
    var done;
    g, done := space.GrowPages(16);
    h := None;
    if g.Enough? {
      var heap := new Heap(space);
      h := Some(heap);
    }
  }

  /** Words of different live payloads are different words of physical memory, and none of them
      lies in a page table, in the frame bitmap or in reserved memory. */
  lemma LiveBlocksPhysicallyApart(h: Heap, a: nat, c: nat, x: nat, y: nat)
    requires h.Valid() && a in Live(h.blocks) && c in Live(h.blocks) && a != c
    requires a + 32 <= x < a + 32 + Live(h.blocks)[a] && c + 32 <= y < c + 32 + Live(h.blocks)[c]
    requires x % 8 == 0 && y % 8 == 0
    ensures
      var frames := h.space.frames;
      && PageIndex(x) < |frames| && PageIndex(y) < |frames|
      && (frames[PageIndex(x)] != frames[PageIndex(y)] || WordIndex(x) != WordIndex(y))
      && frames[PageIndex(x)] !in h.space.vm.own && frames[PageIndex(x)] !in h.space.vm.pmm.reserved
  {
    var s := h.space;
    LiveDisjoint(h.blocks, BASE, s.heapEnd, a, c);
    LiveAbove(h.blocks, BASE, s.heapEnd, a);
    LiveAbove(h.blocks, BASE, s.heapEnd, c);
    assert IsWord(x, |s.frames|) && IsWord(y, |s.frames|);
    WordsApart(x, y, |s.frames|, s.frames);
    HeapFrameIsNoTable(s.vm.Now(), s.vm.pmm.reserved, s.vm.pmm.total, s.frames, PageIndex(x));
  }

  /** Where `split_block` writes, and what it makes of the list. */
  lemma SplitPlan(w: Words, l: Blocks, hi: nat, a: nat, size: nat, rest: nat, next: nat)
    requires Image(w, l, hi) && HasBlock(l, a) && size > 0 && size % 16 == 0 && rest >= 16
    requires BlockAt(l, a).free && BlockAt(l, a).size == size + 32 + rest && next == FirstAddr(After(l, a))
    ensures SecondAt(a, size) % 16 == 0 && BASE <= SecondAt(a, size) && SecondAt(a, size) + 32 <= hi
    ensures next != 0 ==> PrevAt(next) in w
    ensures Image(SplitWords(w, a, size, rest, next), Split(l, a, size), hi)
    ensures Kept(w, SplitWords(w, a, size, rest, next), l)
  {
    SplitPlace(w, l, hi, a, size, rest, next);
    SplitAtBlock(w, l, hi, a, size, rest, next);
    SplitInPlace(w, SplitWords(w, a, size, rest, next), l, hi, a, size);
  }

  lemma SplitPlace(w: Words, l: Blocks, hi: nat, a: nat, size: nat, rest: nat, next: nat)
    requires Image(w, l, hi) && HasBlock(l, a) && size % 16 == 0
    requires BlockAt(l, a).size == size + 32 + rest && next == FirstAddr(After(l, a))
    ensures SecondAt(a, size) % 16 == 0 && BASE <= SecondAt(a, size) && SecondAt(a, size) + 32 <= hi
    ensures next != 0 ==> PrevAt(next) in w
  {
    HeaderAt(w, l, 0, a);
    HasBlockAbove(l, BASE, hi, a);
    Sixteens(a / 16, 2);
    Sixteens(a / 16 + 2, size / 16);
  }

  lemma SplitAtBlock(w: Words, l: Blocks, hi: nat, a: nat, size: nat, rest: nat, next: nat)
    requires Image(w, l, hi) && HasBlock(l, a) && size > 0 && size % 16 == 0 && rest >= 16
    requires BlockAt(l, a).free && BlockAt(l, a).size == size + 32 + rest && next == FirstAddr(After(l, a))
    ensures
      var w', part := SplitWords(w, a, size, rest, next), Cons(BlockAt(l, a), After(l, a));
      && Linked(w', Split(part, a, size), Before(l, a, 0))
      && Kept(w, w', part) && Agree(w, w', 0, a) && Ordered(Split(part, a, size), a, hi)
  {
    var b, t := BlockAt(l, a), After(l, a);
    HeaderAt(w, l, 0, a);
    HasBlockAbove(l, BASE, hi, a);
    SplitHere(w, b, t, hi, Before(l, a, 0), size, rest);
  }

  lemma SplitInPlace(w: Words, w': Words, l: Blocks, hi: nat, a: nat, size: nat)
    requires Image(w, l, hi) && HasBlock(l, a) && BlockAt(l, a).size >= size + 32
    requires Linked(w', Split(Cons(BlockAt(l, a), After(l, a)), a, size), Before(l, a, 0))
    requires Kept(w, w', Cons(BlockAt(l, a), After(l, a))) && Agree(w, w', 0, a)
    requires Ordered(Split(Cons(BlockAt(l, a), After(l, a)), a, size), a, hi)
    ensures Image(w', Split(l, a, size), hi) && Kept(w, w', l)
  {
    SplitIsGraft(l, a, size);
    GraftImage(w, w', l, BASE, hi, 0, a, Split(Cons(BlockAt(l, a), After(l, a)), a, size));
  }

  /** What linking the block nb behind the last one makes of the list. */
  lemma AppendPlan(w: Words, l: Blocks, hi: nat, nb: Block, end: nat)
    requires Image(w, l, hi) && end == End(nb)
    requires nb.addr == hi && nb.free && nb.size > 0 && nb.size % 16 == 0 && hi % 16 == 0
    ensures Image(AppendWords(w, Last(l).addr, nb), Append(l, nb), end)
    ensures Kept(w, AppendWords(w, Last(l).addr, nb), l)
    ensures NextAt(Last(l).addr) in w && BASE <= Last(l).addr && Last(l).addr + 32 < hi
  {
    AppendImage(w, l, BASE, hi, 0, nb);
    LastFacts(l, nb);
    HeaderAt(w, l, 0, Last(l).addr);
  }

  lemma {:induction false} LastFacts(l: Blocks, nb: Block)
    requires l.Cons?
    ensures HasBlock(l, Last(l).addr) && Append(l, nb).Cons? && Append(l, nb).head == l.head
  {
    if l.tail.Cons? {
      LastFacts(l.tail, nb);
    }
  }
}
