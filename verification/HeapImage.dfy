/** How src/mm/heap.c keeps its block list in memory: each header is four words (size, free flag,
    next, prev) in front of its payload. Memory is a map from word addresses to words. */
module HeapImage {
  import opened Prelude
  import opened BlockList

  // Where the fields of the header at a lie; its size is at a itself.
  function FreeAt(a: nat): nat { a + 8 }
  function NextAt(a: nat): nat { a + 16 }
  function PrevAt(a: nat): nat { a + 24 }

  function Flag(free: bool): nat { if free then 1 else 0 }

  function FirstAddr(l: Blocks): nat {
    if l.Nil? then 0 else l.head.addr
  }

  predicate HeaderIs(w: Words, b: Block, next: nat, prev: nat) {
    && b.addr in w && FreeAt(b.addr) in w && NextAt(b.addr) in w && PrevAt(b.addr) in w
    && w[b.addr] == b.size && w[FreeAt(b.addr)] == Flag(b.free)
    && w[NextAt(b.addr)] == next && w[PrevAt(b.addr)] == prev
  }

  /** The words hold the doubly linked list l; the block before it is at prev. */
  predicate Linked(w: Words, l: Blocks, prev: nat) {
    match l
    case Nil => true
    case Cons(b, t) => HeaderIs(w, b, FirstAddr(t), prev) && Linked(w, t, b.addr)
  }

  /** The words of [from, to) are the same. */
  ghost predicate Agree(w: Words, w': Words, from: nat, to: nat) {
    forall x :: from <= x < to && x in w ==> x in w' && w'[x] == w[x]
  }

  /** The payloads of the live blocks of l are the same. */
  ghost predicate Kept(w: Words, w': Words, l: Blocks) {
    match l
    case Nil => true
    case Cons(b, t) => (b.free || Agree(w, w', b.addr + 32, End(b))) && Kept(w, w', t)
  }

  // -------------------------------------------------------------------------------------------
  // Finding blocks
  // -------------------------------------------------------------------------------------------

  predicate HasBlock(l: Blocks, a: nat) {
    l.Cons? && (l.head.addr == a || HasBlock(l.tail, a))
  }

  function BlockAt(l: Blocks, a: nat): Block
    requires HasBlock(l, a)
  {
    if l.head.addr == a then l.head else BlockAt(l.tail, a)
  }

  /** The blocks after the one at a. */
  function After(l: Blocks, a: nat): Blocks
    requires HasBlock(l, a)
  {
    if l.head.addr == a then l.tail else After(l.tail, a)
  }

  /** The address of the block before the one at a. */
  function Before(l: Blocks, a: nat, prev: nat): nat
    requires HasBlock(l, a)
  {
    if l.head.addr == a then prev else Before(l.tail, a, l.head.addr)
  }

  lemma {:induction false} HeaderAt(w: Words, l: Blocks, prev: nat, a: nat)
    requires Linked(w, l, prev) && HasBlock(l, a)
    ensures HeaderIs(w, BlockAt(l, a), FirstAddr(After(l, a)), Before(l, a, prev))
    ensures BlockAt(l, a).addr == a
    ensures Linked(w, Cons(BlockAt(l, a), After(l, a)), Before(l, a, prev))
    ensures Linked(w, After(l, a), a)
  {
    if l.head.addr != a {
      HeaderAt(w, l.tail, l.head.addr, a);
    }
  }

  lemma {:induction false} HasBlockAbove(l: Blocks, from: nat, hi: nat, a: nat)
    requires Ordered(l, from, hi) && HasBlock(l, a)
    ensures from <= a && Ordered(After(l, a), End(BlockAt(l, a)), hi)
    ensures Ordered(Cons(BlockAt(l, a), After(l, a)), a, hi)
    ensures BlockAt(l, a).addr == a && End(BlockAt(l, a)) <= hi && a % 16 == 0
    ensures BlockAt(l, a).size > 0 && BlockAt(l, a).size % 16 == 0
  {
    OrderedEnd(l.tail, End(l.head), hi);
    if l.head.addr != a {
      HasBlockAbove(l.tail, End(l.head), hi, a);
    }
  }

  lemma {:induction false} LiveIsBlock(l: Blocks, from: nat, hi: nat, a: nat)
    requires Ordered(l, from, hi)
    ensures a in Live(l) <==> HasBlock(l, a) && !BlockAt(l, a).free
    ensures a in Live(l) ==> Live(l)[a] == BlockAt(l, a).size
  {
    match l
    case Nil =>
    case Cons(b, t) =>
      LiveIsBlock(t, End(b), hi, a);
      if b.addr == a {
        NotLiveBelow(t, End(b), hi, a);
      }
  }

  // -------------------------------------------------------------------------------------------
  // Frames
  // -------------------------------------------------------------------------------------------

  /** Writes below `from` concern no block of l. */
  lemma {:induction false} LinkedFrame(w: Words, w': Words, l: Blocks, from: nat, hi: nat, prev: nat)
    requires Ordered(l, from, hi) && Linked(w, l, prev) && Agree(w, w', from, hi)
    ensures Linked(w', l, prev)
  {
    match l
    case Nil =>
    case Cons(b, t) =>
      OrderedEnd(t, End(b), hi);
      LinkedFrame(w, w', t, End(b), hi, b.addr);
  }

  lemma {:induction false} KeptFrame(w: Words, w': Words, l: Blocks, from: nat, hi: nat)
    requires Ordered(l, from, hi) && Agree(w, w', from, hi)
    ensures Kept(w, w', l)
  {
    match l
    case Nil =>
    case Cons(b, t) =>
      OrderedEnd(t, End(b), hi);
      KeptFrame(w, w', t, End(b), hi);
  }

  /** As the two above, when the back pointer of the first block changes as well. */
  lemma BackPointer(w: Words, w': Words, l: Blocks, from: nat, hi: nat, prev: nat, prev': nat)
    requires Ordered(l, from, hi) && Linked(w, l, prev) && l.Cons?
    requires PrevAt(l.head.addr) in w' && w'[PrevAt(l.head.addr)] == prev'
    requires Agree(w, w', from, PrevAt(l.head.addr)) && Agree(w, w', PrevAt(l.head.addr) + 1, hi)
    ensures Linked(w', l, prev') && Kept(w, w', l)
  {
    var b, t := l.head, l.tail;
    OrderedEnd(t, End(b), hi);
    LinkedFrame(w, w', t, End(b), hi, b.addr);
    KeptFrame(w, w', t, End(b), hi);
  }

  /** Writes above block b leave it as it is in front of what they make of the rest. */
  lemma HeadUntouched(w: Words, w': Words, b: Block, t: Blocks, t': Blocks, prev: nat, a: nat)
    requires HeaderIs(w, b, FirstAddr(t), prev) && Agree(w, w', 0, a) && End(b) <= a
    requires FirstAddr(t') == FirstAddr(t) && Linked(w', t', b.addr) && Kept(w, w', t)
    ensures Linked(w', Cons(b, t'), prev) && Kept(w, w', Cons(b, t))
  {
  }

  // -------------------------------------------------------------------------------------------
  // Marking a block
  // -------------------------------------------------------------------------------------------

  function Mark(l: Blocks, a: nat, free: bool): Blocks {
    match l
    case Nil => Nil
    case Cons(b, t) => if b.addr == a then Cons(Block(a, b.size, free), t) else Cons(b, Mark(t, a, free))
  }

  lemma {:induction false} MarkImage(w: Words, l: Blocks, from: nat, hi: nat, prev: nat, a: nat, free: bool)
    requires Ordered(l, from, hi) && Linked(w, l, prev) && HasBlock(l, a)
    ensures Linked(w[FreeAt(a) := Flag(free)], Mark(l, a, free), prev)
    ensures Kept(w, w[FreeAt(a) := Flag(free)], l)
    ensures Ordered(Mark(l, a, free), from, hi)
  {
    var w' := w[FreeAt(a) := Flag(free)];
    var b, t := l.head, l.tail;
    OrderedEnd(t, End(b), hi);
    if b.addr == a {
      LinkedFrame(w, w', t, End(b), hi, a);
      KeptFrame(w, w', t, End(b), hi);
    } else {
      HasBlockAbove(t, End(b), hi, a);
      MarkImage(w, t, End(b), hi, b.addr, a, free);
      HeadUntouched(w, w', b, t, Mark(t, a, free), prev, a);
    }
  }

  // -------------------------------------------------------------------------------------------
  // Merging a block with its successor
  // -------------------------------------------------------------------------------------------

  function Absorb(l: Blocks, a: nat): Blocks {
    match l
    case Nil => Nil
    case Cons(b, t) =>
      if b.addr == a && t.Cons? then Cons(Block(a, b.size + 32 + t.head.size, b.free), t.tail)
      else Cons(b, Absorb(t, a))
  }

  /** The three writes with which `kfree` merges a block with its successor: its size, its next
      pointer, and the back pointer of the block after. */
  function MergedSize(w: Words, a: nat): nat
    requires a in w && NextAt(a) in w && w[NextAt(a)] in w
  {
    w[a] + 32 + w[w[NextAt(a)]]
  }

  function AbsorbSize(w: Words, a: nat): Words
    requires a in w && NextAt(a) in w && w[NextAt(a)] in w
  {
    w[a := MergedSize(w, a)]
  }

  function AbsorbLink(w: Words, a: nat): Words
    requires a in w && NextAt(a) in w && w[NextAt(a)] in w && NextAt(w[NextAt(a)]) in w
  {
    AbsorbSize(w, a)[NextAt(a) := AbsorbSize(w, a)[NextAt(w[NextAt(a)])]]
  }

  function AbsorbWords(w: Words, a: nat): Words
    requires a in w && NextAt(a) in w && w[NextAt(a)] in w && NextAt(w[NextAt(a)]) in w
  {
    WithPrev(AbsorbLink(w, a), AbsorbLink(w, a)[NextAt(a)], a)
  }

  /** `if (b) b->prev = prev`. */
  function WithPrev(w: Words, b: nat, prev: nat): Words {
    if b != 0 then w[PrevAt(b) := prev] else w
  }

  /** The words that the writes concern, and where they lie. */
  lemma AbsorbWhere(w: Words, l: Blocks, from: nat, hi: nat, prev: nat, a: nat)
    requires Ordered(l, from, hi) && Linked(w, l, prev) && from > 0
    requires HasBlock(l, a) && After(l, a).Cons?
    ensures from <= a && a in w && NextAt(a) in w && w[NextAt(a)] in w && NextAt(w[NextAt(a)]) in w
    ensures w[NextAt(a)] == After(l, a).head.addr > a + 32
    ensures w[NextAt(w[NextAt(a)])] == 0 || w[NextAt(w[NextAt(a)])] > w[NextAt(a)] + 32
    ensures Agree(w, AbsorbWords(w, a), 0, a)
  {
    HeaderAt(w, l, prev, a);
    HasBlockAbove(l, from, hi, a);
  }

  /** The same writes with the values they come to when n follows b and t follows n. */
  function AbsorbPatch(w: Words, b: Block, n: Block, t: Blocks): Words {
    var w2 := w[b.addr := b.size + 32 + n.size][NextAt(b.addr) := FirstAddr(t)];
    if t.Cons? then w2[PrevAt(t.head.addr) := b.addr] else w2
  }

  lemma AbsorbIsPatch(w: Words, b: Block, n: Block, t: Blocks, from: nat, hi: nat, prev: nat)
    requires Ordered(Cons(b, Cons(n, t)), from, hi) && Linked(w, Cons(b, Cons(n, t)), prev) && from > 0
    ensures b.addr in w && NextAt(b.addr) in w && w[NextAt(b.addr)] in w && NextAt(w[NextAt(b.addr)]) in w
    ensures AbsorbWords(w, b.addr) == AbsorbPatch(w, b, n, t)
  {
    assert HeaderIs(w, b, n.addr, prev);
    assert Linked(w, Cons(n, t), b.addr) && HeaderIs(w, n, FirstAddr(t), b.addr);
    assert Ordered(Cons(n, t), End(b), hi) && Ordered(t, End(n), hi);
    assert t.Cons? <==> FirstAddr(t) != 0;
  }

  lemma AbsorbLinks(w: Words, b: Block, n: Block, t: Blocks, from: nat, hi: nat, prev: nat)
    requires Ordered(Cons(b, Cons(n, t)), from, hi) && Linked(w, Cons(b, Cons(n, t)), prev) && from > 0
    ensures Linked(AbsorbPatch(w, b, n, t), Cons(Block(b.addr, b.size + 32 + n.size, b.free), t), prev)
    ensures Kept(w, AbsorbPatch(w, b, n, t), t)
  {
    assert Linked(w, Cons(n, t), b.addr) && Ordered(Cons(n, t), End(b), hi);
    if t.Cons? {
      BackPointer(w, AbsorbPatch(w, b, n, t), t, End(n), hi, n.addr, b.addr);
    }
  }

  lemma AbsorbKeeps(w: Words, b: Block, n: Block, t: Blocks, from: nat, hi: nat)
    requires Ordered(Cons(b, Cons(n, t)), from, hi)
    ensures Agree(w, AbsorbPatch(w, b, n, t), b.addr + 32, End(b))
    ensures Agree(w, AbsorbPatch(w, b, n, t), n.addr + 32, End(n))
    ensures Agree(w, AbsorbPatch(w, b, n, t), 0, b.addr)
    ensures Ordered(Cons(Block(b.addr, b.size + 32 + n.size, b.free), t), from, hi)
  {
    assert Ordered(Cons(n, t), End(b), hi) && Ordered(t, End(n), hi);
    AbsorbedOrdered(b, n, t, from, hi);
  }

  lemma AbsorbedOrdered(b: Block, n: Block, t: Blocks, from: nat, hi: nat)
    requires Ordered(Cons(b, Cons(n, t)), from, hi)
    ensures Ordered(Cons(Block(b.addr, b.size + 32 + n.size, b.free), t), from, hi)
  {
    assert Ordered(Cons(n, t), End(b), hi);
    Sixteens(b.size / 16, 2);
    Sixteens(b.size / 16 + 2, n.size / 16);
    OrderedLower(t, End(n), End(b) + 32 + n.size, hi);
  }

  lemma AbsorbHere(w: Words, b: Block, t: Blocks, from: nat, hi: nat, prev: nat)
    requires Ordered(Cons(b, t), from, hi) && Linked(w, Cons(b, t), prev) && from > 0 && t.Cons?
    ensures b.addr in w && NextAt(b.addr) in w && w[NextAt(b.addr)] in w && NextAt(w[NextAt(b.addr)]) in w
    ensures Linked(AbsorbWords(w, b.addr), Cons(Block(b.addr, b.size + 32 + t.head.size, b.free), t.tail), prev)
    ensures Kept(w, AbsorbWords(w, b.addr), Cons(b, t))
    ensures Ordered(Cons(Block(b.addr, b.size + 32 + t.head.size, b.free), t.tail), from, hi)
  {
    AbsorbIsPatch(w, b, t.head, t.tail, from, hi, prev);
    AbsorbLinks(w, b, t.head, t.tail, from, hi, prev);
    AbsorbKeeps(w, b, t.head, t.tail, from, hi);
  }

  lemma {:induction false} AbsorbImage(w: Words, l: Blocks, from: nat, hi: nat, prev: nat, a: nat)
    requires Ordered(l, from, hi) && Linked(w, l, prev) && from > 0
    requires HasBlock(l, a) && After(l, a).Cons?
    ensures a in w && NextAt(a) in w && w[NextAt(a)] in w && NextAt(w[NextAt(a)]) in w
    ensures Linked(AbsorbWords(w, a), Absorb(l, a), prev)
    ensures Kept(w, AbsorbWords(w, a), l)
    ensures Ordered(Absorb(l, a), from, hi)
  {
    AbsorbWhere(w, l, from, hi, prev, a);
    var b, t := l.head, l.tail;
    if b.addr == a {
      AbsorbHere(w, b, t, from, hi, prev);
    } else {
      HasBlockAbove(t, End(b), hi, a);
      AbsorbImage(w, t, End(b), hi, b.addr, a);
      HeadUntouched(w, AbsorbWords(w, a), b, t, Absorb(t, a), prev, a);
    }
  }

  // -------------------------------------------------------------------------------------------
  // Splitting a free block
  // -------------------------------------------------------------------------------------------

  function Split(l: Blocks, a: nat, size: nat): Blocks {
    match l
    case Nil => Nil
    case Cons(b, t) =>
      if b.addr == a && b.size >= size + 32
      then Cons(Block(a, size, b.free), Cons(Block(a + 32 + size, b.size - size - 32, true), t))
      else Cons(b, Split(t, a, size))
  }

  /** Where the second part of a split block begins. */
  function SecondAt(a: nat, size: nat): nat { a + 32 + size }

  /** The writes of `split_block` to the block at a, when `rest` bytes remain for the new block and
      `next` follows. */
  function SplitWords(w: Words, a: nat, size: nat, rest: nat, next: nat): Words {
    WithPrev(NewHeader(w, SecondAt(a, size), rest, next, a), next, SecondAt(a, size))
      [a := size][NextAt(a) := SecondAt(a, size)]
  }

  function NewHeader(w: Words, a: nat, size: nat, next: nat, prev: nat): Words {
    w[a := size][FreeAt(a) := 1][NextAt(a) := next][PrevAt(a) := prev]
  }

  lemma SplitRest(w: Words, b: Block, t: Blocks, hi: nat, prev: nat, size: nat, rest: nat)
    requires Ordered(Cons(b, t), b.addr, hi) && Linked(w, Cons(b, t), prev) && b.size == size + 32 + rest
    ensures Linked(SplitWords(w, b.addr, size, rest, FirstAddr(t)), t, SecondAt(b.addr, size))
    ensures Kept(w, SplitWords(w, b.addr, size, rest, FirstAddr(t)), t)
    ensures Agree(w, SplitWords(w, b.addr, size, rest, FirstAddr(t)), 0, b.addr)
  {
    var w' := SplitWords(w, b.addr, size, rest, FirstAddr(t));
    assert Ordered(t, End(b), hi) && Linked(w, t, b.addr);
    SplitWhere(w, b.addr, size, rest, FirstAddr(t), hi);
    if t.Cons? {
      BackPointer(w, w', t, End(b), hi, b.addr, SecondAt(b.addr, size));
    }
  }

  /** The writes concern the two headers and, above them, the back pointer of the next block. */
  lemma SplitWhere(w: Words, a: nat, size: nat, rest: nat, next: nat, hi: nat)
    requires next == 0 || next >= a + 64 + size + rest
    ensures
      var w', end := SplitWords(w, a, size, rest, next), a + 64 + size + rest;
      && Agree(w, w', 0, a)
      && (next != 0 ==>
            && PrevAt(next) in w' && w'[PrevAt(next)] == SecondAt(a, size)
            && Agree(w, w', end, PrevAt(next)) && Agree(w, w', PrevAt(next) + 1, hi))
  {
  }

  lemma SplitHeads(w: Words, b: Block, t: Blocks, hi: nat, prev: nat, size: nat, rest: nat)
    requires Ordered(Cons(b, t), b.addr, hi) && Linked(w, Cons(b, t), prev) && b.size == size + 32 + rest
    ensures
      var w', nb := SplitWords(w, b.addr, size, rest, FirstAddr(t)), SecondAt(b.addr, size);
      && HeaderIs(w', Block(b.addr, size, b.free), nb, prev)
      && HeaderIs(w', Block(nb, rest, true), FirstAddr(t), b.addr)
  {
    assert HeaderIs(w, b, FirstAddr(t), prev);
    assert t.Cons? ==> t.head.addr >= End(b);
  }

  lemma SplitOrdered(b: Block, t: Blocks, hi: nat, size: nat, rest: nat)
    requires Ordered(Cons(b, t), b.addr, hi) && b.size == size + 32 + rest && rest >= 16 && size > 0 && size % 16 == 0
    ensures Split(Cons(b, t), b.addr, size)
         == Cons(Block(b.addr, size, b.free), Cons(Block(SecondAt(b.addr, size), rest, true), t))
    ensures Ordered(Split(Cons(b, t), b.addr, size), b.addr, hi)
  {
    var nb := Block(SecondAt(b.addr, size), rest, true);
    CutAligned(b.addr, b.size, size);
    assert b.size - size - 32 == rest && End(nb) == End(b);
    assert Ordered(Cons(nb, t), nb.addr, hi);
  }

  lemma SplitHere(w: Words, b: Block, t: Blocks, hi: nat, prev: nat, size: nat, rest: nat)
    requires Ordered(Cons(b, t), b.addr, hi) && Linked(w, Cons(b, t), prev)
    requires b.free && b.size == size + 32 + rest && rest >= 16 && size > 0 && size % 16 == 0
    ensures Linked(SplitWords(w, b.addr, size, rest, FirstAddr(t)), Split(Cons(b, t), b.addr, size), prev)
    ensures Kept(w, SplitWords(w, b.addr, size, rest, FirstAddr(t)), Cons(b, t))
    ensures Ordered(Split(Cons(b, t), b.addr, size), b.addr, hi)
    ensures Agree(w, SplitWords(w, b.addr, size, rest, FirstAddr(t)), 0, b.addr)
  {
    SplitRest(w, b, t, hi, prev, size, rest);
    SplitHeads(w, b, t, hi, prev, size, rest);
    SplitOrdered(b, t, hi, size, rest);
    SplitJoined(SplitWords(w, b.addr, size, rest, FirstAddr(t)), Block(b.addr, size, b.free),
                Block(SecondAt(b.addr, size), rest, true), t, prev);
  }

  lemma SplitJoined(w: Words, b: Block, nb: Block, t: Blocks, prev: nat)
    requires HeaderIs(w, b, nb.addr, prev) && HeaderIs(w, nb, FirstAddr(t), b.addr) && Linked(w, t, nb.addr)
    ensures Linked(w, Cons(b, Cons(nb, t)), prev)
  {
    assert Linked(w, Cons(nb, t), b.addr);
  }

  /** The list l with the part from the block at a on replaced. */
  function Graft(l: Blocks, a: nat, part: Blocks): Blocks
    requires HasBlock(l, a)
  {
    if l.head.addr == a then part else Cons(l.head, Graft(l.tail, a, part))
  }

  /** Whatever is done from the block at a on leaves the list before it alone. */
  lemma {:induction false} GraftImage(w: Words, w': Words, l: Blocks, from: nat, hi: nat, prev: nat, a: nat,
                                      part: Blocks)
    requires Ordered(l, from, hi) && Linked(w, l, prev) && HasBlock(l, a)
    requires Agree(w, w', 0, a) && FirstAddr(part) == a && part.Cons?
    requires Linked(w', part, Before(l, a, prev)) && Kept(w, w', Cons(BlockAt(l, a), After(l, a)))
    requires Ordered(part, a, hi)
    ensures Linked(w', Graft(l, a, part), prev) && Kept(w, w', l) && Ordered(Graft(l, a, part), from, hi)
    ensures Graft(l, a, part).Cons? && (Graft(l, a, part).head.addr == l.head.addr)
  {
    var b, t := l.head, l.tail;
    if b.addr != a {
      HasBlockAbove(t, End(b), hi, a);
      GraftImage(w, w', t, End(b), hi, b.addr, a, part);
      HeadUntouched(w, w', b, t, Graft(t, a, part), prev, a);
    }
  }

  lemma {:induction false} SplitIsGraft(l: Blocks, a: nat, size: nat)
    requires HasBlock(l, a) && BlockAt(l, a).size >= size + 32
    ensures Split(l, a, size) == Graft(l, a, Split(Cons(BlockAt(l, a), After(l, a)), a, size))
    ensures BlockAt(l, a).addr == a
  {
    if l.head.addr != a {
      SplitIsGraft(l.tail, a, size);
    }
  }

  // -------------------------------------------------------------------------------------------
  // Appending a block at the end of the heap
  // -------------------------------------------------------------------------------------------

  function Append(l: Blocks, nb: Block): Blocks {
    match l
    case Nil => Cons(nb, Nil)
    case Cons(b, t) => Cons(b, Append(t, nb))
  }

  /** The writes of `extend_heap` that link the free block nb behind the last block. */
  function AppendWords(w: Words, last: nat, nb: Block): Words {
    NewHeader(w, nb.addr, nb.size, 0, last)[NextAt(last) := nb.addr]
  }

  lemma AppendHere(w: Words, b: Block, from: nat, prev: nat, nb: Block)
    requires Ordered(Cons(b, Nil), from, nb.addr) && Linked(w, Cons(b, Nil), prev)
    requires nb.free && nb.size > 0 && nb.size % 16 == 0 && nb.addr % 16 == 0
    ensures Linked(AppendWords(w, b.addr, nb), Cons(b, Cons(nb, Nil)), prev)
    ensures Kept(w, AppendWords(w, b.addr, nb), Cons(b, Nil))
    ensures Ordered(Cons(b, Cons(nb, Nil)), from, End(nb))
    ensures Agree(w, AppendWords(w, b.addr, nb), 0, b.addr)
  {
    assert End(b) <= nb.addr;
    assert Ordered(Cons(nb, Nil), End(b), End(nb));
    assert Linked(AppendWords(w, b.addr, nb), Cons(nb, Nil), b.addr);
  }

  lemma {:induction false} AppendImage(w: Words, l: Blocks, from: nat, hi: nat, prev: nat, nb: Block)
    requires Ordered(l, from, hi) && Linked(w, l, prev) && l.Cons?
    requires nb.addr == hi && nb.free && nb.size > 0 && nb.size % 16 == 0 && hi % 16 == 0
    ensures Linked(AppendWords(w, Last(l).addr, nb), Append(l, nb), prev)
    ensures Kept(w, AppendWords(w, Last(l).addr, nb), l)
    ensures Ordered(Append(l, nb), from, End(nb))
    ensures from <= Last(l).addr && Last(l).addr + 32 < hi
    ensures Agree(w, AppendWords(w, Last(l).addr, nb), 0, Last(l).addr)
  {
    var w' := AppendWords(w, Last(l).addr, nb);
    var b, t := l.head, l.tail;
    if t.Nil? {
      AppendHere(w, b, from, prev, nb);
    } else {
      AppendImage(w, t, End(b), hi, b.addr, nb);
      HeadUntouched(w, w', b, t, Append(t, nb), prev, Last(l).addr);
    }
  }

  // -------------------------------------------------------------------------------------------
  // The operations of BlockList, step by step
  // -------------------------------------------------------------------------------------------

  /** The payloads of these live blocks are the same. */
  ghost predicate KeptLive(w: Words, w': Words, live: map<nat, nat>) {
    forall a :: a in live ==> Agree(w, w', a + 32, a + 32 + live[a])
  }

  lemma {:induction false} KeptIsKeptLive(w: Words, w': Words, l: Blocks, from: nat, hi: nat)
    requires Ordered(l, from, hi) && Kept(w, w', l)
    ensures KeptLive(w, w', Live(l))
  {
    match l
    case Nil =>
    case Cons(b, t) => KeptIsKeptLive(w, w', t, End(b), hi);
  }

  lemma KeptLiveWithout(w: Words, w': Words, live: map<nat, nat>, a: nat)
    requires KeptLive(w, w', live)
    ensures KeptLive(w, w', live - {a})
  {
  }

  lemma KeptLiveTransitive(u: Words, v: Words, w: Words, live: map<nat, nat>)
    requires KeptLive(u, v, live) && KeptLive(v, w, live)
    ensures KeptLive(u, w, live)
  {
  }

  lemma {:induction false} KeptTransitive(u: Words, v: Words, w: Words, l: Blocks)
    requires Kept(u, v, l) && Kept(v, w, l)
    ensures Kept(u, w, l)
  {
    match l
    case Nil =>
    case Cons(b, t) => KeptTransitive(u, v, w, t);
  }

  lemma {:induction false} KeptAppended(w: Words, w': Words, l: Blocks, nb: Block)
    requires Kept(w, w', Append(l, nb))
    ensures Kept(w, w', l)
  {
    match l
    case Nil =>
    case Cons(b, t) => KeptAppended(w, w', t, nb);
  }

  /** `kmalloc` on an existing block: find it, split it if the rest is large enough, mark it. */
  lemma {:induction false} AllocateBySteps(l: Blocks, from: nat, hi: nat, size: nat)
    requires Ordered(l, from, hi) && FirstFit(l, size).Some?
    ensures
      var b := FirstFit(l, size).value;
      && Fits(b, size) && HasBlock(l, b.addr) && BlockAt(l, b.addr) == b && from <= b.addr
      && HasBlock(SplitIfLarge(l, b, size), b.addr)
      && Allocate(l, size) == Mark(SplitIfLarge(l, b, size), b.addr, false)
      && Live(SplitIfLarge(l, b, size)) == Live(l)
  {
    match l
    case Cons(b, t) =>
      if Fits(b, size) {
        NotLiveBelow(t, End(b), hi, b.addr);
      } else {
        AllocateBySteps(t, End(b), hi, size);
      }
  }

  function SplitIfLarge(l: Blocks, b: Block, size: nat): Blocks
    requires b.size >= size
  {
    if b.size - size < 48 then l else Split(l, b.addr, size)
  }

  /** A block with room for a header and 16 bytes beyond `size` is cut to it, and what is left is a
      free block behind it; another block is left alone. */
  lemma SplitSizes(l: Blocks, a: nat, size: nat)
    requires HasBlock(l, a) && BlockAt(l, a).size >= size
    ensures
      var b, l' := BlockAt(l, a), SplitIfLarge(l, BlockAt(l, a), size);
      if b.size < size + 48 then l' == l
      else
        && HasBlock(l', a) && BlockAt(l', a) == Block(a, size, b.free)
        && After(l', a) == Cons(Block(a + 32 + size, b.size - size - 32, true), After(l, a))
  {
    BlockAtAddress(l, a);
    if BlockAt(l, a).size >= size + 48 {
      SplitParts(l, a, size);
    }
  }

  lemma {:induction false} BlockAtAddress(l: Blocks, a: nat)
    requires HasBlock(l, a)
    ensures BlockAt(l, a).addr == a
  {
    if l.head.addr != a {
      BlockAtAddress(l.tail, a);
    }
  }

  lemma {:induction false} SplitParts(l: Blocks, a: nat, size: nat)
    requires HasBlock(l, a) && BlockAt(l, a).size >= size + 32
    ensures HasBlock(Split(l, a, size), a) && BlockAt(Split(l, a, size), a) == Block(a, size, BlockAt(l, a).free)
    ensures After(Split(l, a, size), a)
         == Cons(Block(a + 32 + size, BlockAt(l, a).size - size - 32, true), After(l, a))
  {
    if l.head.addr != a {
      SplitParts(l.tail, a, size);
    }
  }

  /** `extend_heap`: append the new block, then merge it into the last one if that was free. */
  lemma {:induction false} ExtendBySteps(l: Blocks, from: nat, hi: nat, nb: Block)
    requires Ordered(l, from, hi) && l.Cons? && nb.addr == hi && nb.free
    ensures HasBlock(Append(l, nb), Last(l).addr) && After(Append(l, nb), Last(l).addr) == Cons(nb, Nil)
    ensures Extend(l, nb) == if Last(l).free then Absorb(Append(l, nb), Last(l).addr) else Append(l, nb)
    ensures Last(Extend(l, nb)).addr == if Last(l).free then Last(l).addr else nb.addr
    ensures BlockAt(Append(l, nb), Last(l).addr).free == Last(l).free
    ensures Live(Append(l, nb)) == Live(l) && from <= Last(l).addr
  {
    if l.tail.Cons? {
      OrderedEnd(l.tail, End(l.head), hi);
      ExtendBySteps(l.tail, End(l.head), hi, nb);
    }
  }

  /** `kfree`: mark the block free, merge it with a free successor, then into a free predecessor. */
  function MergeNext(l: Blocks, a: nat): Blocks
    requires HasBlock(l, a)
  {
    if After(l, a).Cons? && After(l, a).head.free then Absorb(l, a) else l
  }

  function FreeBlockBefore(l: Blocks, a: nat): bool
    requires HasBlock(l, a)
  {
    if l.head.addr == a then false
    else if l.tail.Cons? && l.tail.head.addr == a then l.head.free
    else FreeBlockBefore(l.tail, a)
  }

  lemma {:induction false} MarkFacts(l: Blocks, a: nat, free: bool)
    requires HasBlock(l, a)
    ensures HasBlock(Mark(l, a, free), a)
    ensures After(Mark(l, a, free), a) == After(l, a)
    ensures BlockAt(Mark(l, a, free), a) == Block(a, BlockAt(l, a).size, free)
    ensures Mark(l, a, free).head.addr == l.head.addr
  {
    if l.head.addr != a {
      MarkFacts(l.tail, a, free);
    }
  }

  lemma {:induction false} AbsorbFacts(l: Blocks, a: nat)
    requires HasBlock(l, a)
    ensures HasBlock(Absorb(l, a), a)
    ensures Absorb(l, a).head.addr == l.head.addr
    ensures BlockAt(Absorb(l, a), a).free == BlockAt(l, a).free
    ensures FreeBlockBefore(Absorb(l, a), a) == FreeBlockBefore(l, a)
    ensures forall p :: Before(Absorb(l, a), a, p) == Before(l, a, p)
  {
    if l.head.addr != a {
      AbsorbFacts(l.tail, a);
    }
  }

  lemma {:induction false} BeforeFacts(l: Blocks, a: nat, free: bool, prev: nat)
    requires HasBlock(l, a) && l.head.addr != a
    ensures HasBlock(l, Before(l, a, prev)) && HasBlock(Mark(l, a, free), a)
    ensures Before(Mark(l, a, free), a, prev) == Before(l, a, prev)
  {
    MarkFacts(l, a, free);
    if l.tail.head.addr != a {
      BeforeFacts(l.tail, a, free, l.head.addr);
    }
  }

  /** The block before the one at a, if there is one. */
  lemma {:induction false} BlockBefore(l: Blocks, from: nat, hi: nat, a: nat, prev: nat)
    requires Ordered(l, from, hi) && HasBlock(l, a) && from > 0
    ensures l.head.addr == a ==> Before(l, a, prev) == prev && !FreeBlockBefore(l, a)
    ensures l.head.addr != a ==>
              var p := Before(l, a, prev);
              && p != 0 && HasBlock(l, p) && After(l, p).Cons? && BlockAt(l, p).free == FreeBlockBefore(l, a)
              && from <= p
  {
    var b, t := l.head, l.tail;
    if b.addr != a {
      OrderedEnd(t, End(b), hi);
      BlockBefore(t, End(b), hi, a, b.addr);
    }
  }

  lemma {:induction false} LiveAfterMark(l: Blocks, from: nat, hi: nat, a: nat)
    requires Ordered(l, from, hi) && HasBlock(l, a)
    ensures Live(Mark(l, a, true)) == Live(l) - {a}
  {
    var b, t := l.head, l.tail;
    if b.addr == a {
      NotLiveBelow(t, End(b), hi, a);
    } else {
      HasBlockAbove(t, End(b), hi, a);
      LiveAfterMark(t, End(b), hi, a);
    }
  }

  lemma {:induction false} LiveAfterMerge(l: Blocks, a: nat)
    requires HasBlock(l, a) && BlockAt(l, a).free
    ensures Live(MergeNext(l, a)) == Live(l)
  {
    if l.head.addr != a {
      LiveAfterMerge(l.tail, a);
      assert MergeNext(l, a) == Cons(l.head, MergeNext(l.tail, a));
    }
  }

  /** A free block of a coalesced list is left as it is. */
  lemma {:induction false} FreeTwice(l: Blocks, from: nat, hi: nat, previousFree: bool, a: nat)
    requires Ordered(l, from, hi) && Coalesced(l, previousFree)
    requires a !in Live(l)
    ensures Free(l, a) == l
  {
    match l
    case Nil =>
    case Cons(b, t) =>
      if b.addr == a {
        FreeTwice(t, End(b), hi, b.free, a);
      } else {
        FreeTwice(t, End(b), hi, b.free, a);
      }
  }

  lemma {:induction false} FreeBySteps(l: Blocks, from: nat, hi: nat, previousFree: bool, a: nat)
    requires Ordered(l, from, hi) && Coalesced(l, previousFree) && HasBlock(l, a) && !BlockAt(l, a).free
    ensures HasBlock(Mark(l, a, true), a)
    ensures
      var merged := MergeNext(Mark(l, a, true), a);
      && HasBlock(merged, a)
      && FreeBlockBefore(merged, a) == FreeBlockBefore(l, a)
      && (FreeBlockBefore(l, a) ==> HasBlock(merged, Before(merged, a, 0)) && After(merged, Before(merged, a, 0)).Cons?)
      && Free(l, a) == if FreeBlockBefore(l, a) then Absorb(merged, Before(merged, a, 0)) else merged
  {
    MarkFacts(l, a, true);
    AbsorbFacts(Mark(l, a, true), a);
    var b, t := l.head, l.tail;
    if b.addr != a {
      HasBlockAbove(t, End(b), hi, a);
      FreeBySteps(t, End(b), hi, b.free, a);
      BeforeFacts(l, a, true, 0);
      MarkFacts(t, a, true);
      AbsorbFacts(Mark(t, a, true), a);
      assert MergeNext(Mark(l, a, true), a) == Cons(b, MergeNext(Mark(t, a, true), a));
      if t.head.addr != a {
        BeforeFacts(t, a, true, b.addr);
        HasBlockAbove(t, End(b), hi, Before(t, a, b.addr));
      }
    }
  }

  // -------------------------------------------------------------------------------------------
  // Writes to payloads
  // -------------------------------------------------------------------------------------------

  /** A write inside a live payload touches no header of the list. */
  lemma {:induction false} PayloadWrite(w: Words, l: Blocks, from: nat, hi: nat, prev: nat, a: nat, x: nat, v: nat)
    requires Ordered(l, from, hi) && Linked(w, l, prev)
    requires a in Live(l) && a + 32 <= x < a + 32 + Live(l)[a]
    ensures Linked(w[x := v], l, prev)
  {
    var b, t := l.head, l.tail;
    OrderedEnd(t, End(b), hi);
    if a in Live(t) {
      LiveAbove(t, End(b), hi, a);
      PayloadWrite(w, t, End(b), hi, b.addr, a, x, v);
    } else {
      LinkedFrame(w, w[x := v], t, End(b), hi, b.addr);
    }
  }

  /** A write inside one live payload touches no other. */
  lemma PayloadWriteKeeps(w: Words, l: Blocks, from: nat, hi: nat, a: nat, x: nat, v: nat)
    requires Ordered(l, from, hi) && a in Live(l) && a + 32 <= x < a + 32 + Live(l)[a]
    ensures KeptLive(w, w[x := v], Live(l) - {a})
  {
    forall c | c in Live(l) - {a}
      ensures Agree(w, w[x := v], c + 32, c + 32 + Live(l)[c])
    {
      LiveDisjoint(l, from, hi, a, c);
    }
  }
}
