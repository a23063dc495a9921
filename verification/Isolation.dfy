/** Heap, scheduler and context switch together: a machine whose tasks keep their records and their
    stacks in heap blocks, run on their own stacks, allocate, create, switch and exit. A resumed task
    finds its registers, its stack and the blocks it has not shared as it left them, whatever ran in
    between.

    Blocks are named by the addresses of their headers; the payload follows 32 bytes later, and that
    of a task record begins with the saved stack pointer. */
module Isolation {
  import opened Prelude
  import opened Switch
  import BlockList
  import RunQueue

  /** The blocks of a task; the boot task brings its own stack. */
  datatype Place = Place(record: nat, stack: Option<nat>)

  /** A block is held by the task that allocated it until that task shares it, releases it, or makes it
      the record or the stack of a new task. */
  datatype Owner = Record(t: nat) | StackOf(t: nat) | Held(t: nat) | Shared

  datatype Machine = Machine(regs: Regs, mem: Words, heap: BlockList.State, sched: RunQueue.Sched<nat>,
                             places: map<nat, Place>, owner: map<nat, Owner>, bootLo: nat, bootHi: nat)

  /** What the machine can do next. Memory in an operation is what the running task, or the kernel on
      its behalf, leaves behind; `Legal` says what that may differ in. `Link` is the end of
      `task_create`; the rest of it is `Malloc`, `Malloc` and `Work`. */
  datatype Op =
    | Work(regs: Regs, mem: Words)
    | Malloc(size: nat, available: nat, mem: Words)
    | Share(a: nat)
    | Release(a: nat, mem: Words)
    | Link(t: nat, a: nat, b: nat, entry: nat, arg: nat, trampoline: nat, mem: Words)
    | Yield(mem: Words)
    | Exit(mem: Words)

  // -------------------------------------------------------------------------------------------
  // Who owns which words
  // -------------------------------------------------------------------------------------------

  function Live(k: Machine): map<nat, nat> { BlockList.Live(k.heap.blocks) }

  predicate InPayload(live: map<nat, nat>, a: nat, x: nat) { a in live && a + 32 <= x < a + 32 + live[a] }

  /** Where a stack of 0x4000 bytes in the block s ends. */
  function Top(s: nat): nat { s + 32 + 0x4000 }

  lemma TopAligned(s: nat)
    requires s % 16 == 0
    ensures Top(s) % 16 == 0
  {
  }

  /** Where the stack pointer of t is saved. */
  function Slot(k: Machine, t: nat): nat
    requires t in k.places
  {
    k.places[t].record + 32
  }

  function Lo(k: Machine, t: nat): nat
    requires t in k.places
  {
    match k.places[t].stack
    case None => k.bootLo
    case Some(s) => s + 32
  }

  function Hi(k: Machine, t: nat): nat
    requires t in k.places
  {
    match k.places[t].stack
    case None => k.bootHi
    case Some(s) => Top(s)
  }

  /** t has a record of its own and, unless it is the boot task, a stack of its own. */
  ghost predicate Placed(k: Machine, t: nat) {
    var sound :=
      && t in k.places
      && k.places[t].record in Live(k) && Live(k)[k.places[t].record] >= 48
      && k.places[t].record in k.owner && k.owner[k.places[t].record] == Record(t)
      && match k.places[t].stack
         case None => t == k.sched.head
         case Some(s) =>
           t != k.sched.head && s in Live(k) && Live(k)[s] >= 0x4000 && s in k.owner && k.owner[s] == StackOf(t);
    sound
  }

  /** The tasks whose blocks have not been given back. */
  ghost function Unfreed(s: RunQueue.Sched<nat>): set<nat> {
    RunQueue.Known(s) - RunQueue.Members(s.freed)
  }

  /** Blocks are held by tasks that there have been. */
  ghost predicate HoldersKnown(owner: map<nat, Owner>, s: RunQueue.Sched<nat>) {
    forall a :: a in owner && owner[a].Held? ==> owner[a].t in RunQueue.Known(s)
  }

  ghost predicate Owned(k: Machine) {
    var sound :=
      && BlockList.Inv(k.heap) && RunQueue.Inv(k.sched)
      && k.owner.Keys == Live(k).Keys
      && k.places.Keys == Unfreed(k.sched)
      && (forall t :: t in k.places ==> Placed(k, t))
      && HoldersKnown(k.owner, k.sched)
      && k.bootHi <= BlockList.BASE;
    sound
  }

  /** t holds the block a. */
  predicate Holds(k: Machine, t: nat, a: nat) {
    a in k.owner && k.owner[a] == Held(t) && a in Live(k)
  }

  ghost predicate HeldWord(k: Machine, t: nat, x: nat) {
    exists a: nat :: Holds(k, t, a) && InPayload(Live(k), a, x)
  }

  /** Words that belong to t: its saved stack pointer, its stack, and the blocks it holds. */
  ghost predicate Private(k: Machine, t: nat, x: nat) {
    t in k.places && (x == Slot(k, t) || Lo(k, t) <= x < Hi(k, t) || HeldWord(k, t, x))
  }

  lemma InOneBlock(k: Machine, a: nat, b: nat, x: nat)
    requires Owned(k) && InPayload(Live(k), a, x) && InPayload(Live(k), b, x)
    ensures a == b
  {
    if a != b {
      BlockList.LiveDisjoint(k.heap.blocks, BlockList.BASE, k.heap.hi, a, b);
    }
  }

  lemma PayloadInHeap(k: Machine, a: nat, x: nat)
    requires Owned(k) && InPayload(Live(k), a, x)
    ensures BlockList.BASE <= x < k.heap.hi
  {
    BlockList.LiveAbove(k.heap.blocks, BlockList.BASE, k.heap.hi, a);
  }

  /** Where a private word of t lies: on the boot stack, or in a block that is t's. */
  lemma PrivateBlock(k: Machine, t: nat, x: nat) returns (a: Option<nat>)
    requires Owned(k) && Private(k, t, x)
    ensures a.None? ==> t == k.sched.head && k.bootLo <= x < k.bootHi && x < BlockList.BASE
    ensures a.Some? ==>
              && InPayload(Live(k), a.value, x) && BlockList.BASE <= x < k.heap.hi
              && a.value in k.owner && !k.owner[a.value].Shared? && k.owner[a.value].t == t
              && (k.owner[a.value].Record? ==> x == a.value + 32)
    ensures a.Some? && !HeldWord(k, t, x) ==>
              a.value == k.places[t].record || Some(a.value) == k.places[t].stack
    ensures HeldWord(k, t, x) ==> a.Some? && Holds(k, t, a.value)
  {
    assert Placed(k, t);
    if HeldWord(k, t, x) {
      var b: nat :| Holds(k, t, b) && InPayload(Live(k), b, x);
      PayloadInHeap(k, b, x);
      a := Some(b);
    } else if x == Slot(k, t) {
      PayloadInHeap(k, k.places[t].record, x);
      a := Some(k.places[t].record);
    } else {
      a := k.places[t].stack;
      if a.Some? {
        PayloadInHeap(k, a.value, x);
      }
    }
  }

  /** No word is private to two tasks. */
  lemma PrivateOnce(k: Machine, t: nat, u: nat, x: nat)
    requires Owned(k) && Private(k, t, x) && Private(k, u, x)
    ensures t == u
  {
    var a := PrivateBlock(k, t, x);
    var b := PrivateBlock(k, u, x);
    if a.Some? && b.Some? {
      InOneBlock(k, a.value, b.value, x);
    }
  }

  /** A stack holds no saved stack pointer, and held blocks are neither. */
  lemma OwnApart(k: Machine, t: nat)
    requires Owned(k) && t in k.places
    ensures Slot(k, t) + 8 <= Lo(k, t) || Hi(k, t) <= Slot(k, t)
    ensures forall x: nat :: HeldWord(k, t, x) ==> x != Slot(k, t) && !(Lo(k, t) <= x < Hi(k, t))
  {
    assert Placed(k, t);
    var r, l, hi := k.places[t].record, k.heap.blocks, k.heap.hi;
    BlockList.LiveAbove(l, BlockList.BASE, hi, r);
    if k.places[t].stack.Some? {
      BlockList.LiveDisjoint(l, BlockList.BASE, hi, r, k.places[t].stack.value);
    }
    forall x: nat | HeldWord(k, t, x)
      ensures x != Slot(k, t) && !(Lo(k, t) <= x < Hi(k, t))
    {
      HeldApart(k, t, x);
    }
  }

  lemma HeldApart(k: Machine, t: nat, x: nat)
    requires Owned(k) && t in k.places && HeldWord(k, t, x)
    ensures x != Slot(k, t) && !(Lo(k, t) <= x < Hi(k, t))
  {
    assert Placed(k, t);
    var a: nat :| Holds(k, t, a) && InPayload(Live(k), a, x);
    PayloadInHeap(k, a, x);
    if InPayload(Live(k), k.places[t].record, x) {
      InOneBlock(k, a, k.places[t].record, x);
    }
    if k.places[t].stack.Some? && InPayload(Live(k), k.places[t].stack.value, x) {
      InOneBlock(k, a, k.places[t].stack.value, x);
    }
  }

  // -------------------------------------------------------------------------------------------
  // Who writes which words
  // -------------------------------------------------------------------------------------------

  function Running(k: Machine): nat
    requires k.sched.queue != []
  {
    k.sched.queue[0]
  }

  ghost predicate OwnStack(k: Machine, x: nat) {
    && k.sched.queue != [] && Running(k) in k.places
    && Lo(k, Running(k)) <= x < Hi(k, Running(k))
  }

  /** Below the heap, off the boot stack: the direct map, with the page tables and the screen in it. */
  predicate BelowHeap(k: Machine, x: nat) {
    x < BlockList.BASE && !(k.bootLo <= x < k.bootHi)
  }

  /** A block whose words the running task may use. */
  predicate Usable(k: Machine, a: nat) {
    && k.sched.queue != [] && a in k.owner
    && (k.owner[a] == Shared || k.owner[a] == Held(Running(k)))
  }

  /** An ordinary task writes its own stack, the blocks it holds, the blocks that are shared, and
      everything outside the heap but the boot stack: the screen, and the variables of the kernel. */
  ghost predicate TaskMayWrite(k: Machine, x: nat) {
    || OwnStack(k, x) || BelowHeap(k, x) || x >= k.heap.hi
    || exists a: nat :: InPayload(Live(k), a, x) && Usable(k, a)
  }

  /** The kernel, called by a task, writes that task's stack and held blocks, heap words outside the
      payloads that stay live, in records the words behind the saved stack pointer, and everything
      outside the heap but the boot stack. */
  ghost predicate KernelMayWrite(k: Machine, live: map<nat, nat>, x: nat) {
    || OwnStack(k, x) || BelowHeap(k, x)
    || (x >= BlockList.BASE
        && forall a: nat :: InPayload(live, a, x) ==>
             a in k.owner && ((k.owner[a].Record? && x != a + 32) || (k.owner[a].Held? && Usable(k, a))))
  }

  ghost predicate TaskWrites(k: Machine, m: Words) {
    forall x: nat :: Read(m, x) == Read(k.mem, x) || TaskMayWrite(k, x)
  }

  ghost predicate KernelWrites(k: Machine, live: map<nat, nat>, m: Words) {
    forall x: nat :: Read(m, x) == Read(k.mem, x) || KernelMayWrite(k, live, x)
  }

  ghost predicate Quiet(k: Machine, m: Words, t: nat) {
    forall x: nat :: Private(k, t, x) ==> Read(m, x) == Read(k.mem, x)
  }

  lemma PrivateFromTask(k: Machine, t: nat, x: nat)
    requires Owned(k) && k.sched.queue != [] && t != Running(k) && Private(k, t, x)
    ensures !TaskMayWrite(k, x)
  {
    var b := PrivateBlock(k, t, x);
    NotOwnStack(k, t, x);
    BlockList.OrderedEnd(k.heap.blocks, BlockList.BASE, k.heap.hi);
    forall a: nat | InPayload(Live(k), a, x)
      ensures !Usable(k, a)
    {
      NotUsable(k, t, x, a);
    }
  }

  lemma NotUsable(k: Machine, t: nat, x: nat, a: nat)
    requires Owned(k) && k.sched.queue != [] && t != Running(k) && Private(k, t, x) && InPayload(Live(k), a, x)
    ensures !Usable(k, a)
  {
    var b := PrivateBlock(k, t, x);
    PayloadInHeap(k, a, x);
    InOneBlock(k, a, b.value, x);
  }

  lemma NotOwnStack(k: Machine, t: nat, x: nat)
    requires Owned(k) && k.sched.queue != [] && t != Running(k) && Private(k, t, x)
    ensures !OwnStack(k, x)
  {
    if Running(k) in k.places && Private(k, Running(k), x) {
      PrivateOnce(k, t, Running(k), x);
    }
  }

  /** The blocks of t are among `live`, as large as they were. */
  ghost predicate Survive(k: Machine, live: map<nat, nat>, t: nat)
    requires t in k.places
  {
    var p := k.places[t];
    && p.record in Live(k) && p.record in live && live[p.record] == Live(k)[p.record]
    && (p.stack.Some? ==>
          p.stack.value in Live(k) && p.stack.value in live && live[p.stack.value] == Live(k)[p.stack.value])
    && forall a: nat :: Holds(k, t, a) ==> a in live && live[a] == Live(k)[a]
  }

  lemma PrivateFromKernel(k: Machine, live: map<nat, nat>, t: nat, x: nat)
    requires Owned(k) && k.sched.queue != [] && t != Running(k) && Private(k, t, x) && Survive(k, live, t)
    ensures !KernelMayWrite(k, live, x)
  {
    var b := PrivateBlock(k, t, x);
    NotOwnStack(k, t, x);
    if b.Some? {
      assert InPayload(live, b.value, x);
    }
  }

  // -------------------------------------------------------------------------------------------
  // Suspended tasks
  // -------------------------------------------------------------------------------------------

  ghost predicate RspFits(k: Machine, t: nat, rsp: nat) {
    t in k.places && Lo(k, t) + 56 <= rsp <= Hi(k, t) && rsp % 8 == 0
  }

  /** The blocks that t holds have in m the contents they have in w. */
  ghost predicate HeldAsIn(k: Machine, m: Words, t: nat, w: Words) {
    forall x: nat :: HeldWord(k, t, x) ==> Read(m, x) == Read(w, x)
  }

  /** t is suspended; resuming it will bring back the registers r, and its stack from r.rsp up and the
      blocks it holds are as in w. */
  ghost predicate Parked(k: Machine, t: nat, r: Regs, w: Words) {
    var sound :=
      && t in k.places
      && RspFits(k, t, r.rsp) && FrameAt(k.mem, Read(k.mem, Slot(k, t)), r)
      && (forall x: nat :: r.rsp <= x < Hi(k, t) ==> Read(k.mem, x) == Read(w, x))
      && HeldAsIn(k, k.mem, t, w);
    sound
  }

  ghost predicate Suspended(k: Machine, t: nat) {
    t in k.places && Parked(k, t, Restored(k.mem, Read(k.mem, Slot(k, t))), k.mem)
  }

  ghost predicate Inv(k: Machine) {
    var sound :=
      && Owned(k) && RspFits(k, Running(k), k.regs.rsp)
      && forall t :: t in RunQueue.Members(k.sched.queue) && t != Running(k) ==> Suspended(k, t);
    sound
  }

  /** t holds the same blocks. */
  ghost predicate HeldSame(k: Machine, k': Machine, t: nat) {
    var sound := forall a: nat ::
      && (Holds(k', t, a) <==> Holds(k, t, a))
      && (Holds(k, t, a) ==> a in Live(k') && Live(k')[a] == Live(k)[a]);
    sound
  }

  /** Record and stack of t are still there, and still its own. */
  ghost predicate Stays(k: Machine, k': Machine, t: nat)
    requires t in k.places
  {
    var p := k.places[t];
    var sound :=
      && t in k'.places && k'.places[t] == p
      && p.record in Live(k) && p.record in Live(k') && Live(k')[p.record] == Live(k)[p.record]
      && p.record in k.owner && p.record in k'.owner && k'.owner[p.record] == k.owner[p.record]
      && (p.stack.Some? ==>
            && p.stack.value in Live(k) && p.stack.value in Live(k')
            && Live(k')[p.stack.value] == Live(k)[p.stack.value]
            && p.stack.value in k.owner && p.stack.value in k'.owner
            && k'.owner[p.stack.value] == k.owner[p.stack.value])
      && k'.bootLo == k.bootLo && k'.bootHi == k.bootHi;
    sound
  }

  lemma HeldWordSame(k: Machine, k': Machine, t: nat, x: nat)
    requires HeldSame(k, k', t)
    ensures HeldWord(k', t, x) <==> HeldWord(k, t, x)
  {
    if HeldWord(k, t, x) {
      var a: nat :| Holds(k, t, a) && InPayload(Live(k), a, x);
      assert Holds(k', t, a) && InPayload(Live(k'), a, x);
    }
    if HeldWord(k', t, x) {
      var a: nat :| Holds(k', t, a) && InPayload(Live(k'), a, x);
      assert Holds(k, t, a) && InPayload(Live(k), a, x);
    }
  }

  lemma HeldSameTransitive(k: Machine, k': Machine, k'': Machine, t: nat)
    requires HeldSame(k, k', t) && HeldSame(k', k'', t)
    ensures HeldSame(k, k'', t)
  {
  }

  lemma SamePrivate(k: Machine, k': Machine, t: nat, x: nat)
    requires t in k.places && Stays(k, k', t) && HeldSame(k, k', t)
    ensures Private(k', t, x) <==> Private(k, t, x)
  {
    HeldWordSame(k, k', t, x);
  }

  /** Nothing a suspended task depends on has changed. */
  lemma ParkedKept(k: Machine, k': Machine, t: nat, r: Regs, w: Words)
    requires Parked(k, t, r, w) && Quiet(k, k'.mem, t) && Stays(k, k', t) && HeldSame(k, k', t)
    ensures Parked(k', t, r, w)
  {
    var sp := r.rsp - 56;
    assert Private(k, t, Slot(k, t));
    assert forall x: nat :: sp <= x < Hi(k, t) ==> Private(k, t, x);
    assert Slot(k', t) == Slot(k, t) && Read(k'.mem, Slot(k', t)) == sp;
    assert FrameAt(k'.mem, sp, r);
    forall x: nat | HeldWord(k', t, x)
      ensures Read(k'.mem, x) == Read(w, x)
    {
      HeldWordSame(k, k', t, x);
      assert Private(k, t, x);
    }
  }

  lemma ParkedIsSuspended(k: Machine, t: nat, r: Regs, w: Words)
    requires Parked(k, t, r, w)
    ensures Suspended(k, t)
  {
    FrameUnique(k.mem, Read(k.mem, Slot(k, t)), r, Restored(k.mem, Read(k.mem, Slot(k, t))));
  }

  // -------------------------------------------------------------------------------------------
  // The steps
  // -------------------------------------------------------------------------------------------

  /** The machine after `reap`. */
  function Reaped(k: Machine): Machine {
    if k.sched.zombie.None? || k.sched.zombie.value !in k.places then k.(sched := RunQueue.Reap(k.sched))
    else
      var z := k.places[k.sched.zombie.value];
      var h := match z.stack
               case None => k.heap
               case Some(s) => BlockList.Step(k.heap, BlockList.Release(s));
      k.(sched := RunQueue.Reap(k.sched),
         heap := BlockList.Step(h, BlockList.Release(z.record)),
         places := k.places - {k.sched.zombie.value},
         owner := k.owner - {z.record} - if z.stack.Some? then {z.stack.value} else {})
  }

  /** The switch from u to v, for memory m. */
  function Jump(k: Machine, u: nat, v: nat, m: Words): Machine
    requires u in k.places && v in k.places && k.regs.rsp >= 56
  {
    if u == v then k.(mem := m)
    else
      var m' := Saved(m, k.regs, Slot(k, u));
      k.(mem := m', regs := Restored(m', Read(m, Slot(k, v))))
  }

  /** The running task holds a block for a record and another for a stack. */
  predicate HoldsBoth(k: Machine, a: nat, b: nat)
    requires k.sched.queue != []
  {
    && a != b && Holds(k, Running(k), a) && Live(k)[a] >= 48 && Holds(k, Running(k), b) && Live(k)[b] >= 0x4000
  }

  /** Record and stack are as `task_create` builds them. */
  predicate Built(a: nat, b: nat, r: Regs, m: Words) {
    r.rsp == Top(b) && Read(m, a + 32) == Top(b) - 56 && FrameAt(m, Top(b) - 56, r)
  }

  ghost predicate Legal(k: Machine, op: Op) {
    k.sched.queue != [] && Running(k) in k.places && k.regs.rsp >= 56 &&
    match op
    case Work(r, m) => RspFits(k, Running(k), r.rsp) && TaskWrites(k, m)
    case Malloc(size, available, m) => size > 0 && size % 16 == 0 && KernelWrites(k, Live(k), m)
    case Share(a) => Holds(k, Running(k), a)
    case Release(a, m) => Usable(k, a) && KernelWrites(k, Live(k) - {a}, m)
    case Link(t, a, b, entry, arg, trampoline, m) =>
      && t !in RunQueue.Known(k.sched)
      && HoldsBoth(k, a, b) && Built(a, b, FreshRegs(Top(b), entry, arg, trampoline), m)
      && KernelWrites(k, Live(k), m)
    case Yield(m) => KernelWrites(k, Live(Reaped(k)), m)
    case Exit(m) => Running(k) != k.sched.head && KernelWrites(k, Live(k), m)
  }

  /** `list_add`: the two blocks become the record and the stack of t. */
  function Linked(k: Machine, t: nat, a: nat, b: nat, m: Words): Machine
    requires k.sched.queue != []
  {
    k.(sched := RunQueue.Step(k.sched, RunQueue.Create(t)), places := k.places[t := Place(a, Some(b))],
       owner := k.owner[a := Record(t)][b := StackOf(t)], mem := m)
  }

  function Next(k: Machine, op: Op): Machine
    requires k.sched.queue != []
  {
    match op
    case Work(r, m) => k.(regs := r, mem := m)
    case Malloc(size, available, m) => Allocated(k, size, available, m)
    case Share(a) => k.(owner := k.owner[a := Shared])
    case Release(a, m) =>
      k.(heap := BlockList.Step(k.heap, BlockList.Release(a)), mem := m, owner := k.owner - {a})
    case Link(t, a, b, entry, arg, trampoline, m) => Linked(k, t, a, b, m)
    case Yield(m) => AfterYield(k, Reaped(k), m)
    case Exit(m) => AfterExit(k, m)
  }

  /** After `kmalloc`: the caller holds the new block. */
  function Allocated(k: Machine, size: nat, available: nat, m: Words): Machine
    requires k.sched.queue != []
  {
    k.(heap := BlockList.Step(k.heap, BlockList.Malloc(size, available)), mem := m,
       owner := match BlockList.Result(k.heap, size, available)
                case None => k.owner
                case Some(a) => k.owner[a := Held(Running(k))])
  }

  /** `schedule` from a tick or a yield; k1 is the machine after `reap`. */
  function AfterYield(k: Machine, k1: Machine, m: Words): Machine
    requires k.sched.queue != []
  {
    var q := RunQueue.Rotate(k.sched.queue);
    if Running(k) in k1.places && q[0] in k1.places && k1.regs.rsp >= 56
    then Jump(k1, Running(k), q[0], m).(sched := RunQueue.Step(k.sched, RunQueue.Switch))
    else k
  }

  /** `task_exit`: off the queue, into the zombie slot, and away. */
  function AfterExit(k: Machine, m: Words): Machine
    requires k.sched.queue != []
  {
    var s := RunQueue.Step(k.sched, RunQueue.Exit);
    if s.queue != [] && Running(k) in k.places && s.queue[0] in k.places && k.regs.rsp >= 56
    then Jump(k, Running(k), s.queue[0], m).(sched := s)
    else k
  }

  // -------------------------------------------------------------------------------------------
  // Every step keeps the ownership of blocks
  // -------------------------------------------------------------------------------------------

  lemma StaysItself(k: Machine)
    requires Owned(k)
    ensures forall t :: t in k.places ==> Stays(k, k, t) && Survive(k, Live(k), t)
  {
    forall t | t in k.places
      ensures Stays(k, k, t) && Survive(k, Live(k), t)
    {
      assert Placed(k, t);
    }
  }

  lemma WorkOwned(k: Machine, op: Op)
    requires Owned(k) && Legal(k, op) && op.Work?
    ensures Owned(Next(k, op))
    ensures forall t :: t in k.places ==> Stays(k, Next(k, op), t) && HeldSame(k, Next(k, op), t)
  {
    var k' := Next(k, op);
    forall t | t in k.places
      ensures Stays(k, k', t) && HeldSame(k, k', t) && Placed(k', t)
    {
      assert Placed(k, t);
    }
  }

  lemma MallocOwned(k: Machine, size: nat, available: nat, m: Words)
    requires Owned(k) && k.sched.queue != [] && size > 0 && size % 16 == 0
    ensures Owned(Allocated(k, size, available, m))
    ensures forall t :: t in k.places ==> Stays(k, Allocated(k, size, available, m), t)
    ensures forall t :: t != Running(k) ==> HeldSame(k, Allocated(k, size, available, m), t)
  {
    var k' := Allocated(k, size, available, m);
    BlockList.StepInv(k.heap, BlockList.Malloc(size, available));
    BlockList.StepLive(k.heap, BlockList.Malloc(size, available));
    forall t | t in k.places
      ensures Stays(k, k', t) && Placed(k', t)
    {
      assert Placed(k, t);
    }
  }

  lemma ShareOwned(k: Machine, op: Op)
    requires Owned(k) && Legal(k, op) && op.Share?
    ensures Owned(Next(k, op))
    ensures forall t :: t in k.places ==> Stays(k, Next(k, op), t)
    ensures forall t :: t != Running(k) ==> HeldSame(k, Next(k, op), t)
  {
    var k' := Next(k, op);
    forall t | t in k.places
      ensures Stays(k, k', t) && Placed(k', t)
    {
      assert Placed(k, t);
    }
  }

  lemma ReleaseOwned(k: Machine, op: Op)
    requires Owned(k) && Legal(k, op) && op.Release?
    ensures Owned(Next(k, op)) && Live(Next(k, op)) == Live(k) - {op.a}
    ensures forall t :: t in k.places ==> Stays(k, Next(k, op), t)
    ensures forall t :: t != Running(k) ==> HeldSame(k, Next(k, op), t)
  {
    var k' := Next(k, op);
    ReleaseBlocks(k, op);
    forall t | t in k.places
      ensures Stays(k, k', t) && Placed(k', t)
    {
      ReleaseStays(k, op, t);
    }
  }

  lemma ReleaseBlocks(k: Machine, op: Op)
    requires Owned(k) && Legal(k, op) && op.Release?
    ensures BlockList.Inv(Next(k, op).heap) && Live(Next(k, op)) == Live(k) - {op.a}
    ensures forall t :: t != Running(k) ==> HeldSame(k, Next(k, op), t)
  {
    BlockList.StepInv(k.heap, BlockList.Release(op.a));
    BlockList.StepLive(k.heap, BlockList.Release(op.a));
  }

  lemma ReleaseStays(k: Machine, op: Op, t: nat)
    requires Owned(k) && Legal(k, op) && op.Release? && t in k.places
    ensures Stays(k, Next(k, op), t) && Placed(Next(k, op), t)
  {
    ReleaseBlocks(k, op);
    assert Placed(k, t);
  }

  /** Releasing two blocks takes exactly them. */
  lemma TwoReleased(h: BlockList.State, a: nat, b: nat)
    requires BlockList.Inv(h)
    ensures
      var h' := BlockList.Step(BlockList.Step(h, BlockList.Release(a)), BlockList.Release(b));
      BlockList.Inv(h') && BlockList.Live(h'.blocks) == BlockList.Live(h.blocks) - {a, b}
  {
    var h1 := BlockList.Step(h, BlockList.Release(a));
    BlockList.StepInv(h, BlockList.Release(a));
    BlockList.StepLive(h, BlockList.Release(a));
    BlockList.StepInv(h1, BlockList.Release(b));
    BlockList.StepLive(h1, BlockList.Release(b));
    assert BlockList.Live(h.blocks) - {a} - {b} == BlockList.Live(h.blocks) - {a, b};
  }

  /** Reaping takes the blocks of the zombie, and its place. */
  lemma ReapedBlocks(k: Machine)
    requires Owned(k)
    ensures BlockList.Inv(Reaped(k).heap) && Reaped(k).sched == RunQueue.Reap(k.sched)
    ensures k.sched.zombie.None? ==> Reaped(k) == k
    ensures k.sched.zombie.Some? ==>
              var z := k.sched.zombie.value;
              && Placed(k, z) && z in k.places && k.places[z].stack.Some?
              && Reaped(k).places == k.places - {z}
              && Live(Reaped(k)) == Live(k) - {k.places[z].stack.value, k.places[z].record}
              && Reaped(k).owner == k.owner - {k.places[z].stack.value, k.places[z].record}
  {
    if k.sched.zombie.Some? {
      var z := k.sched.zombie.value;
      assert Placed(k, z);
      TwoReleased(k.heap, k.places[z].stack.value, k.places[z].record);
    }
  }

  lemma ReapedInv(s: RunQueue.Sched<nat>)
    requires RunQueue.Inv(s)
    ensures RunQueue.Inv(RunQueue.Reap(s)) && RunQueue.Known(RunQueue.Reap(s)) == RunQueue.Known(s)
    ensures Unfreed(RunQueue.Reap(s)) == Unfreed(s) - if s.zombie.Some? then {s.zombie.value} else {}
  {
    if s.zombie.Some? {
      RunQueue.AppendMember(s.freed, s.zombie.value);
    }
  }

  lemma ReapedOwned(k: Machine)
    requires Owned(k)
    ensures Owned(Reaped(k)) && Reaped(k).sched == RunQueue.Reap(k.sched)
    ensures forall t :: t in k.places && Some(t) != k.sched.zombie ==> Stays(k, Reaped(k), t)
  {
    var k' := Reaped(k);
    ReapedBlocks(k);
    ReapedInv(k.sched);
    forall t | t in k.places && Some(t) != k.sched.zombie
      ensures Stays(k, k', t) && Placed(k', t)
    {
      ReapedStays(k, t);
    }
  }

  lemma ReapedStays(k: Machine, t: nat)
    requires Owned(k) && t in k.places && Some(t) != k.sched.zombie
    ensures Stays(k, Reaped(k), t) && Placed(Reaped(k), t)
  {
    assert Placed(k, t);
    ReapedBlocks(k);
    ReapedInv(k.sched);
  }

  lemma ReapedHeld(k: Machine)
    requires Owned(k)
    ensures forall t :: HeldSame(k, Reaped(k), t)
  {
    ReapedBlocks(k);
  }

  lemma CreatedInv(s: RunQueue.Sched<nat>, t: nat)
    requires RunQueue.Inv(s) && t !in RunQueue.Known(s)
    ensures RunQueue.Inv(RunQueue.Step(s, RunQueue.Create(t)))
    ensures RunQueue.Known(RunQueue.Step(s, RunQueue.Create(t))) == RunQueue.Known(s) + {t}
    ensures t !in Unfreed(s) && Unfreed(RunQueue.Step(s, RunQueue.Create(t))) == Unfreed(s) + {t}
    ensures t != s.head && RunQueue.Step(s, RunQueue.Create(t)).head == s.head
  {
    RunQueue.StepInv(s, RunQueue.Create(t));
  }

  lemma LinkStays(k: Machine, t: nat, a: nat, b: nat, m: Words)
    requires Owned(k) && k.sched.queue != [] && t !in RunQueue.Known(k.sched) && HoldsBoth(k, a, b)
    ensures t !in k.places
    ensures forall u :: u in k.places ==> Stays(k, Linked(k, t, a, b, m), u)
  {
    forall u | u in k.places
      ensures Stays(k, Linked(k, t, a, b, m), u)
    {
      assert Placed(k, u);
    }
  }

  lemma LinkHeld(k: Machine, t: nat, a: nat, b: nat, m: Words, u: nat)
    requires k.sched.queue != [] && HoldsBoth(k, a, b) && u != Running(k)
    ensures HeldSame(k, Linked(k, t, a, b, m), u)
  {
  }

  lemma PlacedStays(k: Machine, k': Machine, t: nat)
    requires Placed(k, t) && Stays(k, k', t) && k'.sched.head == k.sched.head
    ensures Placed(k', t)
  {
  }

  lemma LinkNames(k: Machine, t: nat, a: nat, b: nat, m: Words)
    requires Owned(k) && k.sched.queue != [] && t !in RunQueue.Known(k.sched) && HoldsBoth(k, a, b)
    ensures
      var k' := Linked(k, t, a, b, m);
      && RunQueue.Inv(k'.sched) && k'.sched.head == k.sched.head && t != k.sched.head
      && k'.places.Keys == Unfreed(k'.sched) && k'.owner.Keys == k.owner.Keys && HoldersKnown(k'.owner, k'.sched)
  {
    CreatedInv(k.sched, t);
    assert Linked(k, t, a, b, m).places.Keys == k.places.Keys + {t};
  }

  lemma LinkPlaced(k: Machine, t: nat, a: nat, b: nat, m: Words)
    requires k.sched.queue != [] && t != k.sched.head && HoldsBoth(k, a, b)
    ensures Placed(Linked(k, t, a, b, m), t)
  {
  }

  lemma LinkOwned(k: Machine, t: nat, a: nat, b: nat, m: Words)
    requires Owned(k) && k.sched.queue != [] && t !in RunQueue.Known(k.sched) && HoldsBoth(k, a, b)
    ensures Owned(Linked(k, t, a, b, m))
  {
    var k' := Linked(k, t, a, b, m);
    LinkNames(k, t, a, b, m);
    LinkStays(k, t, a, b, m);
    LinkPlaced(k, t, a, b, m);
    forall u | u in k'.places
      ensures Placed(k', u)
    {
      if u != t {
        PlacedStays(k, k', u);
      }
    }
  }
}
