/** The first machine, and how tasks are created in it: `sched_init` and `task_create` of
    src/sched/sched.c as runs of the machine of Isolation.dfy. */
module TaskCreation {
  import opened Prelude
  import opened Switch
  import opened Isolation
  import opened IsolatedSteps
  import opened IsolatedRuns
  import BlockList
  import RunQueue

  // -------------------------------------------------------------------------------------------
  // The first machine
  // -------------------------------------------------------------------------------------------

  /** After `sched_init`, on a heap g from which blocks may have been allocated before: the boot task
      runs on the boot stack. */
  function Booted(r: Regs, m: Words, g: BlockList.State, available: nat, bootLo: nat, bootHi: nat): Machine
    requires BlockList.Result(g, 48, available).Some?
  {
    var a := BlockList.Result(g, 48, available).value;
    Machine(r, m, BlockList.Step(g, BlockList.Malloc(48, available)), RunQueue.Sched([0], 0, None, [], {}),
            map[0 := Place(a, None)], (map b | b in BlockList.Live(g.blocks) :: Shared)[a := Record(0)], bootLo, bootHi)
  }

  lemma BootedInv(r: Regs, m: Words, g: BlockList.State, available: nat, bootLo: nat, bootHi: nat)
    requires BlockList.Inv(g) && BlockList.Result(g, 48, available).Some?
    requires bootLo + 56 <= r.rsp <= bootHi <= BlockList.BASE && r.rsp % 8 == 0
    ensures Inv(Booted(r, m, g, available, bootLo, bootHi))
  {
    var k := Booted(r, m, g, available, bootLo, bootHi);
    BlockList.StepInv(g, BlockList.Malloc(48, available));
    BlockList.StepLive(g, BlockList.Malloc(48, available));
    assert RunQueue.Members([0][1..]) == {};
    assert Placed(k, 0);
  }

  // -------------------------------------------------------------------------------------------
  // Creating a task
  // -------------------------------------------------------------------------------------------

  /** The two allocations of `task_create`: a record of 40 bytes, rounded up, and a stack. */
  function RecordBlock(k: Machine, first: nat): Option<nat> {
    BlockList.Result(k.heap, 48, first)
  }

  function StackBlock(k: Machine, first: nat, second: nat): Option<nat> {
    BlockList.Result(BlockList.Step(k.heap, BlockList.Malloc(48, first)), 0x4000, second)
  }

  /** `task_create` without interruption: two allocations, the record and the frame, the link. */
  function Creation(k: Machine, t: nat, first: nat, second: nat, entry: nat, arg: nat, trampoline: nat): seq<Op>
    requires RecordBlock(k, first).Some? && StackBlock(k, first, second).Some?
  {
    var a, b := RecordBlock(k, first).value, StackBlock(k, first, second).value;
    CreationIn(k, t, a, b, first, second, entry, arg, trampoline)
  }

  function CreationIn(k: Machine, t: nat, a: nat, b: nat, first: nat, second: nat,
                      entry: nat, arg: nat, trampoline: nat): seq<Op>
  {
    var m := Saved(k.mem, FreshRegs(Top(b), entry, arg, trampoline), a + 32);
    [Malloc(48, first, k.mem), Malloc(0x4000, second, k.mem), Work(k.regs, m), Link(t, a, b, entry, arg, trampoline, m)]
  }

  /** What `task_create` writes lies in the two blocks. */
  lemma BlocksWritten(k: Machine, a: nat, b: nat, r: Regs, m: Words)
    requires k.sched.queue != [] && HoldsBoth(k, a, b) && r.rsp == Top(b) && Suspends(k.mem, m, r, a + 32)
    ensures TaskWrites(k, m) && Built(a, b, r, m)
  {
    forall x: nat
      ensures Read(m, x) == Read(k.mem, x) || TaskMayWrite(k, x)
    {
      if x == a + 32 {
        assert InPayload(Live(k), a, x) && Usable(k, a);
      } else if Top(b) - 56 <= x < Top(b) {
        assert InPayload(Live(k), b, x) && Usable(k, b);
      }
    }
  }

  lemma BuiltInBlocks(k: Machine, a: nat, b: nat, r: Regs)
    requires Owned(k) && k.sched.queue != [] && HoldsBoth(k, a, b) && r.rsp == Top(b)
    ensures TaskWrites(k, Saved(k.mem, r, a + 32)) && Built(a, b, r, Saved(k.mem, r, a + 32))
  {
    var slot := a + 32;
    BlockList.LiveDisjoint(k.heap.blocks, BlockList.BASE, k.heap.hi, a, b);
    SavedFrame(k.mem, r, slot);
    BlocksWritten(k, a, b, r, Saved(k.mem, r, slot));
  }

  /** Two requests in a row: two new blocks, both held by the caller. */
  lemma TwoAllocated(k: Machine, first: nat, second: nat, m: Words)
    requires Inv(k) && k.sched.queue != [] && RecordBlock(k, first).Some? && StackBlock(k, first, second).Some?
    ensures
      var k2 := Allocated(Allocated(k, 48, first, m), 0x4000, second, m);
      k2.sched == k.sched && HoldsBoth(k2, RecordBlock(k, first).value, StackBlock(k, first, second).value)
  {
    var h := BlockList.Step(k.heap, BlockList.Malloc(48, first));
    BlockList.StepInv(k.heap, BlockList.Malloc(48, first));
    BlockList.StepLive(k.heap, BlockList.Malloc(48, first));
    BlockList.StepInv(h, BlockList.Malloc(0x4000, second));
    BlockList.StepLive(h, BlockList.Malloc(0x4000, second));
  }

  /** Both allocations succeed exactly if there is room for both. */
  lemma RoomForTask(k: Machine, first: nat, second: nat)
    requires BlockList.Inv(k.heap)
    ensures RecordBlock(k, first).Some? && StackBlock(k, first, second).Some?
       <==> BlockList.Served(k.heap, 48, first)
            && BlockList.Served(BlockList.Step(k.heap, BlockList.Malloc(48, first)), 0x4000, second)
  {
    var h := BlockList.Step(k.heap, BlockList.Malloc(48, first));
    BlockList.StepInv(k.heap, BlockList.Malloc(48, first));
    BlockList.StepLive(k.heap, BlockList.Malloc(48, first));
    BlockList.StepLive(h, BlockList.Malloc(0x4000, second));
  }

  /** In every state in which there is room for a record and a stack, any task can create another. */
  lemma TaskCanBeCreated(k: Machine, t: nat, first: nat, second: nat, entry: nat, arg: nat, trampoline: nat)
    requires Inv(k) && k.sched.queue != [] && t !in RunQueue.Known(k.sched)
    requires BlockList.Served(k.heap, 48, first)
    requires BlockList.Served(BlockList.Step(k.heap, BlockList.Malloc(48, first)), 0x4000, second)
    ensures RecordBlock(k, first).Some? && StackBlock(k, first, second).Some?
    ensures LegalRun(k, Creation(k, t, first, second, entry, arg, trampoline))
  {
    RoomForTask(k, first, second);
    CreationLegal(k, t, first, second, entry, arg, trampoline);
  }

  lemma CreationLegal(k: Machine, t: nat, first: nat, second: nat, entry: nat, arg: nat, trampoline: nat)
    requires Inv(k) && k.sched.queue != [] && t !in RunQueue.Known(k.sched)
    requires RecordBlock(k, first).Some? && StackBlock(k, first, second).Some?
    ensures LegalRun(k, Creation(k, t, first, second, entry, arg, trampoline))
  {
    var a, b := RecordBlock(k, first).value, StackBlock(k, first, second).value;
    var k1 := Allocated(k, 48, first, k.mem);
    var k2 := Allocated(k1, 0x4000, second, k.mem);
    CanMalloc(k, 48, first);
    CanMalloc(k1, 0x4000, second);
    TwoAllocated(k, first, second, k.mem);
    CreationEnds(k, k1, k2, t, first, second, a, b, entry, arg, trampoline);
  }

  lemma CreationEnds(k: Machine, k1: Machine, k2: Machine, t: nat, first: nat, second: nat, a: nat, b: nat,
                     entry: nat, arg: nat, trampoline: nat)
    requires Inv(k2) && k2.sched.queue != [] && t !in RunQueue.Known(k2.sched) && HoldsBoth(k2, a, b)
    requires k2.mem == k.mem && k2.regs == k.regs
    requires CanStep(k, Malloc(48, first, k.mem), k1) && CanStep(k1, Malloc(0x4000, second, k.mem), k2)
    ensures LegalRun(k, CreationIn(k, t, a, b, first, second, entry, arg, trampoline))
  {
    var m := Saved(k.mem, FreshRegs(Top(b), entry, arg, trampoline), a + 32);
    CanLink(k2, t, a, b, entry, arg, trampoline);
    FourSteps(k, k1, k2, k2.(mem := m), Linked(k2.(mem := m), t, a, b, m), Malloc(48, first, k.mem),
              Malloc(0x4000, second, k.mem), Work(k.regs, m), Link(t, a, b, entry, arg, trampoline, m));
  }

  /** op leads from k to k'. */
  ghost predicate CanStep(k: Machine, op: Op, k': Machine) {
    var sound := k.sched.queue != [] && Legal(k, op) && Next(k, op) == k';
    sound
  }

  lemma CanMalloc(k: Machine, size: nat, available: nat)
    requires Inv(k) && k.sched.queue != [] && size > 0 && size % 16 == 0
    ensures CanStep(k, Malloc(size, available, k.mem), Allocated(k, size, available, k.mem))
    ensures Inv(Allocated(k, size, available, k.mem)) && Allocated(k, size, available, k.mem).sched == k.sched
  {
    StepInv(k, Malloc(size, available, k.mem));
  }

  /** The holder of two blocks can make a task of them. */
  lemma CanLink(k: Machine, t: nat, a: nat, b: nat, entry: nat, arg: nat, trampoline: nat)
    requires Inv(k) && k.sched.queue != [] && t !in RunQueue.Known(k.sched) && HoldsBoth(k, a, b)
    ensures
      var m := Saved(k.mem, FreshRegs(Top(b), entry, arg, trampoline), a + 32);
      var k' := k.(mem := m);
      && CanStep(k, Work(k.regs, m), k')
      && CanStep(k', Link(t, a, b, entry, arg, trampoline, m), Linked(k', t, a, b, m))
  {
    var r := FreshRegs(Top(b), entry, arg, trampoline);
    BuiltInBlocks(k, a, b, r);
    CanWork(k, Saved(k.mem, r, a + 32));
    LinkAllowed(k.(mem := Saved(k.mem, r, a + 32)), t, a, b, entry, arg, trampoline);
  }

  lemma CanWork(k: Machine, m: Words)
    requires Inv(k) && k.sched.queue != [] && TaskWrites(k, m)
    ensures CanStep(k, Work(k.regs, m), k.(mem := m))
  {
  }

  lemma LinkAllowed(k: Machine, t: nat, a: nat, b: nat, entry: nat, arg: nat, trampoline: nat)
    requires k.sched.queue != [] && Running(k) in k.places && k.regs.rsp >= 56
    requires t !in RunQueue.Known(k.sched) && HoldsBoth(k, a, b)
    requires Built(a, b, FreshRegs(Top(b), entry, arg, trampoline), k.mem)
    ensures CanStep(k, Link(t, a, b, entry, arg, trampoline, k.mem), Linked(k, t, a, b, k.mem))
  {
  }

  lemma FourSteps(k: Machine, k1: Machine, k2: Machine, k3: Machine, k4: Machine, op: Op, op1: Op, op2: Op, op3: Op)
    requires CanStep(k, op, k1) && CanStep(k1, op1, k2) && CanStep(k2, op2, k3) && CanStep(k3, op3, k4)
    ensures LegalRun(k, [op, op1, op2, op3])
  {
    OneMore(k3, op3, k4, []);
    OneMore(k2, op2, k3, [op3]);
    OneMore(k1, op1, k2, [op2, op3]);
    OneMore(k, op, k1, [op1, op2, op3]);
  }

  lemma OneMore(k: Machine, op: Op, k': Machine, ops: seq<Op>)
    requires CanStep(k, op, k') && LegalRun(k', ops)
    ensures LegalRun(k, [op] + ops)
  {
    assert ([op] + ops)[1..] == ops;
  }
}
