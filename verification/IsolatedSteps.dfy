/** What the steps of the machine of Isolation.dfy do to its tasks: nothing to the suspended ones, or
    they resume one as it was. */
module IsolatedSteps {
  import opened Prelude
  import opened Switch
  import opened Isolation
  import BlockList
  import RunQueue

  // -------------------------------------------------------------------------------------------
  // Every step leaves the suspended tasks alone
  // -------------------------------------------------------------------------------------------

  lemma TaskQuiet(k: Machine, m: Words, t: nat)
    requires Owned(k) && k.sched.queue != [] && t != Running(k) && TaskWrites(k, m)
    ensures Quiet(k, m, t)
  {
    forall x: nat | Private(k, t, x)
      ensures Read(m, x) == Read(k.mem, x)
    {
      PrivateFromTask(k, t, x);
    }
  }

  lemma KernelQuiet(k: Machine, live: map<nat, nat>, m: Words, t: nat)
    requires Owned(k) && k.sched.queue != [] && t != Running(k) && t in k.places
    requires Survive(k, live, t) && KernelWrites(k, live, m)
    ensures Quiet(k, m, t)
  {
    forall x: nat | Private(k, t, x)
      ensures Read(m, x) == Read(k.mem, x)
    {
      PrivateFromKernel(k, live, t, x);
    }
  }

  lemma StaysSurvives(k: Machine, k': Machine, t: nat)
    requires t in k.places && Stays(k, k', t) && HeldSame(k, k', t)
    ensures Survive(k, Live(k'), t)
  {
  }

  /** Saving u's registers touches u's stack and u's slot only. */
  lemma SavedQuiet(k: Machine, u: nat, r: Regs, m: Words, m': Words, t: nat)
    requires Owned(k) && t != u && t in k.places && RspFits(k, u, r.rsp)
    requires Suspends(m, m', r, Slot(k, u))
    ensures forall x: nat :: Private(k, t, x) ==> Read(m', x) == Read(m, x)
  {
    var rsp, slot := r.rsp, Slot(k, u);
    forall x: nat | Private(k, t, x)
      ensures Read(m', x) == Read(m, x)
    {
      if Private(k, u, x) {
        PrivateOnce(k, t, u, x);
      }
      assert x != slot && !(rsp - 56 <= x < rsp);
    }
  }

  lemma JumpQuiet(k: Machine, u: nat, m: Words, t: nat)
    requires Owned(k) && t != u && t in k.places && RspFits(k, u, k.regs.rsp)
    requires Quiet(k, m, t)
    ensures Quiet(k, Saved(m, k.regs, Slot(k, u)), t)
  {
    OwnApart(k, u);
    SavedFrame(m, k.regs, Slot(k, u));
    SavedQuiet(k, u, k.regs, m, Saved(m, k.regs, Slot(k, u)), t);
  }

  /** A task whose registers have been saved is parked with them. */
  lemma SavedParks(k: Machine, t: nat, m: Words, r: Regs)
    requires t in k.places && RspFits(k, t, r.rsp) && Suspends(m, k.mem, r, Slot(k, t))
    requires Slot(k, t) + 8 <= Lo(k, t) || Hi(k, t) <= Slot(k, t)
    requires forall x: nat :: HeldWord(k, t, x) ==> x != Slot(k, t) && !(Lo(k, t) <= x < Hi(k, t))
    ensures Parked(k, t, r, m)
  {
  }

  /** Registers, memory and queue do not matter for who holds what. */
  lemma SameBlocks(k: Machine, k': Machine, t: nat)
    requires k' == k.(regs := k'.regs, mem := k'.mem, sched := k'.sched)
    ensures HeldSame(k, k', t)
    ensures Owned(k) && t in k.places ==> Stays(k, k', t)
    ensures forall x: nat :: HeldWord(k', t, x) <==> HeldWord(k, t, x)
  {
    assert Owned(k) && t in k.places ==> Placed(k, t);
    forall x: nat
      ensures HeldWord(k', t, x) <==> HeldWord(k, t, x)
    {
      HeldWordSame(k, k', t, x);
    }
  }

  /** Whoever is switched away is parked with the registers it had. */
  lemma JumpParks(k: Machine, u: nat, v: nat, m: Words)
    requires Owned(k) && u != v && v in k.places && RspFits(k, u, k.regs.rsp)
    ensures Parked(Jump(k, u, v, m), u, k.regs, m)
  {
    OwnApart(k, u);
    SavedFrame(m, k.regs, Slot(k, u));
    SavedStays(k, Jump(k, u, v, m), u, m, k.regs);
  }

  lemma SavedStays(k: Machine, k': Machine, t: nat, m: Words, r: Regs)
    requires Owned(k) && k' == k.(regs := k'.regs, mem := k'.mem, sched := k'.sched)
    requires RspFits(k, t, r.rsp) && Suspends(m, k'.mem, r, Slot(k, t))
    ensures Parked(k', t, r, m)
  {
    SameBlocks(k, k', t);
    OwnApart(k, t);
    SavedParks(k', t, m, r);
  }

  /** Whoever is switched to gets back the registers with which it was parked. */
  lemma JumpResumes(k: Machine, u: nat, v: nat, m: Words, r: Regs, w: Words)
    requires Owned(k) && u != v && RspFits(k, u, k.regs.rsp)
    requires Parked(k, v, r, w) && Quiet(k, m, v)
    ensures Jump(k, u, v, m).regs == r && Intact(Jump(k, u, v, m), v, r, w)
  {
    var m' := Saved(m, k.regs, Slot(k, u));
    JumpQuiet(k, u, m, v);
    var k1 := k.(mem := m');
    SameBlocks(k, k1, v);
    ParkedKept(k, k1, v, r, w);
    assert Private(k, v, Slot(k, v));
    FrameUnique(m', Read(m', Slot(k, v)), r, Restored(m', Read(m', Slot(k, v))));
    SameBlocks(k1, Jump(k, u, v, m), v);
  }

  /** The stack of t from r.rsp up and the blocks it holds are as in w. */
  ghost predicate Intact(k: Machine, t: nat, r: Regs, w: Words) {
    var sound :=
      && t in k.places && (forall x: nat :: r.rsp <= x < Hi(k, t) ==> Read(k.mem, x) == Read(w, x))
      && HeldAsIn(k, k.mem, t, w);
    sound
  }

  lemma JumpKeeps(k: Machine, u: nat, v: nat, m: Words, t: nat, r: Regs, w: Words)
    requires Owned(k) && u != v && v in k.places && t != u && RspFits(k, u, k.regs.rsp)
    requires Parked(k, t, r, w) && Quiet(k, m, t)
    ensures Parked(Jump(k, u, v, m), t, r, w)
  {
    JumpQuiet(k, u, m, t);
    SameBlocks(k, Jump(k, u, v, m), t);
    ParkedKept(k, Jump(k, u, v, m), t, r, w);
  }

  /** A linked task is parked with the registers of the frame that was built for it, on its own,
      16-aligned, empty stack. */
  lemma LinkParked(k: Machine, t: nat, a: nat, b: nat, r: Regs, m: Words)
    requires Owned(k) && k.sched.queue != [] && t !in RunQueue.Known(k.sched) && HoldsBoth(k, a, b)
    requires Built(a, b, r, m)
    ensures
      var k' := Linked(k, t, a, b, m);
      t in k'.places && Parked(k', t, r, m) && r.rsp == Hi(k', t) && r.rsp % 16 == 0
  {
    BlockList.LiveAbove(k.heap.blocks, BlockList.BASE, k.heap.hi, b);
    TopAligned(b);
    EightDivides(Top(b));
  }

  /** What a step may do to a suspended task: nothing, or resume it as it was. */
  ghost predicate Untouched(k: Machine, k': Machine, t: nat, r: Regs, w: Words) {
    var sound :=
      && t in k.places && Stays(k, k', t) && HeldSame(k, k', t)
      && k'.sched.queue != [] && t in RunQueue.Members(k'.sched.queue)
      && if Running(k') == t then k'.regs == r && Intact(k', t, r, w) else Parked(k', t, r, w);
    sound
  }

  /** t waits in the queue, parked with r. */
  ghost predicate Waiting(k: Machine, t: nat, r: Regs, w: Words) {
    var sound :=
      && k.sched.queue != [] && t in RunQueue.Members(k.sched.queue) && t != Running(k)
      && t in k.places && Parked(k, t, r, w);
    sound
  }

  lemma WorkUntouched(k: Machine, op: Op, t: nat, r: Regs, w: Words)
    requires Owned(k) && Legal(k, op) && op.Work? && Waiting(k, t, r, w)
    ensures Untouched(k, Next(k, op), t, r, w)
  {
    WorkOwned(k, op);
    TaskQuiet(k, op.mem, t);
    ParkedKept(k, Next(k, op), t, r, w);
  }

  lemma MallocUntouched(k: Machine, size: nat, available: nat, m: Words, t: nat, r: Regs, w: Words)
    requires Owned(k) && k.sched.queue != [] && size > 0 && size % 16 == 0 && KernelWrites(k, Live(k), m)
    requires Waiting(k, t, r, w)
    ensures Untouched(k, Allocated(k, size, available, m), t, r, w)
  {
    MallocOwned(k, size, available, m);
    StaysItself(k);
    KernelQuiet(k, Live(k), m, t);
    ParkedKept(k, Allocated(k, size, available, m), t, r, w);
  }

  lemma ShareUntouched(k: Machine, op: Op, t: nat, r: Regs, w: Words)
    requires Owned(k) && Legal(k, op) && op.Share? && Waiting(k, t, r, w)
    ensures Untouched(k, Next(k, op), t, r, w)
  {
    ShareOwned(k, op);
    ParkedKept(k, Next(k, op), t, r, w);
  }

  lemma ReleaseUntouched(k: Machine, op: Op, t: nat, r: Regs, w: Words)
    requires Owned(k) && Legal(k, op) && op.Release? && Waiting(k, t, r, w)
    ensures Untouched(k, Next(k, op), t, r, w)
  {
    ReleaseOwned(k, op);
    StaysSurvives(k, Next(k, op), t);
    KernelQuiet(k, Live(k) - {op.a}, op.mem, t);
    ParkedKept(k, Next(k, op), t, r, w);
  }

  lemma LinkUntouched(k: Machine, nt: nat, a: nat, b: nat, m: Words, t: nat, r: Regs, w: Words)
    requires Owned(k) && k.sched.queue != [] && nt !in RunQueue.Known(k.sched) && HoldsBoth(k, a, b)
    requires KernelWrites(k, Live(k), m) && Waiting(k, t, r, w)
    ensures Untouched(k, Linked(k, nt, a, b, m), t, r, w)
  {
    LinkStays(k, nt, a, b, m);
    LinkHeld(k, nt, a, b, m, t);
    StaysItself(k);
    KernelQuiet(k, Live(k), m, t);
    ParkedKept(k, Linked(k, nt, a, b, m), t, r, w);
    RunQueue.InsertAfterMembers(k.sched.queue, k.sched.head, nt);
  }

  /** After a switch to v, t has been resumed as it was, or is parked as it was. */
  ghost predicate Landed(k: Machine, v: nat, t: nat, r: Regs, w: Words) {
    var sound := if v == t then k.regs == r && Intact(k, t, r, w) else Parked(k, t, r, w);
    sound
  }

  lemma JumpUntouched(k: Machine, u: nat, v: nat, m: Words, t: nat, r: Regs, w: Words)
    requires Owned(k) && u != v && v in k.places && RspFits(k, u, k.regs.rsp)
    requires t != u && Parked(k, t, r, w) && Quiet(k, m, t)
    ensures Landed(Jump(k, u, v, m), v, t, r, w)
  {
    if v == t {
      JumpResumes(k, u, v, m, r, w);
    } else {
      JumpKeeps(k, u, v, m, t, r, w);
    }
  }

  /** The queue behind the running task. */
  lemma BehindFirst(s: RunQueue.Sched<nat>, t: nat)
    requires RunQueue.Inv(s) && t in RunQueue.Members(s.queue) && t != s.queue[0]
    ensures |s.queue| > 1 && s.queue[1] != s.queue[0] && s.queue[0] !in RunQueue.Members(s.queue[1..])
    ensures s.queue[0] in RunQueue.Members(s.queue)
    ensures s.queue[1] in RunQueue.Members(s.queue) && t in RunQueue.Members(s.queue[1..])
    ensures RunQueue.Rotate(s.queue)[0] == s.queue[1] && t in RunQueue.Members(RunQueue.Rotate(s.queue))
  {
    var q := s.queue;
    assert t in RunQueue.Members(q[1..]);
    assert q[1..] != [] && q[1] in RunQueue.Members(q[1..]);
    RunQueue.AppendMember(q[1..], q[0]);
  }

  lemma QueuePlaced(k: Machine, t: nat)
    requires Owned(k) && t in RunQueue.Members(k.sched.queue)
    ensures t in k.places && Some(t) != k.sched.zombie && t in Reaped(k).places
  {
    ReapedBlocks(k);
  }

  /** From the memory after a switch to the machine after it. */
  lemma Requeued(k: Machine, k1: Machine, j: Machine, s: RunQueue.Sched<nat>, t: nat, r: Regs, w: Words)
    requires t in k.places && Stays(k, k1, t) && HeldSame(k, k1, t) && Owned(k1)
    requires j == k1.(regs := j.regs, mem := j.mem)
    requires s.queue != [] && t in RunQueue.Members(s.queue)
    requires Landed(j, s.queue[0], t, r, w)
    ensures Untouched(k, j.(sched := s), t, r, w)
  {
    var k' := j.(sched := s);
    SameBlocks(k1, k', t);
    StaysTransitive(k, k1, k', t);
    HeldSameTransitive(k, k1, k', t);
    SameBlocks(j, k', t);
    SameStack(j, k', t);
    if s.queue[0] != t {
      ParkedKept(j, k', t, r, w);
    }
  }

  lemma StaysTransitive(k: Machine, k1: Machine, k2: Machine, t: nat)
    requires t in k.places && t in k1.places && Stays(k, k1, t) && Stays(k1, k2, t)
    ensures Stays(k, k2, t)
  {
  }

  lemma SameStack(k: Machine, k': Machine, t: nat)
    requires Placed(k, t) && k' == k.(sched := k'.sched)
    ensures Stays(k, k', t)
  {
  }

  /** `task_exit` switches to the second of the queue. */
  lemma ExitIs(k: Machine, m: Words, t: nat)
    requires Owned(k) && k.sched.queue != [] && RspFits(k, Running(k), k.regs.rsp)
    requires t in RunQueue.Members(k.sched.queue) && t != Running(k)
    ensures |k.sched.queue| > 1 && k.sched.queue[1] in k.places && k.sched.queue[1] != Running(k)
    ensures
      var s := RunQueue.Step(k.sched, RunQueue.Exit);
      && s.queue == k.sched.queue[1..] && s.queue[0] == k.sched.queue[1] && t in RunQueue.Members(s.queue)
      && AfterExit(k, m) == Jump(k, Running(k), k.sched.queue[1], m).(sched := s)
  {
    BehindFirst(k.sched, t);
    QueuePlaced(k, k.sched.queue[1]);
  }

  lemma ExitUntouched(k: Machine, m: Words, t: nat, r: Regs, w: Words)
    requires Owned(k) && k.sched.queue != [] && RspFits(k, Running(k), k.regs.rsp) && KernelWrites(k, Live(k), m)
    requires Waiting(k, t, r, w)
    ensures Untouched(k, AfterExit(k, m), t, r, w)
  {
    var u, v := Running(k), k.sched.queue[1];
    ExitIs(k, m, t);
    StaysItself(k);
    KernelQuiet(k, Live(k), m, t);
    JumpUntouched(k, u, v, m, t, r, w);
    SameBlocks(k, k, t);
    Requeued(k, k, Jump(k, u, v, m), RunQueue.Step(k.sched, RunQueue.Exit), t, r, w);
  }

  /** A tick or a yield, with someone else waiting, switches to the second of the queue. */
  lemma YieldIs(k: Machine, m: Words, t: nat)
    requires Owned(k) && k.sched.queue != [] && RspFits(k, Running(k), k.regs.rsp)
    requires t in RunQueue.Members(k.sched.queue) && t != Running(k)
    ensures |k.sched.queue| > 1 && k.sched.queue[1] != Running(k)
    ensures
      var s, k1, u, v := RunQueue.Step(k.sched, RunQueue.Switch), Reaped(k), Running(k), k.sched.queue[1];
      && s.queue != [] && s.queue[0] == v && t in RunQueue.Members(s.queue)
      && Owned(k1) && v in k1.places && RspFits(k1, u, k1.regs.rsp) && k1.mem == k.mem
      && AfterYield(k, k1, m) == Jump(k1, u, v, m).(sched := s)
  {
    var q := k.sched.queue;
    BehindFirst(k.sched, t);
    ReapedOwned(k);
    QueuePlaced(k, q[0]);
    QueuePlaced(k, q[1]);
    assert Stays(k, Reaped(k), q[0]);
  }

  lemma YieldUntouched(k: Machine, m: Words, t: nat, r: Regs, w: Words)
    requires Owned(k) && k.sched.queue != [] && RspFits(k, Running(k), k.regs.rsp)
    requires KernelWrites(k, Live(Reaped(k)), m)
    requires Waiting(k, t, r, w)
    ensures Untouched(k, AfterYield(k, Reaped(k), m), t, r, w)
  {
    var u, v, k1 := Running(k), k.sched.queue[1], Reaped(k);
    YieldIs(k, m, t);
    ReapedQuiet(k, m, t, r, w);
    JumpUntouched(k1, u, v, m, t, r, w);
    Requeued(k, k1, Jump(k1, u, v, m), RunQueue.Step(k.sched, RunQueue.Switch), t, r, w);
  }

  /** Reaping does not matter to a waiting task. */
  lemma ReapedQuiet(k: Machine, m: Words, t: nat, r: Regs, w: Words)
    requires Owned(k) && Waiting(k, t, r, w) && KernelWrites(k, Live(Reaped(k)), m)
    ensures Stays(k, Reaped(k), t) && HeldSame(k, Reaped(k), t)
    ensures Parked(Reaped(k), t, r, w) && Quiet(Reaped(k), m, t)
  {
    var k1 := Reaped(k);
    QueuePlaced(k, t);
    ReapedOwned(k);
    ReapedHeld(k);
    assert Stays(k, k1, t) && HeldSame(k, k1, t);
    StaysSurvives(k, k1, t);
    KernelQuiet(k, Live(k1), m, t);
    ParkedKept(k, k1, t, r, w);
    forall x: nat | Private(k1, t, x)
      ensures Read(m, x) == Read(k1.mem, x)
    {
      SamePrivate(k, k1, t, x);
    }
  }

  lemma StepUntouched(k: Machine, op: Op, t: nat, r: Regs, w: Words)
    requires Inv(k) && k.sched.queue != [] && Legal(k, op) && Waiting(k, t, r, w)
    ensures Untouched(k, Next(k, op), t, r, w)
  {
    match op
    case Work(_, _) => WorkUntouched(k, op, t, r, w);
    case Malloc(size, available, m) => MallocUntouched(k, size, available, m, t, r, w);
    case Share(_) => ShareUntouched(k, op, t, r, w);
    case Release(_, _) => ReleaseUntouched(k, op, t, r, w);
    case Link(nt, a, b, _, _, _, m) => LinkUntouched(k, nt, a, b, m, t, r, w);
    case Yield(m) => YieldUntouched(k, m, t, r, w);
    case Exit(m) => ExitUntouched(k, m, t, r, w);
  }

  // -------------------------------------------------------------------------------------------
  // Every step keeps the invariant
  // -------------------------------------------------------------------------------------------

  lemma YieldOwned(k: Machine, m: Words)
    requires Owned(k) && k.sched.queue != [] && RspFits(k, Running(k), k.regs.rsp)
    ensures Owned(AfterYield(k, Reaped(k), m))
  {
    var q, k1, k' := k.sched.queue, Reaped(k), AfterYield(k, Reaped(k), m);
    ReapedOwned(k);
    ReapedInv(k.sched);
    SwitchUnfreed(k.sched);
    QueuePlaced(k, q[0]);
    RotatedFirst(q);
    QueuePlaced(k, RunQueue.Rotate(q)[0]);
    SameOwned(k1, k');
  }

  lemma RotatedFirst(q: seq<nat>)
    requires q != []
    ensures q[0] in RunQueue.Members(q) && RunQueue.Rotate(q)[0] in RunQueue.Members(q)
  {
    if |q| > 1 {
      assert q[1] in RunQueue.Members(q[1..]);
    }
  }

  lemma SwitchUnfreed(s: RunQueue.Sched<nat>)
    requires RunQueue.Inv(s)
    ensures RunQueue.Inv(RunQueue.Step(s, RunQueue.Switch))
    ensures Unfreed(RunQueue.Step(s, RunQueue.Switch)) == Unfreed(RunQueue.Reap(s))
    ensures RunQueue.Known(RunQueue.Step(s, RunQueue.Switch)) == RunQueue.Known(RunQueue.Reap(s))
  {
    RunQueue.SwitchInv(s);
    assert s.queue == [s.queue[0]] + s.queue[1..];
    RunQueue.AppendMember(s.queue[1..], s.queue[0]);
  }

  /** Only registers, memory and the queue differ. */
  lemma SameOwned(k: Machine, k': Machine)
    requires Owned(k) && k' == k.(regs := k'.regs, mem := k'.mem, sched := k'.sched)
    requires RunQueue.Inv(k'.sched) && Unfreed(k'.sched) == Unfreed(k.sched) && k'.sched.head == k.sched.head
    requires RunQueue.Known(k'.sched) == RunQueue.Known(k.sched)
    ensures Owned(k')
  {
    forall t | t in k'.places
      ensures Placed(k', t)
    {
      assert Placed(k, t);
    }
  }

  lemma ExitOwned(k: Machine, m: Words)
    requires Owned(k) && k.sched.queue != [] && RspFits(k, Running(k), k.regs.rsp) && Running(k) != k.sched.head
    ensures Owned(AfterExit(k, m))
  {
    var k' := AfterExit(k, m);
    BehindFirst(k.sched, k.sched.head);
    ExitUnfreed(k.sched);
    QueuePlaced(k, k.sched.queue[1]);
    SameOwned(k, k');
  }

  lemma ExitUnfreed(s: RunQueue.Sched<nat>)
    requires RunQueue.Inv(s) && s.queue[0] != s.head
    ensures RunQueue.Inv(RunQueue.Step(s, RunQueue.Exit))
    ensures Unfreed(RunQueue.Step(s, RunQueue.Exit)) == Unfreed(s)
    ensures RunQueue.Known(RunQueue.Step(s, RunQueue.Exit)) == RunQueue.Known(s)
  {
    RunQueue.StepInv(s, RunQueue.Exit);
  }

  lemma StepOwned(k: Machine, op: Op)
    requires Inv(k) && k.sched.queue != [] && Legal(k, op)
    ensures Owned(Next(k, op))
  {
    match op
    case Work(_, _) => WorkOwned(k, op);
    case Malloc(size, available, m) => MallocOwned(k, size, available, m);
    case Share(_) => ShareOwned(k, op);
    case Release(_, _) => ReleaseOwned(k, op);
    case Link(t, a, b, _, _, _, m) => LinkOwned(k, t, a, b, m);
    case Yield(m) => YieldOwned(k, m);
    case Exit(m) => ExitOwned(k, m);
  }

  /** A task of the queue that does not run waits. */
  lemma Waits(k: Machine, t: nat) returns (r: Regs)
    requires Inv(k) && k.sched.queue != [] && t in RunQueue.Members(k.sched.queue) && t != Running(k)
    ensures Waiting(k, t, r, k.mem) && RspFits(k, t, r.rsp)
  {
    assert Suspended(k, t);
    r := Restored(k.mem, Read(k.mem, Slot(k, t)));
  }

  lemma UntouchedSuspended(k: Machine, k': Machine, t: nat, r: Regs, w: Words)
    requires Untouched(k, k', t, r, w) && RspFits(k, t, r.rsp)
    ensures Running(k') == t ==> RspFits(k', t, k'.regs.rsp)
    ensures Running(k') != t ==> Suspended(k', t)
  {
    if Running(k') != t {
      ParkedIsSuspended(k', t, r, w);
    }
  }

  /** From k to k', u runs on, or has yielded and is parked, or has exited. */
  ghost predicate Onward(k: Machine, k': Machine, op: Op, u: nat) {
    var sound :=
      && k'.sched.queue != []
      && (Running(k') == u ==> RspFits(k', u, k'.regs.rsp))
      && (Running(k') != u && u in RunQueue.Members(k'.sched.queue) ==> op.Yield? && Parked(k', u, k.regs, op.mem));
    sound
  }

  /** Only a switch or an exit changes the running task; the task that yields is parked. */
  lemma FormerlyRunning(k: Machine, op: Op)
    requires Inv(k) && k.sched.queue != [] && Legal(k, op)
    ensures Onward(k, Next(k, op), op, Running(k))
  {
    match op
    case Link(t, a, b, _, _, _, m) => LinkerRuns(k, t, a, b, m);
    case Yield(m) => YieldParks(k, m);
    case Exit(m) => ExitIs(k, m, k.sched.head); BehindFirst(k.sched, k.sched.head);
    case _ => StillRuns(k, op);
  }

  lemma LinkerRuns(k: Machine, t: nat, a: nat, b: nat, m: Words)
    requires Inv(k) && k.sched.queue != [] && t !in RunQueue.Known(k.sched) && HoldsBoth(k, a, b)
    ensures
      var k', u := Linked(k, t, a, b, m), Running(k);
      k'.sched.queue != [] && Running(k') == u && RspFits(k', u, k'.regs.rsp)
  {
    LinkStays(k, t, a, b, m);
    RunQueue.InsertAfterMembers(k.sched.queue, k.sched.head, t);
    assert Stays(k, Linked(k, t, a, b, m), Running(k));
  }

  lemma StillRuns(k: Machine, op: Op)
    requires Inv(k) && k.sched.queue != [] && Legal(k, op) && (op.Work? || op.Malloc? || op.Share? || op.Release?)
    ensures
      var k', u := Next(k, op), Running(k);
      k'.sched == k.sched && RspFits(k', u, k'.regs.rsp)
  {
  }

  /** A tick or a yield switches to the next of the queue, be it the same task. */
  lemma YieldLands(k: Machine, m: Words)
    requires Owned(k) && k.sched.queue != [] && RspFits(k, Running(k), k.regs.rsp)
    ensures
      var s, k1, u := RunQueue.Step(k.sched, RunQueue.Switch), Reaped(k), Running(k);
      var v := RunQueue.Rotate(k.sched.queue)[0];
      && s.queue == RunQueue.Rotate(k.sched.queue) && u in RunQueue.Members(s.queue)
      && Owned(k1) && u in k.places && Stays(k, k1, u) && v in k1.places && RspFits(k1, u, k1.regs.rsp)
      && AfterYield(k, k1, m) == Jump(k1, u, v, m).(sched := s)
  {
    var q := k.sched.queue;
    ReapedOwned(k);
    RotatedFirst(q);
    QueuePlaced(k, q[0]);
    QueuePlaced(k, RunQueue.Rotate(q)[0]);
    RunQueue.AppendMember(q[1..], q[0]);
    assert Stays(k, Reaped(k), q[0]);
  }

  lemma YieldTurns(k: Machine, m: Words)
    requires Owned(k) && k.sched.queue != [] && RspFits(k, Running(k), k.regs.rsp)
    ensures AfterYield(k, Reaped(k), m).sched.queue == RunQueue.Rotate(k.sched.queue)
  {
    YieldLands(k, m);
  }

  lemma YieldParks(k: Machine, m: Words)
    requires Owned(k) && k.sched.queue != [] && RspFits(k, Running(k), k.regs.rsp)
    ensures
      var k', u := AfterYield(k, Reaped(k), m), Running(k);
      && k'.sched.queue != []
      && (Running(k') == u ==> RspFits(k', u, k'.regs.rsp))
      && (Running(k') != u ==> Parked(k', u, k.regs, m))
  {
    var u, v := Running(k), RunQueue.Rotate(k.sched.queue)[0];
    YieldLands(k, m);
    if v != u {
      YieldedParks(Reaped(k), u, v, m, AfterYield(k, Reaped(k), m));
    }
  }

  /** Yielding does not change what is one's own. */
  lemma YieldKeeps(k: Machine, m: Words)
    requires Owned(k) && k.sched.queue != [] && RspFits(k, Running(k), k.regs.rsp)
    ensures
      var k', u := AfterYield(k, Reaped(k), m), Running(k);
      && u in k.places && k'.sched.queue != [] && u in RunQueue.Members(k'.sched.queue)
      && Stays(k, k', u) && HeldSame(k, k', u)
  {
    var k1, k', u := Reaped(k), AfterYield(k, Reaped(k), m), Running(k);
    YieldLands(k, m);
    ReapedHeld(k);
    assert HeldSame(k, k1, u);
    SameBlocks(k1, k', u);
    StaysTransitive(k, k1, k', u);
    HeldSameTransitive(k, k1, k', u);
  }

  lemma YieldedParks(k1: Machine, u: nat, v: nat, m: Words, k': Machine)
    requires Owned(k1) && u != v && v in k1.places && RspFits(k1, u, k1.regs.rsp)
    requires k' == Jump(k1, u, v, m).(sched := k'.sched)
    ensures Parked(k', u, k1.regs, m)
  {
    var j := Jump(k1, u, v, m);
    JumpParks(k1, u, v, m);
    assert Placed(k1, u);
    SameStack(j, k', u);
    SameBlocks(j, k', u);
    ParkedKept(j, k', u, k1.regs, m);
  }

  lemma StepInv(k: Machine, op: Op)
    requires Inv(k) && k.sched.queue != [] && Legal(k, op)
    ensures Inv(Next(k, op)) && Next(k, op).sched.queue != []
  {
    var k', u := Next(k, op), Running(k);
    StepOwned(k, op);
    FormerlyRunning(k, op);
    forall t | t in RunQueue.Members(k'.sched.queue)
      ensures t == Running(k') ==> RspFits(k', t, k'.regs.rsp)
      ensures t != Running(k') ==> Suspended(k', t)
    {
      if t in RunQueue.Members(k.sched.queue) && t != u {
        var r := Waits(k, t);
        StepUntouched(k, op, t, r, k.mem);
        UntouchedSuspended(k, k', t, r, k.mem);
      } else if t == u {
        if Running(k') != u {
          ParkedIsSuspended(k', u, k.regs, op.mem);
        }
      } else {
        StepMembers(k, op, t);
        LinkSuspended(k, op);
      }
    }
  }

  /** Only a linked task is new in the queue. */
  lemma StepMembers(k: Machine, op: Op, t: nat)
    requires Inv(k) && k.sched.queue != [] && Legal(k, op)
    requires t in RunQueue.Members(Next(k, op).sched.queue)
    ensures t in RunQueue.Members(k.sched.queue) || (op.Link? && t == op.t)
  {
    match op
    case Link(_, _, _, _, _, _, _) => RunQueue.InsertAfterMembers(k.sched.queue, k.sched.head, op.t);
    case Yield(m) =>
      YieldTurns(k, m);
      RunQueue.AppendMember(k.sched.queue[1..], k.sched.queue[0]);
    case Exit(m) => ExitIs(k, m, k.sched.head);
    case _ =>
  }

  lemma LinkSuspended(k: Machine, op: Op)
    requires Owned(k) && k.sched.queue != [] && Legal(k, op) && op.Link?
    ensures
      var k', r := Next(k, op), FreshRegs(Top(op.b), op.entry, op.arg, op.trampoline);
      && op.t in k'.places && Parked(k', op.t, r, op.mem) && Suspended(k', op.t)
      && r.rsp == Hi(k', op.t) && r.rsp % 16 == 0
      && r.rip == op.trampoline && r.rbx == op.entry && r.r12 == op.arg
  {
    LinkParked(k, op.t, op.a, op.b, FreshRegs(Top(op.b), op.entry, op.arg, op.trampoline), op.mem);
    ParkedIsSuspended(Next(k, op), op.t, FreshRegs(Top(op.b), op.entry, op.arg, op.trampoline), op.mem);
  }
}
