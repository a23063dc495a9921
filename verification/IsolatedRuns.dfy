/** Whole runs of the machine of Isolation.dfy: what a suspended task finds when it runs again. */
module IsolatedRuns {
  import opened Prelude
  import opened Switch
  import opened Isolation
  import opened IsolatedSteps
  import RunQueue

  function Run(k: Machine, ops: seq<Op>): Machine
    decreases ops
  {
    if ops == [] || k.sched.queue == [] then k else Run(Next(k, ops[0]), ops[1..])
  }

  ghost predicate LegalRun(k: Machine, ops: seq<Op>)
    decreases ops
  {
    ops == [] || (k.sched.queue != [] && Legal(k, ops[0]) && LegalRun(Next(k, ops[0]), ops[1..]))
  }

  /** t does not run during the run, nor at its end. */
  ghost predicate Sleeps(k: Machine, ops: seq<Op>, t: nat)
    decreases ops
  {
    && k.sched.queue != [] && Running(k) != t
    && (ops == [] || Sleeps(Next(k, ops[0]), ops[1..], t))
  }

  lemma {:induction false} RunInv(k: Machine, ops: seq<Op>)
    requires Inv(k) && LegalRun(k, ops)
    ensures Inv(Run(k, ops))
    decreases ops
  {
    if ops != [] {
      StepInv(k, ops[0]);
      RunInv(Next(k, ops[0]), ops[1..]);
    }
  }

  /** While t sleeps, whatever the others do, it stays parked as it was. */
  lemma {:induction false} SleepsUntouched(k: Machine, ops: seq<Op>, t: nat, r: Regs, w: Words)
    requires Inv(k) && LegalRun(k, ops) && Sleeps(k, ops, t) && Waiting(k, t, r, w)
    ensures Waiting(Run(k, ops), t, r, w) && Inv(Run(k, ops))
    ensures Stays(k, Run(k, ops), t) && HeldSame(k, Run(k, ops), t)
    decreases ops
  {
    if ops == [] {
      SameBlocks(k, k, t);
    } else {
      var k1 := Next(k, ops[0]);
      StepUntouched(k, ops[0], t, r, w);
      StepInv(k, ops[0]);
      SleepsUntouched(k1, ops[1..], t, r, w);
      StaysTransitive(k, k1, Run(k1, ops[1..]), t);
      HeldSameTransitive(k, k1, Run(k1, ops[1..]), t);
    }
  }

  /** k' has just resumed t, which was suspended in k: it has the registers r, its stack from r.rsp up
      and the blocks it holds are as in w, and it holds the blocks it held. */
  ghost predicate Resumed(k: Machine, k': Machine, t: nat, r: Regs, w: Words) {
    && t in k.places && k'.sched.queue != [] && Running(k') == t && t in k'.places && Hi(k', t) == Hi(k, t)
    && k'.regs == r && Intact(k', t, r, w) && HeldSame(k, k', t)
  }

  /** From k the others run ops while t sleeps, and then the step `last` brings it back. */
  ghost predicate Interlude(k: Machine, ops: seq<Op>, last: Op, t: nat) {
    var sound :=
      && LegalRun(k, ops) && Sleeps(k, ops, t)
      && Run(k, ops).sched.queue != [] && Legal(Run(k, ops), last)
      && Next(Run(k, ops), last).sched.queue != [] && Running(Next(Run(k, ops), last)) == t;
    sound
  }

  function After(k: Machine, ops: seq<Op>, last: Op): Machine {
    var k1 := Run(k, ops);
    if k1.sched.queue == [] then k1 else Next(k1, last)
  }

  lemma WakesUp(k: Machine, ops: seq<Op>, last: Op, t: nat, r: Regs, w: Words)
    requires Inv(k) && Waiting(k, t, r, w) && Interlude(k, ops, last, t)
    ensures Resumed(k, After(k, ops, last), t, r, w)
  {
    var k1 := Run(k, ops);
    SleepsUntouched(k, ops, t, r, w);
    StepUntouched(k1, last, t, r, w);
    HeldSameTransitive(k, k1, Next(k1, last), t);
  }

  /** Isolation: a task that yields, or is preempted, and runs again after any number of steps of the
      others finds the registers it had, and its stack, from its stack pointer up, and the blocks it
      holds as they were. */
  lemma ResumesAsSuspended(k: Machine, m: Words, ops: seq<Op>, last: Op)
    requires Inv(k) && k.sched.queue != [] && Legal(k, Yield(m))
    requires Interlude(Next(k, Yield(m)), ops, last, Running(k))
    ensures Resumed(k, After(Next(k, Yield(m)), ops, last), Running(k), k.regs, m)
  {
    var k1, t := Next(k, Yield(m)), Running(k);
    StepInv(k, Yield(m));
    YieldParks(k, m);
    YieldKeeps(k, m);
    WakesUp(k1, ops, last, t, k.regs, m);
    HeldSameTransitive(k, k1, After(k1, ops, last), t);
  }

  /** A created task, when it runs for the first time, enters the trampoline with its entry point in
      rbx and its argument in r12, at the 16-aligned top of a stack of its own. */
  lemma StartsFresh(k: Machine, op: Op, ops: seq<Op>, last: Op)
    requires Inv(k) && k.sched.queue != [] && op.Link? && Legal(k, op)
    requires Interlude(Next(k, op), ops, last, op.t)
    ensures
      var k' := After(Next(k, op), ops, last);
      && k'.sched.queue != [] && Running(k') == op.t && op.t in k'.places
      && k'.regs.rip == op.trampoline && k'.regs.rbx == op.entry && k'.regs.r12 == op.arg
      && k'.regs.rsp == Hi(k', op.t) && Hi(k', op.t) % 16 == 0
      && k'.regs.rbp == k'.regs.r13 == k'.regs.r14 == k'.regs.r15 == 0
  {
    var k1 := Next(k, op);
    StepInv(k, op);
    LinkSuspended(k, op);
    RunQueue.InsertAfterMembers(k.sched.queue, k.sched.head, op.t);
    WakesUp(k1, ops, last, op.t, FreshRegs(Hi(k1, op.t), op.entry, op.arg, op.trampoline), op.mem);
  }

  // -------------------------------------------------------------------------------------------
  // Such runs exist
  // -------------------------------------------------------------------------------------------

  /** A task can yield at any time, whoever else there is. */
  lemma CanYield(k: Machine)
    requires Inv(k) && k.sched.queue != []
    ensures Legal(k, Yield(k.mem))
  {
  }

  /** Two tasks that yield to each other alternate, and the first carries on as if nothing had
      happened, with what it keeps on its stack and in its blocks. */
  lemma TwoTasksAlternate(k: Machine)
    requires Inv(k) && |k.sched.queue| == 2
    ensures
      var k1 := Next(k, Yield(k.mem));
      && k1.sched.queue != [] && Running(k1) == k.sched.queue[1]
      && Resumed(k, Next(k1, Yield(k1.mem)), Running(k), k.regs, k.mem)
  {
    var k1 := Next(k, Yield(k.mem));
    CanYield(k);
    StepInv(k, Yield(k.mem));
    YieldTurns(k, k.mem);
    TwoDiffer(k.sched);
    YieldsBack(k1);
    ResumesAsSuspended(k, k.mem, [], Yield(k1.mem));
  }

  lemma TwoDiffer(s: RunQueue.Sched<nat>)
    requires RunQueue.Inv(s) && |s.queue| == 2
    ensures s.queue[0] != s.queue[1]
  {
    assert s.queue[1] in RunQueue.Members(s.queue[1..]);
  }

  lemma YieldsBack(k: Machine)
    requires Inv(k) && |k.sched.queue| == 2 && k.sched.queue[0] != k.sched.queue[1]
    ensures Interlude(k, [], Yield(k.mem), k.sched.queue[1])
    ensures After(k, [], Yield(k.mem)) == Next(k, Yield(k.mem))
  {
    CanYield(k);
    YieldTurns(k, k.mem);
  }
}
