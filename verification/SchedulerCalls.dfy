/** The scheduler of Scheduler.dfy and the processor of Switch.dfy together: what a tick, a yield and
    `task_exit` do is a step of the machine of Isolation.dfy. */
module SchedulerCalls {
  import opened Prelude
  import opened Switch
  import opened Isolation
  import opened IsolatedSteps
  import RunQueue
  import Scheduler

  /** Tasks are objects here and numbers in the machine. */
  type Names = map<Scheduler.Task, nat>

  function Name(names: Names, t: Scheduler.Task): nat {
    if t in names then names[t] else 0
  }

  function NameAll(names: Names, q: seq<Scheduler.Task>): seq<nat> {
    if q == [] then [] else [Name(names, q[0])] + NameAll(names, q[1..])
  }

  ghost function NameSet(names: Names, s: set<Scheduler.Task>): set<nat> {
    set t | t in s :: Name(names, t)
  }

  ghost function Named(names: Names, s: RunQueue.Sched<Scheduler.Task>): RunQueue.Sched<nat> {
    var zombie: Option<nat> := if s.zombie.None? then None else Some(Name(names, s.zombie.value));
    RunQueue.Sched(NameAll(names, s.queue), Name(names, s.head), zombie, NameAll(names, s.freed),
                   NameSet(names, s.dropped))
  }

  lemma {:induction false} NameAppend(names: Names, q: seq<Scheduler.Task>, t: Scheduler.Task)
    ensures NameAll(names, q + [t]) == NameAll(names, q) + [Name(names, t)]
  {
    if q == [] {
      assert ([] + [t])[1..] == [];
    } else {
      assert (q + [t])[1..] == q[1..] + [t];
      NameAppend(names, q[1..], t);
    }
  }

  lemma NameShape(names: Names, q: seq<Scheduler.Task>)
    requires q != []
    ensures NameAll(names, q) != [] && NameAll(names, q)[0] == Name(names, q[0])
    ensures NameAll(names, q)[1..] == NameAll(names, q[1..])
    ensures NameAll(names, RunQueue.Rotate(q)) == RunQueue.Rotate(NameAll(names, q))
  {
    NameAppend(names, q[1..], q[0]);
  }

  /** Switching and exiting are the same under every naming. */
  lemma NamedSwitch(names: Names, s: RunQueue.Sched<Scheduler.Task>)
    requires s.queue != []
    ensures NameAll(names, s.queue) != []
    ensures Named(names, RunQueue.Step(s, RunQueue.Switch)) == RunQueue.Step(Named(names, s), RunQueue.Switch)
  {
    NameShape(names, s.queue);
    if s.zombie.Some? {
      NameAppend(names, s.freed, s.zombie.value);
    }
  }

  lemma NamedExit(names: Names, s: RunQueue.Sched<Scheduler.Task>)
    requires s.queue != []
    ensures NameAll(names, s.queue) != []
    ensures Named(names, RunQueue.Step(s, RunQueue.Exit)) == RunQueue.Step(Named(names, s), RunQueue.Exit)
  {
    NameShape(names, s.queue);
    var more := if s.zombie.Some? then {s.zombie.value} else {};
    assert NameSet(names, s.dropped + more) == NameSet(names, s.dropped) + NameSet(names, more);
  }

  // -------------------------------------------------------------------------------------------
  // Steps of the machine
  // -------------------------------------------------------------------------------------------

  /** The machine mirrors scheduler and processor. */
  ghost predicate Mirrors(k: Machine, names: Names, s: Scheduler.Scheduler, cpu: Cpu)
    reads s, cpu
  {
    var sound := k.sched == Named(names, s.Abstract()) && k.regs == cpu.Now();
    sound
  }

  /** `slots` has the address of the saved stack pointer in the record of each task of q. */
  ghost predicate SlotsOf(slots: map<Scheduler.Task, nat>, names: Names, k: Machine, q: seq<Scheduler.Task>) {
    forall n :: 0 <= n < |q| ==>
      q[n] in slots && Name(names, q[n]) in k.places && slots[q[n]] == Slot(k, Name(names, q[n]))
  }

  lemma {:induction false} NameAt(names: Names, q: seq<Scheduler.Task>, n: nat)
    requires n < |q|
    ensures |NameAll(names, q)| == |q| && NameAll(names, q)[n] == Name(names, q[n])
  {
    if n > 0 {
      NameAt(names, q[1..], n - 1);
    } else if |q| > 1 {
      NameAt(names, q[1..], 0);
    }
  }

  /** Different tasks at the front of the queue have different names. */
  lemma FirstTwo(names: Names, q: seq<Scheduler.Task>)
    requires |q| > 1 && RunQueue.NoDuplicates(NameAll(names, q))
    ensures |NameAll(names, q)| == |q| && NameAll(names, q)[0] == Name(names, q[0])
    ensures NameAll(names, q)[1] == Name(names, q[1]) && Name(names, q[0]) != Name(names, q[1])
  {
    NameAt(names, q, 0);
    NameAt(names, q, 1);
    var l := NameAll(names, q);
    assert l[1] in RunQueue.Members(l[1..]);
  }

  /** `switch_context` between two tasks is the jump of the machine. */
  method SwitchTo(cpu: Cpu, slot: nat, target: nat, ghost k: Machine, ghost u: nat, ghost v: nat)
    requires k.regs == cpu.Now() && k.regs.rsp >= 56 && u != v && u in k.places && v in k.places
    requires slot == Slot(k, u) && target == Read(cpu.mem, Slot(k, v))
    modifies cpu
    ensures cpu.Now() == Jump(k, u, v, old(cpu.mem)).regs && cpu.mem == Jump(k, u, v, old(cpu.mem)).mem
  {
    cpu.SwitchContext(slot, target);
  }

  /** The tasks prev and next, and how the machine goes from the one to the other. */
  ghost predicate Leads(k: Machine, k1: Machine, k': Machine, slots: map<Scheduler.Task, nat>, names: Names,
                        prev: Scheduler.Task, next: Scheduler.Task, m: Words)
  {
    var u, v := Name(names, prev), Name(names, next);
    var sound :=
      && prev in slots && next in slots
      && (prev == next ==> k'.regs == k.regs && k'.mem == m)
      && (prev != next ==>
            && u != v && u in k1.places && v in k1.places && k1.regs == k.regs && k.regs.rsp >= 56
            && slots[prev] == Slot(k1, u) && slots[next] == Slot(k1, v)
            && k'.regs == Jump(k1, u, v, m).regs && k'.mem == Jump(k1, u, v, m).mem);
    sound
  }

  /** What a tick or a yield will do. */
  lemma TickPlan(names: Names, a: RunQueue.Sched<Scheduler.Task>, slots: map<Scheduler.Task, nat>, k: Machine, m: Words)
    requires Inv(k) && a.queue != [] && k.sched == Named(names, a) && SlotsOf(slots, names, k, a.queue)
    requires k.sched.queue != [] && Legal(k, Yield(m))
    ensures Next(k, Yield(m)).sched == Named(names, RunQueue.Step(a, RunQueue.Switch))
    ensures Leads(k, Reaped(k), Next(k, Yield(m)), slots, names, a.queue[0], RunQueue.Rotate(a.queue)[0], m)
  {
    NamedSwitch(names, a);
    NameShape(names, a.queue);
    YieldLands(k, m);
    if |a.queue| > 1 {
      FirstTwo(names, a.queue);
      YieldIs(k, m, k.sched.queue[1]);
      OtherSlot(names, slots, k, m, a.queue[0], a.queue[1]);
    } else {
      AloneSlot(names, slots, k, m, a.queue[0]);
    }
  }

  lemma OtherSlot(names: Names, slots: map<Scheduler.Task, nat>, k: Machine, m: Words, prev: Scheduler.Task,
                  next: Scheduler.Task)
    requires Owned(k) && k.sched.queue != [] && prev in slots && next in slots
    requires
      var k1, u, v := Reaped(k), Name(names, prev), Name(names, next);
      && u != v && RspFits(k1, u, k1.regs.rsp) && v in k1.places && u in k.places && v in k.places
      && slots[prev] == Slot(k, u) && slots[next] == Slot(k, v)
      && AfterYield(k, k1, m) == Jump(k1, u, v, m).(sched := AfterYield(k, k1, m).sched)
    ensures Leads(k, Reaped(k), AfterYield(k, Reaped(k), m), slots, names, prev, next, m)
  {
    ReapedBlocks(k);
  }

  lemma AloneSlot(names: Names, slots: map<Scheduler.Task, nat>, k: Machine, m: Words, t: Scheduler.Task)
    requires Owned(k) && k.sched.queue != [] && t in slots
    requires
      var k1, u := Reaped(k), Name(names, t);
      && u in k1.places && k1.regs.rsp >= 56
      && AfterYield(k, k1, m) == Jump(k1, u, u, m).(sched := AfterYield(k, k1, m).sched)
    ensures Leads(k, Reaped(k), AfterYield(k, Reaped(k), m), slots, names, t, t, m)
  {
    ReapedBlocks(k);
  }

  /** What `task_exit` will do. */
  lemma ExitPlan(names: Names, a: RunQueue.Sched<Scheduler.Task>, slots: map<Scheduler.Task, nat>, k: Machine, m: Words)
    requires Inv(k) && |a.queue| > 1 && k.sched == Named(names, a) && SlotsOf(slots, names, k, a.queue)
    requires k.sched.queue != [] && Legal(k, Exit(m))
    ensures Next(k, Exit(m)).sched == Named(names, RunQueue.Step(a, RunQueue.Exit))
    ensures Leads(k, k, Next(k, Exit(m)), slots, names, a.queue[0], a.queue[1], m)
  {
    NamedExit(names, a);
    FirstTwo(names, a.queue);
    ExitIs(k, m, k.sched.head);
  }

  /** `switch_context` as far as it is called. */
  method SwitchIfOther(cpu: Cpu, slots: map<Scheduler.Task, nat>, prev: Scheduler.Task, next: Scheduler.Task,
                       ghost names: Names, ghost k: Machine, ghost k1: Machine, ghost k': Machine)
    requires k.regs == cpu.Now() && Leads(k, k1, k', slots, names, prev, next, cpu.mem)
    modifies cpu
    ensures cpu.Now() == k'.regs && cpu.mem == k'.mem
  {
    if prev != next {
      SwitchTo(cpu, slots[prev], Read(cpu.mem, slots[next]), k1, Name(names, prev), Name(names, next));
    }
  }

  lemma CurrentFacts(s: Scheduler.Scheduler)
    requires s.Valid()
    ensures s.queue != [] && s.current == s.queue[0]
  {
  }

  lemma ExitingFacts(s: Scheduler.Scheduler)
    requires s.Valid() && s.current != s.head
    ensures |s.queue| > 1 && s.current == s.queue[0]
  {
    Scheduler.OthersInQueue(s.queue, s.head);
  }

  /** A tick or a yield: `schedule`, and `switch_context` if it chose another task, is the machine's
      `Yield`. The memory of the processor is that after `reap`. */
  method TickIsStep(s: Scheduler.Scheduler, cpu: Cpu, slots: map<Scheduler.Task, nat>, ghost names: Names,
                    ghost k: Machine)
    requires s.Valid() && Inv(k) && Mirrors(k, names, s, cpu) && SlotsOf(slots, names, k, s.queue)
    requires k.sched.queue != [] && Legal(k, Yield(cpu.mem))
    modifies cpu, s`zombie, s`freed, s`current, s`queue, s`cards, s.cards.Keys
    ensures s.Valid() && Mirrors(Next(k, Yield(old(cpu.mem))), names, s, cpu)
    ensures cpu.mem == Next(k, Yield(old(cpu.mem))).mem
  {
    ghost var k' := Next(k, Yield(cpu.mem));
    ghost var q := s.queue;
    CurrentFacts(s);
    TickPlan(names, s.Abstract(), slots, k, cpu.mem);
    var prev, next := s.Schedule();
    CurrentFacts(s);
    assert prev == q[0] && next == RunQueue.Rotate(q)[0];
    SwitchIfOther(cpu, slots, prev, next, names, k, Reaped(k), k');
  }

  /** `task_exit` leads from the first task of the queue to the second. */
  method Leave(s: Scheduler.Scheduler) returns (prev: Scheduler.Task, next: Scheduler.Task)
    requires s.Valid() && s.current != s.head
    modifies s`zombie, s`freed, s`dropped, s`current, s`queue, s`cards, s.cards.Keys
    ensures s.Valid() && s.Abstract() == RunQueue.Step(old(s.Abstract()), RunQueue.Exit)
    ensures |old(s.queue)| > 1 && prev == old(s.queue)[0] && next == old(s.queue)[1]
  {
    ghost var q, after := s.queue, RunQueue.Step(s.Abstract(), RunQueue.Exit).queue;
    ExitingFacts(s);
    assert after == q[1..] && after[0] == q[1];
    prev, next := s.TaskExit();
    assert s.queue == after;
    CurrentFacts(s);
  }

  /** `task_exit` and its switch, from k to k'. */
  method LeaveFor(s: Scheduler.Scheduler, cpu: Cpu, slots: map<Scheduler.Task, nat>, ghost names: Names,
                  ghost k: Machine, ghost k': Machine)
    requires s.Valid() && s.current != s.head && |s.queue| > 1 && k.regs == cpu.Now()
    requires k'.sched == Named(names, RunQueue.Step(s.Abstract(), RunQueue.Exit))
    requires Leads(k, k, k', slots, names, s.queue[0], s.queue[1], cpu.mem)
    modifies cpu, s`zombie, s`freed, s`dropped, s`current, s`queue, s`cards, s.cards.Keys
    ensures s.Valid() && Mirrors(k', names, s, cpu) && cpu.mem == k'.mem
  {
    var prev, next := Leave(s);
    SwitchIfOther(cpu, slots, prev, next, names, k, k, k');
  }

  /** `task_exit` is the machine's `Exit`. */
  method ExitIsStep(s: Scheduler.Scheduler, cpu: Cpu, slots: map<Scheduler.Task, nat>, ghost names: Names,
                    ghost k: Machine)
    requires s.Valid() && Inv(k) && Mirrors(k, names, s, cpu) && SlotsOf(slots, names, k, s.queue)
    requires s.current != s.head && k.sched.queue != [] && Legal(k, Exit(cpu.mem))
    modifies cpu, s`zombie, s`freed, s`dropped, s`current, s`queue, s`cards, s.cards.Keys
    ensures s.Valid() && Mirrors(Next(k, Exit(old(cpu.mem))), names, s, cpu)
    ensures cpu.mem == Next(k, Exit(old(cpu.mem))).mem
  {
    ghost var k' := Next(k, Exit(cpu.mem));
    ExitingFacts(s);
    ExitPlan(names, s.Abstract(), slots, k, cpu.mem);
    LeaveFor(s, cpu, slots, names, k, k');
  }
}
