/** The context switch of src/cpu/switch.asm and the initial stack of src/sched/sched.c. Memory is a
    map of words; a word that was never written reads as zero. */
module Switch {
  import opened Prelude

  function Read(m: Words, x: nat): nat { if x in m then m[x] else 0 }

  /** The registers a callee preserves (System V AMD64 ABI, section 3.2.1), the stack pointer and the
      instruction pointer. */
  datatype Regs = Regs(rsp: nat, rbp: nat, rbx: nat, r12: nat, r13: nat, r14: nat, r15: nat, rip: nat)

  /** At sp lies what `switch_context` pops to bring back r: six registers and a return address. */
  predicate FrameAt(m: Words, sp: nat, r: Regs) {
    && r.rsp == sp + 56
    && Read(m, sp) == r.r15 && Read(m, sp + 8) == r.r14 && Read(m, sp + 16) == r.r13
    && Read(m, sp + 24) == r.r12 && Read(m, sp + 32) == r.rbx && Read(m, sp + 40) == r.rbp
    && Read(m, sp + 48) == r.rip
  }

  /** The registers that popping the frame at sp brings back. */
  function Restored(m: Words, sp: nat): (r: Regs)
    ensures FrameAt(m, sp, r)
  {
    Regs(sp + 56, Read(m, sp + 40), Read(m, sp + 32), Read(m, sp + 24), Read(m, sp + 16), Read(m, sp + 8),
         Read(m, sp), Read(m, sp + 48))
  }

  lemma FrameUnique(m: Words, sp: nat, r: Regs, r': Regs)
    requires FrameAt(m, sp, r) && FrameAt(m, sp, r')
    ensures r == r'
  {
  }

  /** Memory after the registers r have been pushed below r.rsp. */
  function Pushed(m: Words, r: Regs): Words
    requires r.rsp >= 56
  {
    m[r.rsp - 8 := r.rip][r.rsp - 16 := r.rbp][r.rsp - 24 := r.rbx][r.rsp - 32 := r.r12]
     [r.rsp - 40 := r.r13][r.rsp - 48 := r.r14][r.rsp - 56 := r.r15]
  }

  /** Memory after the registers r have been saved and the new stack pointer written to `slot`. */
  function Saved(m: Words, r: Regs, slot: nat): Words
    requires r.rsp >= 56
  {
    Pushed(m, r)[slot := r.rsp - 56]
  }

  /** m' is m with a frame below r.rsp that brings r back and its address in `slot`. */
  ghost predicate Suspends(m: Words, m': Words, r: Regs, slot: nat) {
    var sound :=
      && r.rsp >= 56
      && FrameAt(m', r.rsp - 56, r) && Read(m', slot) == r.rsp - 56
      && forall x: nat :: x != slot && !(r.rsp - 56 <= x < r.rsp) ==> Read(m', x) == Read(m, x);
    sound
  }

  /** Saving leaves a frame that brings the registers back, and touches nothing else. */
  lemma SavedFrame(m: Words, r: Regs, slot: nat)
    requires r.rsp >= 56 && (slot + 8 <= r.rsp - 56 || r.rsp <= slot)
    ensures Suspends(m, Saved(m, r, slot), r, slot)
  {
  }

  class Cpu {
    var rsp: nat
    var rbp: nat
    var rbx: nat
    var r12: nat
    var r13: nat
    var r14: nat
    var r15: nat
    var rip: nat
    var rdi: nat
    var interrupts: bool               // the interrupt flag
    var mem: Words

    function Now(): Regs
      reads this
    {
      Regs(rsp, rbp, rbx, r12, r13, r14, r15, rip)
    }

    constructor (r: Regs, m: Words)
      ensures Now() == r && mem == m
    {
      rsp, rbp, rbx, r12, r13, r14, r15, rip := r.rsp, r.rbp, r.rbx, r.r12, r.r13, r.r14, r.r15, r.rip;
      mem := m;
      rdi, interrupts := 0, false;
    }

    /** `task_trampoline`, where a new task comes in: it turns interrupts on and calls the entry point
        with the argument in rdi, on a stack that is 16-aligned at the call. `back` is where the call
        returns to. */
    method StartTask(back: nat, ghost top: nat, ghost entry: nat, ghost arg: nat, ghost trampoline: nat)
      requires rip == trampoline && rbx == entry && r12 == arg && rsp == top && top >= 16 && top % 16 == 0
      modifies this`rdi, this`rsp, this`rip, this`interrupts, this`mem
      ensures rip == entry && rdi == arg && interrupts && rsp == top - 8 && (rsp + 8) % 16 == 0
      ensures mem == old(mem)[rsp := back]
    {
      interrupts := true;
      rdi := r12;
      Push(back);
      rip := rbx;
    }

    /** The entry point returns, and `task_trampoline` calls `task_exit` on the stack on which it called
        the entry point. `after` is where that call would return to. */
    method EndTask(back: nat, taskExit: nat, after: nat)
      requires Read(mem, rsp) == back
      modifies this`rsp, this`rip, this`mem
      ensures rip == taskExit && rsp == old(rsp) && mem == old(mem)[rsp := after]
    {
      rip := Pop();
      assert rip == back;
      Push(after);
      rip := taskExit;
    }

    method Push(v: nat)
      requires rsp >= 8
      modifies this`rsp, this`mem
      ensures rsp == old(rsp) - 8 && mem == old(mem)[rsp := v]
    {
      rsp := rsp - 8;
      mem := mem[rsp := v];
    }

    method Pop() returns (v: nat)
      modifies this`rsp
      ensures v == Read(mem, old(rsp)) && rsp == old(rsp) + 8
    {
      v := Read(mem, rsp);
      rsp := rsp + 8;
    }

    /** The return address of the call and the six pushes. */
    method PushAll()
      requires rsp >= 56
      modifies this`rsp, this`mem
      ensures mem == Pushed(old(mem), old(Now())) && rsp == old(rsp) - 56
    {
      Push(rip);
      Push(rbp);
      Push(rbx);
      Push(r12);
      Push(r13);
      Push(r14);
      Push(r15);
    }

    method PopNumbered()
      modifies this`rsp, this`r12, this`r13, this`r14, this`r15
      ensures rsp == old(rsp) + 32
      ensures r15 == Read(mem, old(rsp)) && r14 == Read(mem, old(rsp) + 8)
      ensures r13 == Read(mem, old(rsp) + 16) && r12 == Read(mem, old(rsp) + 24)
    {
      r15 := Pop();
      r14 := Pop();
      r13 := Pop();
      r12 := Pop();
    }

    method PopRest()
      modifies this`rsp, this`rbp, this`rbx, this`rip
      ensures rsp == old(rsp) + 24
      ensures rbx == Read(mem, old(rsp)) && rbp == Read(mem, old(rsp) + 8) && rip == Read(mem, old(rsp) + 16)
    {
      rbx := Pop();
      rbp := Pop();
      rip := Pop();
    }

    /** The six pops and the return. */
    method PopAll()
      modifies this`rsp, this`rbp, this`rbx, this`r12, this`r13, this`r14, this`r15, this`rip
      ensures Now() == Restored(mem, old(rsp))
    {
      ghost var sp := rsp;
      PopNumbered();
      PopRest();
      assert rbx == Read(mem, sp + 32) && rbp == Read(mem, sp + 40) && rip == Read(mem, sp + 48);
    }

    /** `call switch_context`, rdi holding `slot` and rsi `target`; rip is where the call returns to. */
    method SwitchContext(slot: nat, target: nat)
      requires rsp >= 56
      modifies this
      ensures mem == Saved(old(mem), old(Now()), slot)
      ensures Now() == Restored(mem, target) && interrupts == old(interrupts)
    {
      PushAll();
      mem := mem[slot := rsp];
      rsp := target;
      PopAll();
    }
  }

  // -------------------------------------------------------------------------------------------
  // New tasks
  // -------------------------------------------------------------------------------------------

  /** What a task sees when it first runs: it enters `task_trampoline` with its entry point in rbx,
      its argument in r12, and an empty stack. */
  function FreshRegs(top: nat, entry: nat, arg: nat, trampoline: nat): Regs {
    Regs(top, 0, entry, arg, 0, 0, 0, trampoline)
  }

  /** The seven words that `task_create` writes down from the top of the new stack. */
  method InitialFrame(m: Words, stack: nat, entry: nat, arg: nat, trampoline: nat) returns (m': Words, sp: nat)
    requires stack % 16 == 0
    ensures sp == stack + 0x4000 - 56 && (sp + 56) % 16 == 0
    ensures m' == Pushed(m, FreshRegs(stack + 0x4000, entry, arg, trampoline))
    ensures Read(m', sp + 48) == trampoline && Read(m', sp + 32) == entry && Read(m', sp + 24) == arg
    ensures Read(m', sp) == Read(m', sp + 8) == Read(m', sp + 16) == Read(m', sp + 40) == 0
  {
    var top := stack + 0x4000;
    top := top - top % 16;
    sp := top;
    m' := m;
    sp := sp - 8;
    m' := m'[sp := trampoline];
    sp := sp - 8;
    m' := m'[sp := 0];
    sp := sp - 8;
    m' := m'[sp := entry];
    sp := sp - 8;
    m' := m'[sp := arg];
    sp := sp - 8;
    m' := m'[sp := 0];
    sp := sp - 8;
    m' := m'[sp := 0];
    sp := sp - 8;
    m' := m'[sp := 0];
  }

  /** The first switch to a new task lands in the trampoline; building its frame touches nothing
      outside the top 56 bytes of its stack. */
  lemma PushedFrame(m: Words, r: Regs)
    requires r.rsp >= 56
    ensures FrameAt(Pushed(m, r), r.rsp - 56, r)
    ensures forall x: nat :: !(r.rsp - 56 <= x < r.rsp) ==> Read(Pushed(m, r), x) == Read(m, x)
  {
  }
}
