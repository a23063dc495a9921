/** The run queue of src/sched/sched.c as a value. The circular list is written down from the running
    task on, so that the position of a task is the number of switches until it runs. */
module RunQueue {
  import opened Prelude

  /** `queue[0]` runs; `head` is the boot task; `zombie` has exited and awaits reaping; `freed` lists
      the tasks whose memory was given back, in order; `dropped` collects the tasks whose zombie slot
      was overwritten. */
  datatype Sched<+T(==)> = Sched(queue: seq<T>, head: T, zombie: Option<T>, freed: seq<T>, dropped: set<T>)

  /** `task_create`, a `schedule()` from a tick or a yield, and `task_exit`. */
  datatype Op<T> = Create(t: T) | Switch | Exit

  function Members<T(==)>(s: seq<T>): set<T> {
    if s == [] then {} else {s[0]} + Members(s[1..])
  }

  predicate NoDuplicates<T(==)>(s: seq<T>) {
    s == [] || (s[0] !in Members(s[1..]) && NoDuplicates(s[1..]))
  }

  /** Every task is in exactly one place. */
  ghost predicate Inv<T>(s: Sched<T>) {
    var sound :=
      && s.queue != [] && s.head in Members(s.queue)
      && NoDuplicates(s.queue) && NoDuplicates(s.freed)
      && Members(s.queue) !! Members(s.freed) && Members(s.queue) !! s.dropped && Members(s.freed) !! s.dropped
      && (s.zombie.Some? ==>
            && s.zombie.value !in Members(s.queue) && s.zombie.value !in Members(s.freed)
            && s.zombie.value !in s.dropped);
    sound
  }

  ghost function Known<T>(s: Sched<T>): set<T> {
    Members(s.queue) + Members(s.freed) + s.dropped + if s.zombie.Some? then {s.zombie.value} else {}
  }

  /** The boot task never exits; a created task is new. */
  ghost predicate Enabled<T>(s: Sched<T>, op: Op<T>) {
    match op
    case Create(t) => t !in Known(s)
    case Switch => s.queue != []
    case Exit => s.queue != [] && s.queue[0] != s.head
  }

  /** `list_add`: behind the boot task. */
  function InsertAfter<T(==)>(q: seq<T>, head: T, t: T): seq<T> {
    if q == [] then []
    else if q[0] == head then [head, t] + q[1..]
    else [q[0]] + InsertAfter(q[1..], head, t)
  }

  /** `reap`, when the zombie is not the running task. */
  function Reap<T>(s: Sched<T>): Sched<T> {
    match s.zombie
    case None => s
    case Some(z) => s.(zombie := None, freed := s.freed + [z])
  }

  function Rotate<T>(q: seq<T>): seq<T>
    requires q != []
  {
    q[1..] + [q[0]]
  }

  function Step<T>(s: Sched<T>, op: Op<T>): Sched<T>
    requires s.queue != []
  {
    match op
    case Create(t) => s.(queue := InsertAfter(s.queue, s.head, t))
    case Switch => Reap(s).(queue := Rotate(s.queue))
    case Exit =>
      s.(queue := s.queue[1..], zombie := Some(s.queue[0]),
         dropped := s.dropped + if s.zombie.Some? then {s.zombie.value} else {})
  }

  // -------------------------------------------------------------------------------------------
  // Every step
  // -------------------------------------------------------------------------------------------

  lemma {:induction false} InsertAfterMembers<T>(q: seq<T>, head: T, t: T)
    requires head in Members(q) && t !in Members(q) && NoDuplicates(q)
    ensures Members(InsertAfter(q, head, t)) == Members(q) + {t}
    ensures NoDuplicates(InsertAfter(q, head, t))
    ensures |InsertAfter(q, head, t)| == |q| + 1 && InsertAfter(q, head, t)[0] == q[0]
  {
    var r := InsertAfter(q, head, t);
    if q[0] == head {
      assert r[1..] == [t] + q[1..];
      assert r[1..][1..] == q[1..];
      assert Members(r[1..]) == {t} + Members(q[1..]);
    } else {
      InsertAfterMembers(q[1..], head, t);
      assert r[1..] == InsertAfter(q[1..], head, t);
    }
  }

  lemma {:induction false} AppendMember<T>(q: seq<T>, x: T)
    ensures Members(q + [x]) == Members(q) + {x}
    ensures NoDuplicates(q) && x !in Members(q) ==> NoDuplicates(q + [x])
  {
    if q != [] {
      AppendMember(q[1..], x);
      assert (q + [x])[1..] == q[1..] + [x];
    } else {
      assert (q + [x])[1..] == [];
    }
  }

  lemma StepInv<T>(s: Sched<T>, op: Op<T>)
    requires Inv(s) && Enabled(s, op)
    ensures Inv(Step(s, op))
    ensures Known(Step(s, op)) == Known(s) + if op.Create? then {op.t} else {}
  {
    match op
    case Create(t) => InsertAfterMembers(s.queue, s.head, t);
    case Switch =>
      AppendMember(s.queue[1..], s.queue[0]);
      if s.zombie.Some? {
        AppendMember(s.freed, s.zombie.value);
      }
    case Exit =>
  }

  lemma SwitchInv<T>(s: Sched<T>)
    requires Inv(s)
    ensures Inv(Step(s, Switch))
  {
    StepInv(s, Switch);
  }

  // -------------------------------------------------------------------------------------------
  // Round robin
  // -------------------------------------------------------------------------------------------

  /** The number of switches until w runs, when nothing is inserted before it. */
  function Hops<T(==)>(q: seq<T>, w: T): nat {
    if q == [] || q[0] == w then 0 else 1 + Hops(q[1..], w)
  }

  lemma {:induction false} HopsRotate<T>(q: seq<T>, w: T, x: T)
    requires w in Members(q)
    ensures Hops(q + [x], w) == Hops(q, w)
  {
    if q[0] != w {
      assert (q + [x])[1..] == q[1..] + [x];
      HopsRotate(q[1..], w, x);
    }
  }

  /** A task created while w waits delays it by one exactly if the boot task is in front of w. */
  lemma {:induction false} HopsInsert<T>(q: seq<T>, head: T, t: T, w: T)
    requires w in Members(q) && head in Members(q) && t != w
    ensures Hops(InsertAfter(q, head, t), w)
         == Hops(q, w) + if Hops(q, head) < Hops(q, w) then 1 else 0
  {
    var r := InsertAfter(q, head, t);
    if q[0] == head {
      assert r[1..] == [t] + q[1..];
      assert ([t] + q[1..])[1..] == q[1..];
    } else if q[0] != w {
      assert r[1..] == InsertAfter(q[1..], head, t);
      HopsInsert(q[1..], head, t, w);
    }
  }

  /** Each switch and each exit brings a waiting task one position forward. */
  lemma StepHops<T>(s: Sched<T>, op: Op<T>, w: T)
    requires Inv(s) && Enabled(s, op) && w in Members(s.queue) && s.queue[0] != w
    ensures w in Members(Step(s, op).queue)
    ensures Hops(Step(s, op).queue, w)
         == if op.Create? then Hops(s.queue, w) + (if Hops(s.queue, s.head) < Hops(s.queue, w) then 1 else 0)
            else Hops(s.queue, w) - 1
  {
    match op
    case Create(t) =>
      InsertAfterMembers(s.queue, s.head, t);
      HopsInsert(s.queue, s.head, t, w);
    case Switch =>
      HopsRotate(s.queue[1..], w, s.queue[0]);
      AppendMember(s.queue[1..], s.queue[0]);
    case Exit =>
  }

  // -------------------------------------------------------------------------------------------
  // Whole runs
  // -------------------------------------------------------------------------------------------

  function Run<T(==)>(s: Sched<T>, ops: seq<Op<T>>): Sched<T>
    decreases ops
  {
    if ops == [] || s.queue == [] then s else Run(Step(s, ops[0]), ops[1..])
  }

  ghost predicate EnabledRun<T>(s: Sched<T>, ops: seq<Op<T>>)
    decreases ops
  {
    ops == [] || (s.queue != [] && Enabled(s, ops[0]) && EnabledRun(Step(s, ops[0]), ops[1..]))
  }

  ghost function Created<T>(ops: seq<Op<T>>): set<T> {
    if ops == [] then {} else Created(ops[1..]) + if ops[0].Create? then {ops[0].t} else {}
  }

  /** In every reachable state each task ever created is in exactly one place: waiting or running,
      exited, freed once, or dropped. */
  lemma {:induction false} RunInv<T>(s: Sched<T>, ops: seq<Op<T>>)
    requires Inv(s) && EnabledRun(s, ops)
    ensures Inv(Run(s, ops)) && Known(Run(s, ops)) == Known(s) + Created(ops)
    decreases ops
  {
    if ops != [] {
      StepInv(s, ops[0]);
      RunInv(Step(s, ops[0]), ops[1..]);
    }
  }

  /** w does not run before the end of the run. */
  predicate Waits<T(==)>(s: Sched<T>, ops: seq<Op<T>>, w: T)
    decreases ops
  {
    ops == [] || (s.queue != [] && s.queue[0] != w && Waits(Step(s, ops[0]), ops[1..], w))
  }

  /** The switches and exits of a run. */
  function Turns<T>(ops: seq<Op<T>>): nat {
    if ops == [] then 0 else Turns(ops[1..]) + if ops[0].Create? then 0 else 1
  }

  /** The tasks created while the boot task stands before w. */
  function Overtakers<T(==)>(s: Sched<T>, ops: seq<Op<T>>, w: T): nat
    decreases ops
  {
    if ops == [] || s.queue == [] then 0
    else
      (if ops[0].Create? && Hops(s.queue, s.head) < Hops(s.queue, w) then 1 else 0)
      + Overtakers(Step(s, ops[0]), ops[1..], w)
  }

  /** As long as w waits, its distance is what it was, less the turns taken, plus the overtakers. */
  lemma {:induction false} RoundRobin<T>(s: Sched<T>, ops: seq<Op<T>>, w: T)
    requires Inv(s) && EnabledRun(s, ops) && w in Members(s.queue) && Waits(s, ops, w)
    ensures w in Members(Run(s, ops).queue)
    ensures Hops(Run(s, ops).queue, w) == Hops(s.queue, w) + Overtakers(s, ops, w) - Turns(ops)
    decreases ops
  {
    if ops != [] {
      StepInv(s, ops[0]);
      StepHops(s, ops[0], w);
      RoundRobin(Step(s, ops[0]), ops[1..], w);
    }
  }

  /** So w runs exactly when the turns taken reach its distance plus its overtakers. */
  lemma RunsWhenDue<T>(s: Sched<T>, ops: seq<Op<T>>, w: T)
    requires Inv(s) && EnabledRun(s, ops) && w in Members(s.queue) && Waits(s, ops, w)
    ensures Turns(ops) <= Hops(s.queue, w) + Overtakers(s, ops, w)
    ensures Run(s, ops).queue != []
    ensures Run(s, ops).queue[0] == w <==> Turns(ops) == Hops(s.queue, w) + Overtakers(s, ops, w)
  {
    RoundRobin(s, ops, w);
  }

  /** The first switch or exit of a run. */
  function FirstTurn<T>(ops: seq<Op<T>>): Option<Op<T>> {
    if ops == [] then None
    else if ops[0].Create? then FirstTurn(ops[1..])
    else Some(ops[0])
  }

  lemma {:induction false} SettledStays<T>(s: Sched<T>, ops: seq<Op<T>>, t: T)
    requires Inv(s) && EnabledRun(s, ops)
    ensures t in Members(s.freed) ==> t in Members(Run(s, ops).freed)
    ensures t in s.dropped ==> t in Run(s, ops).dropped
    decreases ops
  {
    if ops != [] {
      StepInv(s, ops[0]);
      if ops[0].Switch? && s.zombie.Some? {
        AppendMember(s.freed, s.zombie.value);
      }
      SettledStays(Step(s, ops[0]), ops[1..], t);
    }
  }

  lemma {:induction false} ZombieFate<T>(s: Sched<T>, ops: seq<Op<T>>, t: T)
    requires Inv(s) && EnabledRun(s, ops) && s.zombie == Some(t)
    ensures FirstTurn(ops) == Some(Switch) ==> t in Members(Run(s, ops).freed)
    ensures FirstTurn(ops) == Some(Exit) ==> t in Run(s, ops).dropped
    ensures FirstTurn(ops) == None ==> Run(s, ops).zombie == Some(t)
    decreases ops
  {
    if ops != [] {
      StepInv(s, ops[0]);
      if ops[0].Create? {
        ZombieFate(Step(s, ops[0]), ops[1..], t);
      } else {
        if ops[0].Switch? {
          AppendMember(s.freed, t);
        }
        SettledStays(Step(s, ops[0]), ops[1..], t);
      }
    }
  }

  /** A task that exits is freed, and freed once, if and only if the next task to enter schedule()
      does so from a tick or a yield; if that task exits first, it is never freed. */
  lemma ReclaimedIff<T>(s: Sched<T>, ops: seq<Op<T>>)
    requires Inv(s) && Enabled(s, Exit) && EnabledRun(Step(s, Exit), ops)
    ensures
      var t, end := s.queue[0], Run(Step(s, Exit), ops);
      && (t in Members(end.freed) <==> FirstTurn(ops) == Some(Switch))
      && (t in end.dropped <==> FirstTurn(ops) == Some(Exit))
      && (end.zombie == Some(t) <==> FirstTurn(ops) == None)
      && t !in Members(end.queue) && NoDuplicates(end.freed)
  {
    var t, s1 := s.queue[0], Step(s, Exit);
    StepInv(s, Exit);
    ZombieFate(s1, ops, t);
    RunInv(s1, ops);
    FirstTurnKinds(ops);
  }

  lemma {:induction false} FirstTurnKinds<T>(ops: seq<Op<T>>)
    ensures FirstTurn(ops) == None || FirstTurn(ops) == Some(Switch) || FirstTurn(ops) == Some(Exit)
  {
    if ops != [] && ops[0].Create? {
      FirstTurnKinds(ops[1..]);
    }
  }

  /** Two tasks that exit one after the other: the first is never freed. */
  lemma ExitedCanBeDropped()
    ensures
      var s: Sched<nat>, ops := Sched([1, 2, 0], 0, None, [], {}), [Exit, Exit];
      && Inv(s) && EnabledRun(s, ops)
      && 1 in Run(s, ops).dropped && 1 !in Members(Run(s, ops).freed)
  {
    var s: Sched<nat>, ops: seq<Op<nat>> := Sched([1, 2, 0], 0, None, [], {}), [Exit, Exit];
    var s1: Sched<nat> := Sched([2, 0], 0, Some(1), [], {});
    var s2: Sched<nat> := Sched([0], 0, Some(2), [], {1});
    assert s.queue[1..] == [2, 0] && s1.queue[1..] == [0] && s2.queue[1..] == [];
    assert Members([0]) == {0} && Members([2, 0]) == {2, 0} && Members([1, 2, 0]) == {1, 2, 0};
    assert ops[1..] == [Exit] && ops[1..][1..] == [];
    assert Step(s, Exit) == s1 && Step(s1, Exit) == s2;
    assert Run(s1, [Exit]) == s2;
  }
}
