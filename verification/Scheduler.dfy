/** The scheduler of src/sched/sched.c: tasks in a circular list of next pointers, a head that never
    leaves it, and one slot for a task that has exited. */
module Scheduler {
  import opened Prelude
  import opened RunQueue

  datatype TaskState = Ready | Running | Dead

  class Task {
    var rsp: nat
    var stackBase: nat
    var state: TaskState
    var id: nat
    var next: Task?

    constructor (rsp: nat, stackBase: nat, state: TaskState, id: nat)
      ensures this.rsp == rsp && this.stackBase == stackBase && Shown() == Card(state, id, null)
    {
      this.rsp := rsp;
      this.stackBase := stackBase;
      this.state := state;
      this.id := id;
      this.next := null;
    }

    ghost function Shown(): Card
      reads this
    {
      Card(state, id, next)
    }
  }

  /** What the scheduler keeps in the tasks of its list. */
  datatype Card = Card(state: TaskState, id: nat, next: Task?)
  type Cards = map<Task, Card>

  /** The next pointers lead through q one after the other, and from its last task to `last`. */
  ghost predicate Chain(m: Cards, q: seq<Task>, last: Task) {
    && q != [] && q[0] in m
    && if |q| == 1 then m[q[0]].next == last else m[q[0]].next == q[1] && Chain(m, q[1..], last)
  }

  ghost predicate AllReady(m: Cards, q: seq<Task>) {
    q == [] || (q[0] in m && m[q[0]].state == Ready && AllReady(m, q[1..]))
  }

  /** No task of q has this id. */
  ghost predicate IdMissing(m: Cards, q: seq<Task>, id: nat) {
    q == [] || (q[0] in m && m[q[0]].id != id && IdMissing(m, q[1..], id))
  }

  /** Ids are pairwise different and below n. */
  ghost predicate IdsDistinct(m: Cards, q: seq<Task>, n: nat) {
    q == [] || (q[0] in m && m[q[0]].id < n && IdMissing(m, q[1..], m[q[0]].id) && IdsDistinct(m, q[1..], n))
  }

  lemma {:induction false} MemberIn(q: seq<Task>, x: Task)
    ensures x in Members(q) <==> x in q
  {
    if q != [] {
      MemberIn(q[1..], x);
    }
  }

  // -------------------------------------------------------------------------------------------
  // Changes to the cards
  // -------------------------------------------------------------------------------------------

  /** A new card for a task outside q. */
  lemma {:induction false} OutsideKept(m: Cards, q: seq<Task>, last: Task, n: nat, id: nat, t: Task, c: Card)
    requires t !in Members(q)
    ensures Chain(m, q, last) ==> Chain(m[t := c], q, last)
    ensures AllReady(m, q) ==> AllReady(m[t := c], q)
    ensures IdMissing(m, q, id) ==> IdMissing(m[t := c], q, id)
    ensures IdsDistinct(m, q, n) ==> IdsDistinct(m[t := c], q, n)
  {
    if q != [] {
      OutsideKept(m, q[1..], last, n, id, t, c);
      if q[0] in m {
        OutsideKept(m, q[1..], last, n, m[q[0]].id, t, c);
      }
    }
  }

  /** A new next pointer or a new state leaves ids alone. */
  lemma {:induction false} IdsKept(m: Cards, q: seq<Task>, n: nat, id: nat, t: Task, c: Card)
    requires t in m && c.id == m[t].id
    ensures IdMissing(m, q, id) ==> IdMissing(m[t := c], q, id)
    ensures IdsDistinct(m, q, n) ==> IdsDistinct(m[t := c], q, n)
  {
    if q != [] {
      IdsKept(m, q[1..], n, id, t, c);
      if q[0] in m {
        IdsKept(m, q[1..], n, m[q[0]].id, t, c);
      }
    }
  }

  /** A new next pointer leaves states alone. */
  lemma {:induction false} ReadyKept(m: Cards, q: seq<Task>, t: Task, c: Card)
    requires t in m && c.state == m[t].state && AllReady(m, q)
    ensures AllReady(m[t := c], q)
  {
    if q != [] {
      ReadyKept(m, q[1..], t, c);
    }
  }

  /** A new state leaves next pointers alone. */
  lemma {:induction false} ChainKept(m: Cards, q: seq<Task>, last: Task, t: Task, c: Card)
    requires t in m && c.next == m[t].next && Chain(m, q, last)
    ensures Chain(m[t := c], q, last)
  {
    if |q| > 1 {
      ChainKept(m, q[1..], last, t, c);
    }
  }

  lemma {:induction false} IdsGrow(m: Cards, q: seq<Task>, n: nat)
    requires IdsDistinct(m, q, n)
    ensures IdsDistinct(m, q, n + 1) && IdMissing(m, q, n)
  {
    if q != [] {
      IdsGrow(m, q[1..], n);
    }
  }

  // -------------------------------------------------------------------------------------------
  // Changes to the list
  // -------------------------------------------------------------------------------------------

  /** `list_add`: t behind head. */
  function Inserted(m: Cards, head: Task, t: Task): Cards
    requires head in m && t in m
  {
    m[t := m[t].(next := m[head].next)][head := m[head].(next := t)]
  }

  lemma {:induction false} InsertChain(m: Cards, q: seq<Task>, last: Task, head: Task, t: Task)
    requires Chain(m, q, last) && NoDuplicates(q) && head in Members(q) && t !in Members(q) && head in m && t in m
    ensures Chain(Inserted(m, head, t), InsertAfter(q, head, t), last)
  {
    var r, m' := InsertAfter(q, head, t), Inserted(m, head, t);
    var m1 := m[t := m[t].(next := m[head].next)];
    OutsideKept(m, q, last, 0, 0, t, m[t].(next := m[head].next));
    if q[0] == head {
      assert r[1..] == [t] + q[1..] && r[1..][1..] == q[1..];
      if |q| > 1 {
        OutsideKept(m1, q[1..], last, 0, 0, head, m[head].(next := t));
      }
      assert Chain(m', r[1..], last);
    } else {
      InsertChain(m, q[1..], last, head, t);
      InsertAfterMembers(q[1..], head, t);
      assert r[1..] == InsertAfter(q[1..], head, t);
    }
  }

  lemma {:induction false} InsertReady(m: Cards, q: seq<Task>, head: Task, t: Task)
    requires AllReady(m, q) && t in m && m[t].state == Ready
    ensures AllReady(m, InsertAfter(q, head, t))
  {
    if q != [] {
      var r := InsertAfter(q, head, t);
      if q[0] == head {
        assert r[1..] == [t] + q[1..] && r[1..][1..] == q[1..];
      } else {
        InsertReady(m, q[1..], head, t);
        assert r[1..] == InsertAfter(q[1..], head, t);
      }
    }
  }

  lemma InsertReadyTail(m: Cards, q: seq<Task>, head: Task, t: Task)
    requires q != [] && AllReady(m, q[1..]) && t in m && m[t].state == Ready
    ensures AllReady(m, InsertAfter(q, head, t)[1..])
  {
    var r := InsertAfter(q, head, t);
    if q[0] == head {
      assert r[1..] == [t] + q[1..] && r[1..][1..] == q[1..];
    } else {
      InsertReady(m, q[1..], head, t);
      assert r[1..] == InsertAfter(q[1..], head, t);
    }
  }

  lemma {:induction false} InsertIds(m: Cards, q: seq<Task>, head: Task, t: Task, n: nat)
    requires t in m && IdsDistinct(m, q, n) && IdMissing(m, q, m[t].id) && m[t].id < n
    ensures IdsDistinct(m, InsertAfter(q, head, t), n)
    ensures forall id :: IdMissing(m, q, id) && id != m[t].id ==> IdMissing(m, InsertAfter(q, head, t), id)
  {
    if q != [] {
      var r := InsertAfter(q, head, t);
      if q[0] == head {
        assert r[1..] == [t] + q[1..] && r[1..][1..] == q[1..];
      } else {
        InsertIds(m, q[1..], head, t, n);
        assert r[1..] == InsertAfter(q[1..], head, t);
      }
    }
  }

  /** `list_remove`: the last task of the chain now leads elsewhere. */
  lemma {:induction false} RetargetChain(m: Cards, q: seq<Task>, last: Task, to: Task)
    requires Chain(m, q, last) && NoDuplicates(q)
    ensures q[|q| - 1] in m && q[|q| - 1] in Members(q)
    ensures Chain(m[q[|q| - 1] := m[q[|q| - 1]].(next := to)], q, to)
  {
    if |q| > 1 {
      RetargetChain(m, q[1..], last, to);
      assert q[1..][|q| - 2] == q[|q| - 1];
    }
  }

  /** Turning the cycle. */
  lemma {:induction false} ChainAppend(m: Cards, q: seq<Task>, x: Task, last: Task)
    requires Chain(m, q, x) && x in m && m[x].next == last
    ensures Chain(m, q + [x], last)
  {
    if |q| > 1 {
      assert (q + [x])[1..] == q[1..] + [x];
      ChainAppend(m, q[1..], x, last);
    } else {
      assert (q + [x])[1..] == [x];
    }
  }

  lemma {:induction false} ReadyAppend(m: Cards, q: seq<Task>, t: Task)
    requires AllReady(m, q) && t in m && m[t].state == Ready
    ensures AllReady(m, q + [t])
  {
    if q == [] {
      assert (q + [t])[1..] == [];
    } else {
      assert (q + [t])[1..] == q[1..] + [t];
      ReadyAppend(m, q[1..], t);
    }
  }

  lemma {:induction false} IdsAppend(m: Cards, q: seq<Task>, t: Task, n: nat)
    requires t in m && IdsDistinct(m, q, n) && IdMissing(m, q, m[t].id) && m[t].id < n
    ensures IdsDistinct(m, q + [t], n)
    ensures forall id :: IdMissing(m, q, id) && id != m[t].id ==> IdMissing(m, q + [t], id)
  {
    if q == [] {
      assert (q + [t])[1..] == [];
    } else {
      assert (q + [t])[1..] == q[1..] + [t];
      IdsAppend(m, q[1..], t, n);
    }
  }

  // -------------------------------------------------------------------------------------------
  // The scheduler
  // -------------------------------------------------------------------------------------------

  /** The tasks of q form a cycle, with different ids. */
  ghost predicate Cycle(m: Cards, q: seq<Task>, n: nat) {
    var sound :=
      && q != [] && NoDuplicates(q) && Members(q) <= m.Keys
      && Chain(m, q, q[0]) && IdsDistinct(m, q, n);
    sound
  }

  /** The first task of q runs, it alone is RUNNING and the others are READY. */
  ghost predicate OneRuns(m: Cards, q: seq<Task>) {
    var sound := q != [] && q[0] in m && m[q[0]].state == Running && AllReady(m, q[1..]);
    sound
  }

  class Scheduler {
    var current: Task
    var head: Task
    var zombie: Task?
    var nextTid: nat
    ghost var queue: seq<Task>      // the list, from the running task on
    ghost var cards: Cards
    ghost var freed: seq<Task>
    ghost var dropped: set<Task>

    ghost function Abstract(): Sched<Task>
      reads this
    {
      var exited: Option<Task> := if zombie == null then None else Some(zombie);
      Sched(queue, head, exited, freed, dropped)
    }

    ghost predicate Mirrored()
      reads this, cards.Keys
    {
      forall t :: t in cards ==> t.Shown() == cards[t]
    }

    /** Outside the window of `task_exit`. */
    ghost predicate Valid()
      reads this, cards.Keys
    {
      var sound :=
        && Inv(Abstract()) && Mirrored() && Cycle(cards, queue, nextTid) && OneRuns(cards, queue)
        && current == queue[0]
        && (zombie != null ==> zombie in cards && cards[zombie].state == Dead);
      sound
    }

    /** `sched_init`. */
    constructor ()
      ensures Valid() && |queue| == 1 && fresh(queue[0])
      ensures Abstract() == Sched(queue, queue[0], None, [], {}) && nextTid == 1
    {
      var boot := new Task(0, 0, Running, 0);
      boot.next := boot;
      current := boot;
      head := boot;
      zombie := null;
      nextTid := 1;
      queue := [boot];
      cards := map[boot := Card(Running, 0, boot)];
      freed := [];
      dropped := {};
      new;
      assert queue[1..] == [] && Members(queue) == {boot};
      assert Inv(Abstract());
      assert Chain(cards, queue, boot) && IdsDistinct(cards, queue, 1);
      assert Cycle(cards, queue, nextTid) && OneRuns(cards, queue);
    }

    /** `t->next = n`. */
    method SetNext(t: Task, n: Task?)
      requires Mirrored() && t in cards
      modifies t`next, this`cards
      ensures Mirrored() && cards == old(cards)[t := old(cards)[t].(next := n)] && cards.Keys == old(cards.Keys)
    {
      t.next := n;
      cards := cards[t := cards[t].(next := n)];
    }

    /** `t->state = st`. */
    method SetState(t: Task, st: TaskState)
      requires Mirrored() && t in cards
      modifies t`state, this`cards
      ensures Mirrored() && cards == old(cards)[t := old(cards)[t].(state := st)] && cards.Keys == old(cards.Keys)
    {
      t.state := st;
      cards := cards[t := cards[t].(state := st)];
    }

    /** `task_create`, for a stack whose initial frame is at rsp. */
    method TaskCreate(rsp: nat, stackBase: nat) returns (t: Task)
      requires Valid()
      modifies this`nextTid, this`queue, this`cards, cards.Keys
      ensures Valid() && fresh(t) && t.rsp == rsp && t.stackBase == stackBase && t.id == old(nextTid)
      ensures t.state == Ready && nextTid == old(nextTid) + 1
      ensures Abstract() == Step(old(Abstract()), Create(t))
    {
      t := new Task(rsp, stackBase, Ready, nextTid);
      NotKnown(t);
      cards := cards[t := t.Shown()];
      CycleKept(old(cards), queue, nextTid, t, t.Shown());
      Enroll(t);
    }

    lemma NotKnown(t: Task)
      requires t !in queue && t !in freed && t !in dropped && t != zombie
      ensures Enabled(Abstract(), Create(t)) && t !in Members(queue)
    {
      MemberIn(queue, t);
      MemberIn(freed, t);
    }

    /** The counter moves on and the new task joins the list. */
    method Enroll(t: Task)
      requires Valid() && Enabled(Abstract(), Create(t))
      requires t in cards && cards[t].id == nextTid && cards[t].state == Ready
      modifies this`nextTid, this`queue, this`cards, t`next, head`next
      ensures Valid() && Abstract() == Step(old(Abstract()), Create(t)) && nextTid == old(nextTid) + 1
    {
      ghost var s, m := Step(Abstract(), Create(t)), cards;
      StepInv(Abstract(), Create(t));
      EnrollPlan(m, queue, head, t, nextTid);
      nextTid := nextTid + 1;
      ListAdd(t);
      queue := InsertAfter(queue, head, t);
      assert Abstract() == s;
    }

    /** `list_add`. */
    method ListAdd(t: Task)
      requires Mirrored() && t in cards && head in cards && t != head
      modifies t`next, head`next, this`cards
      ensures Mirrored() && cards == Inserted(old(cards), head, t)
    {
      SetNext(t, head.next);
      SetNext(head, t);
    }

    /** Inside `task_exit`: the running task is dead, off the list, and in the zombie slot; its next
        pointer still leads to its successor. */
    ghost predicate Window()
      reads this, cards.Keys
    {
      var sound :=
        && Inv(Abstract()) && Mirrored() && Cycle(cards, queue, nextTid) && AllReady(cards, queue)
        && zombie == current && current in cards && cards[current].state == Dead
        && cards[current].next == queue[0];
      sound
    }

    /** `schedule`, from a tick, a yield, or the window of `task_exit`; the results are the arguments
        of `switch_context`, which is not called when they are the same. */
    method Schedule() returns (prev: Task, next: Task)
      requires Valid() || Window()
      modifies this`zombie, this`freed, this`current, this`queue, this`cards, cards.Keys
      ensures Valid() && prev == old(current) && next == current
      ensures old(Valid()) ==> Abstract() == Step(old(Abstract()), Switch)
      ensures old(Window()) ==> Abstract() == old(Abstract())
    {
      ghost var exiting, s := zombie == current, Abstract();
      SwitchInv(s);
      Reap();
      prev := current;
      next := Turn(exiting);
      assert Abstract() == if exiting then s else Step(s, Switch);
    }

    /** `schedule` after `reap`, with the list turned. */
    method Turn(ghost exiting: bool) returns (next: Task)
      requires Mirrored() && Cycle(cards, queue, nextTid) && current in cards
      requires if exiting then AllReady(cards, queue) && cards[current].next == queue[0] && cards[current].state == Dead
               else OneRuns(cards, queue) && current == queue[0]
      modifies this`current, this`queue, this`cards, cards.Keys
      ensures Mirrored() && Cycle(cards, queue, nextTid) && OneRuns(cards, queue)
      ensures queue == TurnedQueue(old(queue), exiting) && current == queue[0] == next
      ensures exiting ==> old(current) in cards && cards[old(current)] == old(cards[current])
    {
      SwitchPlan(cards, queue, current, exiting, nextTid);
      next := Dispatch(RestOf(queue, exiting), queue[0]);
      queue := TurnedQueue(queue, exiting);
    }

    /** The statements of `schedule` after `reap`. */
    method Dispatch(ghost rest: seq<Task>, ghost last: Task) returns (next: Task)
      requires Mirrored() && current in cards && current !in Members(rest)
      requires Members(rest) <= cards.Keys && last in cards
      requires Leads(cards, current, rest, last)
      requires last == current || SomeAlive(cards, rest)
      modifies this`current, this`cards, cards.Keys
      ensures Mirrored() && next == FirstAlive(old(cards), rest, last) && current == next
      ensures old(current) in old(cards) && next in old(cards)
      ensures cards == AfterSwitch(old(cards), old(current), next)
    {
      AliveIsMember(cards, rest, last);
      next := NextAlive(current, rest, last);
      if next != current {
        if current.state == Running {
          SetState(current, Ready);
        }
        SetState(next, Running);
        current := next;
      }
    }

    /** `task_exit`, up to the switch away from the exiting task. */
    method TaskExit() returns (prev: Task, next: Task)
      requires Valid() && current != head
      modifies this`zombie, this`freed, this`dropped, this`current, this`queue, this`cards, cards.Keys
      ensures Valid() && prev == old(current) && next == current
      ensures Abstract() == Step(old(Abstract()), Exit)
    {
      ghost var s, overwritten := Step(Abstract(), Exit), if zombie != null then {zombie} else {};
      StepInv(Abstract(), Exit);
      Leave();
      dropped := dropped + overwritten;
      zombie := current;
      queue := queue[1..];
      assert Abstract() == s;
      prev, next := Schedule();
    }

    /** `current_task->state = TASK_DEAD; list_remove(current_task)`. */
    method Leave()
      requires Valid() && current != head
      modifies this`cards, cards.Keys
      ensures |queue| > 1 && Mirrored() && current in cards && cards[current].state == Dead
      ensures cards.Keys == old(cards.Keys)
      ensures Cycle(cards, queue[1..], nextTid) && AllReady(cards, queue[1..]) && cards[current].next == queue[1]
    {
      ghost var m, q := cards, queue;
      OthersInQueue(q, head);
      ExitPlan(m, q, nextTid);
      SetState(current, Dead);
      ListRemove(current);
    }

    /** `list_remove` of the first task of `queue`. */
    method ListRemove(t: Task)
      requires Mirrored() && Cycle(cards, queue, nextTid) && t == queue[0] && |queue| > 1
      modifies this`cards, cards.Keys
      ensures queue[0] in old(cards) && queue[|queue| - 1] in old(cards)
      ensures Mirrored() && cards == Unlinked(old(cards), queue) && cards.Keys == old(cards.Keys)
    {
      var p := t.next;
      ghost var rest := queue[1..];
      while p.next != t
        invariant rest != [] && p == rest[0] && Chain(cards, rest, t) && t !in Members(rest)
        invariant Members(rest) <= cards.Keys && rest[|rest| - 1] == queue[|queue| - 1]
        decreases |rest|
      {
        p := p.next;
        rest := rest[1..];
      }
      assert |rest| == 1;
      SetNext(p, t.next);
    }

    /** `sched_task_count`. */
    method TaskCount() returns (n: nat)
      requires Valid()
      ensures n == |queue|
    {
      HeadCycle(cards, queue, head);
      ghost var rest := FromHead(queue, [], head);
      n := 0;
      var t := head;
      var more := true;
      while more
        invariant more ==> rest != [] && t == rest[0] && Chain(cards, rest, head) && AllAlive(cards, rest)
        invariant more ==> head !in Members(rest[1..]) && n + |rest| == |queue|
        invariant !more ==> n == |queue|
        decreases if more then |rest| else 0
      {
        if t.state != Dead {
          n := n + 1;
        }
        t := t.next;
        more := t != head;
        if more {
          rest := rest[1..];
        }
      }
    }

    /** `reap`: the zombie's stack and structure are given back. */
    method Reap()
      modifies this`zombie, this`freed
      ensures zombie == if old(zombie) == current then old(zombie) else null
      ensures freed == if old(zombie) == null || old(zombie) == current then old(freed) else old(freed) + [old(zombie)]
    {
      if zombie != null && zombie != current {
        var z: Task := zombie;
        zombie := null;
        freed := freed + [z];
      }
    }

    /** The loop of `schedule` that skips dead tasks. */
    method NextAlive(prev: Task, ghost rest: seq<Task>, ghost last: Task) returns (next: Task)
      requires Mirrored() && prev in cards && prev !in Members(rest) && Members(rest) <= cards.Keys && last in cards
      requires Leads(cards, prev, rest, last)
      requires last == prev || SomeAlive(cards, rest)
      ensures next == FirstAlive(cards, rest, last)
    {
      next := prev.next;
      ghost var r := rest;
      while next.state == Dead && next != prev
        invariant next == (if r == [] then last else r[0]) && Members(r) <= cards.Keys
        invariant r != [] ==> Chain(cards, r, last)
        invariant FirstAlive(cards, r, last) == FirstAlive(cards, rest, last)
        invariant (last == prev || SomeAlive(cards, r)) && prev !in Members(r)
        decreases |r|
      {
        next := next.next;
        r := r[1..];
      }
    }
  }

  /** The next pointer of t leads into q and through it to `last`. */
  ghost predicate Leads(m: Cards, t: Task, q: seq<Task>, last: Task)
    requires t in m
  {
    if q == [] then m[t].next == last else m[t].next == q[0] && Chain(m, q, last)
  }

  function FirstAlive(m: Cards, q: seq<Task>, last: Task): Task {
    if q == [] then last
    else if q[0] in m && m[q[0]].state != Dead then q[0]
    else FirstAlive(m, q[1..], last)
  }

  predicate SomeAlive(m: Cards, q: seq<Task>) {
    q != [] && ((q[0] in m && m[q[0]].state != Dead) || SomeAlive(m, q[1..]))
  }

  lemma CycleKept(m: Cards, q: seq<Task>, n: nat, t: Task, c: Card)
    requires Cycle(m, q, n) && OneRuns(m, q) && t !in Members(q)
    ensures Cycle(m[t := c], q, n) && OneRuns(m[t := c], q)
  {
    OutsideKept(m, q, q[0], n, 0, t, c);
    OutsideKept(m, q[1..], q[0], n, 0, t, c);
  }

  lemma EnrollPlan(m: Cards, q: seq<Task>, head: Task, t: Task, n: nat)
    requires Cycle(m, q, n) && OneRuns(m, q) && head in Members(q) && t !in Members(q)
    requires t in m && m[t].id == n && m[t].state == Ready
    ensures head in m && t != head
    ensures Cycle(Inserted(m, head, t), InsertAfter(q, head, t), n + 1)
    ensures OneRuns(Inserted(m, head, t), InsertAfter(q, head, t))
    ensures InsertAfter(q, head, t)[0] == q[0]
  {
    var r := InsertAfter(q, head, t);
    var c, d := m[t].(next := m[head].next), m[head].(next := t);
    InsertChain(m, q, q[0], head, t);
    InsertAfterMembers(q, head, t);
    IdsGrow(m, q, n);
    InsertIds(m, q, head, t, n + 1);
    IdsKept(m, r, n + 1, 0, t, c);
    IdsKept(m[t := c], r, n + 1, 0, head, d);
    InsertReadyTail(m, q, head, t);
    ReadyKept(m, r[1..], t, c);
    ReadyKept(m[t := c], r[1..], head, d);
  }

  /** The cards after a switch from prev to next. */
  function Switched(m: Cards, prev: Task, next: Task): Cards
    requires prev in m && next in m
  {
    var m1 := if m[prev].state == Running then m[prev := m[prev].(state := Ready)] else m;
    m1[next := m1[next].(state := Running)]
  }

  function AfterSwitch(m: Cards, prev: Task, next: Task): Cards
    requires prev in m && next in m
  {
    if next == prev then m else Switched(m, prev, next)
  }

  /** The tasks behind the running one, in and out of the exit window. */
  function RestOf(q: seq<Task>, exiting: bool): seq<Task>
    requires q != []
  {
    if exiting then q else q[1..]
  }

  function TurnedQueue(q: seq<Task>, exiting: bool): seq<Task>
    requires q != []
  {
    if exiting then q else Rotate(q)
  }

  /** What `schedule` finds and what it leaves. */
  lemma SwitchPlan(m: Cards, q: seq<Task>, prev: Task, exiting: bool, n: nat)
    requires Cycle(m, q, n) && prev in m
    requires if exiting then AllReady(m, q) && m[prev].next == q[0] && m[prev].state == Dead
             else OneRuns(m, q) && prev == q[0]
    ensures
      var rest, q' := RestOf(q, exiting), TurnedQueue(q, exiting);
      var next := FirstAlive(m, rest, q[0]);
      && q[0] in m && prev !in Members(rest) && Members(rest) <= m.Keys && Leads(m, prev, rest, q[0])
      && (q[0] == prev || SomeAlive(m, rest))
      && next in m && q' != [] && q'[0] == next
      && Cycle(AfterSwitch(m, prev, next), q', n) && OneRuns(AfterSwitch(m, prev, next), q')
      && (exiting ==> AfterSwitch(m, prev, next)[prev] == m[prev])
  {
    if exiting {
      ExitSwitch(m, q, prev, n);
    } else {
      TaskSwitch(m, q, n);
    }
  }

  lemma {:induction false} AliveIsMember(m: Cards, q: seq<Task>, last: Task)
    ensures FirstAlive(m, q, last) == last || FirstAlive(m, q, last) in Members(q)
  {
    if q != [] {
      AliveIsMember(m, q[1..], last);
    }
  }

  /** From a running task the next of the cycle is chosen, and the cycle turns. */
  lemma TaskSwitch(m: Cards, q: seq<Task>, n: nat)
    requires Cycle(m, q, n) && OneRuns(m, q)
    ensures q[0] in m && q[0] !in Members(q[1..]) && Members(q[1..]) <= m.Keys && Leads(m, q[0], q[1..], q[0])
    ensures FirstAlive(m, q[1..], q[0]) == (if |q| == 1 then q[0] else q[1])
    ensures |q| == 1 ==> Rotate(q) == q
    ensures |q| > 1 ==>
              && q[1] in m && q[1] != q[0]
              && Cycle(Switched(m, q[0], q[1]), Rotate(q), n) && OneRuns(Switched(m, q[0], q[1]), Rotate(q))
  {
    if |q| > 1 {
      var a, b := q[0], q[1];
      var c, d := m[a].(state := Ready), m[b].(state := Running);
      var m1 := m[a := c];
      ChainAppend(m, q[1..], a, b);
      IdsAppend(m, q[1..], a, n);
      AppendMember(q[1..], a);
      ChainKept(m, Rotate(q), b, a, c);
      ChainKept(m1, Rotate(q), b, b, d);
      IdsKept(m, Rotate(q), n, 0, a, c);
      IdsKept(m1, Rotate(q), n, 0, b, d);
      OutsideKept(m, q[1..], b, 0, 0, a, c);
      ReadyAppend(m1, q[2..], a);
      assert q[1..][1..] == q[2..] && Rotate(q)[1..] == q[2..] + [a];
      AppendMember(q[2..], a);
      OutsideKept(m1, q[2..] + [a], b, 0, 0, b, d);
    }
  }

  /** From the exit window the successor is chosen, and the cycle stays. */
  lemma ExitSwitch(m: Cards, q: seq<Task>, prev: Task, n: nat)
    requires Cycle(m, q, n) && AllReady(m, q)
    requires prev in m && m[prev].next == q[0] && m[prev].state == Dead
    ensures prev !in Members(q) && Leads(m, prev, q, q[0]) && SomeAlive(m, q) && q[0] in m
    ensures FirstAlive(m, q, q[0]) == q[0]
    ensures Cycle(Switched(m, prev, q[0]), q, n) && OneRuns(Switched(m, prev, q[0]), q)
  {
    ReadyIsNotDead(m, q, prev);
    var d := m[q[0]].(state := Running);
    ChainKept(m, q, q[0], q[0], d);
    IdsKept(m, q, n, 0, q[0], d);
    OutsideKept(m, q[1..], q[0], 0, 0, q[0], d);
  }

  lemma {:induction false} ReadyIsNotDead(m: Cards, q: seq<Task>, t: Task)
    requires AllReady(m, q) && t in m && m[t].state == Dead
    ensures t !in Members(q)
  {
    if q != [] {
      ReadyIsNotDead(m, q[1..], t);
    }
  }

  /** The cards after the first task of q has been taken out of the cycle. */
  ghost function Unlinked(m: Cards, q: seq<Task>): Cards
    requires q != [] && q[0] in m && q[|q| - 1] in m
  {
    m[q[|q| - 1] := m[q[|q| - 1]].(next := m[q[0]].next)]
  }

  lemma OthersInQueue(q: seq<Task>, head: Task)
    requires q != [] && head in Members(q) && head != q[0]
    ensures |q| > 1
  {
    var rest := q[1..];
    assert rest != [] by {
      assert head in Members(rest);
    }
  }

  /** Without its first task, which is dead, the cycle is one of ready tasks. */
  lemma ExitPlan(m: Cards, q: seq<Task>, n: nat)
    requires Cycle(m, q, n) && OneRuns(m, q) && |q| > 1
    ensures q[0] in m && q[|q| - 1] in m
    ensures
      var m1 := m[q[0] := m[q[0]].(state := Dead)];
      && Cycle(m1, q, n)
      && Cycle(Unlinked(m1, q), q[1..], n) && AllReady(Unlinked(m1, q), q[1..])
      && q[0] in Unlinked(m1, q) && Unlinked(m1, q)[q[0]] == m1[q[0]] && m1[q[0]].next == q[1]
  {
    var a, z := q[0], q[|q| - 1];
    var c := m[a].(state := Dead);
    var m1 := m[a := c];
    ChainKept(m, q, a, a, c);
    IdsKept(m, q, n, 0, a, c);
    OutsideKept(m, q[1..], a, 0, 0, a, c);
    RetargetChain(m1, q[1..], a, q[1]);
    assert q[1..][|q| - 2] == z;
    var d := m1[z].(next := q[1]);
    IdsKept(m1, q[1..], n, 0, z, d);
    ReadyKept(m1, q[1..], z, d);
  }

  ghost predicate AllAlive(m: Cards, q: seq<Task>) {
    q == [] || (q[0] in m && m[q[0]].state != Dead && AllAlive(m, q[1..]))
  }

  /** The cycle written down from the boot task on. */
  function FromHead(q: seq<Task>, before: seq<Task>, head: Task): seq<Task> {
    if q == [] || q[0] == head then q + before else FromHead(q[1..], before + [q[0]], head)
  }

  lemma {:induction false} ReadyIsAlive(m: Cards, q: seq<Task>)
    requires AllReady(m, q)
    ensures AllAlive(m, q)
  {
    if q != [] {
      ReadyIsAlive(m, q[1..]);
    }
  }

  lemma {:induction false} AliveAppend(m: Cards, q: seq<Task>, t: Task)
    requires AllAlive(m, q) && t in m && m[t].state != Dead
    ensures AllAlive(m, q + [t])
  {
    if q == [] {
      assert (q + [t])[1..] == [];
    } else {
      assert (q + [t])[1..] == q[1..] + [t];
      AliveAppend(m, q[1..], t);
    }
  }

  /** One turn of a cycle of live tasks. */
  lemma TurnCycle(m: Cards, c: seq<Task>)
    requires c != [] && Chain(m, c, c[0]) && AllAlive(m, c) && NoDuplicates(c)
    ensures Chain(m, Rotate(c), Rotate(c)[0]) && AllAlive(m, Rotate(c)) && NoDuplicates(Rotate(c))
  {
    AliveAppend(m, c[1..], c[0]);
    AppendMember(c[1..], c[0]);
    if |c| > 1 {
      ChainAppend(m, c[1..], c[0], c[1]);
    } else {
      assert Rotate(c) == c;
    }
  }

  lemma {:induction false} TurnToHead(m: Cards, q: seq<Task>, before: seq<Task>, head: Task)
    requires head in Members(q)
    requires Chain(m, q + before, q[0]) && AllAlive(m, q + before) && NoDuplicates(q + before)
    ensures
      var c := FromHead(q, before, head);
      && |c| == |q| + |before| && c != [] && c[0] == head
      && Chain(m, c, head) && AllAlive(m, c) && NoDuplicates(c)
    decreases |q|
  {
    if q[0] != head {
      var c := q + before;
      TurnCycle(m, c);
      assert Rotate(c) == q[1..] + (before + [q[0]]);
      TurnToHead(m, q[1..], before + [q[0]], head);
    }
  }

  lemma HeadCycle(m: Cards, q: seq<Task>, head: Task)
    requires q != [] && NoDuplicates(q) && Chain(m, q, q[0]) && OneRuns(m, q) && head in Members(q)
    ensures
      var c := FromHead(q, [], head);
      && |c| == |q| && c != [] && c[0] == head
      && Chain(m, c, head) && AllAlive(m, c) && head !in Members(c[1..])
  {
    ReadyIsAlive(m, q[1..]);
    assert q + [] == q;
    TurnToHead(m, q, [], head);
  }
}
