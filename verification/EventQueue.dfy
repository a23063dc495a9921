/** The event queue of src/kernel/event.c: a ring of 256 slots that, when full, gives up its oldest
    event for the newest. Producers run in interrupt handlers and readers hold interrupts off, so
    each operation is one step. */
module EventQueue {
  import opened Prelude
  import opened Ring

  datatype Kind = KeyDown | KeyUp | MouseMove | MouseDown | MouseUp

  datatype Event = Event(kind: Kind, ch: nat, scancode: nat, buttons: nat, button: nat,
                         x: int, y: int, dx: int, dy: int)

  // -------------------------------------------------------------------------------------------
  // The queue as a sequence
  // -------------------------------------------------------------------------------------------

  function Pushed(c: seq<Event>, e: Event): seq<Event> {
    (if |c| == 255 then c[1..] else c) + [e]
  }

  datatype Op = Push(e: Event) | Poll | Init

  /** The contents; what was ever pushed and what was ever handed out, in order; how many were given up. */
  datatype Trace = Trace(contents: seq<Event>, pushed: seq<Event>, polled: seq<Event>, lost: nat)

  const EMPTY: Trace := Trace([], [], [], 0)

  function Step(t: Trace, op: Op): Trace {
    match op
    case Push(e) =>
      Trace(Pushed(t.contents, e), t.pushed + [e], t.polled, t.lost + if |t.contents| == 255 then 1 else 0)
    case Poll => if t.contents == [] then t else t.(contents := t.contents[1..], polled := t.polled + [t.contents[0]])
    case Init => t.(contents := [], lost := t.lost + |t.contents|)
  }

  function Run(t: Trace, ops: seq<Op>): Trace
    decreases ops
  {
    if ops == [] then t else Run(Step(t, ops[0]), ops[1..])
  }

  predicate Suffix(c: seq<Event>, h: seq<Event>) {
    |c| <= |h| && h[|h| - |c|..] == c
  }

  /** p can be had from h by leaving events out. */
  predicate Subsequence(p: seq<Event>, h: seq<Event>) {
    p == []
    || (h != []
        && if p[|p| - 1] == h[|h| - 1] then Subsequence(p[..|p| - 1], h[..|h| - 1])
           else Subsequence(p, h[..|h| - 1]))
  }

  /** The queue holds at most 255 events, the last ones pushed; before them lie those handed out, in
      the order they were pushed, and those given up. */
  ghost predicate Inv(t: Trace) {
    var sound :=
      && |t.contents| <= 255 && Suffix(t.contents, t.pushed)
      && |t.pushed| == |t.polled| + t.lost + |t.contents|
      && Subsequence(t.polled, t.pushed[..|t.pushed| - |t.contents|]);
    sound
  }

  lemma {:induction false} SubsequenceGrows(p: seq<Event>, h: seq<Event>, e: Event)
    requires Subsequence(p, h)
    ensures Subsequence(p, h + [e])
    decreases |h|, 1
  {
    assert (h + [e])[..|h|] == h;
    if p != [] && p[|p| - 1] == e {
      SubsequenceShrinks(p, h);
    }
  }

  /** Leaving the last event out. */
  lemma {:induction false} SubsequenceShrinks(p: seq<Event>, h: seq<Event>)
    requires Subsequence(p, h) && p != []
    ensures Subsequence(p[..|p| - 1], h)
    decreases |h|, 0
  {
    var h', e := h[..|h| - 1], h[|h| - 1];
    assert h == h' + [e];
    if p[|p| - 1] == e {
      SubsequenceGrows(p[..|p| - 1], h', e);
    } else {
      SubsequenceShrinks(p, h');
      SubsequenceGrows(p[..|p| - 1], h', e);
    }
  }

  lemma SubsequenceTakes(p: seq<Event>, h: seq<Event>, e: Event)
    requires Subsequence(p, h)
    ensures Subsequence(p + [e], h + [e])
  {
    assert (h + [e])[..|h|] == h && (p + [e])[..|p|] == p;
  }

  lemma PushInv(t: Trace, e: Event)
    requires Inv(t)
    ensures Inv(Step(t, Push(e)))
  {
    var c, h, n := t.contents, t.pushed, |t.pushed| - |t.contents|;
    if |c| == 255 {
      assert h[n..] == c && h[n + 1..] == c[1..];
      assert (h + [e])[n + 1..] == c[1..] + [e];
      assert (h + [e])[..n + 1] == h[..n] + [h[n]];
      SubsequenceGrows(t.polled, h[..n], h[n]);
    } else {
      assert (h + [e])[n..] == c + [e];
      assert (h + [e])[..n] == h[..n];
    }
  }

  lemma PollInv(t: Trace)
    requires Inv(t)
    ensures Inv(Step(t, Poll))
  {
    var c, h, n := t.contents, t.pushed, |t.pushed| - |t.contents|;
    if c != [] {
      assert h[n..] == c && h[n + 1..] == c[1..];
      assert h[..n + 1] == h[..n] + [c[0]];
      SubsequenceTakes(t.polled, h[..n], c[0]);
    }
  }

  /** Dropping what is left. */
  lemma {:induction false} InitInv(t: Trace)
    requires Inv(t)
    ensures Inv(Step(t, Init))
    decreases |t.contents|
  {
    var h, n := t.pushed, |t.pushed| - |t.contents|;
    if t.contents != [] {
      var t' := t.(contents := t.contents[1..], lost := t.lost + 1);
      assert h[n + 1..] == t.contents[1..];
      assert h[..n + 1] == h[..n] + [h[n]];
      SubsequenceGrows(t.polled, h[..n], h[n]);
      InitInv(t');
    }
  }

  lemma StepInv(t: Trace, op: Op)
    requires Inv(t)
    ensures Inv(Step(t, op))
    ensures op.Poll? && t.contents != [] ==>
              Step(t, op).polled == t.polled + [t.pushed[|t.pushed| - |t.contents|]]
    ensures op.Push? ==>
              && Step(t, op).polled == t.polled && Step(t, op).pushed == t.pushed + [op.e]
              && |Step(t, op).contents| == (if |t.contents| < 255 then |t.contents| + 1 else 255)
              && Step(t, op).lost == (if |t.contents| < 255 then t.lost else t.lost + 1)
    ensures op.Init? ==> Step(t, op).contents == [] && Step(t, op).polled == t.polled
  {
    match op
    case Push(e) => PushInv(t, e);
    case Poll => PollInv(t);
    case Init => InitInv(t);
  }

  /** The events that the operations push. */
  function Pushes(ops: seq<Op>): seq<Event>
    decreases ops
  {
    if ops == [] then [] else (if ops[0].Push? then [ops[0].e] else []) + Pushes(ops[1..])
  }

  /** No pushed event is refused: what has been pushed is what the operations pushed. */
  lemma {:induction false} RunPushes(ops: seq<Op>, t: Trace)
    ensures Run(t, ops).pushed == t.pushed + Pushes(ops)
    decreases ops
  {
    if ops != [] {
      RunPushes(ops[1..], Step(t, ops[0]));
    }
  }

  /** So the queue holds the last events that the operations pushed, and hands out the oldest of them
      next; all others have been handed out or, when it was full or reset, given up. */
  lemma LastHeld(ops: seq<Op>)
    ensures
      var t, p := Run(EMPTY, ops), Pushes(ops);
      && |t.contents| <= 255 && Suffix(t.contents, p) && |p| == |t.polled| + t.lost + |t.contents|
      && (t.contents != [] ==> Step(t, Poll).polled == t.polled + [p[|p| - |t.contents|]])
  {
    RunPushes(ops, EMPTY);
    RunInv(ops, EMPTY);
    StepInv(Run(EMPTY, ops), Poll);
  }

  lemma {:induction false} RunFurther(ops: seq<Op>, t: Trace, op: Op)
    ensures Run(t, ops + [op]) == Step(Run(t, ops), op)
    decreases ops
  {
    if ops != [] {
      assert (ops + [op])[1..] == ops[1..] + [op];
      RunFurther(ops[1..], Step(t, ops[0]), op);
    }
  }

  /** From an empty queue: of events pushed without a poll the last 255 are held. */
  lemma {:induction false} LastPushedHeld(es: seq<Event>, t: Trace)
    requires Inv(t) && t.contents == []
    ensures Run(t, AllPushed(es)).contents == Newest(es)
  {
    if es != [] {
      var before, e := es[..|es| - 1], es[|es| - 1];
      LastPushedHeld(before, t);
      RunFurther(AllPushed(before), t, Push(e));
      PushedLast(es);
    }
  }

  function Newest(es: seq<Event>): seq<Event> {
    if |es| <= 255 then es else es[|es| - 255..]
  }

  lemma PushedLast(es: seq<Event>)
    requires es != []
    ensures Pushed(Newest(es[..|es| - 1]), es[|es| - 1]) == Newest(es)
  {
    var n := |es| - 1;
    assert es == es[..n] + [es[n]];
    if n > 255 {
      assert es[..n][n - 255..][1..] == es[n - 254..n];
    }
  }

  function AllPushed(es: seq<Event>): seq<Op> {
    if es == [] then [] else AllPushed(es[..|es| - 1]) + [Push(es[|es| - 1])]
  }

  /** Over every run of pushes, polls and resets. */
  lemma {:induction false} RunInv(ops: seq<Op>, t: Trace)
    requires Inv(t)
    ensures Inv(Run(t, ops))
    decreases ops
  {
    if ops != [] {
      StepInv(t, ops[0]);
      RunInv(ops[1..], Step(t, ops[0]));
    }
  }

  // -------------------------------------------------------------------------------------------
  // The ring
  // -------------------------------------------------------------------------------------------

  class Queue {
    const q: array<Event>
    var head: nat
    var tail: nat
    ghost var trace: Trace

    /** The events lie in the ring from tail on, and end before head. */
    ghost predicate Valid()
      reads this, q
    {
      var sound :=
        && q.Length == 256 && Inv(trace)
        && Holds(q[..], tail, trace.contents) && head == Slot(tail, |trace.contents|);
      sound
    }

    constructor (q: array<Event>)
      requires q.Length == 256
      ensures Valid() && this.q == q && trace == EMPTY
    {
      this.q := q;
      head, tail := 0, 0;
      trace := EMPTY;
    }

    /** `event_init`. */
    method Reset()
      requires Valid()
      modifies this`head, this`tail, this`trace
      ensures Valid() && trace == Step(old(trace), Init) && trace.contents == []
    {
      InitInv(trace);
      trace := Step(trace, Init);
      head, tail := 0, 0;
    }

    /** `event_push`. */
    method PushEvent(e: Event)
      requires Valid()
      modifies this`head, this`tail, this`trace, q
      ensures Valid() && trace == Step(old(trace), Push(e))
    {
      PushInv(trace, e);
      PushSlot(e, trace.contents);
      trace := Step(trace, Push(e));
    }

    /** The array and the indices of `event_push`. */
    method PushSlot(e: Event, ghost c: seq<Event>)
      requires Holds(q[..], tail, c) && head == Slot(tail, |c|) && q.Length == 256
      modifies this`head, this`tail, q
      ensures Holds(q[..], tail, Pushed(c, e)) && head == Slot(tail, |Pushed(c, e)|)
    {
      Overwrite(q[..], tail, c, head, e);
      var next := (head + 1) % 256;
      if next == tail {
        tail := (tail + 1) % 256;
      }
      q[head] := e;
      head := next;
    }

    /** `event_poll`. */
    method PollEvent() returns (e: Option<Event>)
      requires Valid()
      modifies this`tail, this`trace
      ensures Valid() && trace == Step(old(trace), Poll)
      ensures e == if old(trace).contents == [] then None else Some(old(trace).contents[0])
    {
      PollInv(trace);
      Indices(q[..], tail, trace.contents, head);
      if tail == head {
        return None;
      }
      DropFirst(q[..], tail, trace.contents);
      e := Some(q[tail]);
      tail := (tail + 1) % 256;
      trace := Step(trace, Poll);
    }

    /** `event_pending`. */
    method Pending() returns (some: bool)
      requires Valid()
      ensures some <==> trace.contents != []
    {
      Indices(q[..], tail, trace.contents, head);
      some := head != tail;
    }
  }
}
