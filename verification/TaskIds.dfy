/** How src/sched/sched.c numbers tasks: `t->id = next_tid++` is a load and a store outside the lock,
    so creators that are preempted between the two can interleave. */
module TaskIds {
  import opened RunQueue

  /** `loaded` holds the values read by creators that have not stored yet; `ids` those given out. */
  datatype Counter = Counter(next: nat, loaded: seq<nat>, ids: seq<nat>)

  /** A creator reads the counter and numbers its task, or the k-th waiting creator stores. */
  datatype Event = Load | Store(k: nat)

  predicate Enabled(s: Counter, e: Event) {
    e.Store? ==> e.k < |s.loaded|
  }

  function Step(s: Counter, e: Event): Counter
    requires Enabled(s, e)
  {
    match e
    case Load => Counter(s.next, s.loaded + [s.next], s.ids + [s.next])
    case Store(k) => Counter(s.loaded[k] + 1, s.loaded[..k] + s.loaded[k + 1..], s.ids)
  }

  predicate EnabledRun(s: Counter, es: seq<Event>)
    decreases es
  {
    es == [] || (Enabled(s, es[0]) && EnabledRun(Step(s, es[0]), es[1..]))
  }

  function Run(s: Counter, es: seq<Event>): Counter
    requires EnabledRun(s, es)
    decreases es
  {
    if es == [] then s else Run(Step(s, es[0]), es[1..])
  }

  /** No creator reads the counter between another one's load and store. */
  predicate Atomic(s: Counter, es: seq<Event>)
    requires EnabledRun(s, es)
    decreases es
  {
    es == [] || ((es[0].Load? ==> s.loaded == []) && Atomic(Step(s, es[0]), es[1..]))
  }

  predicate AllBelow(ids: seq<nat>, n: nat) {
    ids == [] || (ids[0] < n && AllBelow(ids[1..], n))
  }

  /** The counter is ahead of every id, or equal to the one whose creator has yet to store. */
  predicate InOrder(s: Counter) {
    && NoDuplicates(s.ids)
    && ((s.loaded == [] && AllBelow(s.ids, s.next))
        || (s.loaded == [s.next] && s.next in Members(s.ids) && AllBelow(s.ids, s.next + 1)))
  }

  lemma {:induction false} BelowFacts(ids: seq<nat>, n: nat)
    requires AllBelow(ids, n)
    ensures n !in Members(ids) && AllBelow(ids + [n], n + 1)
  {
    if ids == [] {
      assert (ids + [n])[1..] == [];
    } else {
      assert (ids + [n])[1..] == ids[1..] + [n];
      BelowFacts(ids[1..], n);
    }
  }

  lemma {:induction false} DuplicateStays(ids: seq<nat>, i: nat)
    requires !NoDuplicates(ids) || i in Members(ids)
    ensures !NoDuplicates(ids + [i])
  {
    AppendMember(ids, i);
    if ids != [] {
      AppendMember(ids[1..], i);
      assert (ids + [i])[1..] == ids[1..] + [i];
      if !NoDuplicates(ids[1..]) || i in Members(ids[1..]) {
        DuplicateStays(ids[1..], i);
      }
    }
  }

  lemma {:induction false} DuplicateStaysInRun(s: Counter, es: seq<Event>)
    requires EnabledRun(s, es) && !NoDuplicates(s.ids)
    ensures !NoDuplicates(Run(s, es).ids)
    decreases es
  {
    if es != [] {
      if es[0].Load? {
        DuplicateStays(s.ids, s.next);
      }
      DuplicateStaysInRun(Step(s, es[0]), es[1..]);
    }
  }

  lemma LoadInOrder(s: Counter)
    requires InOrder(s) && s.loaded == []
    ensures InOrder(Step(s, Load))
  {
    AppendMember(s.ids, s.next);
    BelowFacts(s.ids, s.next);
    assert Step(s, Load).loaded == [s.next];
  }

  lemma StoreInOrder(s: Counter, k: nat)
    requires InOrder(s) && Enabled(s, Store(k))
    ensures InOrder(Step(s, Store(k)))
  {
    assert k == 0 && s.loaded[..0] + s.loaded[1..] == [];
  }

  /** A second creator that loads repeats the id of the first. */
  lemma LoadRepeats(s: Counter)
    requires InOrder(s) && s.loaded != []
    ensures !NoDuplicates(Step(s, Load).ids)
  {
    DuplicateStays(s.ids, s.next);
  }

  lemma {:induction false} UniqueFrom(s: Counter, es: seq<Event>)
    requires InOrder(s) && EnabledRun(s, es)
    ensures NoDuplicates(Run(s, es).ids) <==> Atomic(s, es)
    decreases es
  {
    if es != [] {
      if es[0].Store? {
        StoreInOrder(s, es[0].k);
        UniqueFrom(Step(s, es[0]), es[1..]);
      } else if s.loaded == [] {
        LoadInOrder(s);
        UniqueFrom(Step(s, es[0]), es[1..]);
      } else {
        LoadRepeats(s);
        DuplicateStaysInRun(Step(s, es[0]), es[1..]);
      }
    }
  }

  /** Task ids are unique if and only if no two creators overlap in the increment. */
  lemma IdsUniqueIffAtomic(es: seq<Event>)
    requires EnabledRun(Counter(0, [], []), es)
    ensures NoDuplicates(Run(Counter(0, [], []), es).ids) <==> Atomic(Counter(0, [], []), es)
  {
    UniqueFrom(Counter(0, [], []), es);
  }

  /** Two creators that read the counter before either stores get the same id. */
  lemma IdsCanCollide()
    ensures EnabledRun(Counter(0, [], []), [Load, Load])
    ensures !NoDuplicates(Run(Counter(0, [], []), [Load, Load]).ids)
  {
    var es := [Load, Load];
    assert es[1..] == [Load] && es[1..][1..] == [];
    var s := Step(Step(Counter(0, [], []), Load), Load);
    assert s.ids == [0, 0] && s.ids[1..] == [0];
    assert Run(Counter(0, [], []), es) == s;
  }
}
