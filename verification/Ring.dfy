/** Rings of 256 slots, of which one always stays free, as both input buffers use them. */
module Ring {
  /** The k-th slot from tail on. */
  function Slot(tail: nat, k: nat): nat {
    if tail + k < 256 then tail + k else tail + k - 256
  }

  /** c lies in the slots s from tail on. */
  ghost predicate Holds<T>(s: seq<T>, tail: nat, c: seq<T>) {
    var sound :=
      && |s| == 256 && tail < 256 && |c| <= 255
      && forall k :: 0 <= k < |c| ==> Slot(tail, k) < 256 && s[Slot(tail, k)] == c[k];
    sound
  }

  lemma SlotNext(tail: nat, k: nat)
    requires tail < 256 && k < 255
    ensures Slot(Slot(tail, 1), k) == Slot(tail, k + 1) && Slot(tail, k) < 256
    ensures (tail + 1) % 256 == Slot(tail, 1)
  {
  }

  lemma SlotsApart(tail: nat, k: nat, l: nat)
    requires tail < 256 && k < 256 && l < 256 && k != l
    ensures Slot(tail, k) != Slot(tail, l)
  {
  }

  lemma DropFirst<T>(s: seq<T>, tail: nat, c: seq<T>)
    requires Holds(s, tail, c) && c != []
    ensures Holds(s, Slot(tail, 1), c[1..]) && Slot(Slot(tail, 1), |c| - 1) == Slot(tail, |c|)
    ensures s[tail] == c[0]
  {
    assert Slot(tail, 0) == tail;
    SlotNext(tail, |c| - 1);
    forall k | 0 <= k < |c| - 1
      ensures Slot(Slot(tail, 1), k) < 256 && s[Slot(Slot(tail, 1), k)] == c[1..][k]
    {
      SlotNext(tail, k);
    }
  }

  lemma Append<T>(s: seq<T>, tail: nat, c: seq<T>, e: T)
    requires Holds(s, tail, c) && |c| < 255
    ensures Slot(tail, |c|) < 256 && Holds(s[Slot(tail, |c|) := e], tail, c + [e])
    ensures Slot(Slot(tail, |c|), 1) == Slot(tail, |c| + 1)
  {
    forall k | 0 <= k < |c|
      ensures Slot(tail, k) != Slot(tail, |c|)
    {
      SlotsApart(tail, k, |c|);
    }
  }

  /** Empty and full, as the indices tell them. */
  lemma Indices<T>(s: seq<T>, tail: nat, c: seq<T>, head: nat)
    requires Holds(s, tail, c) && head == Slot(tail, |c|)
    ensures head < 256 && (head == tail <==> c == []) && ((head + 1) % 256 == tail <==> |c| == 255)
    ensures (head + 1) % 256 == Slot(head, 1) && (tail + 1) % 256 == Slot(tail, 1)
  {
  }

  /** Writing at head, after giving up the first element of a full ring. */
  lemma Overwrite<T>(s: seq<T>, tail: nat, c: seq<T>, head: nat, e: T)
    requires Holds(s, tail, c) && head == Slot(tail, |c|)
    ensures head < 256
    ensures
      var full := (head + 1) % 256 == tail;
      var tail', c' := if full then (tail + 1) % 256 else tail, (if |c| == 255 then c[1..] else c) + [e];
      Holds(s[head := e], tail', c') && (head + 1) % 256 == Slot(tail', |c'|)
  {
    Indices(s, tail, c, head);
    if |c| == 255 {
      DropFirst(s, tail, c);
      Append(s, Slot(tail, 1), c[1..], e);
    } else {
      Append(s, tail, c, e);
    }
  }
}
