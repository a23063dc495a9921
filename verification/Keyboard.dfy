/** The keyboard of src/drivers/keyboard.c: the interrupt handler puts characters into a ring, and a
    reader takes them out without a lock. The handler runs as one step, between any two accesses of
    the reader to the shared variables. */
module Keyboard {
  import opened Prelude
  import opened Ring
  import EventQueue

  // -------------------------------------------------------------------------------------------
  // Scan codes
  // -------------------------------------------------------------------------------------------

  /** The characters of the 128 keys, without and with shift. */
  datatype Layout = Layout(plain: seq<nat>, shifted: seq<nat>)

  predicate IsLayout(k: Layout) { |k.plain| == 128 && |k.shifted| == 128 }

  datatype Modifiers = Modifiers(shift: bool, caps: bool)

  function NextModifiers(m: Modifiers, sc: nat): Modifiers {
    if sc == 0x2A || sc == 0x36 then m.(shift := true)
    else if sc == 0xAA || sc == 0xB6 then m.(shift := false)
    else if sc == 0x3A then m.(caps := !m.caps)
    else m
  }

  predicate IsLetter(c: nat) { 97 <= c <= 122 }

  /** The character of a key as the handler computes it. */
  function CharOf(k: Layout, m: Modifiers, code: nat): nat
    requires IsLayout(k) && code < 128
  {
    var c := if m.shift then k.shifted[code] else k.plain[code];
    if m.caps && IsLetter(k.plain[code]) then
      var upper := m.caps != m.shift;
      if upper then k.shifted[code] else k.plain[code]
    else c
  }

  /** A letter is shifted when exactly one of shift and caps lock is on, any other key when shift is. */
  lemma ShiftedIff(k: Layout, m: Modifiers, code: nat)
    requires IsLayout(k) && code < 128
    ensures
      var shifted := if 97 <= k.plain[code] <= 122 then m.shift != m.caps else m.shift;
      CharOf(k, m, code) == if shifted then k.shifted[code] else k.plain[code]
  {
  }

  /** The modifiers after a sequence of scan codes. */
  function Modified(m: Modifiers, codes: seq<nat>): Modifiers {
    if codes == [] then m else NextModifiers(Modified(m, codes[..|codes| - 1]), codes[|codes| - 1])
  }

  function Count(codes: seq<nat>, sc: nat): nat {
    if codes == [] then 0 else Count(codes[..|codes| - 1], sc) + if codes[|codes| - 1] == sc then 1 else 0
  }

  /** Every press of caps lock turns it over. */
  lemma {:induction false} CapsIff(m: Modifiers, codes: seq<nat>)
    ensures Modified(m, codes).caps <==> m.caps != (Count(codes, 0x3A) % 2 == 1)
  {
    if codes != [] {
      CapsIff(m, codes[..|codes| - 1]);
    }
  }

  predicate ShiftPress(sc: nat) { sc == 0x2A || sc == 0x36 }
  predicate ShiftRelease(sc: nat) { sc == 0xAA || sc == 0xB6 }

  /** No shift key is released from position i on. */
  predicate NoRelease(codes: seq<nat>, i: nat) {
    var none := forall j :: i <= j < |codes| ==> !ShiftRelease(codes[j]);
    none
  }

  /** A shift key is pressed at position i, and none is released from there on. */
  predicate HeldFrom(codes: seq<nat>, i: nat) {
    i < |codes| && ShiftPress(codes[i]) && NoRelease(codes, i)
  }

  /** Shift is on exactly if a shift key has been pressed, or it was on before, and none has been
      released since. */
  lemma {:induction false} ShiftIff(m: Modifiers, codes: seq<nat>)
    ensures Modified(m, codes).shift <==> (m.shift && NoRelease(codes, 0)) || exists i: nat :: HeldFrom(codes, i)
  {
    if codes != [] {
      var n := |codes| - 1;
      ShiftIff(m, codes[..n]);
      if ShiftPress(codes[n]) {
        assert HeldFrom(codes, n);
      } else {
        NoReleaseLast(codes, 0);
        forall i: nat
          ensures HeldFrom(codes, i) <==> HeldFrom(codes[..n], i) && !ShiftRelease(codes[n])
        {
          if i <= n {
            NoReleaseLast(codes, i);
          }
        }
      }
    }
  }

  lemma NoReleaseLast(codes: seq<nat>, i: nat)
    requires i < |codes|
    ensures
      var n := |codes| - 1;
      NoRelease(codes, i) <==> NoRelease(codes[..n], i) && !ShiftRelease(codes[n])
  {
    var n := |codes| - 1;
    if NoRelease(codes, i) {
      assert !ShiftRelease(codes[n]);
      assert forall j :: i <= j < n ==> codes[..n][j] == codes[j];
    }
    if NoRelease(codes[..n], i) && !ShiftRelease(codes[n]) {
      assert forall j :: i <= j < n ==> codes[..n][j] == codes[j];
    }
  }

  /** The event the handler reports for a scan code. */
  function EventOf(sc: nat, c: nat): EventQueue.Event {
    EventQueue.Event(if sc >= 128 then EventQueue.KeyUp else EventQueue.KeyDown, c, sc % 128, 0, 0, 0, 0, 0, 0)
  }

  /** The events for a sequence of scan codes; the prefix 0xE0 has none. */
  function EventsOf(k: Layout, m: Modifiers, codes: seq<nat>): seq<EventQueue.Event>
    requires IsLayout(k)
    decreases codes
  {
    if codes == [] then []
    else if codes[0] == 0xE0 then EventsOf(k, m, codes[1..])
    else
      var m' := NextModifiers(m, codes[0]);
      [EventOf(codes[0], CharOf(k, m', codes[0] % 128))] + EventsOf(k, m', codes[1..])
  }

  /** The keys that are down after a sequence of scan codes: a key sends its code when it is pressed and
      128 more when it is released. */
  function KeysDown(held: set<nat>, codes: seq<nat>): set<nat>
    decreases codes
  {
    if codes == [] then held
    else if codes[0] == 0xE0 then KeysDown(held, codes[1..])
    else if codes[0] < 128 then KeysDown(held + {codes[0]}, codes[1..])
    else KeysDown(held - {codes[0] - 128}, codes[1..])
  }

  /** The keys that are down as the events tell it. */
  function ReplayKeys(held: set<nat>, es: seq<EventQueue.Event>): set<nat>
    decreases es
  {
    if es == [] then held
    else if es[0].kind == EventQueue.KeyDown then ReplayKeys(held + {es[0].scancode}, es[1..])
    else if es[0].kind == EventQueue.KeyUp then ReplayKeys(held - {es[0].scancode}, es[1..])
    else ReplayKeys(held, es[1..])
  }

  lemma {:induction false} KeysTold(k: Layout, m: Modifiers, held: set<nat>, codes: seq<nat>)
    requires IsLayout(k) && forall i :: 0 <= i < |codes| ==> codes[i] < 256
    ensures ReplayKeys(held, EventsOf(k, m, codes)) == KeysDown(held, codes)
    decreases codes
  {
    if codes != [] {
      var sc, rest := codes[0], codes[1..];
      if sc == 0xE0 {
        KeysTold(k, m, held, rest);
      } else {
        var m' := NextModifiers(m, sc);
        var e, es := EventOf(sc, CharOf(k, m', sc % 128)), EventsOf(k, m', rest);
        assert EventsOf(k, m, codes)[1..] == es;
        KeysTold(k, m', if sc < 128 then held + {sc} else held - {sc - 128}, rest);
      }
    }
  }

  // -------------------------------------------------------------------------------------------
  // The ring under interrupts
  // -------------------------------------------------------------------------------------------

  /** Where the reader is in `keyboard_getchar`: before the test; with kbd_head in a register; past the
      test; with the character in a register. */
  datatype Reader = Testing | Comparing(h: nat) | Taking | Advancing(c: nat)

  datatype State = State(buf: seq<nat>, head: nat, tail: nat, reader: Reader,
                         accepted: seq<nat>, delivered: seq<nat>, refused: nat)

  /** An interrupt for a character, or the reader's next access. */
  datatype Op = Interrupt(c: nat) | Read

  function Step(s: State, op: Op): State
    requires |s.buf| == 256 && s.head < 256 && s.tail < 256
  {
    match op
    case Interrupt(c) =>
      var next := (s.head + 1) % 256;
      if next != s.tail then s.(buf := s.buf[s.head := c], head := next, accepted := s.accepted + [c])
      else s.(refused := s.refused + 1)
    case Read =>
      match s.reader
      case Testing => s.(reader := Comparing(s.head))
      case Comparing(h) => s.(reader := if h == s.tail then Testing else Taking)
      case Taking => s.(reader := Advancing(s.buf[s.tail]))
      case Advancing(c) => s.(reader := Testing, tail := (s.tail + 1) % 256, delivered := s.delivered + [c])
  }

  /** The characters accepted and not yet delivered. */
  function Buffered(s: State): seq<nat> {
    if |s.delivered| <= |s.accepted| then s.accepted[|s.delivered|..] else []
  }

  /** What the reader holds is still true, whatever interrupts came since. */
  ghost predicate ReaderSound(s: State) {
    match s.reader
    case Testing => true
    case Comparing(h) => exists n :: 0 <= n <= |Buffered(s)| && h == Slot(s.tail, n)
    case Taking => Buffered(s) != []
    case Advancing(c) => Buffered(s) != [] && c == Buffered(s)[0]
  }

  /** Accepted characters are those delivered, then those in the ring: none lost, none repeated, none
      out of order. */
  ghost predicate Inv(s: State) {
    var sound :=
      && s.accepted == s.delivered + Buffered(s)
      && Holds(s.buf, s.tail, Buffered(s)) && s.head == Slot(s.tail, |Buffered(s)|)
      && ReaderSound(s);
    sound
  }

  lemma InvIndices(s: State)
    requires Inv(s)
    ensures |s.buf| == 256 && s.head < 256 && s.tail < 256
  {
    Indices(s.buf, s.tail, Buffered(s), s.head);
  }

  lemma InterruptInv(s: State, c: nat)
    requires Inv(s)
    ensures |s.buf| == 256 && s.head < 256 && s.tail < 256 && Inv(Step(s, Interrupt(c)))
    ensures Step(s, Interrupt(c)).accepted == s.accepted + [c] <==> |Buffered(s)| < 255
  {
    InvIndices(s);
    if |Buffered(s)| < 255 {
      InterruptTaken(s, c);
    } else {
      InterruptRefused(s, c);
    }
  }

  lemma InterruptTaken(s: State, c: nat)
    requires Inv(s) && |Buffered(s)| < 255
    ensures |s.buf| == 256 && s.head < 256 && s.tail < 256
    ensures Step(s, Interrupt(c)).accepted == s.accepted + [c] && Inv(Step(s, Interrupt(c)))
  {
    var b, s' := Buffered(s), Step(s, Interrupt(c));
    Indices(s.buf, s.tail, b, s.head);
    Append(s.buf, s.tail, b, c);
    TailGrows(s.accepted, |s.delivered|, c);
    ReaderGrows(s, s', c);
    assert s.delivered + (b + [c]) == s.delivered + b + [c];
  }

  lemma InterruptRefused(s: State, c: nat)
    requires Inv(s) && |Buffered(s)| == 255
    ensures |s.buf| == 256 && s.head < 256 && s.tail < 256
    ensures Step(s, Interrupt(c)) == s.(refused := s.refused + 1) && Inv(Step(s, Interrupt(c)))
  {
    Indices(s.buf, s.tail, Buffered(s), s.head);
  }

  lemma TailGrows(a: seq<nat>, n: nat, c: nat)
    requires n <= |a|
    ensures (a + [c])[n..] == a[n..] + [c]
  {
  }

  /** What the reader holds stays true when the ring gains a character. */
  lemma ReaderGrows(s: State, s': State, c: nat)
    requires ReaderSound(s) && s'.reader == s.reader && s'.tail == s.tail && Buffered(s') == Buffered(s) + [c]
    ensures ReaderSound(s')
  {
  }

  lemma ReadInv(s: State)
    requires Inv(s)
    ensures |s.buf| == 256 && s.head < 256 && s.tail < 256 && Inv(Step(s, Read))
  {
    var b, s' := Buffered(s), Step(s, Read);
    Indices(s.buf, s.tail, b, s.head);
    match s.reader
    case Testing =>
    case Comparing(h) =>
      assert Slot(s.tail, 0) == s.tail;
    case Taking => DropFirst(s.buf, s.tail, b);
    case Advancing(c) => AdvanceInv(s);
  }

  lemma AdvanceInv(s: State)
    requires Inv(s) && s.reader.Advancing?
    ensures |s.buf| == 256 && s.head < 256 && s.tail < 256 && Inv(Step(s, Read))
  {
    var b, s', n := Buffered(s), Step(s, Read), |s.delivered|;
    Indices(s.buf, s.tail, b, s.head);
    DropFirst(s.buf, s.tail, b);
    TailShrinks(s.accepted, n);
    assert s'.delivered == s.accepted[..n + 1];
  }

  lemma TailShrinks(a: seq<nat>, n: nat)
    requires n < |a|
    ensures a[n..][0] == a[n] && a[n..][1..] == a[n + 1..] && a[..n] + [a[n]] == a[..n + 1]
    ensures a[..n + 1] + a[n + 1..] == a
  {
  }

  function Run(s: State, ops: seq<Op>): State
    decreases ops
  {
    if ops == [] || |s.buf| != 256 || s.head >= 256 || s.tail >= 256 then s else Run(Step(s, ops[0]), ops[1..])
  }

  function Initial(buf: seq<nat>): State { State(buf, 0, 0, Testing, [], [], 0) }

  /** In every run, with interrupts between any two accesses of the reader, accepted characters are
      those delivered followed by those buffered. */
  lemma {:induction false} RunInv(s: State, ops: seq<Op>)
    requires Inv(s)
    ensures Inv(Run(s, ops))
    ensures Run(s, ops).accepted == Run(s, ops).delivered + Buffered(Run(s, ops)) && |Buffered(Run(s, ops))| <= 255
    decreases ops
  {
    if ops != [] {
      InvIndices(s);
      if ops[0].Interrupt? {
        InterruptInv(s, ops[0].c);
      } else {
        ReadInv(s);
      }
      RunInv(Step(s, ops[0]), ops[1..]);
    }
  }

  lemma InitialInv(buf: seq<nat>)
    requires |buf| == 256
    ensures Inv(Initial(buf))
  {
  }

  // -------------------------------------------------------------------------------------------
  // What a run accepts and delivers
  // -------------------------------------------------------------------------------------------

  /** The characters of the interrupts. */
  function Typed(ops: seq<Op>): seq<nat>
    decreases ops
  {
    if ops == [] then [] else (if ops[0].Interrupt? then [ops[0].c] else []) + Typed(ops[1..])
  }

  /** Every interrupt's character is accepted or counted as refused; if none is refused, all are
      accepted as they came. */
  lemma {:induction false} RunAccepts(s: State, ops: seq<Op>)
    requires Inv(s)
    ensures
      var r := Run(s, ops);
      && |r.accepted| + r.refused == |s.accepted| + s.refused + |Typed(ops)| && r.refused >= s.refused
      && (r.refused == s.refused ==> r.accepted == s.accepted + Typed(ops))
    decreases ops
  {
    if ops != [] {
      StepSound(s, ops[0]);
      RunAccepts(Step(s, ops[0]), ops[1..]);
      if ops[0].Interrupt? {
        Regrouped(s.accepted, ops[0].c, Typed(ops[1..]));
      }
    }
  }

  lemma Regrouped(a: seq<nat>, c: nat, b: seq<nat>)
    ensures a + [c] + b == a + ([c] + b)
  {
  }

  lemma StepSound(s: State, op: Op)
    requires Inv(s)
    ensures |s.buf| == 256 && s.head < 256 && s.tail < 256 && Inv(Step(s, op))
    ensures op.Interrupt? ==>
              && Step(s, op).delivered == s.delivered && Step(s, op).reader == s.reader
              && (if |Buffered(s)| < 255
                  then Step(s, op).accepted == s.accepted + [op.c] && Step(s, op).refused == s.refused
                  else Step(s, op).accepted == s.accepted && Step(s, op).refused == s.refused + 1)
    ensures op.Read? ==> Step(s, op).accepted == s.accepted && Step(s, op).refused == s.refused
  {
    Indices(s.buf, s.tail, Buffered(s), s.head);
    if op.Interrupt? {
      InterruptInv(s, op.c);
    } else {
      ReadInv(s);
    }
  }

  /** The accesses the reader still makes before it returns, once it finds a character. */
  function Left(r: Reader): nat {
    match r
    case Testing => 4
    case Comparing(h) => 3
    case Taking => 2
    case Advancing(c) => 1
  }

  function Reads(ops: seq<Op>): nat
    decreases ops
  {
    if ops == [] then 0 else (if ops[0].Read? then 1 else 0) + Reads(ops[1..])
  }

  /** The reader has not looked at the ring while it was empty. */
  predicate Sees(s: State) { s.reader.Comparing? ==> s.reader.h != s.tail }

  /** When a character waits, the reader delivers the oldest one with its fourth access, whatever
      interrupts come between or after. */
  lemma {:induction false} Delivers(s: State, ops: seq<Op>)
    requires Inv(s) && Buffered(s) != [] && Sees(s) && Reads(ops) == Left(s.reader)
    ensures Run(s, ops).delivered == s.delivered + [Buffered(s)[0]] && Run(s, ops).reader == Testing
    decreases ops
  {
    var s' := s;
    StepSound(s, ops[0]);
    s' := Step(s, ops[0]);
    Indices(s.buf, s.tail, Buffered(s), s.head);
    if s.reader.Advancing? && ops[0].Read? {
      InterruptsOnly(s', ops[1..]);
    } else {
      Delivers(s', ops[1..]);
    }
  }

  lemma {:induction false} InterruptsOnly(s: State, ops: seq<Op>)
    requires Inv(s) && Reads(ops) == 0
    ensures Run(s, ops).delivered == s.delivered && Run(s, ops).reader == s.reader
    decreases ops
  {
    if ops != [] {
      StepSound(s, ops[0]);
      InterruptsOnly(Step(s, ops[0]), ops[1..]);
    }
  }

  /** With nothing to deliver the reader tests again, and changes nothing. */
  lemma WaitsWhenEmpty(s: State)
    requires Inv(s) && s.reader == Testing && Buffered(s) == []
    ensures |s.buf| == 256 && s.head < 256 && s.tail < 256 && Step(Step(s, Read), Read) == s
  {
    Indices(s.buf, s.tail, Buffered(s), s.head);
  }

  // -------------------------------------------------------------------------------------------
  // The driver
  // -------------------------------------------------------------------------------------------

  class Driver {
    const buf: array<nat>
    const layout: Layout
    var head: nat
    var tail: nat
    var modifiers: Modifiers
    var reader: Reader
    ghost var state: State

    ghost predicate Valid()
      reads this, buf
    {
      var sound :=
        && IsLayout(layout) && Inv(state)
        && buf[..] == state.buf && head == state.head && tail == state.tail && reader == state.reader;
      sound
    }

    constructor (buf: array<nat>, layout: Layout)
      requires buf.Length == 256 && IsLayout(layout)
      ensures Valid() && this.buf == buf && this.layout == layout && state == Initial(buf[..])
      ensures modifiers == Modifiers(false, false)
    {
      InitialInv(buf[..]);
      this.buf, this.layout := buf, layout;
      head, tail, reader := 0, 0, Testing;
      modifiers := Modifiers(false, false);
      state := Initial(buf[..]);
    }

    /** `keyboard_handler`; the result is the event it pushes. */
    method Handler(sc: nat) returns (e: Option<EventQueue.Event>)
      requires Valid() && sc < 256
      modifies this`head, this`modifiers, this`state, buf
      ensures Valid()
      ensures |old(state).buf| == 256 && old(state).head < 256 && old(state).tail < 256
      ensures sc == 0xE0 ==> e == None && state == old(state) && modifiers == old(modifiers)
      ensures sc != 0xE0 ==>
                var c := CharOf(layout, modifiers, sc % 128);
                && modifiers == NextModifiers(old(modifiers), sc)
                && e == Some(EventOf(sc, c)) && e.value.ch == c && e.value.scancode == sc % 128
                && e.value.kind == (if sc < 128 then EventQueue.KeyDown else EventQueue.KeyUp)
                && state == if sc < 128 && c != 0 then Step(old(state), Interrupt(c)) else old(state)
    {
      InvIndices(state);
      if sc == 0xE0 {
        return None;
      }
      modifiers := NextModifiers(modifiers, sc);
      var c := CharOf(layout, modifiers, sc % 128);
      if sc < 128 && c != 0 {
        Accept(c);
      }
      e := Some(EventOf(sc, c));
    }

    /** The handler's part of the ring. */
    method Accept(c: nat)
      requires Valid()
      modifies this`head, this`state, buf
      ensures |old(state).buf| == 256 && old(state).head < 256 && old(state).tail < 256
      ensures Valid() && state == Step(old(state), Interrupt(c))
    {
      InterruptInv(state, c);
      Insert(c, state);
      state := Step(state, Interrupt(c));
    }

    /** The array and the head of the ring; s is the state before. */
    method Insert(c: nat, ghost s: State)
      requires |s.buf| == 256 && s.head < 256 && s.tail < 256
      requires buf[..] == s.buf && head == s.head && tail == s.tail
      modifies this`head, buf
      ensures buf[..] == Step(s, Interrupt(c)).buf && head == Step(s, Interrupt(c)).head
      ensures Step(s, Interrupt(c)).tail == s.tail && Step(s, Interrupt(c)).reader == s.reader
    {
      var next := (head + 1) % 256;
      if next != tail {
        buf[head] := c;
        head := next;
      }
    }

    /** The reader's next access in `keyboard_getchar`; when the last one is done the character is
        returned. */
    method ReaderStep() returns (r: Option<nat>)
      requires Valid()
      modifies this`tail, this`reader, this`state
      ensures |old(state).buf| == 256 && old(state).head < 256 && old(state).tail < 256
      ensures Valid() && state == Step(old(state), Read)
      ensures r.Some? <==> old(reader).Advancing?
      ensures r.Some? ==> state.delivered == old(state).delivered + [r.value]
    {
      ReadInv(state);
      r := None;
      match reader {
        case Testing => reader := Comparing(head);
        case Comparing(h) => reader := if h == tail then Testing else Taking;
        case Taking => reader := Advancing(buf[tail]);
        case Advancing(c) =>
          tail := (tail + 1) % 256;
          reader := Testing;
          r := Some(c);
      }
      state := Step(state, Read);
    }
  }

  // -------------------------------------------------------------------------------------------
  // read_line
  // -------------------------------------------------------------------------------------------

  /** The line so far after one more character, if it may have at most n characters. */
  function Edit(line: seq<nat>, c: nat, n: nat): seq<nat> {
    if c == 8 then (if line == [] then [] else line[..|line| - 1])
    else if |line| < n then line + [c]
    else line
  }

  function EditAll(s: seq<nat>, n: nat): (line: seq<nat>)
    ensures |line| <= n
  {
    if s == [] then [] else Edit(EditAll(s[..|s| - 1], n), s[|s| - 1], n)
  }

  /** Backspace takes back the character before it, unless that one was refused: then it takes a
      character that the user can still see. */
  lemma BackspaceUndoesIff(s: seq<nat>, c: nat, n: nat)
    requires c != 8
    ensures EditAll(s + [c] + [8], n) == EditAll(s, n) <==> |EditAll(s, n)| < n || n == 0
  {
    assert (s + [c] + [8])[..|s| + 1] == s + [c];
    assert (s + [c])[..|s|] == s;
  }

  /** What is typed without corrections is the line, as far as there is room. */
  lemma {:induction false} TypedLine(s: seq<nat>, n: nat)
    requires 8 !in s
    ensures EditAll(s, n) == if |s| <= n then s else s[..n]
  {
    if s != [] {
      TypedLine(s[..|s| - 1], n);
    }
  }

  /** On a line with room for one character, backspace after a refused second one takes the first. */
  lemma BackspaceCanTakeMore()
    ensures EditAll([97] + [98] + [8], 1) != EditAll([97], 1)
  {
    assert [97][..0] == [];
    assert EditAll([97], 1) == [97];
    BackspaceUndoesIff([97], 98, 1);
  }

  /** Every character of e changes the line when it comes. */
  predicate Effective(e: seq<nat>, n: nat) {
    e == [] || (Effective(e[..|e| - 1], n) && Edit(EditAll(e[..|e| - 1], n), e[|e| - 1], n) != EditAll(e[..|e| - 1], n))
  }

  lemma EditMore(s: seq<nat>, c: nat, n: nat)
    ensures EditAll(s + [c], n) == Edit(EditAll(s, n), c, n)
    ensures Effective(s + [c], n) <==> Effective(s, n) && Edit(EditAll(s, n), c, n) != EditAll(s, n)
  {
    assert (s + [c])[..|s|] == s;
  }

  /** What one character does to the line in the buffer. */
  method EditInPlace(c: nat, buf: array<nat>, len: nat, max: nat) returns (r: nat, changed: bool)
    requires len < max <= buf.Length
    modifies buf
    ensures r < max && buf[..r] == Edit(old(buf[..len]), c, max - 1)
    ensures changed <==> buf[..r] != old(buf[..len])
  {
    r, changed := len, false;
    if c == 8 {
      if len > 0 {
        r, changed := len - 1, true;
      }
    } else if len < max - 1 {
      buf[len] := c;
      r, changed := len + 1, true;
    }
  }

  /** The line is what the characters make of it, and so do those echoed, which all change it. */
  ghost predicate Edited(line: seq<nat>, typed: seq<nat>, echo: seq<nat>, n: nat) {
    var sound := line == EditAll(typed, n) && Effective(echo, n) && EditAll(echo, n) == line;
    sound
  }

  /** One character more: the line is edited, and what changes it is echoed. */
  method EditAndEcho(c: nat, buf: array<nat>, len: nat, max: nat, echo: seq<nat>, ghost typed: seq<nat>)
    returns (r: nat, echo': seq<nat>)
    requires len < max <= buf.Length && Edited(buf[..len], typed, echo, max - 1)
    modifies buf
    ensures r < max && Edited(buf[..r], typed + [c], echo', max - 1)
  {
    EditMore(typed, c, max - 1);
    EditMore(echo, c, max - 1);
    var changed;
    r, changed := EditInPlace(c, buf, len, max);
    echo' := if changed then echo + [c] else echo;
  }

  /** The characters before Enter. */
  method EditUntilEnter(input: seq<nat>, buf: array<nat>, max: nat) returns (len: nat, used: nat, echo: seq<nat>)
    requires 0 < max <= buf.Length && 10 in input
    modifies buf
    ensures used < |input| && input[used] == 10 && 10 !in input[..used]
    ensures len < max && Edited(buf[..len], input[..used], echo, max - 1)
  {
    len, used, echo := 0, 0, [];
    ghost var enter :| 0 <= enter < |input| && input[enter] == 10;
    while input[used] != 10
      invariant used <= enter && len < max && (forall k :: 0 <= k < used ==> input[k] != 10)
      invariant Edited(buf[..len], input[..used], echo, max - 1)
      decreases enter - used
    {
      len, echo := EditAndEcho(input[used], buf, len, max, echo, input[..used]);
      PrefixGrows(input, used);
      used := used + 1;
    }
  }

  lemma PrefixGrows(s: seq<nat>, n: nat)
    requires n < |s|
    ensures s[..n] + [s[n]] == s[..n + 1]
  {
  }

  /** `read_line` on the characters delivered to it; the line is NUL-terminated in buf. Echoed is
      exactly what changes the line; LineEcho says when the screen then shows it. */
  method ReadLine(input: seq<nat>, buf: array<nat>, max: nat) returns (len: nat, used: nat, echo: seq<nat>)
    requires 0 < max <= buf.Length && 10 in input
    modifies buf
    ensures 0 < used <= |input| && input[used - 1] == 10 && 10 !in input[..used - 1]
    ensures len < max && buf[..len] == EditAll(input[..used - 1], max - 1) && buf[len] == 0
    ensures |echo| > 0 && echo[|echo| - 1] == 10
    ensures Effective(echo[..|echo| - 1], max - 1) && EditAll(echo[..|echo| - 1], max - 1) == buf[..len]
  {
    len, used, echo := EditUntilEnter(input, buf, max);
    ghost var line, shown := buf[..len], echo;
    buf[len] := 0;
    assert buf[..len] == line;
    echo := echo + [10];
    used := used + 1;
    assert echo[..|echo| - 1] == shown;
  }
}
