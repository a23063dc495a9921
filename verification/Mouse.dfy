/** The PS/2 mouse of src/drivers/mouse.c: bytes from the device are gathered into packets of three,
    and each packet moves the cursor and is turned into events. */
module Mouse {
  import opened EventQueue

  /** `cycle` bytes of the next packet have arrived. */
  datatype State = State(x: int, y: int, w: nat, h: nat, buttons: nat, packet: seq<nat>, cycle: nat)

  /** Whether the bit of weight n is set. */
  predicate Bit(b: nat, n: nat)
    requires n > 0
  {
    b / n % 2 == 1
  }

  /** A conversion to int16_t. */
  function Int16(v: int): int {
    var u := v % 65536;
    if u < 32768 then u else u - 65536
  }

  function Clamp(v: int, n: nat): int {
    var a := if v < 0 then 0 else v;
    if a >= n then n - 1 else a
  }

  // -------------------------------------------------------------------------------------------
  // Packets
  // -------------------------------------------------------------------------------------------

  /** The 9-bit movements of a packet: the sign bits are in the first byte. */
  function DeltaX(p0: nat, p1: nat): int { p1 - if Bit(p0, 16) then 256 else 0 }
  function DeltaY(p0: nat, p2: nat): int { p2 - if Bit(p0, 32) then 256 else 0 }

  function MoveEvent(s: State, x: int, y: int, buttons: nat): seq<Event> {
    if x == s.x && y == s.y then []
    else [Event(MouseMove, 0, 0, buttons, 0, Int16(x), Int16(y), Int16(x - s.x), Int16(y - s.y))]
  }

  /** The event for one button, if it changed. */
  function ButtonEvent(before: nat, now: nat, bit: nat, x: int, y: int): seq<Event>
    requires bit > 0
  {
    if Bit(before, bit) == Bit(now, bit) then []
    else [Event(if Bit(now, bit) then MouseDown else MouseUp, 0, 0, now, bit, Int16(x), Int16(y), 0, 0)]
  }

  function ButtonEvents(before: nat, now: nat, x: int, y: int): seq<Event> {
    ButtonEvent(before, now, 1, x, y) + ButtonEvent(before, now, 2, x, y) + ButtonEvent(before, now, 4, x, y)
  }

  /** The effect of a packet: screen y grows downwards. */
  function Moved(s: State, dx: int, dy: int, buttons: nat): (State, seq<Event>) {
    var x, y := Clamp(s.x + dx, s.w), Clamp(s.y - dy, s.h);
    (s.(x := x, y := y, buttons := buttons), MoveEvent(s, x, y, buttons) + ButtonEvents(s.buttons, buttons, x, y))
  }

  /** One byte from the device. */
  function Receive(s: State, data: nat): (State, seq<Event>)
    requires |s.packet| == 3
  {
    if s.cycle == 0 then
      if !Bit(data, 8) then (s, []) else (s.(packet := s.packet[0 := data], cycle := 1), [])
    else if s.cycle == 1 then (s.(packet := s.packet[1 := data], cycle := 2), [])
    else
      var p := s.packet[2 := data];
      var s' := s.(packet := p, cycle := 0);
      if Bit(p[0], 64) || Bit(p[0], 128) then (s', [])
      else Moved(s', DeltaX(p[0], p[1]), DeltaY(p[0], p[2]), p[0] % 8)
  }

  function ReceiveAll(s: State, bytes: seq<nat>): (State, seq<Event>)
    requires |s.packet| == 3
    decreases bytes
  {
    if bytes == [] then (s, [])
    else
      var (s1, e1) := Receive(s, bytes[0]);
      var (s2, e2) := ReceiveAll(s1, bytes[1..]);
      (s2, e1 + e2)
  }

  // -------------------------------------------------------------------------------------------
  // Decoding inverts encoding
  // -------------------------------------------------------------------------------------------

  /** What a mouse reports: 9-bit signed movements and the three buttons. */
  datatype Report = Report(dx: int, dy: int, buttons: nat)

  predicate IsReport(r: Report) { -256 <= r.dx < 256 && -256 <= r.dy < 256 && r.buttons < 8 }

  function Encode(r: Report): seq<nat>
    requires IsReport(r)
  {
    [8 + r.buttons + (if r.dx < 0 then 16 else 0) + (if r.dy < 0 then 32 else 0), r.dx % 256, r.dy % 256]
  }

  predicate AreReports(rs: seq<Report>) {
    rs == [] || (IsReport(rs[0]) && AreReports(rs[1..]))
  }

  function EncodeAll(rs: seq<Report>): seq<nat>
    requires AreReports(rs)
  {
    if rs == [] then [] else Encode(rs[0]) + EncodeAll(rs[1..])
  }

  /** The effect of a sequence of reports, without bytes. */
  function MovedAll(s: State, rs: seq<Report>): (State, seq<Event>)
    decreases rs
  {
    if rs == [] then (s, [])
    else
      var (s1, e1) := Moved(s, rs[0].dx, rs[0].dy, rs[0].buttons);
      var (s2, e2) := MovedAll(s1, rs[1..]);
      (s2, e1 + e2)
  }

  lemma EncodeBits(r: Report)
    requires IsReport(r)
    ensures
      var b := Encode(r);
      && Bit(b[0], 8) && !Bit(b[0], 64) && !Bit(b[0], 128) && b[0] % 8 == r.buttons
      && DeltaX(b[0], b[1]) == r.dx && DeltaY(b[0], b[2]) == r.dy
      && (b[0] / 16 % 2 == 1 <==> r.dx < 0) && (b[0] / 32 % 2 == 1 <==> r.dy < 0)
  {
  }

  lemma ReceiveThree(s: State, bytes: seq<nat>)
    requires |s.packet| == 3 && |bytes| == 3
    ensures
      var (s1, e1) := Receive(s, bytes[0]);
      var (s2, e2) := Receive(s1, bytes[1]);
      var (s3, e3) := Receive(s2, bytes[2]);
      ReceiveAll(s, bytes) == (s3, e1 + (e2 + e3))
  {
    var rest, last := bytes[1..], bytes[2..];
    assert rest[1..] == last && last[1..] == [];
    var s2 := Receive(Receive(s, bytes[0]).0, bytes[1]).0;
    var (s3, e3) := Receive(s2, bytes[2]);
    assert ReceiveAll(s3, []) == (s3, []);
    assert ReceiveAll(s2, last) == (s3, e3 + []);
    assert e3 + [] == e3;
  }

  lemma ReceiveEncoded(s: State, r: Report)
    requires |s.packet| == 3 && s.cycle == 0 && IsReport(r)
    ensures ReceiveAll(s, Encode(r)) == Moved(s.(packet := Encode(r)), r.dx, r.dy, r.buttons)
  {
    var b := Encode(r);
    EncodeBits(r);
    ReceiveThree(s, b);
    var s1 := s.(packet := s.packet[0 := b[0]], cycle := 1);
    assert Receive(s, b[0]) == (s1, []);
    var s2 := s1.(packet := s1.packet[1 := b[1]], cycle := 2);
    assert Receive(s1, b[1]) == (s2, []);
    assert s2.packet[2 := b[2]] == b;
    assert Receive(s2, b[2]) == Moved(s.(packet := b), r.dx, r.dy, r.buttons);
    var e := Moved(s.(packet := b), r.dx, r.dy, r.buttons).1;
    assert [] + ([] + e) == e;
  }

  lemma {:induction false} ReceiveAppend(s: State, a: seq<nat>, b: seq<nat>)
    requires |s.packet| == 3
    ensures
      var (s1, e1) := ReceiveAll(s, a);
      |s1.packet| == 3 && ReceiveAll(s, a + b) == (ReceiveAll(s1, b).0, e1 + ReceiveAll(s1, b).1)
    decreases a
  {
    if a == [] {
      assert a + b == b && [] + ReceiveAll(s, b).1 == ReceiveAll(s, b).1;
    } else {
      var s1 := Receive(s, a[0]).0;
      ReceiveAppend(s1, a[1..], b);
      var (s2, e2) := ReceiveAll(s1, a[1..]);
      var (s3, e3) := ReceiveAll(s2, b);
      ReceiveFurther(s, a, b, s2, e2, s3, e3);
    }
  }

  lemma ReceiveFurther(s: State, a: seq<nat>, b: seq<nat>, s2: State, e2: seq<Event>, s3: State, e3: seq<Event>)
    requires |s.packet| == 3 && a != []
    requires ReceiveAll(Receive(s, a[0]).0, a[1..]) == (s2, e2)
    requires ReceiveAll(Receive(s, a[0]).0, a[1..] + b) == (s3, e2 + e3)
    ensures
      var e1 := Receive(s, a[0]).1;
      ReceiveAll(s, a) == (s2, e1 + e2) && ReceiveAll(s, a + b) == (s3, e1 + e2 + e3)
  {
    Prefixed(a, b);
    ReceiveCons(s, a[0], a[1..], a, s2, e2);
    ReceiveCons(s, a[0], a[1..] + b, a + b, s3, e2 + e3);
    Associative(Receive(s, a[0]).1, e2, e3);
  }

  lemma Prefixed(a: seq<nat>, b: seq<nat>)
    requires a != []
    ensures a == [a[0]] + a[1..] && a + b == [a[0]] + (a[1..] + b)
  {
  }

  lemma ReceiveCons(s: State, x: nat, rest: seq<nat>, all: seq<nat>, s2: State, e2: seq<Event>)
    requires |s.packet| == 3 && all == [x] + rest && ReceiveAll(Receive(s, x).0, rest) == (s2, e2)
    ensures ReceiveAll(s, all) == (s2, Receive(s, x).1 + e2)
  {
    assert all[0] == x && all[1..] == rest;
  }

  lemma Associative(a: seq<Event>, b: seq<Event>, c: seq<Event>)
    ensures a + (b + c) == (a + b) + c
  {
  }

  /** From the beginning of a packet, the encoding of any sequence of reports is decoded to exactly
      that sequence. */
  lemma {:induction false} DecodesStream(s: State, rs: seq<Report>)
    requires |s.packet| == 3 && s.cycle == 0 && AreReports(rs)
    ensures
      var (s1, e1) := ReceiveAll(s, EncodeAll(rs));
      var (s2, e2) := MovedAll(s, rs);
      |s1.packet| == 3 && e1 == e2 && s1 == s2.(packet := s1.packet) && s1.cycle == 0
    decreases rs
  {
    if rs != [] {
      var r, rest := rs[0], rs[1..];
      ReceiveFirst(s, r, EncodeAll(rest));
      var s1 := Moved(s, r.dx, r.dy, r.buttons).0;
      var s1' := s1.(packet := Encode(r));
      DecodesStream(s1', rest);
      MovedIgnoresPacket(s1, s1', rest);
    }
  }

  lemma MovedPacket(s: State, b: seq<nat>, r: Report)
    ensures
      var (s1, e1) := Moved(s, r.dx, r.dy, r.buttons);
      Moved(s.(packet := b), r.dx, r.dy, r.buttons) == (s1.(packet := b), e1)
  {
  }

  lemma ReceiveFirst(s: State, r: Report, more: seq<nat>)
    requires |s.packet| == 3 && s.cycle == 0 && IsReport(r)
    ensures
      var (s1, e1) := Moved(s, r.dx, r.dy, r.buttons);
      var s1' := s1.(packet := Encode(r));
      ReceiveAll(s, Encode(r) + more) == (ReceiveAll(s1', more).0, e1 + ReceiveAll(s1', more).1)
  {
    var b := Encode(r);
    ReceiveEncoded(s, r);
    MovedPacket(s, b, r);
    ReceiveAppend(s, b, more);
  }

  lemma {:induction false} MovedIgnoresPacket(s: State, s': State, rs: seq<Report>)
    requires s' == s.(packet := s'.packet)
    ensures MovedAll(s', rs).1 == MovedAll(s, rs).1
    ensures MovedAll(s', rs).0 == MovedAll(s, rs).0.(packet := MovedAll(s', rs).0.packet)
    decreases rs
  {
    if rs != [] {
      var r := rs[0];
      MovedIgnoresPacket(Moved(s, r.dx, r.dy, r.buttons).0, Moved(s', r.dx, r.dy, r.buttons).0, rs[1..]);
    }
  }

  // -------------------------------------------------------------------------------------------
  // Over every stream of bytes
  // -------------------------------------------------------------------------------------------

  /** `mouse_init`. */
  function Initial(w: nat, h: nat, packet: seq<nat>): State { State(w / 2, h / 2, w, h, 0, packet, 0) }

  predicate AreBytes(bytes: seq<nat>) {
    bytes == [] || (bytes[0] < 256 && AreBytes(bytes[1..]))
  }

  predicate Inside(s: State) { 0 <= s.x < s.w && 0 <= s.y < s.h }

  /** The cursor is on the screen; the sides leave room for a movement in 32 bits. */
  ghost predicate OnScreen(s: State) {
    && Inside(s) && s.w < 0x7FFF_FF00 && s.h < 0x7FFF_FF00
    && s.buttons < 8 && |s.packet| == 3 && s.cycle < 3
    && s.packet[0] < 256 && s.packet[1] < 256 && s.packet[2] < 256
  }

  function SumX(es: seq<Event>): int {
    if es == [] then 0 else (if es[0].kind.MouseMove? then es[0].dx else 0) + SumX(es[1..])
  }

  function SumY(es: seq<Event>): int {
    if es == [] then 0 else (if es[0].kind.MouseMove? then es[0].dy else 0) + SumY(es[1..])
  }

  function After(held: set<nat>, e: Event): set<nat> {
    if e.kind.MouseDown? then held + {e.button}
    else if e.kind.MouseUp? then held - {e.button}
    else held
  }

  /** What someone knows of the buttons who sees only presses and releases. */
  function Replay(held: set<nat>, es: seq<Event>): set<nat>
    decreases es
  {
    if es == [] then held else Replay(After(held, es[0]), es[1..])
  }

  function Held(buttons: nat): set<nat> {
    (if Bit(buttons, 1) then {1} else {})
    + (if Bit(buttons, 2) then {2} else {})
    + (if Bit(buttons, 4) then {4} else {})
  }

  lemma {:induction false} SumAppend(a: seq<Event>, b: seq<Event>)
    ensures SumX(a + b) == SumX(a) + SumX(b) && SumY(a + b) == SumY(a) + SumY(b)
  {
    if a == [] {
      assert a + b == b;
    } else {
      SumAppend(a[1..], b);
      assert (a + b)[1..] == a[1..] + b;
    }
  }

  lemma {:induction false} ReplayAppend(held: set<nat>, a: seq<Event>, b: seq<Event>)
    ensures Replay(held, a + b) == Replay(Replay(held, a), b)
    decreases a
  {
    if a == [] {
      assert a + b == b;
    } else {
      assert (a + b)[1..] == a[1..] + b;
      ReplayAppend(After(held, a[0]), a[1..], b);
    }
  }

  /** A movement event tells the movement, on screens of every size; it tells the position exactly if
      that is below 32768. */
  lemma MoveTold(s: State, x: int, y: int, buttons: nat, held: set<nat>)
    requires Inside(s) && 0 <= x < s.w && 0 <= y < s.h && -256 <= x - s.x <= 256 && -256 <= y - s.y <= 256
    ensures
      var es := MoveEvent(s, x, y, buttons);
      && SumX(es) == x - s.x && SumY(es) == y - s.y && Replay(held, es) == held
      && (es != [] ==> (es[0].x == x <==> x < 32768) && (es[0].y == y <==> y < 32768))
  {
    var es := MoveEvent(s, x, y, buttons);
    if es != [] {
      assert es[1..] == [];
      Int16Exact(x - s.x);
      Int16Exact(y - s.y);
      Int16Exact(x);
      Int16Exact(y);
    }
  }

  lemma Int16Exact(v: int)
    ensures Int16(v) == v <==> -32768 <= v < 32768
  {
  }

  /** On a screen 65534 pixels wide, one step to the right of the middle is told as far to the left. */
  lemma PositionCanWrap(packet: seq<nat>)
    requires |packet| == 3
    ensures
      var (s, es) := ReceiveAll(Initial(65534, 65534, packet), Encode(Report(1, 0, 0)));
      s.x == 32768 && |es| == 1 && es[0].x == -32768 && es[0].dx == 1
  {
    ReceiveEncoded(Initial(65534, 65534, packet), Report(1, 0, 0));
  }

  lemma ButtonTold(before: nat, now: nat, bit: nat, x: int, y: int, held: set<nat>)
    requires bit > 0
    ensures
      var es := ButtonEvent(before, now, bit, x, y);
      && SumX(es) == 0 && SumY(es) == 0
      && Replay(held, es) == if Bit(before, bit) == Bit(now, bit) then held
                             else if Bit(now, bit) then held + {bit} else held - {bit}
  {
    var es := ButtonEvent(before, now, bit, x, y);
    if es != [] {
      assert es[1..] == [];
    }
  }

  lemma ButtonsTold(before: nat, now: nat, x: int, y: int)
    ensures
      var es := ButtonEvents(before, now, x, y);
      SumX(es) == 0 && SumY(es) == 0 && Replay(Held(before), es) == Held(now)
  {
    var a, b := ButtonEvent(before, now, 1, x, y), ButtonEvent(before, now, 2, x, y);
    var c := ButtonEvent(before, now, 4, x, y);
    var h0 := Held(before);
    ButtonTold(before, now, 1, x, y, h0);
    var h1 := Replay(h0, a);
    ButtonTold(before, now, 2, x, y, h1);
    var h2 := Replay(h1, b);
    ButtonTold(before, now, 4, x, y, h2);
    SumAppend(a, b);
    SumAppend(a + b, c);
    ReplayAppend(h0, a, b);
    ReplayAppend(h0, a + b, c);
  }

  // -------------------------------------------------------------------------------------------
  // Where a packet takes the cursor, and what it reports
  // -------------------------------------------------------------------------------------------

  /** a is the position on a side of n pixels that is nearest to v. */
  predicate Nearest(a: int, v: int, n: nat) {
    && 0 <= a < n && (0 <= v < n ==> a == v) && (v < 0 ==> a == 0) && (v >= n ==> a == n - 1)
  }

  /** A report moves the cursor right by dx and up by dy, as far as the screen goes. */
  lemma ReportMoves(s: State, r: Report)
    requires |s.packet| == 3 && s.cycle == 0 && Inside(s) && IsReport(r)
    ensures
      var s' := ReceiveAll(s, Encode(r)).0;
      && Nearest(s'.x, s.x + r.dx, s.w) && Nearest(s'.y, s.y - r.dy, s.h) && s'.buttons == r.buttons
      && s'.w == s.w && s'.h == s.h && s'.cycle == 0
  {
    ReceiveEncoded(s, r);
  }

  /** A packet that says that a movement overflowed moves nothing and reports nothing. */
  lemma OverflowIgnored(s: State, bytes: seq<nat>)
    requires |s.packet| == 3 && s.cycle == 0 && |bytes| == 3
    requires Bit(bytes[0], 8) && (bytes[0] / 64 % 2 == 1 || bytes[0] / 128 % 2 == 1)
    ensures ReceiveAll(s, bytes) == (s.(packet := bytes), [])
  {
    ReceiveThree(s, bytes);
    var s1 := s.(packet := s.packet[0 := bytes[0]], cycle := 1);
    assert Receive(s, bytes[0]) == (s1, []);
    var s2 := s1.(packet := s1.packet[1 := bytes[1]], cycle := 2);
    assert Receive(s1, bytes[1]) == (s2, []);
    assert s2.packet[2 := bytes[2]] == bytes;
    assert Receive(s2, bytes[2]) == (s.(packet := bytes), []);
    assert [] + ([] + ReceiveAll(s, bytes).1) == ReceiveAll(s, bytes).1;
  }

  /** Bytes without bit 3 are dropped until a packet begins. */
  predicate OutOfStep(bytes: seq<nat>) {
    bytes == [] || (bytes[0] / 8 % 2 == 0 && OutOfStep(bytes[1..]))
  }

  lemma {:induction false} OutOfStepIgnored(s: State, bytes: seq<nat>)
    requires |s.packet| == 3 && s.cycle == 0 && OutOfStep(bytes)
    ensures ReceiveAll(s, bytes) == (s, [])
    decreases bytes
  {
    if bytes != [] {
      assert Receive(s, bytes[0]) == (s, []);
      OutOfStepIgnored(s, bytes[1..]);
      ReceiveCons(s, bytes[0], bytes[1..], bytes, s, []);
      assert Receive(s, bytes[0]).1 + [] == [];
    }
  }

  /** What every event of a report tells: the cursor after it, x before y, and the buttons after it. */
  predicate Tells(e: Event, x: int, y: int, now: nat) {
    e.x == Int16(x) && e.y == Int16(y) && e.buttons == now
  }

  predicate AllTell(es: seq<Event>, x: int, y: int, now: nat) {
    es == [] || (Tells(es[0], x, y, now) && AllTell(es[1..], x, y, now))
  }

  /** Events for changed buttons above `bit`, lowest first, each told once. */
  predicate Rising(es: seq<Event>, before: nat, now: nat, bit: nat)
    decreases es
  {
    es == []
    || (bit < es[0].button && Bit(before, es[0].button) != Bit(now, es[0].button)
        && es[0].kind == (if Bit(now, es[0].button) then MouseDown else MouseUp)
        && Rising(es[1..], before, now, es[0].button))
  }

  /** One movement event, if the cursor moved, and then one event for each button that changed, left,
      right and middle in this order; all carry the new position. */
  ghost predicate Told(s: State, s': State, es: seq<Event>) {
    var n := if s'.x != s.x || s'.y != s.y then 1 else 0;
    var sound :=
      && n <= |es| && AllTell(es, s'.x, s'.y, s'.buttons)
      && (n == 1 ==> es[0].kind == MouseMove && es[0].dx == s'.x - s.x && es[0].dy == s'.y - s.y)
      && Rising(es[n..], s.buttons, s'.buttons, 0);
    sound
  }

  lemma ReportTold(s: State, r: Report)
    requires |s.packet| == 3 && s.cycle == 0 && Inside(s) && IsReport(r)
    ensures Told(s, ReceiveAll(s, Encode(r)).0, ReceiveAll(s, Encode(r)).1)
  {
    ReceiveEncoded(s, r);
    ClampNear(s.x, r.dx, s.w);
    ClampNear(s.y, -r.dy, s.h);
    EventsTell(s, Moved(s.(packet := Encode(r)), r.dx, r.dy, r.buttons).0);
  }

  lemma EventsTell(s: State, s': State)
    requires -256 <= s'.x - s.x <= 256 && -256 <= s'.y - s.y <= 256
    ensures Told(s, s', MoveEvent(s, s'.x, s'.y, s'.buttons) + ButtonEvents(s.buttons, s'.buttons, s'.x, s'.y))
  {
    var a := MoveEvent(s, s'.x, s'.y, s'.buttons);
    var b := ButtonEvents(s.buttons, s'.buttons, s'.x, s'.y);
    Int16Exact(s'.x - s.x);
    Int16Exact(s'.y - s.y);
    ButtonsRise(s.buttons, s'.buttons, s'.x, s'.y);
    if a == [] {
      assert a + b == b && b[0..] == b;
    } else {
      assert (a + b)[0] == a[0] && (a + b)[1..] == b;
    }
  }

  lemma ButtonsRise(before: nat, now: nat, x: int, y: int)
    ensures Rising(ButtonEvents(before, now, x, y), before, now, 0)
    ensures AllTell(ButtonEvents(before, now, x, y), x, y, now)
  {
    var a, b := ButtonEvent(before, now, 1, x, y), ButtonEvent(before, now, 2, x, y);
    var c := ButtonEvent(before, now, 4, x, y);
    OneRises([], before, now, 4, x, y);
    assert c + [] == c;
    OneRises(c, before, now, 2, x, y);
    OneRises(b + c, before, now, 1, x, y);
    assert a + b + c == a + (b + c);
  }

  lemma OneRises(es: seq<Event>, before: nat, now: nat, bit: nat, x: int, y: int)
    requires 1 <= bit && Rising(es, before, now, bit) && AllTell(es, x, y, now)
    ensures
      var all := ButtonEvent(before, now, bit, x, y) + es;
      AllTell(all, x, y, now) && Rising(all, before, now, bit - 1) && Rising(all, before, now, bit / 2)
  {
    var e := ButtonEvent(before, now, bit, x, y);
    if e == [] {
      assert e + es == es;
    } else {
      assert (e + es)[1..] == es && (e + es)[0] == e[0];
    }
  }

  /** Clamping never moves the cursor further than the packet says. */
  lemma ClampNear(x: int, d: int, n: nat)
    requires 0 <= x < n && -256 <= d <= 256
    ensures 0 <= Clamp(x + d, n) < n && -256 <= Clamp(x + d, n) - x <= 256
  {
  }

  /** The events of one packet account for the movement after clamping and for the buttons. */
  lemma MovedEvents(s: State, dx: int, dy: int, buttons: nat)
    requires OnScreen(s) && buttons < 8 && -256 <= dx < 256 && -256 <= dy < 256
    ensures Moved(s, dx, dy, buttons).0.buttons == buttons
    ensures
      var (s', es) := Moved(s, dx, dy, buttons);
      && OnScreen(s') && SumX(es) == s'.x - s.x && SumY(es) == s'.y - s.y
      && Replay(Held(s.buttons), es) == Held(buttons)
  {
    var x, y := Clamp(s.x + dx, s.w), Clamp(s.y - dy, s.h);
    var a, b := MoveEvent(s, x, y, buttons), ButtonEvents(s.buttons, buttons, x, y);
    ClampNear(s.x, dx, s.w);
    ClampNear(s.y, -dy, s.h);
    MoveTold(s, x, y, buttons, Held(s.buttons));
    ButtonsTold(s.buttons, buttons, x, y);
    SumAppend(a, b);
    ReplayAppend(Held(s.buttons), a, b);
  }

  /** What holds of the events between two states. */
  ghost predicate Accounts(s: State, s': State, es: seq<Event>) {
    && OnScreen(s') && s'.w == s.w && s'.h == s.h
    && SumX(es) == s'.x - s.x && SumY(es) == s'.y - s.y
    && Replay(Held(s.buttons), es) == Held(s'.buttons)
  }

  lemma ReceiveAccounts(s: State, data: nat)
    requires OnScreen(s) && data < 256
    ensures Accounts(s, Receive(s, data).0, Receive(s, data).1)
  {
    if s.cycle == 2 {
      var p := s.packet[2 := data];
      MovedEvents(s.(packet := p, cycle := 0), DeltaX(p[0], p[1]), DeltaY(p[0], p[2]), p[0] % 8);
    }
  }

  /** Whatever bytes arrive, in or out of step: the cursor stays on the screen, the movement events
      add up to where it has gone, and replaying the button events gives the buttons. */
  lemma {:induction false} StreamAccounts(s: State, bytes: seq<nat>)
    requires OnScreen(s) && AreBytes(bytes)
    ensures Accounts(s, ReceiveAll(s, bytes).0, ReceiveAll(s, bytes).1)
    decreases bytes
  {
    if bytes != [] {
      var (s1, e1) := Receive(s, bytes[0]);
      ReceiveAccounts(s, bytes[0]);
      StreamAccounts(s1, bytes[1..]);
      var e2 := ReceiveAll(s1, bytes[1..]).1;
      SumAppend(e1, e2);
      ReplayAppend(Held(s.buttons), e1, e2);
    }
  }

  /** `mouse_init` puts the cursor on the screen, if there is one. */
  lemma InitialInside(w: nat, h: nat, packet: seq<nat>)
    ensures Inside(Initial(w, h, packet)) <==> w > 0 && h > 0
  {
  }

  // -------------------------------------------------------------------------------------------
  // The driver
  // -------------------------------------------------------------------------------------------

  class Driver {
    var x: int
    var y: int
    const w: nat
    const h: nat
    var buttons: nat
    const packet: array<nat>
    var cycle: nat

    ghost function Abstract(): State
      reads this, packet
    {
      State(x, y, w, h, buttons, packet[..], cycle)
    }

    ghost predicate Valid()
      reads this, packet
    {
      packet.Length == 3 && OnScreen(Abstract())
    }

    /** The variables as `mouse_init` leaves them. */
    constructor (w: nat, h: nat, packet: array<nat>)
      requires 0 < w < 0x7FFF_FF00 && 0 < h < 0x7FFF_FF00
      requires packet.Length == 3 && packet[0] < 256 && packet[1] < 256 && packet[2] < 256
      ensures Valid() && Abstract() == Initial(w, h, packet[..]) && this.packet == packet
      ensures x == w / 2 && y == h / 2 && this.w == w && this.h == h && buttons == 0 && cycle == 0
    {
      this.x, this.y, this.w, this.h := w / 2, h / 2, w, h;
      this.packet := packet;
      buttons, cycle := 0, 0;
    }

    /** `mouse_irq`, for a byte that came from the mouse; the events are pushed in this order. */
    method Irq(data: nat) returns (es: seq<Event>)
      requires Valid() && data < 256
      modifies this`x, this`y, this`buttons, this`cycle, packet
      ensures Valid() && (Abstract(), es) == Receive(old(Abstract()), data)
    {
      ReceiveAccounts(Abstract(), data);
      es := [];
      match cycle {
        case 0 =>
          if Bit(data, 8) {
            packet[0] := data;
            cycle := 1;
          }
        case 1 =>
          packet[1] := data;
          cycle := 2;
        case _ =>
          packet[2] := data;
          cycle := 0;
          if !Bit(packet[0], 64) && !Bit(packet[0], 128) {
            es := Move(DeltaX(packet[0], packet[1]), DeltaY(packet[0], packet[2]), packet[0] % 8);
          }
      }
    }

    /** The cursor moves and is kept on the screen. */
    method Steer(dx: int, dy: int)
      modifies this`x, this`y
      ensures x == Clamp(old(x) + dx, w) && y == Clamp(old(y) - dy, h)
    {
      x := x + dx;
      y := y - dy;
      if x < 0 { x := 0; }
      if y < 0 { y := 0; }
      if x >= w { x := w - 1; }
      if y >= h { y := h - 1; }
    }

    /** A whole packet. */
    method Move(dx: int, dy: int, now: nat) returns (es: seq<Event>)
      requires packet.Length == 3 && now < 8
      modifies this`x, this`y, this`buttons
      ensures (Abstract(), es) == Moved(old(Abstract()), dx, dy, now)
    {
      ghost var s := Abstract();
      var oldX, oldY := x, y;
      Steer(dx, dy);
      var edx, edy := x - oldX, y - oldY;
      es := [];
      if edx != 0 || edy != 0 {
        es := [Event(MouseMove, 0, 0, now, 0, Int16(x), Int16(y), Int16(edx), Int16(edy))];
      }
      assert es == MoveEvent(s, x, y, now);
      var bs := Buttons(now);
      es := es + bs;
      buttons := now;
      assert Abstract() == s.(x := x, y := y, buttons := now);
    }

    /** The loop over the button bits. */
    method Buttons(now: nat) returns (es: seq<Event>)
      ensures es == ButtonEvents(buttons, now, x, y)
    {
      es := [];
      var bit := 1;
      while bit <= 4
        invariant bit == 1 || bit == 2 || bit == 4 || bit == 8
        invariant es == EventsBelow(bit, buttons, now, x, y)
        decreases 8 - bit
      {
        NextBit(bit, buttons, now, x, y);
        if Bit(now, bit) != Bit(buttons, bit) {
          es := es + [Event(if Bit(now, bit) then MouseDown else MouseUp, 0, 0, now, bit, Int16(x), Int16(y), 0, 0)];
        }
        bit := bit * 2;
      }
    }
  }

  /** The events for the buttons whose bit is lower. */
  function EventsBelow(bit: nat, before: nat, now: nat, x: int, y: int): seq<Event> {
    (if bit > 1 then ButtonEvent(before, now, 1, x, y) else [])
    + (if bit > 2 then ButtonEvent(before, now, 2, x, y) else [])
    + (if bit > 4 then ButtonEvent(before, now, 4, x, y) else [])
  }

  lemma NextBit(bit: nat, before: nat, now: nat, x: int, y: int)
    requires bit == 1 || bit == 2 || bit == 4
    ensures EventsBelow(2 * bit, before, now, x, y)
         == EventsBelow(bit, before, now, x, y) + ButtonEvent(before, now, bit, x, y)
    ensures EventsBelow(1, before, now, x, y) == []
    ensures EventsBelow(8, before, now, x, y) == ButtonEvents(before, now, x, y)
  {
  }
}
