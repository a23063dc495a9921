/** The physical frame allocator of src/mm/pmm.c: one bit per 4 KiB frame, set when the frame is
    not available. Frames are named by number (physical address divided by 4096). */
module Pmm {
  import opened Prelude

  /** A memory-map entry; `usable` says that its type is LIMINE_MEMMAP_USABLE. */
  datatype Entry = Entry(base: nat, length: nat, usable: bool)

  // -------------------------------------------------------------------------------------------
  // Bits of a byte array
  // -------------------------------------------------------------------------------------------

  function Mask(k: nat): bv8
    requires k < 8
  {
    if k == 0 then 0x01 else if k == 1 then 0x02 else if k == 2 then 0x04 else if k == 3 then 0x08
    else if k == 4 then 0x10 else if k == 5 then 0x20 else if k == 6 then 0x40 else 0x80
  }

  predicate Bit(bytes: seq<bv8>, f: nat)
    requires f / 8 < |bytes|
  {
    bytes[f / 8] & Mask(f % 8) != 0
  }

  lemma SetBitInByte(b: bv8, k: nat, j: nat)
    requires k < 8 && j < 8
    ensures ((b | Mask(k)) & Mask(j) != 0) <==> (j == k || b & Mask(j) != 0)
  {
  }

  lemma ClearBitInByte(b: bv8, k: nat, j: nat)
    requires k < 8 && j < 8
    ensures ((b & !Mask(k)) & Mask(j) != 0) <==> (j != k && b & Mask(j) != 0)
  {
  }

  // -------------------------------------------------------------------------------------------
  // The set of frames whose bit is set
  // -------------------------------------------------------------------------------------------

  ghost function SetFrames(bytes: seq<bv8>, total: nat): set<nat>
    requires total <= 8 * |bytes|
  {
    if total == 0 then {}
    else SetFrames(bytes, total - 1) + if Bit(bytes, total - 1) then {total - 1} else {}
  }

  /** The number of members of s below n. */
  ghost function Count(s: set<nat>, n: nat): (c: nat)
    ensures c <= n
  {
    if n == 0 then 0 else Count(s, n - 1) + if n - 1 in s then 1 else 0
  }

  lemma {:induction false} CountUpdate(s: set<nat>, n: nat, f: nat)
    ensures Count(s + {f}, n) == Count(s, n) + if f < n && f !in s then 1 else 0
    ensures Count(s - {f}, n) == Count(s, n) - if f < n && f in s then 1 else 0
  {
    if n > 0 {
      CountUpdate(s, n - 1, f);
    }
  }

  lemma {:induction false} CountAll(s: set<nat>, n: nat)
    requires Range(0, n) <= s
    ensures Count(s, n) == n
  {
    if n > 0 {
      CountAll(s, n - 1);
    }
  }

  /** The number of frames that `pmm_alloc_frame` can still hand out: frame 0 is never one. */
  ghost function Spare(s: set<nat>, n: nat): nat {
    if n <= 1 then 0 else Spare(s, n - 1) + if n - 1 in s then 0 else 1
  }

  lemma {:induction false} SpareUpdate(s: set<nat>, n: nat, f: nat)
    requires 1 <= f < n && f !in s
    ensures Spare(s + {f}, n) == Spare(s, n) - 1
  {
    if f < n - 1 {
      SpareUpdate(s, n - 1, f);
    } else {
      SpareBelow(s, n - 1, f);
    }
  }

  lemma {:induction false} SpareBelow(s: set<nat>, n: nat, f: nat)
    requires n <= f
    ensures Spare(s + {f}, n) == Spare(s, n)
  {
    if n > 1 {
      SpareBelow(s, n - 1, f);
    }
  }

  /** No frame is spare exactly when every frame from 1 on is taken. */
  lemma {:induction false} SpareZero(s: set<nat>, n: nat)
    ensures Spare(s, n) == 0 <==> AllTaken(s, n)
  {
    if n > 1 {
      SpareZero(s, n - 1);
    }
  }

  /** `pmm_free_frames` exceeds what can be allocated by one exactly when frame 0 is clear. */
  lemma {:induction false} FreeFramesCounter(s: set<nat>, n: nat)
    requires n > 0
    ensures n - Count(s, n) == Spare(s, n) + if 0 in s then 0 else 1
  {
    if n > 1 {
      FreeFramesCounter(s, n - 1);
    } else {
      assert Count(s, 0) == 0;
    }
  }

  lemma {:induction false} SetFramesMember(bytes: seq<bv8>, total: nat, f: nat)
    requires total <= 8 * |bytes|
    ensures f in SetFrames(bytes, total) <==> f < total && Bit(bytes, f)
  {
    if total > 0 {
      SetFramesMember(bytes, total - 1, f);
    }
  }

  /** The array after `memset(bitmap, 0xFF, bitmap_size)`. */
  lemma {:induction false} AllOnes(bytes: seq<bv8>, total: nat)
    requires total <= 8 * |bytes|
    requires forall i :: 0 <= i < |bytes| ==> bytes[i] == 0xFF
    ensures SetFrames(bytes, total) == Range(0, total)
  {
    if total > 0 {
      AllOnes(bytes, total - 1);
      assert 0xFF & Mask((total - 1) % 8) != 0;
    }
  }

  /** `bmp_set` adds exactly frame f. */
  lemma SettingABit(bytes: seq<bv8>, total: nat, f: nat)
    requires f < total <= 8 * |bytes|
    ensures SetFrames(bytes[f / 8 := bytes[f / 8] | Mask(f % 8)], total) == SetFrames(bytes, total) + {f}
  {
    var after := bytes[f / 8 := bytes[f / 8] | Mask(f % 8)];
    forall g: nat
      ensures g in SetFrames(after, total) <==> g in SetFrames(bytes, total) + {f}
    {
      SetFramesMember(bytes, total, g);
      SetFramesMember(after, total, g);
      if g < total {
        BitAfterSet(bytes, f, g);
      }
    }
  }

  lemma BitAfterSet(bytes: seq<bv8>, f: nat, g: nat)
    requires f / 8 < |bytes| && g / 8 < |bytes|
    ensures Bit(bytes[f / 8 := bytes[f / 8] | Mask(f % 8)], g) <==> g == f || Bit(bytes, g)
  {
    if f / 8 == g / 8 {
      SetBitInByte(bytes[f / 8], f % 8, g % 8);
    }
  }

  /** `bmp_clear` removes exactly frame f. */
  lemma ClearingABit(bytes: seq<bv8>, total: nat, f: nat)
    requires f < total <= 8 * |bytes|
    ensures SetFrames(bytes[f / 8 := bytes[f / 8] & !Mask(f % 8)], total) == SetFrames(bytes, total) - {f}
  {
    var after := bytes[f / 8 := bytes[f / 8] & !Mask(f % 8)];
    forall g: nat
      ensures g in SetFrames(after, total) <==> g in SetFrames(bytes, total) - {f}
    {
      SetFramesMember(bytes, total, g);
      SetFramesMember(after, total, g);
      if g < total {
        BitAfterClear(bytes, f, g);
      }
    }
  }

  lemma BitAfterClear(bytes: seq<bv8>, f: nat, g: nat)
    requires f / 8 < |bytes| && g / 8 < |bytes|
    ensures Bit(bytes[f / 8 := bytes[f / 8] & !Mask(f % 8)], g) <==> g != f && Bit(bytes, g)
  {
    if f / 8 == g / 8 {
      ClearBitInByte(bytes[f / 8], f % 8, g % 8);
    }
  }

  // -------------------------------------------------------------------------------------------
  // The memory map
  // -------------------------------------------------------------------------------------------

  ghost function Range(lo: nat, hi: nat): (s: set<nat>)
    ensures forall f :: f in s <==> lo <= f < hi
  {
    set f: nat | f < hi && AtLeast(f, lo)
  }

  predicate AtLeast(f: nat, lo: nat) { lo <= f }

  /** Every frame from 1 to below hi is taken. */
  ghost predicate AllTaken(s: set<nat>, hi: nat) {
    forall f :: 1 <= f < hi ==> f in s
  }

  /** One round of a loop that takes the frames lo..hi out of s, upwards. */
  lemma WithoutStep(s: set<nat>, lo: nat, f: nat, hi: nat)
    requires lo <= f < hi && Range(lo, hi) <= s
    ensures s - Range(lo, f) - {f} == s - Range(lo, f + 1)
    ensures f in s - Range(lo, f) && f in s
  {
    assert f in Range(lo, hi);
  }

  /** One round of a loop that adds the frames lo..hi to s, upwards. */
  lemma WithStep(s: set<nat>, lo: nat, f: nat, hi: nat)
    requires lo <= f < hi && Range(lo, hi) !! s
    ensures s + Range(lo, f) + {f} == s + Range(lo, f + 1)
    ensures f !in s + Range(lo, f) && f !in s
  {
    assert f in Range(lo, hi);
  }

  ghost function FramesOf(e: Entry): set<nat> {
    Range(e.base / 4096, (e.base + e.length) / 4096)
  }

  ghost function UsableFrames(entries: seq<Entry>): set<nat> {
    if entries == [] then {}
    else
      var last := entries[|entries| - 1];
      UsableFrames(entries[..|entries| - 1]) + if last.usable then FramesOf(last) else {}
  }

  predicate Aligned(e: Entry) {
    e.base % 4096 == 0 && e.length % 4096 == 0
  }

  predicate Apart(d: Entry, e: Entry) {
    d.base + d.length <= e.base || e.base + e.length <= d.base
  }

  /** The Limine Boot Protocol's promise about usable entries ("Memory Map Feature"). */
  ghost predicate WellFormedMap(entries: seq<Entry>) {
    && (forall i :: 0 <= i < |entries| && entries[i].usable ==> Aligned(entries[i]))
    && (forall i, j :: 0 <= i < j < |entries| && entries[i].usable && entries[j].usable
                       ==> Apart(entries[i], entries[j]))
  }

  /** The frames still used after the loop over the entries has passed the first i of them. */
  ghost function StillUsed(entries: seq<Entry>, i: nat): set<nat>
    requires i <= |entries|
  {
    Range(0, TotalFrames(entries)) - UsableFrames(entries[..i])
  }

  lemma ClearingStep(entries: seq<Entry>, i: nat)
    requires WellFormedMap(entries) && i < |entries|
    ensures entries[i].usable ==>
              && Aligned(entries[i])
              && (entries[i].base + entries[i].length) / 4096 <= TotalFrames(entries)
              && FramesOf(entries[i]) <= StillUsed(entries, i)
              && StillUsed(entries, i + 1) == StillUsed(entries, i) - FramesOf(entries[i])
    ensures !entries[i].usable ==> StillUsed(entries, i + 1) == StillUsed(entries, i)
  {
    UsableFramesStep(entries, i);
    if entries[i].usable {
      EntryIsNew(entries, i);
      EntryBelowTotal(entries, i);
      HighestCovers(entries, i);
    }
  }

  lemma UsableBelowTotal(entries: seq<Entry>)
    requires WellFormedMap(entries)
    ensures UsableFrames(entries) <= Range(0, TotalFrames(entries))
  {
    forall f | f in UsableFrames(entries)
      ensures f in Range(0, TotalFrames(entries))
    {
      UsableFramesMember(entries, f);
      var i :| 0 <= i < |entries| && entries[i].usable && f in FramesOf(entries[i]);
      EntryBelowTotal(entries, i);
    }
  }

  function Highest(entries: seq<Entry>): nat {
    if entries == [] then 0
    else
      var n := |entries| - 1;
      Max(Highest(entries[..n]), if entries[n].usable then entries[n].base + entries[n].length else 0)
  }

  function Max(a: nat, b: nat): nat { if a >= b then a else b }

  lemma HighestStep(entries: seq<Entry>, i: nat)
    requires i < |entries|
    ensures Highest(entries[..i + 1])
         == Max(Highest(entries[..i]), if entries[i].usable then entries[i].base + entries[i].length else 0)
  {
    assert entries[..i + 1][..i] == entries[..i];
  }

  lemma {:induction false} HighestCovers(entries: seq<Entry>, i: nat)
    requires i < |entries| && entries[i].usable
    ensures entries[i].base + entries[i].length <= Highest(entries)
  {
    var n := |entries| - 1;
    if i < n {
      HighestCovers(entries[..n], i);
    }
  }

  /** The top is reached: no memory beyond the last usable byte is counted. */
  lemma {:induction false} HighestReached(entries: seq<Entry>) returns (i: nat)
    requires Highest(entries) > 0
    ensures i < |entries| && entries[i].usable && entries[i].base + entries[i].length == Highest(entries)
  {
    var n := |entries| - 1;
    if Highest(entries[..n]) == Highest(entries) {
      i := HighestReached(entries[..n]);
    } else {
      i := n;
    }
  }

  function TotalFrames(entries: seq<Entry>): nat { Highest(entries) / 4096 }

  function BitmapBytes(total: nat): nat { (total + 7) / 8 }

  function BitmapPages(total: nat): nat { (BitmapBytes(total) + 4096 - 1) / 4096 }

  /** The frames end where the memory does. */
  lemma TotalIsTop(entries: seq<Entry>)
    requires WellFormedMap(entries)
    ensures TotalFrames(entries) * 4096 == Highest(entries)
  {
    if Highest(entries) > 0 {
      var i := HighestReached(entries);
    }
  }

  /** The bitmap has the fewest bytes that hold a bit for each frame, in the fewest pages. */
  lemma BitmapSize(total: nat)
    ensures total <= BitmapBytes(total) * 8 && (total > 0 ==> (BitmapBytes(total) - 1) * 8 < total)
    ensures BitmapBytes(total) <= BitmapPages(total) * 4096
    ensures total > 0 ==> (BitmapPages(total) - 1) * 4096 < BitmapBytes(total)
  {
  }

  predicate Fits(e: Entry, total: nat) {
    e.usable && e.length >= BitmapBytes(total)
  }

  /** The first entry that can hold the bitmap is the one that does. */
  ghost predicate IsHost(entries: seq<Entry>, host: nat) {
    && host < |entries| && Fits(entries[host], TotalFrames(entries))
    && forall k :: 0 <= k < host ==> !Fits(entries[k], TotalFrames(entries))
  }

  ghost function BitmapFrames(entries: seq<Entry>, host: nat): set<nat>
    requires host < |entries|
  {
    Range(entries[host].base / 4096, entries[host].base / 4096 + BitmapPages(TotalFrames(entries)))
  }

  lemma PageWithin(size: nat, first: nat, n: nat)
    requires n * 4096 < size
    ensures n < (size + 4096 - 1) / 4096
    ensures (first * 4096 + n * 4096) / 4096 == first + n
  {
  }

  /** The bitmap's frames are usable, and taking them back leaves the other usable frames clear. */
  lemma BitmapWithinUsable(entries: seq<Entry>, host: nat)
    requires WellFormedMap(entries) && host < |entries| && Fits(entries[host], TotalFrames(entries))
    ensures
      var total, first := TotalFrames(entries), entries[host].base / 4096;
      var own := Range(first, first + BitmapPages(total));
      && own <= UsableFrames(entries)
      && first + BitmapPages(total) <= total
      && own !! StillUsed(entries, |entries|)
      && Range(0, total) - (StillUsed(entries, |entries|) + own) == UsableFrames(entries) - own
  {
    var total, e := TotalFrames(entries), entries[host];
    assert (e.base + e.length) / 4096 == e.base / 4096 + e.length / 4096;
    assert BitmapPages(total) <= e.length / 4096;
    assert Range(e.base / 4096, e.base / 4096 + BitmapPages(total)) <= FramesOf(e);
    EntryBelowTotal(entries, host);
    HighestCovers(entries, host);
    UsableBelowTotal(entries);
    assert entries[..|entries|] == entries;
  }

  /** The frames used when `pmm_init` returns. */
  ghost function UsedAtBoot(entries: seq<Entry>, host: nat): set<nat>
    requires host < |entries|
  {
    StillUsed(entries, |entries|) + BitmapFrames(entries, host)
  }

  /** What is left clear. */
  lemma ClearAtBoot(entries: seq<Entry>, host: nat)
    requires WellFormedMap(entries) && IsHost(entries, host)
    ensures BitmapFrames(entries, host) <= UsableFrames(entries)
    ensures Range(0, TotalFrames(entries)) - UsedAtBoot(entries, host)
         == UsableFrames(entries) - BitmapFrames(entries, host)
  {
    BitmapWithinUsable(entries, host);
  }

  lemma UsableFramesStep(entries: seq<Entry>, i: nat)
    requires i < |entries|
    ensures UsableFrames(entries[..i + 1])
         == UsableFrames(entries[..i]) + if entries[i].usable then FramesOf(entries[i]) else {}
  {
    assert entries[..i + 1][..i] == entries[..i];
  }

  /** Each usable entry contributes its frames, all below the total. */
  lemma {:induction false} UsableFramesMember(entries: seq<Entry>, f: nat)
    ensures f in UsableFrames(entries)
       <==> exists i :: 0 <= i < |entries| && entries[i].usable && f in FramesOf(entries[i])
  {
    if entries != [] {
      var n := |entries| - 1;
      UsableFramesMember(entries[..n], f);
      if f in UsableFrames(entries[..n]) {
        var i :| 0 <= i < n && entries[..n][i].usable && f in FramesOf(entries[..n][i]);
        assert entries[i].usable && f in FramesOf(entries[i]);
      } else {
        assert forall i :: 0 <= i < n ==> entries[..n][i] == entries[i];
      }
    }
  }

  /** Frames of a later usable entry are new: no frame is counted twice. */
  lemma EntryIsNew(entries: seq<Entry>, i: nat)
    requires WellFormedMap(entries) && i < |entries| && entries[i].usable
    ensures UsableFrames(entries[..i]) !! FramesOf(entries[i])
  {
    forall f | f in UsableFrames(entries[..i])
      ensures f !in FramesOf(entries[i])
    {
      UsableFramesMember(entries[..i], f);
      var k :| 0 <= k < i && entries[..i][k].usable && f in FramesOf(entries[..i][k]);
      assert Apart(entries[k], entries[i]) && Aligned(entries[k]) && Aligned(entries[i]);
    }
  }

  lemma EntryBelowTotal(entries: seq<Entry>, i: nat)
    requires WellFormedMap(entries) && i < |entries| && entries[i].usable
    ensures FramesOf(entries[i]) <= Range(0, TotalFrames(entries))
    ensures FramesOf(entries[i]) <= UsableFrames(entries)
  {
    HighestCovers(entries, i);
    forall f | f in FramesOf(entries[i])
      ensures f in UsableFrames(entries)
    {
      UsableFramesMember(entries, f);
    }
  }

  // -------------------------------------------------------------------------------------------
  // The allocator
  // -------------------------------------------------------------------------------------------

  class FrameAllocator {
    const bitmap: array<bv8>
    const total: nat             // total_frames
    const bitmapFrame: nat       // first of the frames that hold the bitmap
    ghost const host: nat        // the memory-map entry that holds it
    var used: nat                // used_frames
    ghost const reserved: set<nat>   // the frames used when pmm_init returns

    ghost var taken: set<nat>        // the frames whose bit is set

    ghost predicate Valid()
      reads this, bitmap
    {
      var sound := Coherent() && used == Count(taken, total) && reserved <= taken;
      sound
    }

    ghost predicate Coherent()
      reads this, bitmap
    {
      bitmap.Length == BitmapBytes(total) && taken == SetFrames(bitmap[..], total)
    }

    method BmpSet(f: nat)
      requires Coherent() && f < total
      modifies bitmap, this`taken
      ensures Coherent() && taken == old(taken) + {f}
      ensures Count(taken, total) == Count(old(taken), total) + if f in old(taken) then 0 else 1
    {
      SettingABit(bitmap[..], total, f);
      var i, byte := f / 8, bitmap[f / 8] | Mask(f % 8);
      bitmap[i] := byte;
      assert bitmap[..] == old(bitmap[..])[i := byte];
      CountUpdate(taken, total, f);
      taken := taken + {f};
    }

    method BmpClear(f: nat)
      requires Coherent() && f < total
      modifies bitmap, this`taken
      ensures Coherent() && taken == old(taken) - {f}
      ensures Count(taken, total) == Count(old(taken), total) - if f in old(taken) then 1 else 0
    {
      ClearingABit(bitmap[..], total, f);
      var i, byte := f / 8, bitmap[f / 8] & !Mask(f % 8);
      bitmap[i] := byte;
      assert bitmap[..] == old(bitmap[..])[i := byte];
      CountUpdate(taken, total, f);
      taken := taken - {f};
    }

    method BmpTest(f: nat) returns (b: bool)
      requires Coherent() && f < total
      ensures b <==> f in taken
    {
      SetFramesMember(bitmap[..], total, f);
      b := bitmap[f / 8] & Mask(f % 8) != 0;
    }

    /** The scan for `total_frames` and for the first usable entry that can hold the bitmap. */
    static method Layout(entries: seq<Entry>) returns (frames: nat, host: nat)
      requires exists i :: 0 <= i < |entries| && Fits(entries[i], TotalFrames(entries))
      ensures frames == TotalFrames(entries)
      ensures IsHost(entries, host)
    {
      var highest := 0;
      var i := 0;
      while i < |entries|
        invariant 0 <= i <= |entries|
        invariant highest == Highest(entries[..i])
      {
        HighestStep(entries, i);
        if entries[i].usable {
          var top := entries[i].base + entries[i].length;
          if top > highest {
            highest := top;
          }
        }
        i := i + 1;
      }
      assert entries[..i] == entries;
      frames := highest / 4096;
      host := 0;
      while !(entries[host].usable && entries[host].length >= (frames + 7) / 8)
        invariant 0 <= host < |entries|
        invariant forall k :: 0 <= k < host ==> !Fits(entries[k], frames)
        decreases |entries| - host
      {
        host := host + 1;
      }
    }

    /** The inner loop of `pmm_init` over the pages of one usable entry. */
    method ClearEntry(e: Entry)
      requires Coherent() && Aligned(e) && (e.base + e.length) / 4096 <= total
      requires FramesOf(e) <= taken && used == Count(taken, total)
      modifies this`used, this`taken, bitmap
      ensures Coherent() && taken == old(taken) - FramesOf(e) && used == Count(taken, total)
    {
      var j := 0;
      ghost var was, first, last := taken, e.base / 4096, (e.base + e.length) / 4096;
      ghost var f := first;
      while j < e.length
        invariant j == (f - first) * 4096 && first <= f <= last
        invariant taken == was - Range(first, f)
        invariant Coherent() && used == Count(taken, total)
      {
        assert (e.base + j) / 4096 == f;
        WithoutStep(was, first, f, last);
        BmpClear((e.base + j) / 4096);
        used := used - 1;
        j, f := j + 4096, f + 1;
      }
    }

    /** The loop of `pmm_init` over the entries. */
    method ClearUsable(entries: seq<Entry>)
      requires WellFormedMap(entries) && total == TotalFrames(entries)
      requires Coherent() && taken == StillUsed(entries, 0) && used == Count(taken, total)
      modifies this`used, this`taken, bitmap
      ensures Coherent() && used == Count(taken, total)
      ensures taken == StillUsed(entries, |entries|)
    {
      var i := 0;
      while i < |entries|
        invariant 0 <= i <= |entries|
        invariant taken == StillUsed(entries, i)
        invariant Coherent() && used == Count(taken, total)
      {
        ClearingStep(entries, i);
        if entries[i].usable {
          ClearEntry(entries[i]);
        }
        i := i + 1;
      }
    }

    /** The last loop of `pmm_init`: the bitmap's own frames are taken again. */
    method MarkBitmap()
      requires Coherent() && used == Count(taken, total)
      requires bitmapFrame + BitmapPages(total) <= total
      requires Range(bitmapFrame, bitmapFrame + BitmapPages(total)) !! taken
      modifies this`used, this`taken, bitmap
      ensures taken == old(taken) + Range(bitmapFrame, bitmapFrame + BitmapPages(total))
      ensures Coherent() && used == Count(taken, total)
    {
      var i := 0;
      ghost var was, f, last := taken, bitmapFrame, bitmapFrame + BitmapPages(total);
      while i < bitmap.Length
        invariant i == (f - bitmapFrame) * 4096 && bitmapFrame <= f <= last
        invariant taken == was + Range(bitmapFrame, f)
        invariant Coherent() && used == Count(taken, total)
      {
        PageWithin(bitmap.Length, bitmapFrame, f - bitmapFrame);
        WithStep(was, bitmapFrame, f, last);
        BmpSet((bitmapFrame * 4096 + i) / 4096);
        used := used + 1;
        i, f := i + 4096, f + 1;
      }
    }

    /** `pmm_init`: the clear bits are the usable frames minus the bitmap's own. */
    constructor Init(entries: seq<Entry>)
      requires WellFormedMap(entries)
      requires exists i :: 0 <= i < |entries| && Fits(entries[i], TotalFrames(entries))
      ensures Valid() && fresh(bitmap)
      ensures total == TotalFrames(entries)
      ensures IsHost(entries, host) && bitmapFrame == entries[host].base / 4096
      ensures reserved == taken == UsedAtBoot(entries, host)
      ensures BitmapFrames(entries, host) <= UsableFrames(entries)
      ensures Range(0, total) - taken == UsableFrames(entries) - BitmapFrames(entries, host)
    {
      var frames, hostEntry := Layout(entries);
      total := frames;
      host := hostEntry;
      bitmapFrame := entries[hostEntry].base / 4096;
      bitmap := new bv8[(frames + 7) / 8](_ => 0xFF);
      used := frames;
      taken := Range(0, frames);
      reserved := UsedAtBoot(entries, hostEntry);
      new;
      AllOnes(bitmap[..], total);
      CountAll(taken, total);
      ClearAndMark(entries);
      ClearAtBoot(entries, hostEntry);
    }

    /** The two loops of `pmm_init` that follow the memset. */
    method ClearAndMark(entries: seq<Entry>)
      requires WellFormedMap(entries) && total == TotalFrames(entries)
      requires IsHost(entries, host) && bitmapFrame == entries[host].base / 4096
      requires Coherent() && taken == Range(0, total) && used == Count(taken, total)
      modifies this`used, this`taken, bitmap
      ensures Coherent() && used == Count(taken, total) && taken == UsedAtBoot(entries, host)
    {
      assert entries[..0] == [];
      ClearUsable(entries);
      BitmapWithinUsable(entries, host);
      MarkBitmap();
    }

    /** `pmm_alloc_frame`: the lowest clear frame at or above 1, or NULL when there is none. */
    method Alloc() returns (r: Option<nat>)
      requires Valid()
      modifies this`used, this`taken, bitmap
      ensures Valid()
      ensures r.None? ==> taken == old(taken) && AllTaken(old(taken), total)
      ensures r.Some? ==>
                && 1 <= r.value < total && r.value !in old(taken) && AllTaken(old(taken), r.value)
                && taken == old(taken) + {r.value}
    {
      var i := 1;
      ghost var was := taken;
      while i < total
        invariant 1 <= i <= total || total <= i == 1
        invariant AllTaken(was, i)
        invariant Valid() && taken == was
      {
        var b := BmpTest(i);
        if !b {
          BmpSet(i);
          used := used + 1;
          return Some(i);
        }
        i := i + 1;
      }
      return None;
    }

    /** `pmm_free_frame`, for a frame the bitmap covers; a free frame stays as it is. */
    method Free(f: nat)
      requires Valid() && f < total && f !in reserved
      modifies this`used, this`taken, bitmap
      ensures Valid() && taken == old(taken) - {f}
    {
      var b := BmpTest(f);
      if !b {
        return;
      }
      BmpClear(f);
      used := used - 1;
    }
  }
}
