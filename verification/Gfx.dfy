/** The drawing primitives of src/gui/gfx.c. A buffer is an array of pixels, one row of pitch / 4 of
    them per screen line after the other; the first `width` of a row are visible, the rest is padding. */
module Gfx {
  type Pixel = nat

  predicate InRect(j: int, i: int, x: int, y: int, w: int, h: int) {
    x <= i < x + w && y <= j < y + h
  }

  /** On the outline of the rectangle. */
  predicate OnBorder(j: int, i: int, x: int, y: int, w: int, h: int) {
    InRect(j, i, x, y, w, h) && (j == y || j == y + h - 1 || i == x || i == x + w - 1)
  }

  /** Where the pixel (j, i) lies in rows of w pixels stored one after the other. */
  function At(j: nat, i: nat, w: nat): nat { j * w + i }

  lemma AtUnique(j: nat, i: nat, j': nat, i': nat, w: nat)
    requires i < w && i' < w && At(j, i, w) == At(j', i', w)
    ensures j == j' && i == i'
  {
    if j < j' {
      RowsBelow(j, j', w);
    } else if j' < j {
      RowsBelow(j', j, w);
    }
  }

  lemma {:induction false} RowsBelow(j: nat, j': nat, w: nat)
    requires j < j'
    ensures j * w + w <= j' * w
    decreases j'
  {
    assert (j' - 1) * w + w == j' * w;
    if j < j' - 1 {
      RowsBelow(j, j' - 1, w);
    }
  }

  /** The pixels of h rows fill exactly w * h places. */
  lemma AtBounds(j: nat, i: nat, w: nat, h: nat)
    requires j < h && i < w
    ensures At(j, i, w) < w * h
  {
    RowsBelow(j, h, w);
  }

  lemma AtSurjective(n: nat, w: nat, h: nat)
    requires n < w * h
    ensures w > 0 && n / w < h && n % w < w && At(n / w, n % w, w) == n
  {
    var q := n / w;
    assert (q - h) * w == q * w - w * h;
  }

  function Sample(s: seq<Pixel>, n: int): Pixel { if 0 <= n < |s| then s[n] else 0 }

  type Font = seq<seq<bv8>>

  predicate IsFont(font: Font) {
    |font| == 128 && forall c :: 0 <= c < 128 ==> |font[c]| == 16
  }

  /** The dots in a row of the glyph of c, as one byte; what the font lacks looks like '?'. */
  function GlyphRow(font: Font, c: nat, row: nat): bv8
    requires IsFont(font) && row < 16
  {
    font[if c >= 128 then 63 else c][row]
  }

  predicate DotIn(b: bv8, col: nat)
    requires col < 8
  {
    b & ((0x80 as bv8) >> col) != 0
  }

  /** Whether the glyph of c has a dot in this row and column. */
  predicate Dot(font: Font, c: nat, row: nat, col: nat)
    requires IsFont(font) && row < 16 && col < 8
  {
    DotIn(GlyphRow(font, c, row), col)
  }

  /** The binary number whose digits, highest first, are the dots of the first n columns. */
  function Spelt(font: Font, c: nat, row: nat, n: nat): bv8
    requires IsFont(font) && row < 16 && n <= 8
  {
    if n == 0 then 0 else Joined(Spelt(font, c, row, n - 1), Dot(font, c, row, n - 1))
  }

  function Joined(digits: bv8, dot: bool): bv8 { (digits << 1) | (if dot then 1 else 0) }

  /** The dots of a row are the digits of its byte, column 0 being the highest. */
  lemma DotsSpellRow(font: Font, c: nat, row: nat)
    requires IsFont(font) && row < 16
    ensures Spelt(font, c, row, 8) == if c < 128 then font[c][row] else font[63][row]
  {
    var b := GlyphRow(font, c, row);
    HighDigits(b);
    LowDigits(b);
    assert Spelt(font, c, row, 1) == b >> 7;
    assert Spelt(font, c, row, 2) == b >> 6;
    assert Spelt(font, c, row, 3) == b >> 5;
    assert Spelt(font, c, row, 4) == b >> 4;
    assert Spelt(font, c, row, 5) == b >> 3;
    assert Spelt(font, c, row, 6) == b >> 2;
    assert Spelt(font, c, row, 7) == b >> 1;
  }

  lemma HighDigits(b: bv8)
    ensures Joined(0, DotIn(b, 0)) == b >> 7 && Joined(b >> 7, DotIn(b, 1)) == b >> 6
    ensures Joined(b >> 6, DotIn(b, 2)) == b >> 5 && Joined(b >> 5, DotIn(b, 3)) == b >> 4
  {
  }

  lemma LowDigits(b: bv8)
    ensures Joined(b >> 4, DotIn(b, 4)) == b >> 3 && Joined(b >> 3, DotIn(b, 5)) == b >> 2
    ensures Joined(b >> 2, DotIn(b, 6)) == b >> 1 && Joined(b >> 1, DotIn(b, 7)) == b
  {
  }

  /** Pixel i of row j in a buffer with rows of `stride` pixels, pitch / 4. */
  function Px(a: array<Pixel>, stride: nat, j: nat, i: nat): Pixel
    reads a
  {
    Sample(a[..], At(j, i, stride))
  }

  class Screen {
    const width: nat
    const height: nat
    const stride: nat
    const hw: array<Pixel>
    const font: Font
    var fb: array<Pixel>

    ghost predicate Valid()
      reads this
    {
      var sound :=
        && IsFont(font) && 0 < width <= stride && 0 < height && width < 0x8000_0000 && height < 0x8000_0000
        && hw.Length == stride * height && fb.Length == stride * height;
      sound
    }

    /** `gfx_init`: drawing goes straight to the screen. */
    constructor (width: nat, height: nat, stride: nat, hw: array<Pixel>, font: Font)
      requires IsFont(font) && 0 < width <= stride && 0 < height && width < 0x8000_0000 && height < 0x8000_0000
      requires hw.Length == stride * height
      ensures Valid() && this.width == width && this.height == height && this.stride == stride
      ensures this.hw == hw && fb == hw && this.font == font
    {
      this.width, this.height, this.stride, this.font := width, height, stride, font;
      this.hw, fb := hw, hw;
    }

    /** `gfx_backbuffer_init`, whose allocation succeeds or fails. */
    method BackbufferInit(memory: bool) returns (ok: bool)
      requires Valid()
      modifies this`fb
      ensures Valid() && ok == memory
      ensures !ok ==> fb == old(fb)
      ensures ok ==> fresh(fb) && forall j, i :: 0 <= j < height && 0 <= i < stride ==> Px(fb, stride, j, i) == 0
    {
      ok := memory;
      if memory {
        fb := new Pixel[stride * height](_ => 0);
      }
    }

    /** One pixel of the row that begins pitch * y bytes into the buffer. */
    method Poke(a: array<Pixel>, y: nat, x: nat, c: Pixel)
      requires a.Length == stride * height && y < height && x < stride
      modifies a
      ensures forall j, i :: 0 <= j < height && 0 <= i < stride ==>
                Px(a, stride, j, i) == if j == y && i == x then c else old(Px(a, stride, j, i))
    {
      PutAt(a, stride, height, y, x, c);
    }

    /** A store into h rows of w pixels, at the beginning of an array. */
    static method PutAt(a: array<Pixel>, w: nat, h: nat, y: nat, x: nat, c: Pixel)
      requires a.Length >= w * h && y < h && x < w
      modifies a
      ensures forall j, i :: 0 <= j < h && 0 <= i < w ==>
                Sample(a[..], At(j, i, w)) == if j == y && i == x then c else old(Sample(a[..], At(j, i, w)))
      ensures forall n :: w * h <= n < a.Length ==> a[n] == old(a[n])
    {
      AtBounds(y, x, w, h);
      ghost var was := a[..];
      a[At(y, x, w)] := c;
      forall j, i | 0 <= j < h && 0 <= i < w
        ensures Sample(a[..], At(j, i, w)) == if j == y && i == x then c else Sample(was, At(j, i, w))
      {
        AtBounds(j, i, w, h);
        if At(j, i, w) == At(y, x, w) {
          AtUnique(j, i, y, x, w);
        }
      }
    }

    method Peek(a: array<Pixel>, y: nat, x: nat) returns (c: Pixel)
      requires a.Length == stride * height && y < height && x < stride
      ensures c == Px(a, stride, y, x)
    {
      AtBounds(y, x, stride, height);
      c := a[At(y, x, stride)];
    }

    /** `gfx_fill_rect`: exactly the part of the rectangle that is on the screen. */
    method FillRect(x: nat, y: nat, w: nat, h: nat, argb: Pixel)
      requires Valid() && x + w < 0x1_0000_0000 && y + h < 0x1_0000_0000
      modifies fb
      ensures forall j, i :: 0 <= j < height && 0 <= i < stride ==>
                Px(fb, stride, j, i) == if i < width && InRect(j, i, x, y, w, h) then argb
                                        else old(Px(fb, stride, j, i))
    {
      if x < width && y < height {
        var w' := if x + w > width then width - x else w;
        var h' := if y + h > height then height - y else h;
        for j := 0 to h'
          invariant forall l, i :: 0 <= l < height && 0 <= i < stride ==>
                      Px(fb, stride, l, i) == if InRect(l, i, x, y, w', j) then argb else old(Px(fb, stride, l, i))
        {
          for i := 0 to w'
            invariant forall l, k :: 0 <= l < height && 0 <= k < stride ==>
                        Px(fb, stride, l, k) == if InRect(l, k, x, y, w', j) || (l == y + j && x <= k < x + i) then argb
                                                else old(Px(fb, stride, l, k))
          {
            Poke(fb, y + j, x + i, argb);
          }
        }
      }
    }

    /** `gfx_pixel`. */
    method SetPixel(x: nat, y: nat, argb: Pixel)
      requires Valid()
      modifies fb
      ensures forall j, i :: 0 <= j < height && 0 <= i < stride ==>
                Px(fb, stride, j, i) == if j == y && i == x && x < width then argb else old(Px(fb, stride, j, i))
    {
      if x < width && y < height {
        Poke(fb, y, x, argb);
      }
    }

    /** `gfx_hline`. */
    method HLine(x: nat, y: nat, len: nat, argb: Pixel)
      requires Valid() && x + len < 0x1_0000_0000 && y + 1 < 0x1_0000_0000
      modifies fb
      ensures forall j, i :: 0 <= j < height && 0 <= i < stride ==>
                Px(fb, stride, j, i) == if i < width && InRect(j, i, x, y, len, 1) then argb
                                        else old(Px(fb, stride, j, i))
    {
      FillRect(x, y, len, 1, argb);
    }

    /** `gfx_vline`. */
    method VLine(x: nat, y: nat, len: nat, argb: Pixel)
      requires Valid() && x + 1 < 0x1_0000_0000 && y + len < 0x1_0000_0000
      modifies fb
      ensures forall j, i :: 0 <= j < height && 0 <= i < stride ==>
                Px(fb, stride, j, i) == if i < width && InRect(j, i, x, y, 1, len) then argb
                                        else old(Px(fb, stride, j, i))
    {
      FillRect(x, y, 1, len, argb);
    }

    /** `gfx_rect`: exactly the part of the outline that is on the screen. */
    method Rect(x: nat, y: nat, w: nat, h: nat, argb: Pixel)
      requires Valid() && x + w < 0x1_0000_0000 && y + h < 0x1_0000_0000
      modifies fb
      ensures forall j, i :: 0 <= j < height && 0 <= i < stride ==>
                Px(fb, stride, j, i) == if i < width && OnBorder(j, i, x, y, w, h) then argb
                                        else old(Px(fb, stride, j, i))
    {
      if w == 0 || h == 0 {
        return;
      }
      HLine(x, y, w, argb);
      HLine(x, y + h - 1, w, argb);
      VLine(x, y, h, argb);
      VLine(x + w - 1, y, h, argb);
    }

    /** `gfx_clear`. */
    method Clear(argb: Pixel)
      requires Valid()
      modifies fb
      ensures forall j, i :: 0 <= j < height && 0 <= i < stride ==>
                Px(fb, stride, j, i) == if i < width then argb else old(Px(fb, stride, j, i))
    {
      FillRect(0, 0, width, height, argb);
    }

    /** `gfx_scroll_up`, in place. */
    method ScrollUp(dy: nat, argb: Pixel)
      requires Valid()
      modifies fb
      ensures forall j, i :: 0 <= j < height && 0 <= i < stride ==>
                Px(fb, stride, j, i) == if i >= width then old(Px(fb, stride, j, i))
                                        else if j + dy < height then old(Px(fb, stride, j + dy, i))
                                        else argb
    {
      if dy == 0 {
        return;
      }
      if dy >= height {
        Clear(argb);
        return;
      }
      for y := 0 to height - dy
        invariant forall j, i :: 0 <= j < height && 0 <= i < stride ==>
                    Px(fb, stride, j, i) == if i < width && j < y then old(Px(fb, stride, j + dy, i))
                                            else old(Px(fb, stride, j, i))
      {
        for x := 0 to width
          invariant forall j, i :: 0 <= j < height && 0 <= i < stride ==>
                      Px(fb, stride, j, i) == if i < width && (j < y || (j == y && i < x))
                                              then old(Px(fb, stride, j + dy, i))
                                              else old(Px(fb, stride, j, i))
        {
          var below := Peek(fb, y + dy, x);
          Poke(fb, y, x, below);
        }
      }
      FillRect(0, height - dy, width, dy, argb);
    }

    /** `gfx_blit`, clipped. */
    method Blit(src: array<Pixel>, x: nat, y: nat, w: nat, h: nat)
      requires Valid() && x + w < 0x1_0000_0000 && y + h < 0x1_0000_0000 && src.Length >= w * h
      requires src != fb
      modifies fb
      ensures forall j, i :: 0 <= j < height && 0 <= i < stride ==>
                Px(fb, stride, j, i) == if i < width && InRect(j, i, x, y, w, h)
                                        then Sample(src[..], At(j - y, i - x, w))
                                        else old(Px(fb, stride, j, i))
    {
      if x < width && y < height {
        var cw := if x + w > width then width - x else w;
        var ch := if y + h > height then height - y else h;
        for j := 0 to ch
          invariant forall l, k :: 0 <= l < height && 0 <= k < stride ==>
                      Px(fb, stride, l, k) == if InRect(l, k, x, y, cw, j) then Sample(src[..], At(l - y, k - x, w))
                                              else old(Px(fb, stride, l, k))
        {
          for i := 0 to cw
            invariant forall l, k :: 0 <= l < height && 0 <= k < stride ==>
                        Px(fb, stride, l, k) == if InRect(l, k, x, y, cw, j) || (l == y + j && x <= k < x + i)
                                                then Sample(src[..], At(l - y, k - x, w)) else old(Px(fb, stride, l, k))
          {
            AtBounds(j, i, w, h);
            Poke(fb, y + j, x + i, src[At(j, i, w)]);
          }
        }
      }
    }

    /** `gfx_copy_out` of a rectangle inside the buffer. */
    method CopyOut(x: nat, y: nat, w: nat, h: nat, dst: array<Pixel>)
      requires Valid() && x + w <= stride && y + h <= height && dst.Length >= w * h
      requires dst != fb
      modifies dst
      ensures forall l, k :: 0 <= l < h && 0 <= k < w ==> Sample(dst[..], At(l, k, w)) == Px(fb, stride, y + l, x + k)
      ensures forall n :: w * h <= n < dst.Length ==> dst[n] == old(dst[n])
    {
      for j := 0 to h
        invariant forall l, k :: 0 <= l < j && 0 <= k < w ==>
          Sample(dst[..], At(l, k, w)) == Px(fb, stride, y + l, x + k)
        invariant forall n :: w * h <= n < dst.Length ==> dst[n] == old(dst[n])
      {
        CopyRow(x, y + j, w, h, dst, j);
      }
    }

    /** Row y of the buffer, from column x on, becomes row j of dst. */
    method CopyRow(x: nat, y: nat, w: nat, h: nat, dst: array<Pixel>, j: nat)
      requires Valid() && x + w <= stride && y < height && dst.Length >= w * h && j < h
      requires dst != fb
      modifies dst
      ensures forall l, k :: 0 <= l < h && 0 <= k < w ==>
                Sample(dst[..], At(l, k, w))
                == if l == j then Px(fb, stride, y, x + k) else old(Sample(dst[..], At(l, k, w)))
      ensures forall n :: w * h <= n < dst.Length ==> dst[n] == old(dst[n])
    {
      for i := 0 to w
        invariant forall l, k :: 0 <= l < h && 0 <= k < w ==>
                    Sample(dst[..], At(l, k, w))
                    == if l == j && k < i then Px(fb, stride, y, x + k) else old(Sample(dst[..], At(l, k, w)))
        invariant forall n :: w * h <= n < dst.Length ==> dst[n] == old(dst[n])
      {
        var c := Peek(fb, y, x + i);
        PutAt(dst, w, h, j, i, c);
      }
    }

    /** `gfx_present`: the whole buffer, padding included, word by word. */
    method Present()
      requires Valid()
      modifies hw
      ensures forall j, i :: 0 <= j < height && 0 <= i < stride ==> Px(hw, stride, j, i) == old(Px(fb, stride, j, i))
    {
      if fb == hw {
        return;
      }
      for n := 0 to stride * height
        invariant forall k :: 0 <= k < n ==> hw[k] == fb[k]
      {
        hw[n] := fb[n];
      }
    }

    /** `gfx_present_rect`, clipped. */
    method PresentRect(x: nat, y: nat, w: nat, h: nat)
      requires Valid() && x + w < 0x1_0000_0000 && y + h < 0x1_0000_0000
      modifies hw
      ensures forall j, i :: 0 <= j < height && 0 <= i < stride ==>
                Px(hw, stride, j, i) == if i < width && InRect(j, i, x, y, w, h) then old(Px(fb, stride, j, i))
                                        else old(Px(hw, stride, j, i))
    {
      if fb != hw && x < width && y < height {
        var w' := if x + w > width then width - x else w;
        var h' := if y + h > height then height - y else h;
        for j := 0 to h'
          invariant forall l, i :: 0 <= l < height && 0 <= i < stride ==>
                      Px(hw, stride, l, i) == if InRect(l, i, x, y, w', j) then Px(fb, stride, l, i)
                                              else old(Px(hw, stride, l, i))
        {
          for i := 0 to w'
            invariant forall l, k :: 0 <= l < height && 0 <= k < stride ==>
                        Px(hw, stride, l, k) == if InRect(l, k, x, y, w', j) || (l == y + j && x <= k < x + i)
                                                then Px(fb, stride, l, k)
                                                else old(Px(hw, stride, l, k))
          {
            var shown := Peek(fb, y + j, x + i);
            Poke(hw, y + j, x + i, shown);
          }
        }
      }
    }

    /** `gfx_char`: the part of the glyph that is on the screen. */
    method Char(c: nat, x: nat, y: nat, fg: Pixel, bg: Pixel)
      requires Valid() && x + 8 < 0x1_0000_0000 && y + 16 < 0x1_0000_0000
      modifies fb
      ensures forall j, i :: 0 <= j < height && 0 <= i < stride ==>
                Px(fb, stride, j, i) == if i < width && InRect(j, i, x, y, 8, 16)
                                        then (if Dot(font, c, j - y, i - x) then fg else bg)
                                        else old(Px(fb, stride, j, i))
    {
      for row := 0 to 16
        invariant forall j, i :: 0 <= j < height && 0 <= i < stride ==>
                    Px(fb, stride, j, i) == if i < width && InRect(j, i, x, y, 8, row)
                                            then (if Dot(font, c, j - y, i - x) then fg else bg)
                                            else old(Px(fb, stride, j, i))
      {
        for col := 0 to 8
          invariant forall j, i :: 0 <= j < height && 0 <= i < stride ==>
                      Px(fb, stride, j, i) == if i < width
                                              && (InRect(j, i, x, y, 8, row) || (j == y + row && x <= i < x + col))
                                              then (if Dot(font, c, j - y, i - x) then fg else bg)
                                              else old(Px(fb, stride, j, i))
        {
          SetPixel(x + col, y + row, if Dot(font, c, row, col) then fg else bg);
        }
      }
    }

    /** Drawing over a rectangle that was saved and blitting the saved pixels back leaves no trace, as
        long as the drawing stays inside the rectangle. */
    method DrawAndErase(x: nat, y: nat, w: nat, h: nat, under: array<Pixel>, marks: seq<Mark>)
      requires Valid() && x + w <= width && y + h <= height && under.Length >= w * h
      requires under != fb
      requires forall n :: 0 <= n < |marks| ==> InRect(marks[n].y, marks[n].x, x, y, w, h)
      modifies fb, under
      ensures forall j, i :: 0 <= j < height && 0 <= i < stride ==> Px(fb, stride, j, i) == old(Px(fb, stride, j, i))
    {
      CopyOut(x, y, w, h, under);
      ghost var saved := under[..];
      for n := 0 to |marks|
        invariant under[..] == saved
        invariant forall j, i :: 0 <= j < height && 0 <= i < stride ==>
                    InRect(j, i, x, y, w, h) || Px(fb, stride, j, i) == old(Px(fb, stride, j, i))
      {
        SetPixel(marks[n].x, marks[n].y, marks[n].argb);
      }
      Blit(under, x, y, w, h);
      forall j, i | 0 <= j < height && 0 <= i < stride && InRect(j, i, x, y, w, h)
        ensures Px(fb, stride, j, i) == old(Px(fb, stride, j, i))
      {
        var l, k := j - y, i - x;
        assert Sample(saved, At(l, k, w)) == old(Px(fb, stride, y + l, x + k));
      }
    }
  }

  datatype Mark = Mark(x: nat, y: nat, argb: Pixel)
}
