/**
 * The clipped bitmap-text overlay on a YUYV frame, as `tg_yuyv_putstr`
 * (lib/tg_yuyv.h) and `yuyv_putstr` (common/util.c, util.c) perform it.
 *
 * A frame of w by h pixels keeps pixel (x, y) in the byte pair starting at
 * 2 * (y * w + x): the luma byte, then a chroma byte.  A string of n
 * characters drawn at (sx, sy) covers an 8-row strip 8 * n pixels wide,
 * clipped at the right and bottom edges of the frame.  Every covered pixel
 * gets the text colour where its glyph bit is set and the background colour
 * elsewhere; no other byte changes.
 */
module Overlay {
  import opened Bits

  /** Glyph width and height in pixels. */
  const CharW: nat := 8
  const CharH: nat := 8

  /** The luma and chroma written for lit (text) and unlit (background) glyph pixels. */
  datatype Palette = Palette(textY: byte, textC: byte, backY: byte, backC: byte)

  /** A font of 128 glyphs: row r of glyph c is byte CharH * c + r, and bit k
      of a row (value 1 << k) is column k of the glyph. */
  predicate IsFont(font: seq<byte>) { |font| == 128 * CharH }

  /** Every character indexes the 128-glyph font, once read as `(unsigned char)`,
      and none is NUL: the C string the loop walks ends at its first NUL, so
      the characters it draws are exactly those before it. */
  predicate Ascii(s: string) { forall i :: 0 <= i < |s| ==> 0 < s[i] as int < 128 }

  /** Index of the luma byte of pixel (x, y) in a frame w pixels wide. */
  function LumaIndex(w: nat, x: nat, y: nat): nat { 2 * (y * w + x) }

  /** Pixel (x, y) lies in the text strip of n characters at (sx, sy), clipped to w by h. */
  predicate InText(w: nat, h: nat, n: nat, sx: nat, sy: nat, x: nat, y: nat)
  {
    sx <= x < Min(sx + CharW * n, w) && sy <= y < Min(sy + CharH, h)
  }

  /** Column col and row row of the strip (counted from its top-left corner)
      fall on a set bit of their character's glyph:
      `font[str[col / 8]][row] & (1 << (col % 8))`. */
  predicate Lit(font: seq<byte>, str: string, col: nat, row: nat)
    requires IsFont(font) && Ascii(str) && col < CharW * |str| && row < CharH
  {
    And(font[CharH * (str[col / CharW] as int) + row], Shl(1, col % CharW)) != 0
  }

  /** The byte a strip pixel's luma (chroma = false) or chroma byte receives. */
  function Ink(font: seq<byte>, pal: Palette, str: string, col: nat, row: nat, chroma: bool): byte
    requires IsFont(font) && Ascii(str) && col < CharW * |str| && row < CharH
  {
    if Lit(font, str, col, row) then (if chroma then pal.textC else pal.textY)
    else (if chroma then pal.backC else pal.backY)
  }

  /** The overlaid frame: byte i belongs to pixel ((i / 2) % w, (i / 2) / w),
      and is its luma byte when i is even. */
  function Render(s: seq<byte>, w: nat, h: nat, str: string, sx: nat, sy: nat,
                  font: seq<byte>, pal: Palette): (t: seq<byte>)
    requires w >= 1 && IsFont(font) && Ascii(str)
    ensures |t| == |s|
  {
    seq(|s|, i requires 0 <= i < |s| =>
      var x, y := (i / 2) % w, (i / 2) / w;
      if InText(w, h, |str|, sx, sy, x, y) then Ink(font, pal, str, x - sx, y - sy, i % 2 == 1)
      else s[i])
  }

  /** Every byte of a w-by-h frame is the luma or chroma byte of exactly the
      pixel ((i / 2) % w, (i / 2) / w). */
  lemma PixelOfIndex(w: nat, h: nat, i: nat)
    requires w >= 1 && i < 2 * w * h
    ensures (i / 2) % w < w && (i / 2) / w < h
    ensures i == LumaIndex(w, (i / 2) % w, (i / 2) / w) + i % 2
  {
    var p := i / 2;
    if p / w >= h {
      MulStep(w, p / w, h - 1);
      assert false;
    }
  }

  /** Decoding the luma or chroma index of pixel (x, y) gives back (x, y). */
  lemma IndexOfPixel(w: nat, x: nat, y: nat, c: nat)
    requires x < w && c < 2
    ensures (LumaIndex(w, x, y) + c) / 2 == y * w + x && (LumaIndex(w, x, y) + c) % 2 == c
    ensures ((LumaIndex(w, x, y) + c) / 2) % w == x && ((LumaIndex(w, x, y) + c) / 2) / w == y
  {
    DivUnique(LumaIndex(w, x, y) + c, 2, y * w + x, c);
    DivUnique(y * w + x, w, y, x);
  }

  /** The overlay at pixel (x, y): inside the clipped strip both bytes get the
      glyph's colour, elsewhere both keep their value. */
  lemma RenderAt(s: seq<byte>, w: nat, h: nat, str: string, sx: nat, sy: nat,
                 font: seq<byte>, pal: Palette, x: nat, y: nat)
    requires w >= 1 && IsFont(font) && Ascii(str) && 2 * w * h <= |s| && x < w && y < h
    ensures LumaIndex(w, x, y) + 1 < |s|
    ensures var t, i := Render(s, w, h, str, sx, sy, font, pal), LumaIndex(w, x, y);
      if InText(w, h, |str|, sx, sy, x, y) then
        t[i] == Ink(font, pal, str, x - sx, y - sy, false) && t[i + 1] == Ink(font, pal, str, x - sx, y - sy, true)
      else
        t[i] == s[i] && t[i + 1] == s[i + 1]
  {
    RowMajorBound(w, h, x, y);
    IndexOfPixel(w, x, y, 0);
    IndexOfPixel(w, x, y, 1);
  }

  /** Bytes past the frame's 2 * w * h bytes are never touched. */
  lemma RenderBeyond(s: seq<byte>, w: nat, h: nat, str: string, sx: nat, sy: nat,
                     font: seq<byte>, pal: Palette, i: nat)
    requires w >= 1 && IsFont(font) && Ascii(str) && 2 * w * h <= i < |s|
    ensures Render(s, w, h, str, sx, sy, font, pal)[i] == s[i]
  {
    var p := i / 2;
    if p / w < h {
      MulStep(w, h, p / w);
      assert false;
    }
  }

  /** The frame condition: a byte that changes is a byte of a pixel inside
      the clipped strip. */
  lemma RenderFrame(s: seq<byte>, w: nat, h: nat, str: string, sx: nat, sy: nat,
                    font: seq<byte>, pal: Palette, i: nat)
    requires w >= 1 && IsFont(font) && Ascii(str) && 2 * w * h <= |s| && i < |s|
    requires Render(s, w, h, str, sx, sy, font, pal)[i] != s[i]
    ensures i < 2 * w * h
    ensures InText(w, h, |str|, sx, sy, (i / 2) % w, (i / 2) / w)
  {
    if i >= 2 * w * h {
      RenderBeyond(s, w, h, str, sx, sy, font, pal, i);
    }
  }

  // ---------------------------------------------------------------------------
  // The drawing loops

  /** Pixel (x, y) has been drawn once the loops have finished the strip rows
      before `rows` and the first `cols` columns of row `rows`. */
  predicate Drawn(w: nat, n: nat, sx: nat, sy: nat, rows: nat, cols: nat, x: nat, y: nat)
  {
    && sx <= x < Min(sx + CharW * n, w) && sy <= y < sy + CharH
    && (y < sy + rows || (y == sy + rows && x < sx + cols))
  }

  /** Pixel (x, y) of t holds its ink if it has been drawn, and its value in s otherwise. */
  ghost predicate PixelPainted(t: seq<byte>, s: seq<byte>, w: nat, str: string, sx: nat, sy: nat,
                               font: seq<byte>, pal: Palette, rows: nat, cols: nat, x: nat, y: nat)
    requires IsFont(font) && Ascii(str) && |t| == |s| && LumaIndex(w, x, y) + 1 < |t|
  {
    var i := LumaIndex(w, x, y);
    if Drawn(w, |str|, sx, sy, rows, cols, x, y) then
      t[i] == Ink(font, pal, str, x - sx, y - sy, false) && t[i + 1] == Ink(font, pal, str, x - sx, y - sy, true)
    else t[i] == s[i] && t[i + 1] == s[i + 1]
  }

  /** t is s with exactly the pixels drawn so far overwritten by their ink. */
  ghost predicate Painted(t: seq<byte>, s: seq<byte>, w: nat, h: nat, str: string, sx: nat, sy: nat,
                          font: seq<byte>, pal: Palette, rows: nat, cols: nat)
    requires IsFont(font) && Ascii(str)
  {
    && |t| == |s| && 2 * w * h <= |s|
    && (forall i :: 2 * w * h <= i < |t| ==> t[i] == s[i])
    && forall x: nat, y: nat :: x < w && y < h && LumaIndex(w, x, y) + 1 < |t| ==>
         PixelPainted(t, s, w, str, sx, sy, font, pal, rows, cols, x, y)
  }

  /** Nothing is drawn before the loops start. */
  lemma PaintStart(s: seq<byte>, w: nat, h: nat, str: string, sx: nat, sy: nat, font: seq<byte>, pal: Palette)
    requires IsFont(font) && Ascii(str) && 2 * w * h <= |s|
    ensures Painted(s, s, w, h, str, sx, sy, font, pal, 0, 0)
  {
  }

  /** Drawing one more pixel of the current row: only its two bytes change. */
  lemma PaintStep(t: seq<byte>, s: seq<byte>, w: nat, h: nat, str: string, sx: nat, sy: nat,
                  font: seq<byte>, pal: Palette, rows: nat, cols: nat)
    requires IsFont(font) && Ascii(str) && Painted(t, s, w, h, str, sx, sy, font, pal, rows, cols)
    requires rows < CharH && cols < CharW * |str| && sx + cols < w && sy + rows < h
    ensures LumaIndex(w, sx + cols, sy + rows) + 1 < 2 * w * h
    ensures var i0 := LumaIndex(w, sx + cols, sy + rows);
      Painted(t[i0 := Ink(font, pal, str, cols, rows, false)][i0 + 1 := Ink(font, pal, str, cols, rows, true)],
              s, w, h, str, sx, sy, font, pal, rows, cols + 1)
  {
    var x0, y0 := sx + cols, sy + rows;
    var i0 := LumaIndex(w, x0, y0);
    RowMajorBound(w, h, x0, y0);
    assert 2 * w * h == 2 * (w * h);
    assert i0 + 1 < 2 * w * h <= |t|;
    var t' := t[i0 := Ink(font, pal, str, cols, rows, false)][i0 + 1 := Ink(font, pal, str, cols, rows, true)];
    forall x: nat, y: nat | x < w && y < h && LumaIndex(w, x, y) + 1 < |t|
      ensures PixelPainted(t', s, w, str, sx, sy, font, pal, rows, cols + 1, x, y)
    {
      assert PixelPainted(t, s, w, str, sx, sy, font, pal, rows, cols, x, y);
      if x != x0 || y != y0 {
        if LumaIndex(w, x, y) == i0 {
          RowMajorUnique(w, x, y, x0, y0);
        }
        assert Drawn(w, |str|, sx, sy, rows, cols + 1, x, y) == Drawn(w, |str|, sx, sy, rows, cols, x, y);
      }
    }
  }

  /** A row ends when the string or the right edge is reached. */
  lemma PaintRowEnd(t: seq<byte>, s: seq<byte>, w: nat, h: nat, str: string, sx: nat, sy: nat,
                    font: seq<byte>, pal: Palette, rows: nat, cols: nat)
    requires IsFont(font) && Ascii(str) && Painted(t, s, w, h, str, sx, sy, font, pal, rows, cols)
    requires rows < CharH && (cols >= CharW * |str| || sx + cols >= w)
    ensures Painted(t, s, w, h, str, sx, sy, font, pal, rows + 1, 0)
  {
  }

  /** Once all eight rows are drawn, or the bottom edge is reached, the frame
      is the rendered overlay. */
  lemma PaintEnd(t: seq<byte>, s: seq<byte>, w: nat, h: nat, str: string, sx: nat, sy: nat,
                 font: seq<byte>, pal: Palette, rows: nat)
    requires w >= 1 && IsFont(font) && Ascii(str) && Painted(t, s, w, h, str, sx, sy, font, pal, rows, 0)
    requires rows == CharH || (rows <= CharH && sy + rows >= h)
    ensures t == Render(s, w, h, str, sx, sy, font, pal)
  {
    var r := Render(s, w, h, str, sx, sy, font, pal);
    forall i | 0 <= i < |t|
      ensures t[i] == r[i]
    {
      if i < 2 * w * h {
        PixelOfIndex(w, h, i);
        var x, y := (i / 2) % w, (i / 2) / w;
        RenderAt(s, w, h, str, sx, sy, font, pal, x, y);
        assert Drawn(w, |str|, sx, sy, rows, 0, x, y) == InText(w, h, |str|, sx, sy, x, y);
      } else {
        RenderBeyond(s, w, h, str, sx, sy, font, pal, i);
      }
    }
  }

  /** Draws str at (sx, sy) into the w-by-h frame yuyv with the given font
      and colours: rows stop at the bottom edge (`yy + sy > h - 1`) and
      columns at the right edge (`xx + sx > w - 1`).  Both edges are compared
      on unsigned values in the source, so w and h must be at least 1. */
  method PutStr(yuyv: array<byte>, w: nat, h: nat, str: string, sx: nat, sy: nat,
                font: seq<byte>, pal: Palette)
    requires w >= 1 && h >= 1 && 2 * w * h <= yuyv.Length
    requires IsFont(font) && Ascii(str)
    modifies yuyv
    ensures yuyv[..] == Render(old(yuyv[..]), w, h, str, sx, sy, font, pal)
  {
    ghost var s := yuyv[..];
    PaintStart(s, w, h, str, sx, sy, font, pal);
    var n := |str|;
    var yy := 0;
    while yy < CharH
      invariant 0 <= yy <= CharH
      invariant Painted(yuyv[..], s, w, h, str, sx, sy, font, pal, yy, 0)
    {
      if yy + sy > h - 1 {
        break;
      }
      var xx := 0;
      while xx < n * CharW
        invariant 0 <= xx <= n * CharW
        invariant Painted(yuyv[..], s, w, h, str, sx, sy, font, pal, yy, xx)
      {
        if xx + sx > w - 1 {
          break;
        }
        var i0 := LumaIndex(w, xx + sx, yy + sy);
        PaintStep(yuyv[..], s, w, h, str, sx, sy, font, pal, yy, xx);
        ghost var t: seq<byte> := yuyv[..];
        var luma, chroma := Ink(font, pal, str, xx, yy, false), Ink(font, pal, str, xx, yy, true);
        yuyv[i0] := luma;
        yuyv[i0 + 1] := chroma;
        assert yuyv[..] == t[i0 := luma][i0 + 1 := chroma];
        xx := xx + 1;
      }
      PaintRowEnd(yuyv[..], s, w, h, str, sx, sy, font, pal, yy, xx);
      yy := yy + 1;
    }
    PaintEnd(yuyv[..], s, w, h, str, sx, sy, font, pal, yy);
  }
}
