/**
 * lib/tg_yuyv.h: a header-only YUYV toolkit with a shift-based fixed-point
 * RGB converter and an 8x8 bitmap-font text overlay.
 */
module TgYuyv {
  import opened Bits
  import opened Yuv
  import Overlay

  /** Text is drawn as full-luma pixels on a black, colourless background. */
  const TextY: byte := 0xFF
  const TextCrCb: byte := 0x7F
  const BackY: byte := 0x00
  const BackCrCb: byte := 0x7F

  const Palette := Overlay.Palette(TextY, TextCrCb, BackY, BackCrCb)

  /** Red from luma and Cr: `((y << 5) + 45 * (cr - 128)) >> 5`, clamped. */
  function IntYcrToR(y: byte, cr: byte): (r: byte)
    ensures Scales(RedSum(y, cr), r)
  {
    ShlIsMul(y, 5);
    var v := Shl(y, 5) + 45 * (cr - 128);
    if v <= 0 then 0
    else if v >= 32 * 255 then 255
    else ShrIsDiv(v, 5); Shr(v, 5)
  }

  /** Green from luma and both chroma samples. */
  function IntYcrcbToG(y: byte, cr: byte, cb: byte): (g: byte)
    ensures Scales(GreenSum(y, cb, cr), g)
  {
    ShlIsMul(y, 5);
    var v := Shl(y, 5) - 11 * (cb - 128) - 23 * (cr - 128);
    if v <= 0 then 0
    else if v >= 32 * 255 then 255
    else ShrIsDiv(v, 5); Shr(v, 5)
  }

  /** Blue from luma and Cb. */
  function IntYcbToB(y: byte, cb: byte): (b: byte)
    ensures Scales(BlueSum(y, cb), b)
  {
    ShlIsMul(y, 5);
    var v := Shl(y, 5) + 57 * (cb - 128);
    if v <= 0 then 0
    else if v >= 32 * 255 then 255
    else ShrIsDiv(v, 5); Shr(v, 5)
  }

  /** With neutral chroma every channel reproduces the luma exactly, so
      luma 235 gives 235, not 255. */
  lemma GreyIsLuma(y: byte)
    ensures IntYcrToR(y, 128) == y && IntYcrcbToG(y, 128, 128) == y && IntYcbToB(y, 128) == y
  {
    NeutralChroma(y);
    ScalesUnique(RedSum(y, 128), IntYcrToR(y, 128), y);
    ScalesUnique(GreenSum(y, 128, 128), IntYcrcbToG(y, 128, 128), y);
    ScalesUnique(BlueSum(y, 128), IntYcbToB(y, 128), y);
  }

  /** One iteration of the `yuyv_to_rgb` loop: the two pixels of macropixel
      k (bytes jj = 4k onwards of yuyv) go to rgb[ii..ii+6) with ii = 6k, the
      first with the first luma, the second with the second. */
  method ExpandMacropixel(rgb: array<byte>, yuyv: array<byte>, k: nat)
    requires rgb != yuyv && 6 * k + 6 <= rgb.Length && 4 * k + 4 <= yuyv.Length
    modifies rgb
    ensures MacropixelConverted(yuyv[..], rgb[..], k)
    ensures forall i :: 0 <= i < rgb.Length && !(6 * k <= i < 6 * k + 6) ==> rgb[i] == old(rgb[i])
  {
    var ii, jj := 6 * k, 4 * k;
    var y0, cb, y1, cr := yuyv[jj + 0], yuyv[jj + 1], yuyv[jj + 2], yuyv[jj + 3];
    var r0, g0, b0 := IntYcrToR(y0, cr), IntYcrcbToG(y0, cr, cb), IntYcbToB(y0, cb);
    var r1, g1, b1 := IntYcrToR(y1, cr), IntYcrcbToG(y1, cr, cb), IntYcbToB(y1, cb);
    rgb[ii + 0], rgb[ii + 1], rgb[ii + 2] := r0, g0, b0;
    rgb[ii + 3], rgb[ii + 4], rgb[ii + 5] := r1, g1, b1;
  }

  /** `yuyv_to_rgb`: expands ceil(npix / 2) macropixels of yuyv into rgb, six
      bytes per macropixel; the bytes of rgb after them are left alone. */
  method YuyvToRgb(rgb: array<byte>, yuyv: array<byte>, npix: int)
    requires rgb != yuyv
    requires 6 * Pairs(npix) <= rgb.Length && 4 * Pairs(npix) <= yuyv.Length
    modifies rgb
    ensures Converted(yuyv[..], rgb[..], Pairs(npix))
    ensures forall i :: 6 * Pairs(npix) <= i < rgb.Length ==> rgb[i] == old(rgb[i])
  {
    var ii, jj := 0, 0;
    ghost var k := 0;
    while ii < npix * 3
      invariant 0 <= k <= Pairs(npix) && ii == 6 * k && jj == 4 * k
      invariant Converted(yuyv[..], rgb[..], k)
      invariant forall i :: ii <= i < rgb.Length ==> rgb[i] == old(rgb[i])
    {
      ghost var before := rgb[..];
      ExpandMacropixel(rgb, yuyv, ii / 6);
      ConvertStep(yuyv[..], before, rgb[..], k);
      ii, jj, k := ii + 6, jj + 4, k + 1;
    }
  }

  /** The 8x8 font for characters 0x00 to 0x7F, eight row bytes per glyph. */
  const Font: seq<byte> := [
    0x00, 0x00, 0x00, 0x00, 0x00, 0x00, 0x00, 0x00,  // 0x00
    0x00, 0x00, 0x00, 0x00, 0x00, 0x00, 0x00, 0x00,  // 0x01
    0x00, 0x00, 0x00, 0x00, 0x00, 0x00, 0x00, 0x00,  // 0x02
    0x00, 0x00, 0x00, 0x00, 0x00, 0x00, 0x00, 0x00,  // 0x03
    0x00, 0x00, 0x00, 0x00, 0x00, 0x00, 0x00, 0x00,  // 0x04
    0x00, 0x00, 0x00, 0x00, 0x00, 0x00, 0x00, 0x00,  // 0x05
    0x00, 0x00, 0x00, 0x00, 0x00, 0x00, 0x00, 0x00,  // 0x06
    0x00, 0x00, 0x00, 0x00, 0x00, 0x00, 0x00, 0x00,  // 0x07
    0x00, 0x00, 0x00, 0x00, 0x00, 0x00, 0x00, 0x00,  // 0x08
    0x00, 0x00, 0x00, 0x00, 0x00, 0x00, 0x00, 0x00,  // 0x09
    0x00, 0x00, 0x00, 0x00, 0x00, 0x00, 0x00, 0x00,  // 0x0A
    0x00, 0x00, 0x00, 0x00, 0x00, 0x00, 0x00, 0x00,  // 0x0B
    0x00, 0x00, 0x00, 0x00, 0x00, 0x00, 0x00, 0x00,  // 0x0C
    0x00, 0x00, 0x00, 0x00, 0x00, 0x00, 0x00, 0x00,  // 0x0D
    0x00, 0x00, 0x00, 0x00, 0x00, 0x00, 0x00, 0x00,  // 0x0E
    0x00, 0x00, 0x00, 0x00, 0x00, 0x00, 0x00, 0x00,  // 0x0F
    0x00, 0x00, 0x00, 0x00, 0x00, 0x00, 0x00, 0x00,  // 0x10
    0x00, 0x00, 0x00, 0x00, 0x00, 0x00, 0x00, 0x00,  // 0x11
    0x00, 0x00, 0x00, 0x00, 0x00, 0x00, 0x00, 0x00,  // 0x12
    0x00, 0x00, 0x00, 0x00, 0x00, 0x00, 0x00, 0x00,  // 0x13
    0x00, 0x00, 0x00, 0x00, 0x00, 0x00, 0x00, 0x00,  // 0x14
    0x00, 0x00, 0x00, 0x00, 0x00, 0x00, 0x00, 0x00,  // 0x15
    0x00, 0x00, 0x00, 0x00, 0x00, 0x00, 0x00, 0x00,  // 0x16
    0x00, 0x00, 0x00, 0x00, 0x00, 0x00, 0x00, 0x00,  // 0x17
    0x00, 0x00, 0x00, 0x00, 0x00, 0x00, 0x00, 0x00,  // 0x18
    0x00, 0x00, 0x00, 0x00, 0x00, 0x00, 0x00, 0x00,  // 0x19
    0x00, 0x00, 0x00, 0x00, 0x00, 0x00, 0x00, 0x00,  // 0x1A
    0x00, 0x00, 0x00, 0x00, 0x00, 0x00, 0x00, 0x00,  // 0x1B
    0x00, 0x00, 0x00, 0x00, 0x00, 0x00, 0x00, 0x00,  // 0x1C
    0x00, 0x00, 0x00, 0x00, 0x00, 0x00, 0x00, 0x00,  // 0x1D
    0x00, 0x00, 0x00, 0x00, 0x00, 0x00, 0x00, 0x00,  // 0x1E
    0x00, 0x00, 0x00, 0x00, 0x00, 0x00, 0x00, 0x00,  // 0x1F
    0x00, 0x00, 0x00, 0x00, 0x00, 0x00, 0x00, 0x00,  // 0x20
    0x18, 0x3C, 0x3C, 0x18, 0x18, 0x00, 0x18, 0x00,  // 0x21
    0x36, 0x36, 0x00, 0x00, 0x00, 0x00, 0x00, 0x00,  // 0x22
    0x36, 0x36, 0x7F, 0x36, 0x7F, 0x36, 0x36, 0x00,  // 0x23
    0x0C, 0x3E, 0x03, 0x1E, 0x30, 0x1F, 0x0C, 0x00,  // 0x24
    0x00, 0x63, 0x33, 0x18, 0x0C, 0x66, 0x63, 0x00,  // 0x25
    0x1C, 0x36, 0x1C, 0x6E, 0x3B, 0x33, 0x6E, 0x00,  // 0x26
    0x06, 0x06, 0x03, 0x00, 0x00, 0x00, 0x00, 0x00,  // 0x27
    0x18, 0x0C, 0x06, 0x06, 0x06, 0x0C, 0x18, 0x00,  // 0x28
    0x06, 0x0C, 0x18, 0x18, 0x18, 0x0C, 0x06, 0x00,  // 0x29
    0x00, 0x66, 0x3C, 0xFF, 0x3C, 0x66, 0x00, 0x00,  // 0x2A
    0x00, 0x0C, 0x0C, 0x3F, 0x0C, 0x0C, 0x00, 0x00,  // 0x2B
    0x00, 0x00, 0x00, 0x00, 0x00, 0x0C, 0x0C, 0x06,  // 0x2C
    0x00, 0x00, 0x00, 0x3F, 0x00, 0x00, 0x00, 0x00,  // 0x2D
    0x00, 0x00, 0x00, 0x00, 0x00, 0x0C, 0x0C, 0x00,  // 0x2E
    0x60, 0x30, 0x18, 0x0C, 0x06, 0x03, 0x01, 0x00,  // 0x2F
    0x3E, 0x63, 0x73, 0x7B, 0x6F, 0x67, 0x3E, 0x00,  // 0x30
    0x0C, 0x0E, 0x0C, 0x0C, 0x0C, 0x0C, 0x3F, 0x00,  // 0x31
    0x1E, 0x33, 0x30, 0x1C, 0x06, 0x33, 0x3F, 0x00,  // 0x32
    0x1E, 0x33, 0x30, 0x1C, 0x30, 0x33, 0x1E, 0x00,  // 0x33
    0x38, 0x3C, 0x36, 0x33, 0x7F, 0x30, 0x78, 0x00,  // 0x34
    0x3F, 0x03, 0x1F, 0x30, 0x30, 0x33, 0x1E, 0x00,  // 0x35
    0x1C, 0x06, 0x03, 0x1F, 0x33, 0x33, 0x1E, 0x00,  // 0x36
    0x3F, 0x33, 0x30, 0x18, 0x0C, 0x0C, 0x0C, 0x00,  // 0x37
    0x1E, 0x33, 0x33, 0x1E, 0x33, 0x33, 0x1E, 0x00,  // 0x38
    0x1E, 0x33, 0x33, 0x3E, 0x30, 0x18, 0x0E, 0x00,  // 0x39
    0x00, 0x0C, 0x0C, 0x00, 0x00, 0x0C, 0x0C, 0x00,  // 0x3A
    0x00, 0x0C, 0x0C, 0x00, 0x00, 0x0C, 0x0C, 0x06,  // 0x3B
    0x18, 0x0C, 0x06, 0x03, 0x06, 0x0C, 0x18, 0x00,  // 0x3C
    0x00, 0x00, 0x3F, 0x00, 0x00, 0x3F, 0x00, 0x00,  // 0x3D
    0x06, 0x0C, 0x18, 0x30, 0x18, 0x0C, 0x06, 0x00,  // 0x3E
    0x1E, 0x33, 0x30, 0x18, 0x0C, 0x00, 0x0C, 0x00,  // 0x3F
    0x3E, 0x63, 0x7B, 0x7B, 0x7B, 0x03, 0x1E, 0x00,  // 0x40
    0x0C, 0x1E, 0x33, 0x33, 0x3F, 0x33, 0x33, 0x00,  // 0x41
    0x3F, 0x66, 0x66, 0x3E, 0x66, 0x66, 0x3F, 0x00,  // 0x42
    0x3C, 0x66, 0x03, 0x03, 0x03, 0x66, 0x3C, 0x00,  // 0x43
    0x1F, 0x36, 0x66, 0x66, 0x66, 0x36, 0x1F, 0x00,  // 0x44
    0x7F, 0x46, 0x16, 0x1E, 0x16, 0x46, 0x7F, 0x00,  // 0x45
    0x7F, 0x46, 0x16, 0x1E, 0x16, 0x06, 0x0F, 0x00,  // 0x46
    0x3C, 0x66, 0x03, 0x03, 0x73, 0x66, 0x7C, 0x00,  // 0x47
    0x33, 0x33, 0x33, 0x3F, 0x33, 0x33, 0x33, 0x00,  // 0x48
    0x1E, 0x0C, 0x0C, 0x0C, 0x0C, 0x0C, 0x1E, 0x00,  // 0x49
    0x78, 0x30, 0x30, 0x30, 0x33, 0x33, 0x1E, 0x00,  // 0x4A
    0x67, 0x66, 0x36, 0x1E, 0x36, 0x66, 0x67, 0x00,  // 0x4B
    0x0F, 0x06, 0x06, 0x06, 0x46, 0x66, 0x7F, 0x00,  // 0x4C
    0x63, 0x77, 0x7F, 0x7F, 0x6B, 0x63, 0x63, 0x00,  // 0x4D
    0x63, 0x67, 0x6F, 0x7B, 0x73, 0x63, 0x63, 0x00,  // 0x4E
    0x1C, 0x36, 0x63, 0x63, 0x63, 0x36, 0x1C, 0x00,  // 0x4F
    0x3F, 0x66, 0x66, 0x3E, 0x06, 0x06, 0x0F, 0x00,  // 0x50
    0x1E, 0x33, 0x33, 0x33, 0x3B, 0x1E, 0x38, 0x00,  // 0x51
    0x3F, 0x66, 0x66, 0x3E, 0x36, 0x66, 0x67, 0x00,  // 0x52
    0x1E, 0x33, 0x07, 0x0E, 0x38, 0x33, 0x1E, 0x00,  // 0x53
    0x3F, 0x2D, 0x0C, 0x0C, 0x0C, 0x0C, 0x1E, 0x00,  // 0x54
    0x33, 0x33, 0x33, 0x33, 0x33, 0x33, 0x3F, 0x00,  // 0x55
    0x33, 0x33, 0x33, 0x33, 0x33, 0x1E, 0x0C, 0x00,  // 0x56
    0x63, 0x63, 0x63, 0x6B, 0x7F, 0x77, 0x63, 0x00,  // 0x57
    0x63, 0x63, 0x36, 0x1C, 0x1C, 0x36, 0x63, 0x00,  // 0x58
    0x33, 0x33, 0x33, 0x1E, 0x0C, 0x0C, 0x1E, 0x00,  // 0x59
    0x7F, 0x63, 0x31, 0x18, 0x4C, 0x66, 0x7F, 0x00,  // 0x5A
    0x1E, 0x06, 0x06, 0x06, 0x06, 0x06, 0x1E, 0x00,  // 0x5B
    0x03, 0x06, 0x0C, 0x18, 0x30, 0x60, 0x40, 0x00,  // 0x5C
    0x1E, 0x18, 0x18, 0x18, 0x18, 0x18, 0x1E, 0x00,  // 0x5D
    0x08, 0x1C, 0x36, 0x63, 0x00, 0x00, 0x00, 0x00,  // 0x5E
    0x00, 0x00, 0x00, 0x00, 0x00, 0x00, 0x00, 0xFF,  // 0x5F
    0x0C, 0x0C, 0x18, 0x00, 0x00, 0x00, 0x00, 0x00,  // 0x60
    0x00, 0x00, 0x1E, 0x30, 0x3E, 0x33, 0x6E, 0x00,  // 0x61
    0x07, 0x06, 0x06, 0x3E, 0x66, 0x66, 0x3B, 0x00,  // 0x62
    0x00, 0x00, 0x1E, 0x33, 0x03, 0x33, 0x1E, 0x00,  // 0x63
    0x38, 0x30, 0x30, 0x3E, 0x33, 0x33, 0x6E, 0x00,  // 0x64
    0x00, 0x00, 0x1E, 0x33, 0x3F, 0x03, 0x1E, 0x00,  // 0x65
    0x1C, 0x36, 0x06, 0x0F, 0x06, 0x06, 0x0F, 0x00,  // 0x66
    0x00, 0x00, 0x6E, 0x33, 0x33, 0x3E, 0x30, 0x1F,  // 0x67
    0x07, 0x06, 0x36, 0x6E, 0x66, 0x66, 0x67, 0x00,  // 0x68
    0x0C, 0x00, 0x0E, 0x0C, 0x0C, 0x0C, 0x1E, 0x00,  // 0x69
    0x30, 0x00, 0x30, 0x30, 0x30, 0x33, 0x33, 0x1E,  // 0x6A
    0x07, 0x06, 0x66, 0x36, 0x1E, 0x36, 0x67, 0x00,  // 0x6B
    0x0E, 0x0C, 0x0C, 0x0C, 0x0C, 0x0C, 0x1E, 0x00,  // 0x6C
    0x00, 0x00, 0x33, 0x7F, 0x7F, 0x6B, 0x63, 0x00,  // 0x6D
    0x00, 0x00, 0x1F, 0x33, 0x33, 0x33, 0x33, 0x00,  // 0x6E
    0x00, 0x00, 0x1E, 0x33, 0x33, 0x33, 0x1E, 0x00,  // 0x6F
    0x00, 0x00, 0x3B, 0x66, 0x66, 0x3E, 0x06, 0x0F,  // 0x70
    0x00, 0x00, 0x6E, 0x33, 0x33, 0x3E, 0x30, 0x78,  // 0x71
    0x00, 0x00, 0x3B, 0x6E, 0x66, 0x06, 0x0F, 0x00,  // 0x72
    0x00, 0x00, 0x3E, 0x03, 0x1E, 0x30, 0x1F, 0x00,  // 0x73
    0x08, 0x0C, 0x3E, 0x0C, 0x0C, 0x2C, 0x18, 0x00,  // 0x74
    0x00, 0x00, 0x33, 0x33, 0x33, 0x33, 0x6E, 0x00,  // 0x75
    0x00, 0x00, 0x33, 0x33, 0x33, 0x1E, 0x0C, 0x00,  // 0x76
    0x00, 0x00, 0x63, 0x6B, 0x7F, 0x7F, 0x36, 0x00,  // 0x77
    0x00, 0x00, 0x63, 0x36, 0x1C, 0x36, 0x63, 0x00,  // 0x78
    0x00, 0x00, 0x33, 0x33, 0x33, 0x3E, 0x30, 0x1F,  // 0x79
    0x00, 0x00, 0x3F, 0x19, 0x0C, 0x26, 0x3F, 0x00,  // 0x7A
    0x38, 0x0C, 0x0C, 0x07, 0x0C, 0x0C, 0x38, 0x00,  // 0x7B
    0x18, 0x18, 0x18, 0x00, 0x18, 0x18, 0x18, 0x00,  // 0x7C
    0x07, 0x0C, 0x0C, 0x38, 0x0C, 0x0C, 0x07, 0x00,  // 0x7D
    0x6E, 0x3B, 0x00, 0x00, 0x00, 0x00, 0x00, 0x00,  // 0x7E
    0x00, 0x00, 0x00, 0x00, 0x00, 0x00, 0x00, 0x00  // 0x7F
  ]

  /** `tg_yuyv_putstr`: draws str at (x, y) on the w-by-h frame yuyv. */
  method PutStr(yuyv: array<byte>, w: nat, h: nat, str: string, x: nat, y: nat)
    requires w >= 1 && h >= 1 && 2 * w * h <= yuyv.Length && Overlay.Ascii(str)
    modifies yuyv
    ensures yuyv[..] == Overlay.Render(old(yuyv[..]), w, h, str, x, y, Font, Palette)
  {
    Overlay.PutStr(yuyv, w, h, str, x, y, Font, Palette);
  }

  /** Inside the clipped strip the luma byte is 0xFF exactly on the glyph's set
      bits and 0x00 elsewhere, and the chroma byte is always 0x7F; outside
      it, the pixel keeps both bytes. */
  lemma TextColours(s: seq<byte>, w: nat, h: nat, str: string, sx: nat, sy: nat, x: nat, y: nat)
    requires w >= 1 && Overlay.Ascii(str) && 2 * w * h <= |s| && x < w && y < h
    ensures Overlay.LumaIndex(w, x, y) + 1 < |s|
    ensures var t, i := Overlay.Render(s, w, h, str, sx, sy, Font, Palette), Overlay.LumaIndex(w, x, y);
      if Overlay.InText(w, h, |str|, sx, sy, x, y) then
        && t[i] == (if Overlay.Lit(Font, str, x - sx, y - sy) then 0xFF else 0x00)
        && t[i + 1] == 0x7F
      else t[i] == s[i] && t[i + 1] == s[i + 1]
  {
    Overlay.RenderAt(s, w, h, str, sx, sy, Font, Palette, x, y);
  }
}
