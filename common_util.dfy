/**
 * common/util.c: image-format helpers shared by the newer tools — the
 * division-based YUYV to RGB24 converter, the growing JPEG chunk buffer and
 * the clipped text overlay.  util.c carries the same three channel
 * functions, `chunk`, `yuyv422_to_rgb24` and `yuyv_putstr` line for line,
 * so this module models both copies.
 */
module CommonUtil {
  import opened Bits
  import opened Yuv
  import Overlay
  import TgYuyv

  /** Red from luma and Cr: `(y * 32 + 45 * (cr - 128)) / 32`, clamped. */
  function YcrToR(y: byte, cr: byte): (r: byte)
    ensures Scales(RedSum(y, cr), r)
  {
    var v := y * 32 + 45 * (cr - 128);
    if v <= 0 then 0
    else if v >= 32 * 255 then 255
    else CDiv(v, 32)
  }

  /** Green from luma and both chroma samples. */
  function YcrcbToG(y: byte, cr: byte, cb: byte): (g: byte)
    ensures Scales(GreenSum(y, cb, cr), g)
  {
    var v := y * 32 - 11 * (cb - 128) - 23 * (cr - 128);
    if v <= 0 then 0
    else if v >= 32 * 255 then 255
    else CDiv(v, 32)
  }

  /** Blue from luma and Cb. */
  function YcbToB(y: byte, cb: byte): (b: byte)
    ensures Scales(BlueSum(y, cb), b)
  {
    var v := y * 32 + 57 * (cb - 128);
    if v <= 0 then 0
    else if v >= 32 * 255 then 255
    else CDiv(v, 32)
  }

  /** The division-based channels and the shift-based ones of lib/tg_yuyv.h
      give the same byte for every input. */
  lemma ChannelsAgree(y: byte, cb: byte, cr: byte)
    ensures YcrToR(y, cr) == TgYuyv.IntYcrToR(y, cr)
    ensures YcrcbToG(y, cr, cb) == TgYuyv.IntYcrcbToG(y, cr, cb)
    ensures YcbToB(y, cb) == TgYuyv.IntYcbToB(y, cb)
  {
    ScalesUnique(RedSum(y, cr), YcrToR(y, cr), TgYuyv.IntYcrToR(y, cr));
    ScalesUnique(GreenSum(y, cb, cr), YcrcbToG(y, cr, cb), TgYuyv.IntYcrcbToG(y, cr, cb));
    ScalesUnique(BlueSum(y, cb), YcbToB(y, cb), TgYuyv.IntYcbToB(y, cb));
  }

  /** One iteration of the `yuyv422_to_rgb24` loop, for macropixel k. */
  method ExpandMacropixel(rgb: array<byte>, yuyv: array<byte>, k: nat)
    requires rgb != yuyv && 6 * k + 6 <= rgb.Length && 4 * k + 4 <= yuyv.Length
    modifies rgb
    ensures MacropixelConverted(yuyv[..], rgb[..], k)
    ensures forall i :: 0 <= i < rgb.Length && !(6 * k <= i < 6 * k + 6) ==> rgb[i] == old(rgb[i])
  {
    var ii, jj := 6 * k, 4 * k;
    var y0, cb, y1, cr := yuyv[jj + 0], yuyv[jj + 1], yuyv[jj + 2], yuyv[jj + 3];
    var r0, g0, b0 := YcrToR(y0, cr), YcrcbToG(y0, cr, cb), YcbToB(y0, cb);
    var r1, g1, b1 := YcrToR(y1, cr), YcrcbToG(y1, cr, cb), YcbToB(y1, cb);
    rgb[ii + 0], rgb[ii + 1], rgb[ii + 2] := r0, g0, b0;
    rgb[ii + 3], rgb[ii + 4], rgb[ii + 5] := r1, g1, b1;
  }

  /** `yuyv422_to_rgb24`: converts ceil(npix / 2) macropixels, writing rgb
      only below 6 * ceil(npix / 2) and reading yuyv only below 4 * ceil(npix / 2). */
  method Yuyv422ToRgb24(rgb: array<byte>, yuyv: array<byte>, npix: nat)
    requires rgb != yuyv
    requires 6 * Pairs(npix) <= rgb.Length && 4 * Pairs(npix) <= yuyv.Length
    modifies rgb
    ensures Converted(yuyv[..], rgb[..], Pairs(npix))
    ensures forall i :: 6 * Pairs(npix) <= i < rgb.Length ==> rgb[i] == old(rgb[i])
  {
    var ii, jj := 0, 0;
    ghost var k := 0;
    while ii < 3 * npix
      invariant 0 <= k <= Pairs(npix) && ii == 6 * k && jj == 4 * k
      invariant Converted(yuyv[..], rgb[..], k)
      invariant forall i :: ii <= i < rgb.Length ==> rgb[i] == old(rgb[i])
    {
      ghost var before := rgb[..];
      ExpandMacropixel(rgb, yuyv, ii / 6);
      ConvertStep(yuyv[..], before, rgb[..], k);
      ii, jj, k := ii + 6, jj + 4, k + 1;
    }
  }

  /** The JPEG byte buffer `chunk` grows: buf holds len bytes. */
  class JBuf {
    var len: nat
    var buf: seq<byte>

    ghost predicate Valid()
      reads this
    {
      |buf| == len
    }

    /** An empty buffer, as `JBuf ctx = {0}` starts. */
    constructor ()
      ensures Valid() && buf == [] && len == 0
    {
      len, buf := 0, [];
    }

    /** `chunk`: appends the first size bytes of data and grows len by size. */
    method Chunk(data: seq<byte>, size: nat)
      requires Valid() && size <= |data|
      modifies this
      ensures Valid()
      ensures buf == old(buf) + data[..size] && len == old(len) + size
    {
      buf := buf + data[..size];
      len := len + size;
    }
  }

  /** `yuyv_putstr`: the clipped overlay with the argument order
      (str, x, y, yuyv, w, h).  Its font table and its four colour bytes come
      from util.h, which is not part of this model, so they are parameters. */
  method YuyvPutStr(str: string, x: nat, y: nat, yuyv: array<byte>, w: nat, h: nat,
                    font: seq<byte>, colours: Overlay.Palette)
    requires w >= 1 && h >= 1 && 2 * w * h <= yuyv.Length
    requires Overlay.IsFont(font) && Overlay.Ascii(str)
    modifies yuyv
    ensures yuyv[..] == Overlay.Render(old(yuyv[..]), w, h, str, x, y, font, colours)
  {
    Overlay.PutStr(yuyv, w, h, str, x, y, font, colours);
  }
}
