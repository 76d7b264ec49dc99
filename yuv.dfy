/**
 * The fixed-point YUYV 4:2:2 to RGB24 rule that every converter of the
 * repository implements.  Each channel is 32 times a BT.601-style estimate
 * (1.403 ~ 45/32, 0.3455 ~ 11/32, 0.7169 ~ 23/32, 1.7790 ~ 57/32), clamped at
 * 0 and 32 * 255 and then scaled down by 32.  There is no studio-range
 * expansion: luma is used as it is.
 *
 * A YUYV frame stores one macropixel per four bytes (Y0, Cb, Y1, Cr); it
 * expands into two RGB pixels that share the macropixel's chroma.
 */
module Yuv {
  import opened Bits

  /** 32 * R for luma y and red-difference chroma cr. */
  function RedSum(y: byte, cr: byte): int { 32 * y + 45 * (cr - 128) }

  /** 32 * G for luma y and both chroma samples. */
  function GreenSum(y: byte, cb: byte, cr: byte): int { 32 * y - 11 * (cb - 128) - 23 * (cr - 128) }

  /** 32 * B for luma y and blue-difference chroma cb. */
  function BlueSum(y: byte, cb: byte): int { 32 * y + 57 * (cb - 128) }

  /** r is the channel byte for the scaled sum v: 0 when v is not positive,
      255 from 32 * 255 on, and otherwise the integer part of v / 32. */
  predicate Scales(v: int, r: int)
  {
    && (v <= 0 ==> r == 0)
    && (v >= 32 * 255 ==> r == 255)
    && (0 < v < 32 * 255 ==> 32 * r <= v < 32 * r + 32)
  }

  /** At most one channel byte fits a scaled sum. */
  lemma ScalesUnique(v: int, r: int, r': int)
    requires Scales(v, r) && Scales(v, r')
    ensures r == r'
  {
  }

  /** Every byte value fits the sum 32 * r of neutral chroma. */
  lemma ScalesExact(r: byte)
    ensures Scales(32 * r, r)
  {
  }

  /** With neutral chroma (Cb = Cr = 128) all three sums are 32 * Y. */
  lemma NeutralChroma(y: byte)
    ensures RedSum(y, 128) == 32 * y && GreenSum(y, 128, 128) == 32 * y && BlueSum(y, 128) == 32 * y
    ensures Scales(RedSum(y, 128), y) && Scales(GreenSum(y, 128, 128), y) && Scales(BlueSum(y, 128), y)
  {
  }

  // ---------------------------------------------------------------------------
  // Whole frames

  /** The number of four-byte macropixels a converter loop visits for npix
      pixels: it runs while 6 * k < 3 * npix, which is the ceiling of npix / 2. */
  function Pairs(npix: int): (k: nat)
    ensures npix > 0 ==> 6 * k >= 3 * npix && 6 * (k - 1) < 3 * npix
    ensures npix <= 0 ==> k == 0
  {
    if npix <= 0 then 0 else (npix + 1) / 2
  }

  /** For an odd pixel count the loop writes three bytes beyond the 3 * npix
      bytes an RGB24 image of npix pixels occupies. */
  lemma OddOverrun(npix: int)
    requires npix > 0 && npix % 2 == 1
    ensures 6 * Pairs(npix) == 3 * npix + 3
  {
  }

  /** The six bytes rgb[6k..6k+6) hold the two pixels of macropixel k: both
      use its Cb (byte 4k+1) and Cr (byte 4k+3); the first takes the luma at
      4k, the second the luma at 4k+2. */
  predicate MacropixelConverted(yuyv: seq<byte>, rgb: seq<byte>, k: nat)
    requires 4 * k + 3 < |yuyv| && 6 * k + 6 <= |rgb|
  {
    var y0, cb, y1, cr := yuyv[4 * k], yuyv[4 * k + 1], yuyv[4 * k + 2], yuyv[4 * k + 3];
    && Scales(RedSum(y0, cr), rgb[6 * k]) && Scales(GreenSum(y0, cb, cr), rgb[6 * k + 1])
    && Scales(BlueSum(y0, cb), rgb[6 * k + 2]) && Scales(RedSum(y1, cr), rgb[6 * k + 3])
    && Scales(GreenSum(y1, cb, cr), rgb[6 * k + 4]) && Scales(BlueSum(y1, cb), rgb[6 * k + 5])
  }

  /** rgb holds the conversion of the first `pairs` macropixels of yuyv. */
  predicate Converted(yuyv: seq<byte>, rgb: seq<byte>, pairs: nat)
    requires 4 * pairs <= |yuyv| && 6 * pairs <= |rgb|
  {
    forall k :: 0 <= k < pairs ==> MacropixelConverted(yuyv, rgb, k)
  }

  /** The scaled sum behind byte j of the six RGB bytes of macropixel k:
      red, green, blue of the pixel with luma Y0 for j < 3, of the pixel with
      luma Y1 for the others, both with the macropixel's Cb and Cr. */
  function Sum(yuyv: seq<byte>, k: nat, j: nat): int
    requires 4 * k + 3 < |yuyv| && j < 6
  {
    var y := if j < 3 then yuyv[4 * k] else yuyv[4 * k + 2];
    var cb, cr := yuyv[4 * k + 1], yuyv[4 * k + 3];
    if j == 0 || j == 3 then RedSum(y, cr)
    else if j == 1 || j == 4 then GreenSum(y, cb, cr)
    else BlueSum(y, cb)
  }

  /** The scaled sum behind RGB byte i: byte i % 6 of macropixel i / 6. */
  function SumAt(yuyv: seq<byte>, i: nat): int
    requires 4 * (i / 6) + 3 < |yuyv|
  {
    Sum(yuyv, i / 6, i % 6)
  }

  /** Byte by byte, a conversion holds channel i % 3 of output pixel i / 3,
      computed from the macropixel i / 6 that pixel belongs to. */
  lemma ConvertedBytes(yuyv: seq<byte>, rgb: seq<byte>, pairs: nat, i: nat)
    requires 4 * pairs <= |yuyv| && 6 * pairs <= |rgb| && Converted(yuyv, rgb, pairs)
    requires i < 6 * pairs
    ensures 4 * (i / 6) + 3 < |yuyv|
    ensures Scales(SumAt(yuyv, i), rgb[i])
  {
    var k, j := i / 6, i % 6;
    assert i == 6 * k + j && k < pairs;
    assert MacropixelConverted(yuyv, rgb, k);
    ConvertedSum(yuyv, rgb, k, j);
  }

  lemma ConvertedSum(yuyv: seq<byte>, rgb: seq<byte>, k: nat, j: nat)
    requires 4 * k + 3 < |yuyv| && 6 * k + 6 <= |rgb| && j < 6
    requires MacropixelConverted(yuyv, rgb, k)
    ensures Scales(Sum(yuyv, k, j), rgb[6 * k + j])
  {
  }

  /** Converting one more macropixel after k converted ones, without touching
      the first 6k bytes, gives k + 1 converted macropixels. */
  lemma ConvertStep(yuyv: seq<byte>, rgb: seq<byte>, rgb': seq<byte>, k: nat)
    requires 4 * k + 3 < |yuyv| && 6 * k + 6 <= |rgb| == |rgb'|
    requires Converted(yuyv, rgb, k) && forall i :: 0 <= i < 6 * k ==> rgb'[i] == rgb[i]
    requires MacropixelConverted(yuyv, rgb', k)
    ensures Converted(yuyv, rgb', k + 1)
  {
    forall k' | 0 <= k' < k
      ensures MacropixelConverted(yuyv, rgb', k')
    {
      assert MacropixelConverted(yuyv, rgb, k');
    }
  }

  /** Two conversions of the same macropixels agree byte for byte. */
  lemma ConvertedUnique(yuyv: seq<byte>, rgb: seq<byte>, rgb': seq<byte>, pairs: nat)
    requires 4 * pairs <= |yuyv| && 6 * pairs <= |rgb| && 6 * pairs <= |rgb'|
    requires Converted(yuyv, rgb, pairs) && Converted(yuyv, rgb', pairs)
    ensures rgb[..6 * pairs] == rgb'[..6 * pairs]
  {
    forall i | 0 <= i < 6 * pairs
      ensures rgb[i] == rgb'[i]
    {
      ConvertedBytes(yuyv, rgb, pairs, i);
      ConvertedBytes(yuyv, rgb', pairs, i);
      ScalesUnique(SumAt(yuyv, i), rgb[i], rgb'[i]);
    }
  }
}
