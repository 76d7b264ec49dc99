/**
 * util.c: the ImgBlk re-layout of a YUYV frame.  `yuyv2imgblk` visits the
 * frame's macropixels tile by tile (tiles of 80 macropixels by 80 rows, left
 * to right, then top to bottom; inside a tile row by row), quantizes each
 * sample and stores the results semi-planar: Y0 and Y1 interleaved in the
 * first half, Cb in the third quarter, Cr in the last quarter.
 * `imgblk2yuyv` walks the same tiles and puts the samples back.
 *
 * The rest of util.c (the channel functions, `chunk`, `yuyv422_to_rgb24`,
 * `yuyv_putstr`) is the same code as common/util.c and is modelled there.
 */
module Util {
  import opened Bits

  /** `IMGBLK_SIDE`: a tile is 80 macropixels wide and 80 rows high. */
  const Side: nat := 80
  /** Macropixels per tile. */
  const Area: nat := Side * Side

  // ---------------------------------------------------------------------------
  // The band quantizer

  /** Clears the three low bits of samples farther than `coarse` from 0x80,
      the two low bits of samples farther than `fine`, and keeps the others:
      `abs(0x80 - v) > coarse ? v & 0xF8 : abs(0x80 - v) > fine ? v & 0xFC : v`. */
  function Quantize(v: byte, coarse: nat, fine: nat): (q: byte)
    ensures q <= v
    ensures Abs(128 - v) > coarse ==> q == v - v % 8
    ensures Abs(128 - v) <= coarse && Abs(128 - v) > fine ==> q == v - v % 4
    ensures Abs(128 - v) <= coarse && Abs(128 - v) <= fine ==> q == v
  {
    if Abs(0x80 - v) > coarse then AndF8(v); And(v, 0xF8)
    else if Abs(0x80 - v) > fine then AndFC(v); And(v, 0xFC)
    else v
  }

  /** Luma thresholds 0x20 and 0x10: samples within 0x10 of 0x80 are kept,
      the others lose at most their three low bits. */
  function QuantizeLuma(v: byte): (q: byte)
    ensures q <= v && v - q < 8
    ensures 0x70 <= v <= 0x90 ==> q == v
    ensures (v < 0x60 || v > 0xA0) ==> q % 8 == 0
  {
    Quantize(v, 0x20, 0x10)
  }

  /** Chroma thresholds 0x10 and 0x08: samples within 0x08 of 0x80 are
      kept, the others lose at most their three low bits. */
  function QuantizeChroma(v: byte): (q: byte)
    ensures q <= v && v - q < 8
    ensures 0x78 <= v <= 0x88 ==> q == v
    ensures (v < 0x70 || v > 0x90) ==> q % 8 == 0
  {
    Quantize(v, 0x10, 0x08)
  }

  /** The band rule in plain arithmetic. */
  function Banded(v: byte, coarse: nat, fine: nat): byte
  {
    if Abs(128 - v) > coarse then v - v % 8
    else if Abs(128 - v) > fine then v - v % 4
    else v
  }

  lemma QuantizeIsBanded(v: byte, coarse: nat, fine: nat)
    ensures Quantize(v, coarse, fine) == Banded(v, coarse, fine)
  {
  }

  lemma BandedLumaIdempotent(v: byte)
    ensures Banded(Banded(v, 0x20, 0x10), 0x20, 0x10) == Banded(v, 0x20, 0x10)
  {
  }

  lemma BandedChromaIdempotent(v: byte)
    ensures Banded(Banded(v, 0x10, 0x08), 0x10, 0x08) == Banded(v, 0x10, 0x08)
  {
  }

  /** Quantizing a quantized sample changes nothing, for luma and chroma
      alike: the band edges 0x80 - 0x20 and 0x80 - 0x10 are multiples of 8
      and 4, so a cleared sample never falls into a coarser band. */
  lemma QuantizeIdempotent(v: byte)
    ensures QuantizeLuma(QuantizeLuma(v)) == QuantizeLuma(v)
    ensures QuantizeChroma(QuantizeChroma(v)) == QuantizeChroma(v)
  {
    QuantizeIsBanded(v, 0x20, 0x10);
    QuantizeIsBanded(v, 0x10, 0x08);
    QuantizeIsBanded(QuantizeLuma(v), 0x20, 0x10);
    QuantizeIsBanded(QuantizeChroma(v), 0x10, 0x08);
    BandedLumaIdempotent(v);
    BandedChromaIdempotent(v);
  }

  /** Samples decide their quantization by position: luma at even offsets of
      a YUYV frame, chroma at odd ones. */
  function QuantizeFrame(f: seq<byte>): (q: seq<byte>)
    ensures |q| == |f|
  {
    seq(|f|, i requires 0 <= i < |f| => if i % 2 == 0 then QuantizeLuma(f[i]) else QuantizeChroma(f[i]))
  }

  // ---------------------------------------------------------------------------
  // Tile geometry

  /** Frames the traversal covers exactly: xres / 2 macropixels per row, a
      multiple of the tile width, and a whole number of tile rows, with all
      byte offsets representable in 32 bits. */
  predicate Tileable(xres: nat, yres: nat)
  {
    xres % 160 == 0 && yres % 80 == 0 && 2 * xres * yres < 0x1_0000_0000
  }

  /** The macropixel (counted row-major in a frame W macropixels wide) that
      traversal step k visits.  A band of 80 rows is 80 W steps and 80 W
      macropixels, so later bands repeat the first one 80 W further on. */
  function Pos(W: nat, k: nat): nat
    requires W > 0
    decreases k
  {
    if k < 80 * W then PosInBand(W, k) else Pos(W, k - 80 * W) + 80 * W
  }

  /** Inside a band: a tile is 6400 steps of 80 columns, 80 to a row; the
      first row of tile t starts at macropixel 80 t, each further row is W
      macropixels further on. */
  function PosInBand(W: nat, k: nat): nat
    decreases k
  {
    if k % 6400 < 80 then 80 * (k / 6400) + k % 80 else PosInBand(W, k - 80) + W
  }

  /** The traversal step that visits macropixel p: the inverse of Pos. */
  function Index(W: nat, p: nat): nat
    requires W > 0
    decreases p
  {
    if p < 80 * W then IndexInBand(W, p) else Index(W, p - 80 * W) + 80 * W
  }

  /** Inside a band: column x of the first row is column x % 80 of tile
      x / 80; each further row is 80 steps further on. */
  function IndexInBand(W: nat, p: nat): nat
    requires W > 0
    decreases p
  {
    if p < W then 6400 * (p / 80) + p % 80 else IndexInBand(W, p - W) + 80
  }

  /** The macropixel of tile coordinates as the source adds it up: the
      band's first macropixel, the tile's column, the row's offset. */
  lemma PixelSplit(W: nat, band: nat, tile: nat, row: nat, col: nat)
    ensures PixelOf(W, band, tile, row, col) == band * (80 * W) + 80 * tile + row * W + col
  {
    assert (80 * band + row) * W == band * (80 * W) + row * W;
  }

  /** Step and macropixel of tile coordinates (band, tile, row, col). */
  function StepOf(W: nat, band: nat, tile: nat, row: nat, col: nat): nat
  {
    band * (80 * W) + tile * 6400 + row * 80 + col
  }

  function PixelOf(W: nat, band: nat, tile: nat, row: nat, col: nat): nat
  {
    (80 * band + row) * W + 80 * tile + col
  }

  predicate InTile(W: nat, tile: nat, row: nat, col: nat)
  {
    80 * tile + col < W && row < 80 && col < 80
  }

  /** A step offset regrouped by tile: W = 80 T macropixels per row make
      80 W = 6400 T steps per band. */
  lemma StepNesting(W: nat, T: nat, band: nat, tile: nat, row: nat, col: nat)
    requires W == 80 * T
    ensures StepOf(W, band, tile, row, col) == 80 * (80 * (T * band + tile) + row) + col
  {
    assert band * (80 * W) == 80 * (band * W);
    assert band * W == 80 * (T * band);
  }

  lemma {:induction false} PosInBandRows(W: nat, tile: nat, row: nat, col: nat)
    requires col < 80 && row < 80
    ensures PosInBand(W, tile * 6400 + row * 80 + col) == row * W + 80 * tile + col
    decreases row
  {
    var k := tile * 6400 + row * 80 + col;
    DivUnique(k, 6400, tile, row * 80 + col);
    if row == 0 {
      DivUnique(k, 80, 80 * tile, col);
      assert PosInBand(W, k) == 80 * tile + col;
    } else {
      assert PosInBand(W, k) == PosInBand(W, k - 80) + W;
      assert k - 80 == tile * 6400 + (row - 1) * 80 + col;
      PosInBandRows(W, tile, row - 1, col);
      MulSucc(row - 1, W);
    }
  }

  /** Pos maps the step of tile coordinates to the macropixel of the same
      coordinates. */
  lemma {:induction false} PosOfStep(W: nat, band: nat, tile: nat, row: nat, col: nat)
    requires W > 0 && W % 80 == 0 && InTile(W, tile, row, col)
    ensures Pos(W, StepOf(W, band, tile, row, col)) == PixelOf(W, band, tile, row, col)
    decreases band
  {
    if band == 0 {
      assert tile < W / 80;
      PosInBandRows(W, tile, row, col);
    } else {
      var k, k' := StepOf(W, band, tile, row, col), StepOf(W, band - 1, tile, row, col);
      MulSucc(band - 1, 80 * W);
      assert k == k' + 80 * W;
      assert Pos(W, k) == Pos(W, k') + 80 * W;
      PosOfStep(W, band - 1, tile, row, col);
      assert 80 * (band - 1) + row + 80 == 80 * band + row;
      MulSucc80(80 * (band - 1) + row, W);
    }
  }

  /** 80 more rows of W. */
  lemma MulSucc80(a: int, W: int)
    ensures (a + 80) * W == a * W + 80 * W
  {
  }

  lemma {:induction false} IndexInBandRows(W: nat, tile: nat, row: nat, col: nat)
    requires W > 0 && InTile(W, tile, row, col)
    ensures IndexInBand(W, row * W + 80 * tile + col) == tile * 6400 + row * 80 + col
    decreases row
  {
    if row == 0 {
      DivUnique(80 * tile + col, 80, tile, col);
    } else {
      MulSucc(row - 1, W);
      var p := row * W + 80 * tile + col;
      assert p >= W && p - W == (row - 1) * W + 80 * tile + col;
      assert IndexInBand(W, p) == IndexInBand(W, p - W) + 80;
      IndexInBandRows(W, tile, row - 1, col);
    }
  }

  /** Index maps the macropixel of tile coordinates to the step of the same
      coordinates. */
  lemma {:induction false} IndexOfPixel(W: nat, band: nat, tile: nat, row: nat, col: nat)
    requires W > 0 && W % 80 == 0 && InTile(W, tile, row, col)
    ensures Index(W, PixelOf(W, band, tile, row, col)) == StepOf(W, band, tile, row, col)
    decreases band
  {
    var p := PixelOf(W, band, tile, row, col);
    if band == 0 {
      MulOrder(W, 80, row + 1);
      MulSucc(row, W);
      assert p < 80 * W;
      IndexInBandRows(W, tile, row, col);
    } else {
      var p' := PixelOf(W, band - 1, tile, row, col);
      assert 80 * (band - 1) + row + 80 == 80 * band + row;
      MulSucc80(80 * (band - 1) + row, W);
      assert p == p' + 80 * W;
      assert Index(W, p) == Index(W, p') + 80 * W;
      IndexOfPixel(W, band - 1, tile, row, col);
      MulSucc(band - 1, 80 * W);
    }
  }

  /** Quotient and remainder, without the division operators in the
      caller's context. */
  lemma Split(a: nat, d: nat) returns (q: nat, r: nat)
    requires d > 0
    ensures a == d * q + r && r < d
  {
    q, r := a / d, a % d;
  }

  /** Every step splits into tile coordinates. */
  lemma StepCoordinates(W: nat, k: nat) returns (band: nat, tile: nat, row: nat, col: nat)
    requires W > 0 && W % 80 == 0
    ensures InTile(W, tile, row, col) && k == StepOf(W, band, tile, row, col)
  {
    var T := Tiles(W);
    var q1, q2;
    q1, col := Split(k, 80);
    q2, row := Split(q1, 80);
    band, tile := Split(q2, T);
    MulOrder(80, T - 1, tile);
    StepNesting(W, T, band, tile, row, col);
  }

  /** The number of tiles across a row. */
  lemma Tiles(W: nat) returns (T: nat)
    requires W > 0 && W % 80 == 0
    ensures W == 80 * T && T > 0
  {
    T := W / 80;
  }

  /** Every macropixel splits into tile coordinates. */
  lemma PixelCoordinates(W: nat, p: nat) returns (band: nat, tile: nat, row: nat, col: nat)
    requires W > 0 && W % 80 == 0
    ensures InTile(W, tile, row, col) && p == PixelOf(W, band, tile, row, col)
    ensures 80 * band + row == p / W
  {
    var y, x := Split(p, W);
    band, row := Split(y, 80);
    tile, col := Split(x, 80);
    DivUnique(p, W, y, x);
  }

  /** A band of tiles holds 80 W steps, and H / 80 bands make up the frame. */
  lemma StepBound(W: nat, H: nat, band: nat, tile: nat, row: nat, col: nat)
    requires W > 0 && W % 80 == 0 && H % 80 == 0 && InTile(W, tile, row, col)
    ensures StepOf(W, band, tile, row, col) < W * H <==> band < H / 80
  {
    var B := H / 80;
    var m := tile * 6400 + row * 80 + col;
    assert m < 80 * W by {
      assert tile < W / 80;
    }
    assert W * H == (80 * W) * B;
    if band < B {
      MulStep(80 * W, B, band);
    } else {
      MulStep(80 * W, band + 1, B);
    }
  }

  lemma PixelBound(W: nat, H: nat, band: nat, tile: nat, row: nat, col: nat)
    requires W > 0 && W % 80 == 0 && H % 80 == 0 && InTile(W, tile, row, col)
    ensures PixelOf(W, band, tile, row, col) < W * H <==> band < H / 80
  {
    var y := 80 * band + row;
    if band < H / 80 {
      RowMajorBound(W, H, 80 * tile + col, y);
    } else {
      MulStep(W, y + 1, H);
    }
  }

  /** Pos is a bijection of [0, W * H) with inverse Index: the traversal
      visits every macropixel of the frame exactly once. */
  lemma PosIndex(W: nat, H: nat, k: nat)
    requires W > 0 && W % 80 == 0 && H % 80 == 0 && k < W * H
    ensures Pos(W, k) < W * H && Index(W, Pos(W, k)) == k
  {
    var band, tile, row, col := StepCoordinates(W, k);
    PosOfStep(W, band, tile, row, col);
    IndexOfPixel(W, band, tile, row, col);
    StepBound(W, H, band, tile, row, col);
    PixelBound(W, H, band, tile, row, col);
  }

  lemma PosBound(W: nat, H: nat, k: nat)
    requires W > 0 && W % 80 == 0 && H % 80 == 0 && k < W * H
    ensures Pos(W, k) < W * H
  {
    PosIndex(W, H, k);
  }

  lemma IndexPos(W: nat, H: nat, p: nat)
    requires W > 0 && W % 80 == 0 && H % 80 == 0 && p < W * H
    ensures Index(W, p) < W * H && Pos(W, Index(W, p)) == p
  {
    var band, tile, row, col := PixelCoordinates(W, p);
    PosOfStep(W, band, tile, row, col);
    IndexOfPixel(W, band, tile, row, col);
    StepBound(W, H, band, tile, row, col);
    PixelBound(W, H, band, tile, row, col);
  }

  // ---------------------------------------------------------------------------
  // The ImgBlk layout

  /** The tiled layout needs W (macropixels per row) and H (rows) to be whole
      numbers of tiles, and n >= 4 W H bytes of frame or ImgBlk. */
  predicate Layout(W: nat, H: nat, n: nat)
  {
    W % 80 == 0 && H % 80 == 0 && 4 * (W * H) <= n
  }

  /** Where an ImgBlk of N steps keeps sample j (0: Y0, 1: Cb, 2: Y1, 3: Cr)
      of step k: the lumas interleaved at 2k and 2k + 1, Cb at 2N + k and Cr
      at 3N + k. */
  function EntryAt(N: nat, k: nat, j: nat): (i: nat)
    requires k < N && j < 4
    ensures i < 4 * N
  {
    if j == 0 then 2 * k else if j == 1 then 2 * N + k else if j == 2 then 2 * k + 1 else 3 * N + k
  }

  /** The step whose sample ImgBlk byte i holds. */
  function Owner(N: nat, i: nat): (k: nat)
    requires i < 4 * N
    ensures k < N
  {
    if i < 2 * N then i / 2 else if i < 3 * N then i - 2 * N else i - 3 * N
  }

  /** Which sample of its owner ImgBlk byte i holds. */
  function Role(N: nat, i: nat): (j: nat)
    requires i < 4 * N
    ensures j < 4 && EntryAt(N, Owner(N, i), j) == i
  {
    if i < 2 * N then 2 * (i % 2) else if i < 3 * N then 1 else 3
  }

  /** The entries of distinct samples are distinct: EntryAt is one-to-one and
      Owner and Role are its inverse. */
  lemma EntryInverse(N: nat, k: nat, j: nat)
    requires k < N && j < 4
    ensures Owner(N, EntryAt(N, k, j)) == k && Role(N, EntryAt(N, k, j)) == j
  {
    if j == 0 || j == 2 {
      DivUnique(EntryAt(N, k, j), 2, k, j / 2);
    }
  }

  /** Luma samples go through the luma quantizer, chroma samples through the
      chroma quantizer. */
  function QuantizeSample(j: nat, v: byte): byte
  {
    if j % 2 == 0 then Quantize(v, 0x20, 0x10) else Quantize(v, 0x10, 0x08)
  }

  /** The step that visits macropixel p. */
  function Slot(W: nat, H: nat, p: nat): (k: nat)
    requires W > 0 && W % 80 == 0 && H % 80 == 0 && p < W * H
    ensures k < W * H && Pos(W, k) == p
  {
    IndexPos(W, H, p);
    Index(W, p)
  }

  /** Sample j of the macropixel that step k visits. */
  function Sample(f: seq<byte>, W: nat, H: nat, k: nat, j: nat): byte
    requires W > 0 && Layout(W, H, |f|) && k < W * H && j < 4
  {
    PosBound(W, H, k);
    f[4 * Pos(W, k) + j]
  }

  /** `yuyv2imgblk` as a value: ImgBlk byte i holds sample Role(i) of the
      macropixel that step Owner(i) visits, quantized. */
  function Encode(f: seq<byte>, W: nat, H: nat): (b: seq<byte>)
    requires Layout(W, H, |f|)
    ensures |b| == 4 * (W * H)
  {
    var N := W * H;
    seq(4 * N, i requires 0 <= i < 4 * N =>
      QuantizeSample(Role(N, i), Sample(f, W, H, Owner(N, i), Role(N, i))))
  }

  /** `imgblk2yuyv` as a value: sample j of macropixel p comes from the ImgBlk
      entry of sample j of the step that visits p. */
  function Decode(b: seq<byte>, W: nat, H: nat): (f: seq<byte>)
    requires Layout(W, H, |b|)
    ensures |f| == 4 * (W * H)
  {
    var N := W * H;
    seq(4 * N, i requires 0 <= i < 4 * N => b[EntryAt(N, Slot(W, H, i / 4), i % 4)])
  }

  /** An ImgBlk whose bytes are already inside the quantizer's range. */
  predicate Quantized(b: seq<byte>, N: nat)
    requires 4 * N <= |b|
  {
    forall i :: 0 <= i < 4 * N ==> QuantizeSample(Role(N, i), b[i]) == b[i]
  }

  /** Step k's samples sit in the ImgBlk bytes blk, quantized. */
  predicate Stored(blk: seq<byte>, f: seq<byte>, W: nat, H: nat, k: nat)
    requires W > 0 && Layout(W, H, |f|) && |blk| == 4 * (W * H) && k < W * H
  {
    forall j :: 0 <= j < 4 ==> blk[EntryAt(W * H, k, j)] == QuantizeSample(j, Sample(f, W, H, k, j))
  }

  predicate AllStored(blk: seq<byte>, f: seq<byte>, W: nat, H: nat, n: nat)
    requires W > 0 && Layout(W, H, |f|) && |blk| == 4 * (W * H) && n <= W * H
  {
    forall k :: 0 <= k < n ==> Stored(blk, f, W, H, k)
  }

  /** Two ImgBlks storing every step of the same frame are equal. */
  lemma StoredUnique(blk: seq<byte>, blk': seq<byte>, f: seq<byte>, W: nat, H: nat)
    requires W > 0 && Layout(W, H, |f|) && |blk| == |blk'| == 4 * (W * H)
    requires AllStored(blk, f, W, H, W * H) && AllStored(blk', f, W, H, W * H)
    ensures blk == blk'
  {
    var N := W * H;
    forall i | 0 <= i < 4 * N
      ensures blk[i] == blk'[i]
    {
      var k, j := Owner(N, i), Role(N, i);
      assert Stored(blk, f, W, H, k) && Stored(blk', f, W, H, k);
    }
  }

  lemma EncodeEntry(f: seq<byte>, W: nat, H: nat, k: nat, j: nat)
    requires W > 0 && Layout(W, H, |f|) && k < W * H && j < 4
    ensures Encode(f, W, H)[EntryAt(W * H, k, j)] == QuantizeSample(j, Sample(f, W, H, k, j))
  {
    EntryInverse(W * H, k, j);
  }

  /** An encoding stores every step. */
  lemma EncodeStored(f: seq<byte>, W: nat, H: nat)
    requires W > 0 && Layout(W, H, |f|)
    ensures AllStored(Encode(f, W, H), f, W, H, W * H)
  {
    forall k, j | 0 <= k < W * H && 0 <= j < 4
      ensures Encode(f, W, H)[EntryAt(W * H, k, j)] == QuantizeSample(j, Sample(f, W, H, k, j))
    {
      EncodeEntry(f, W, H, k, j);
    }
  }

  /** Byte j of macropixel p of a decoding. */
  lemma DecodeEntry(b: seq<byte>, W: nat, H: nat, p: nat, j: nat)
    requires W > 0 && Layout(W, H, |b|) && p < W * H && j < 4
    ensures 4 * p + j < 4 * (W * H)
    ensures Decode(b, W, H)[4 * p + j] == b[EntryAt(W * H, Slot(W, H, p), j)]
  {
    DivUnique(4 * p + j, 4, p, j);
  }

  /** Sample j of step k of a decoding is the ImgBlk entry it came from. */
  lemma DecodeSample(b: seq<byte>, W: nat, H: nat, k: nat, j: nat)
    requires W > 0 && Layout(W, H, |b|) && k < W * H && j < 4
    ensures Sample(Decode(b, W, H), W, H, k, j) == b[EntryAt(W * H, k, j)]
  {
    var p := Pos(W, k);
    PosIndex(W, H, k);
    assert Slot(W, H, p) == k;
    DecodeEntry(b, W, H, p, j);
  }

  lemma DecodeEncodeAt(f: seq<byte>, W: nat, H: nat, i: nat)
    requires W > 0 && Layout(W, H, |f|) && i < 4 * (W * H)
    ensures Decode(Encode(f, W, H), W, H)[i] == QuantizeFrame(f[..4 * (W * H)])[i]
  {
    var p, j := i / 4, i % 4;
    assert i == 4 * p + j && i % 2 == j % 2;
    var k := Slot(W, H, p);
    EncodeEntry(f, W, H, k, j);
    DecodeEntry(Encode(f, W, H), W, H, p, j);
    assert Sample(f, W, H, k, j) == f[i];
  }

  /** Decoding an encoded frame gives the frame quantized in place: the
      re-layout itself loses nothing. */
  lemma DecodeEncode(f: seq<byte>, W: nat, H: nat)
    requires Layout(W, H, |f|)
    ensures Decode(Encode(f, W, H), W, H) == QuantizeFrame(f[..4 * (W * H)])
  {
    forall i | 0 <= i < 4 * (W * H)
      ensures Decode(Encode(f, W, H), W, H)[i] == QuantizeFrame(f[..4 * (W * H)])[i]
    {
      DecodeEncodeAt(f, W, H, i);
    }
  }

  /** Every encoded frame is in the quantizer's range. */
  lemma EncodeQuantized(f: seq<byte>, W: nat, H: nat)
    requires Layout(W, H, |f|)
    ensures Quantized(Encode(f, W, H), W * H)
  {
    var N := W * H;
    forall i | 0 <= i < 4 * N
      ensures QuantizeSample(Role(N, i), Encode(f, W, H)[i]) == Encode(f, W, H)[i]
    {
      QuantizeIdempotent(Sample(f, W, H, Owner(N, i), Role(N, i)));
    }
  }

  /** A quantized ImgBlk stores every step of its own decoding. */
  lemma DecodeStored(b: seq<byte>, W: nat, H: nat)
    requires W > 0 && Layout(W, H, |b|) && |b| == 4 * (W * H) && Quantized(b, W * H)
    ensures AllStored(b, Decode(b, W, H), W, H, W * H)
  {
    var N := W * H;
    forall k, j | 0 <= k < N && 0 <= j < 4
      ensures b[EntryAt(N, k, j)] == QuantizeSample(j, Sample(Decode(b, W, H), W, H, k, j))
    {
      DecodeSample(b, W, H, k, j);
      EntryInverse(N, k, j);
      assert QuantizeSample(Role(N, EntryAt(N, k, j)), b[EntryAt(N, k, j)]) == b[EntryAt(N, k, j)];
    }
  }

  /** Encoding a decoded ImgBlk gives it back when its bytes are in the
      quantizer's range, as every encoded frame's are. */
  lemma EncodeDecode(b: seq<byte>, W: nat, H: nat)
    requires Layout(W, H, |b|) && |b| == 4 * (W * H) && Quantized(b, W * H)
    ensures Encode(Decode(b, W, H), W, H) == b
  {
    if W > 0 {
      EncodeStored(Decode(b, W, H), W, H);
      DecodeStored(b, W, H);
      StoredUnique(Encode(Decode(b, W, H), W, H), b, Decode(b, W, H), W, H);
    }
  }

  // ---------------------------------------------------------------------------
  // The traversals

  /** Storing step n's samples, touching no byte of another step, extends the
      stored steps by one. */
  lemma StoreStep(blk: seq<byte>, blk': seq<byte>, f: seq<byte>, W: nat, H: nat, n: nat)
    requires W > 0 && Layout(W, H, |f|) && |blk| == |blk'| == 4 * (W * H) && n < W * H
    requires AllStored(blk, f, W, H, n) && Stored(blk', f, W, H, n)
    requires forall i :: 0 <= i < |blk| && Owner(W * H, i) != n ==> blk'[i] == blk[i]
    ensures AllStored(blk', f, W, H, n + 1)
  {
    forall k, j | 0 <= k < n && 0 <= j < 4
      ensures blk'[EntryAt(W * H, k, j)] == QuantizeSample(j, Sample(f, W, H, k, j))
    {
      assert Stored(blk, f, W, H, k);
      EntryInverse(W * H, k, j);
    }
  }

  /** Writing the four quantized samples of step k into their entries
      stores step k. */
  lemma StoredOfEntries(blk: seq<byte>, f: seq<byte>, W: nat, H: nat, k: nat, p: nat)
    requires W > 0 && Layout(W, H, |f|) && |blk| == 4 * (W * H) && k < W * H
    requires p == Pos(W, k) && 4 * p + 3 < |f|
    requires forall j :: 0 <= j < 4 ==> blk[EntryAt(W * H, k, j)] == QuantizeSample(j, f[4 * p + j])
    ensures Stored(blk, f, W, H, k)
  {
    forall j | 0 <= j < 4
      ensures blk[EntryAt(W * H, k, j)] == QuantizeSample(j, Sample(f, W, H, k, j))
    {
      assert Sample(f, W, H, k, j) == f[4 * p + j];
    }
  }

  /** The four stores of the innermost `yuyv2imgblk` loop: samples y0, cb,
      y1 and cr of step idx go to their entries and nothing else changes. */
  method PutEntries(blk: array<byte>, N: nat, idx: nat, y0: byte, cb: byte, y1: byte, cr: byte)
    requires blk.Length == 4 * N && idx < N
    modifies blk
    ensures blk[EntryAt(N, idx, 0)] == y0 && blk[EntryAt(N, idx, 1)] == cb
    ensures blk[EntryAt(N, idx, 2)] == y1 && blk[EntryAt(N, idx, 3)] == cr
    ensures forall i :: 0 <= i < blk.Length && Owner(N, i) != idx ==> blk[i] == old(blk[i])
  {
    EntryInverse(N, idx, 0);
    EntryInverse(N, idx, 1);
    EntryInverse(N, idx, 2);
    EntryInverse(N, idx, 3);
    blk[2 * idx] := y0;
    blk[2 * N + idx] := cb;
    blk[2 * idx + 1] := y1;
    blk[3 * N + idx] := cr;
  }

  /** The reads and the band rule of the innermost `yuyv2imgblk` loop:
      the four quantized samples of macropixel p. */
  method LoadMacropixel(yuyv: array<byte>, p: nat) returns (y0: byte, cb: byte, y1: byte, cr: byte)
    requires 4 * p + 3 < yuyv.Length
    ensures y0 == QuantizeSample(0, yuyv[4 * p + 0]) && cb == QuantizeSample(1, yuyv[4 * p + 1])
    ensures y1 == QuantizeSample(2, yuyv[4 * p + 2]) && cr == QuantizeSample(3, yuyv[4 * p + 3])
  {
    y0, cb, y1, cr := yuyv[4 * p + 0], yuyv[4 * p + 1], yuyv[4 * p + 2], yuyv[4 * p + 3];
    y0, y1 := QuantizeLuma(y0), QuantizeLuma(y1);
    cr, cb := QuantizeChroma(cr), QuantizeChroma(cb);
  }

  /** The body of the innermost `yuyv2imgblk` loop: reads macropixel p, the
      one step idx visits, quantizes its four samples and stores them. */
  method StoreMacropixel(blk: array<byte>, yuyv: array<byte>, W: nat, H: nat, idx: nat, p: nat)
    requires blk != yuyv && W > 0 && Layout(W, H, yuyv.Length) && blk.Length == 4 * (W * H)
    requires idx < W * H && p == Pos(W, idx)
    modifies blk
    ensures Stored(blk[..], yuyv[..], W, H, idx)
    ensures forall i :: 0 <= i < blk.Length && Owner(W * H, i) != idx ==> blk[i] == old(blk[i])
  {
    PosIndex(W, H, idx);
    var y0, cb, y1, cr := LoadMacropixel(yuyv, p);
    PutEntries(blk, W * H, idx, y0, cb, y1, cr);
    forall j | 0 <= j < 4
      ensures blk[EntryAt(W * H, idx, j)] == QuantizeSample(j, yuyv[4 * p + j])
    {
      if j == 0 {
      } else if j == 1 {
      } else if j == 2 {
      } else {
      }
    }
    StoredOfEntries(blk[..], yuyv[..], W, H, idx, p);
  }

  /** The frame and ImgBlk arrays of a traversal. */
  predicate Arrays(blk: array<byte>, yuyv: array<byte>, W: nat, H: nat)
  {
    blk != yuyv && W > 0 && Layout(W, H, yuyv.Length) && blk.Length == 4 * (W * H)
  }

  /** The `xx` loop of `yuyv2imgblk`: the 80 columns of row `row` of tile
      `tile` of band `band`, whose first macropixel is yb + bx + yy. */
  method StoreRow(blk: array<byte>, yuyv: array<byte>, W: nat, H: nat, yb: nat, bx: nat, yy: nat, idx: nat,
                  ghost band: nat, ghost tile: nat, ghost row: nat) returns (idx': nat)
    requires Arrays(blk, yuyv, W, H) && W % 80 == 0
    requires yb == band * (80 * W) && bx == 80 * tile && yy == row * W
    requires tile < W / 80 && row < 80
    requires idx == StepOf(W, band, tile, row, 0) && idx + 80 <= W * H && AllStored(blk[..], yuyv[..], W, H, idx)
    modifies blk
    ensures idx' == idx + 80 && AllStored(blk[..], yuyv[..], W, H, idx')
  {
    idx' := idx;
    var xx := 0;
    while xx < 80
      invariant xx <= 80 && idx' == StepOf(W, band, tile, row, xx)
      invariant AllStored(blk[..], yuyv[..], W, H, idx')
    {
      PosOfStep(W, band, tile, row, xx);
      PixelSplit(W, band, tile, row, xx);
      ghost var before := blk[..];
      StoreMacropixel(blk, yuyv, W, H, idx', yb + bx + yy + xx);
      StoreStep(before, blk[..], yuyv[..], W, H, idx');
      xx, idx' := xx + 1, idx' + 1;
    }
  }

  /** The `yy` loop of `yuyv2imgblk`: the 80 rows of tile `tile` of band
      `band`, W macropixels apart. */
  method StoreTile(blk: array<byte>, yuyv: array<byte>, W: nat, H: nat, yb: nat, bx: nat, idx: nat,
                   ghost band: nat, ghost tile: nat) returns (idx': nat)
    requires Arrays(blk, yuyv, W, H) && W % 80 == 0
    requires yb == band * (80 * W) && bx == 80 * tile && tile < W / 80
    requires idx == band * (80 * W) + tile * 6400 && idx + 6400 <= W * H
    requires AllStored(blk[..], yuyv[..], W, H, idx)
    modifies blk
    ensures idx' == idx + 6400 && AllStored(blk[..], yuyv[..], W, H, idx')
  {
    idx' := idx;
    var yy := 0;
    ghost var row := 0;
    while yy < 80 * W
      invariant row <= 80 && yy == row * W && idx' == band * (80 * W) + tile * 6400 + row * 80
      invariant AllStored(blk[..], yuyv[..], W, H, idx')
    {
      MulOrder(W, 80, row);
      idx' := StoreRow(blk, yuyv, W, H, yb, bx, yy, idx', band, tile, row);
      MulSucc(row, W);
      yy, row := yy + W, row + 1;
    }
    MulOrder(W, row, 80);
  }

  /** The `bx` loop of `yuyv2imgblk`: the W / 80 tiles of band `band`, left
      to right. */
  method StoreBand(blk: array<byte>, yuyv: array<byte>, W: nat, H: nat, yb: nat, idx: nat,
                   ghost band: nat) returns (idx': nat)
    requires Arrays(blk, yuyv, W, H) && W % 80 == 0
    requires yb == band * (80 * W)
    requires idx == band * (80 * W) && idx + 80 * W <= W * H && AllStored(blk[..], yuyv[..], W, H, idx)
    modifies blk
    ensures idx' == idx + 80 * W && AllStored(blk[..], yuyv[..], W, H, idx')
  {
    idx' := idx;
    var bx := 0;
    ghost var tile := 0;
    assert 80 * W == 6400 * (W / 80);
    while bx < W
      invariant tile <= W / 80 && bx == 80 * tile && idx' == band * (80 * W) + tile * 6400
      invariant AllStored(blk[..], yuyv[..], W, H, idx')
    {
      idx' := StoreTile(blk, yuyv, W, H, yb, bx, idx', band, tile);
      bx, tile := bx + 80, tile + 1;
    }
  }

  /** The byte counts of `yuyv2imgblk`: `len = xres * yres * 2` is four
      bytes per macropixel, and a band step `80 * xres / 2` is 80 W. */
  lemma FrameSizes(xres: nat, yres: nat)
    requires xres % 2 == 0
    ensures xres * yres * 2 == 4 * ((xres / 2) * yres) && (xres * yres * 2) / 4 == (xres / 2) * yres
    ensures 80 * xres / 2 == 80 * (xres / 2)
  {
    var W := xres / 2;
    assert xres * yres == 2 * (W * yres);
  }

  /** A band that starts inside the frame ends inside it. */
  lemma BandFits(W: nat, H: nat, band: nat)
    requires W > 0 && H % 80 == 0 && band * (80 * W) < W * H
    ensures (band + 1) * (80 * W) == band * (80 * W) + 80 * W <= W * H
  {
    assert W * H == (80 * W) * (H / 80);
    MulOrder(80 * W, band, H / 80);
    MulOrder(80 * W, H / 80, band + 1);
    MulSucc(band, 80 * W);
  }

  /** The `by` loop of `yuyv2imgblk`: band after band until idx reaches
      the number of steps. */
  method StoreBands(blk: array<byte>, yuyv: array<byte>, W: nat, H: nat, xres: nat, steps: nat)
    requires blk != yuyv && Layout(W, H, yuyv.Length) && blk.Length == 4 * (W * H)
    requires xres == 2 * W && steps == W * H
    modifies blk
    ensures W > 0 ==> AllStored(blk[..], yuyv[..], W, H, W * H)
  {
    var idx, yb := 0, 0;
    ghost var band := 0;
    while idx < steps
      invariant yb == band * (80 * W) && idx == band * (80 * W) && idx <= steps
      invariant W > 0 ==> AllStored(blk[..], yuyv[..], W, H, idx)
      decreases steps - idx
    {
      assert W > 0;
      BandFits(W, H, band);
      idx := StoreBand(blk, yuyv, W, H, yb, idx, band);
      yb, band := yb + 80 * xres / 2, band + 1;
    }
  }

  /** `yuyv2imgblk`: four nested loops walk the bands of 80 rows (yb, the
      source's `by`), the tiles of a band left to right (bx), the rows of a
      tile (yy) and the 80 columns of a row (xx), while idx counts the steps;
      the result is the encoded frame. */
  method YuyvToImgBlk(yuyv: array<byte>, xres: nat, yres: nat) returns (blk: seq<byte>)
    requires Tileable(xres, yres) && 2 * xres * yres <= yuyv.Length
    ensures blk == Encode(yuyv[..], xres / 2, yres)
  {
    var npix := xres * yres;
    var len := npix * 2;
    var W, H := xres / 2, yres;
    FrameSizes(xres, yres);
    var a := new byte[len];
    StoreBands(a, yuyv, W, H, xres, len / 4);
    if W > 0 {
      EncodeStored(yuyv[..], W, H);
      StoredUnique(a[..], Encode(yuyv[..], W, H), yuyv[..], W, H);
    }
    blk := a[..];
  }

  // ---------------------------------------------------------------------------
  // The inverse traversal

  /** Step k's ImgBlk entries sit in the frame bytes f, at the macropixel the
      step visits. */
  predicate Placed(f: seq<byte>, blk: seq<byte>, W: nat, H: nat, k: nat)
    requires W > 0 && Layout(W, H, |blk|) && |f| == 4 * (W * H) && k < W * H
  {
    forall j :: 0 <= j < 4 ==> Sample(f, W, H, k, j) == blk[EntryAt(W * H, k, j)]
  }

  predicate AllPlaced(f: seq<byte>, blk: seq<byte>, W: nat, H: nat, n: nat)
    requires W > 0 && Layout(W, H, |blk|) && |f| == 4 * (W * H) && n <= W * H
  {
    forall k :: 0 <= k < n ==> Placed(f, blk, W, H, k)
  }

  /** Placing step n's entries, touching no other macropixel, extends the
      placed steps by one: distinct steps visit distinct macropixels. */
  lemma PlaceStep(f: seq<byte>, f': seq<byte>, blk: seq<byte>, W: nat, H: nat, n: nat)
    requires W > 0 && Layout(W, H, |blk|) && |f| == |f'| == 4 * (W * H) && n < W * H
    requires AllPlaced(f, blk, W, H, n) && Placed(f', blk, W, H, n)
    requires forall i :: 0 <= i < |f| && i / 4 != Pos(W, n) ==> f'[i] == f[i]
    ensures AllPlaced(f', blk, W, H, n + 1)
  {
    PosIndex(W, H, n);
    forall k, j | 0 <= k < n && 0 <= j < 4
      ensures Sample(f', W, H, k, j) == blk[EntryAt(W * H, k, j)]
    {
      assert Placed(f, blk, W, H, k);
      PosIndex(W, H, k);
      DivUnique(4 * Pos(W, k) + j, 4, Pos(W, k), j);
    }
  }

  /** All steps placed is the decoded ImgBlk. */
  lemma PlacedIsDecode(f: seq<byte>, blk: seq<byte>, W: nat, H: nat)
    requires W > 0 && Layout(W, H, |blk|) && |f| == 4 * (W * H)
    requires AllPlaced(f, blk, W, H, W * H)
    ensures f == Decode(blk, W, H)
  {
    forall i | 0 <= i < 4 * (W * H)
      ensures f[i] == Decode(blk, W, H)[i]
    {
      PlacedByte(f, blk, W, H, i);
    }
  }

  lemma PlacedByte(f: seq<byte>, blk: seq<byte>, W: nat, H: nat, i: nat)
    requires W > 0 && Layout(W, H, |blk|) && |f| == 4 * (W * H) && i < 4 * (W * H)
    requires AllPlaced(f, blk, W, H, W * H)
    ensures f[i] == Decode(blk, W, H)[i]
  {
    var p, j := i / 4, i % 4;
    var k := Slot(W, H, p);
    assert Placed(f, blk, W, H, k);
    assert Sample(f, W, H, k, j) == f[i];
    DecodeEntry(blk, W, H, p, j);
  }

  /** Writing the four entries of step k into its macropixel p places step k. */
  lemma PlacedOfBytes(f: seq<byte>, blk: seq<byte>, W: nat, H: nat, k: nat, p: nat)
    requires W > 0 && Layout(W, H, |blk|) && |f| == 4 * (W * H) && k < W * H
    requires p == Pos(W, k) && 4 * p + 3 < |f|
    requires forall j :: 0 <= j < 4 ==> f[4 * p + j] == blk[EntryAt(W * H, k, j)]
    ensures Placed(f, blk, W, H, k)
  {
    forall j | 0 <= j < 4
      ensures Sample(f, W, H, k, j) == blk[EntryAt(W * H, k, j)]
    {
      assert Sample(f, W, H, k, j) == f[4 * p + j];
    }
  }

  /** The body of the innermost `imgblk2yuyv` loop: copies the four entries
      of step idx into macropixel p, the one the step visits. */
  method PlaceMacropixel(yuyv: array<byte>, blk: array<byte>, W: nat, H: nat, idx: nat, p: nat)
    requires Arrays(yuyv, blk, W, H) && idx < W * H && p == Pos(W, idx)
    modifies yuyv
    ensures Placed(yuyv[..], blk[..], W, H, idx)
    ensures forall i :: 0 <= i < yuyv.Length && i / 4 != p ==> yuyv[i] == old(yuyv[i])
  {
    PosIndex(W, H, idx);
    var N := W * H;
    yuyv[4 * p + 0] := blk[2 * idx];
    yuyv[4 * p + 1] := blk[2 * N + idx];
    yuyv[4 * p + 2] := blk[2 * idx + 1];
    yuyv[4 * p + 3] := blk[3 * N + idx];
    forall j | 0 <= j < 4
      ensures yuyv[4 * p + j] == blk[EntryAt(N, idx, j)]
    {
      if j == 0 {
        assert EntryAt(N, idx, j) == 2 * idx;
      } else if j == 1 {
        assert EntryAt(N, idx, j) == 2 * N + idx;
      } else if j == 2 {
        assert EntryAt(N, idx, j) == 2 * idx + 1;
      } else {
        assert EntryAt(N, idx, j) == 3 * N + idx;
      }
    }
    PlacedOfBytes(yuyv[..], blk[..], W, H, idx, p);
  }

  /** The `xx` loop of `imgblk2yuyv`. */
  method PlaceRow(yuyv: array<byte>, blk: array<byte>, W: nat, H: nat, yb: nat, bx: nat, yy: nat, idx: nat,
                  ghost band: nat, ghost tile: nat, ghost row: nat) returns (idx': nat)
    requires Arrays(yuyv, blk, W, H) && W % 80 == 0
    requires yb == band * (80 * W) && bx == 80 * tile && yy == row * W
    requires tile < W / 80 && row < 80
    requires idx == StepOf(W, band, tile, row, 0) && idx + 80 <= W * H && AllPlaced(yuyv[..], blk[..], W, H, idx)
    modifies yuyv
    ensures idx' == idx + 80 && AllPlaced(yuyv[..], blk[..], W, H, idx')
  {
    idx' := idx;
    var xx := 0;
    while xx < 80
      invariant xx <= 80 && idx' == StepOf(W, band, tile, row, xx)
      invariant AllPlaced(yuyv[..], blk[..], W, H, idx')
    {
      PosOfStep(W, band, tile, row, xx);
      PixelSplit(W, band, tile, row, xx);
      ghost var before := yuyv[..];
      PlaceMacropixel(yuyv, blk, W, H, idx', yb + bx + yy + xx);
      PlaceStep(before, yuyv[..], blk[..], W, H, idx');
      xx, idx' := xx + 1, idx' + 1;
    }
  }

  /** The `yy` loop of `imgblk2yuyv`. */
  method PlaceTile(yuyv: array<byte>, blk: array<byte>, W: nat, H: nat, yb: nat, bx: nat, idx: nat,
                   ghost band: nat, ghost tile: nat) returns (idx': nat)
    requires Arrays(yuyv, blk, W, H) && W % 80 == 0
    requires yb == band * (80 * W) && bx == 80 * tile && tile < W / 80
    requires idx == band * (80 * W) + tile * 6400 && idx + 6400 <= W * H
    requires AllPlaced(yuyv[..], blk[..], W, H, idx)
    modifies yuyv
    ensures idx' == idx + 6400 && AllPlaced(yuyv[..], blk[..], W, H, idx')
  {
    idx' := idx;
    var yy := 0;
    ghost var row := 0;
    while yy < 80 * W
      invariant row <= 80 && yy == row * W && idx' == band * (80 * W) + tile * 6400 + row * 80
      invariant AllPlaced(yuyv[..], blk[..], W, H, idx')
    {
      MulOrder(W, 80, row);
      idx' := PlaceRow(yuyv, blk, W, H, yb, bx, yy, idx', band, tile, row);
      MulSucc(row, W);
      yy, row := yy + W, row + 1;
    }
    MulOrder(W, row, 80);
  }

  /** The `bx` loop of `imgblk2yuyv`. */
  method PlaceBand(yuyv: array<byte>, blk: array<byte>, W: nat, H: nat, yb: nat, idx: nat,
                   ghost band: nat) returns (idx': nat)
    requires Arrays(yuyv, blk, W, H) && W % 80 == 0
    requires yb == band * (80 * W)
    requires idx == band * (80 * W) && idx + 80 * W <= W * H && AllPlaced(yuyv[..], blk[..], W, H, idx)
    modifies yuyv
    ensures idx' == idx + 80 * W && AllPlaced(yuyv[..], blk[..], W, H, idx')
  {
    idx' := idx;
    var bx := 0;
    ghost var tile := 0;
    assert 80 * W == 6400 * (W / 80);
    while bx < W
      invariant tile <= W / 80 && bx == 80 * tile && idx' == band * (80 * W) + tile * 6400
      invariant AllPlaced(yuyv[..], blk[..], W, H, idx')
    {
      idx' := PlaceTile(yuyv, blk, W, H, yb, bx, idx', band, tile);
      bx, tile := bx + 80, tile + 1;
    }
  }

  /** The `by` loop of `imgblk2yuyv`. */
  method PlaceBands(yuyv: array<byte>, blk: array<byte>, W: nat, H: nat, xres: nat, steps: nat)
    requires yuyv != blk && Layout(W, H, blk.Length) && yuyv.Length == 4 * (W * H)
    requires xres == 2 * W && steps == W * H
    modifies yuyv
    ensures W > 0 ==> AllPlaced(yuyv[..], blk[..], W, H, W * H)
  {
    var idx, yb := 0, 0;
    ghost var band := 0;
    while idx < steps
      invariant yb == band * (80 * W) && idx == band * (80 * W) && idx <= steps
      invariant W > 0 ==> AllPlaced(yuyv[..], blk[..], W, H, idx)
      decreases steps - idx
    {
      assert W > 0;
      BandFits(W, H, band);
      idx := PlaceBand(yuyv, blk, W, H, yb, idx, band);
      yb, band := yb + 80 * xres / 2, band + 1;
    }
  }

  /** `imgblk2yuyv`: the same four loops as `yuyv2imgblk`, copying each
      step's entries back to the macropixel it visits; the result is the
      decoded ImgBlk. */
  method ImgBlkToYuyv(blk: array<byte>, xres: nat, yres: nat) returns (yuyv: seq<byte>)
    requires Tileable(xres, yres) && 2 * xres * yres <= blk.Length
    ensures yuyv == Decode(blk[..], xres / 2, yres)
  {
    var npix := xres * yres;
    var len := npix * 2;
    var W, H := xres / 2, yres;
    FrameSizes(xres, yres);
    var a := new byte[len];
    PlaceBands(a, blk, W, H, xres, len / 4);
    if W > 0 {
      PlacedIsDecode(a[..], blk[..], W, H);
    }
    yuyv := a[..];
  }
}
