/**
 * apps/framecap.c: the command-line front end that `lfc_capture` (see
 * LibFrameCap) calls back once per dequeued frame.
 *
 * `main` turns the options into the settings of a FrameCap record, clamping
 * the numeric ones.  `on_frame` enforces the rate limit, drops all but one
 * of every `subsamp` frames, draws the banner and the timestamp on YUYV
 * frames, optionally compresses the frame to JPEG, and writes it to standard
 * output, to an output file (atomically, through `<file>.tmp`) and to a
 * numbered sequence file; it asks the capture loop to stop once `count`
 * frames have been written.
 *
 * The monotonic clock, the timestamp text, the JPEG encoder and the outcome
 * of the file-system calls are parameters; the writes are returned as a
 * list of effects.
 */
module FrameCapApp {
  import opened Bits
  import Yuv
  import Overlay
  import TgYuyv
  import Kernel

  /** `V4L2_PIX_FMT_YUYV`: the fourcc 'Y', 'U', 'Y', 'V', lowest byte first. */
  const Yuyv: nat := 0x5659_5559

  // ---------------------------------------------------------------------------
  // main: options

  /** The settings `main` stores in the FrameCap record. */
  datatype Settings = Settings(banner: Kernel.Option<string>, count: int, outfile: Kernel.Option<string>,
                               jpeg: int, subsamp: int, stdoutp: bool, seqfile: Kernel.Option<string>,
                               rateMs: int, tstamp: bool)

  /** The command-line defaults: `-c 0 -n 1`, no JPEG, no sinks, no rate limit. */
  const Defaults := Settings(Kernel.None, 0, Kernel.None, 0, 1, false, Kernel.None, 0, false)

  /** An option as getopt returns it for `b:c:f:j:m:n:or:s:t`, numeric
      arguments already converted by atoi.  Unknown stands for `-m` (accepted
      by getopt, handled by no case), for any other letter and for a missing
      argument. */
  datatype Opt = BannerOpt(text: string) | CountOpt(n: int) | FileOpt(name: string) | JpegOpt(q: int)
               | SubsampOpt(n: int) | StdoutOpt | SeqOpt(name: string) | RateOpt(ms: int) | StampOpt
               | Unknown

  /** The ranges `main` clamps the numeric settings into. */
  predicate Clamped(s: Settings)
  {
    s.count >= 0 && 0 <= s.jpeg <= 3 && s.subsamp >= 1 && s.rateMs >= 0
  }

  /** One case of the option switch.  `-r` has no break: it goes on into the
      `-t` case and turns the timestamp on as well. */
  function Apply(s: Settings, o: Opt): (s': Settings)
    requires !o.Unknown?
    ensures Clamped(s) ==> Clamped(s')
  {
    match o
    case BannerOpt(t) => s.(banner := Kernel.Some(t))
    case CountOpt(n) => s.(count := if n < 0 then 0 else n)
    case FileOpt(f) => s.(outfile := Kernel.Some(f))
    case JpegOpt(q) => s.(jpeg := if q < 0 then 1 else if q > 3 then 3 else q)
    case SubsampOpt(n) => s.(subsamp := if n < 1 then 1 else n)
    case StdoutOpt => s.(stdoutp := true)
    case SeqOpt(f) => s.(seqfile := Kernel.Some(f))
    case RateOpt(ms) => s.(rateMs := if ms < 0 then 0 else ms, tstamp := true)
    case StampOpt => s.(tstamp := true)
  }

  /** The option loop from settings s: the first unknown option ends it. */
  function Fold(s: Settings, opts: seq<Opt>): Kernel.Option<Settings>
    decreases |opts|
  {
    if opts == [] then Kernel.Some(s)
    else if opts[0].Unknown? then Kernel.None
    else Fold(Apply(s, opts[0]), opts[1..])
  }

  /** The bytes of c in UTF-8, the encoding the names arrive in. */
  function Utf8Width(c: char): (k: nat)
    ensures 1 <= k <= 4
  {
    if c as int < 0x80 then 1 else if c as int < 0x800 then 2 else if c as int < 0x1_0000 then 3 else 4
  }

  /** `strlen` of a name: the bytes of its UTF-8 encoding before the first NUL. */
  function Strlen(s: string): (n: nat)
    ensures n <= 4 * |s|
    ensures (forall i :: 0 <= i < |s| ==> 0 < s[i] as int < 0x80) ==> n == |s|
    decreases |s|
  {
    if s == [] || s[0] == '\0' then 0 else Utf8Width(s[0]) + Strlen(s[1..])
  }

  /** A name made of one character c, other than NUL, repeated, is
      Utf8Width(c) bytes per character. */
  lemma {:induction false} StrlenUniform(s: string, c: char)
    requires c != '\0' && forall i :: 0 <= i < |s| ==> s[i] == c
    ensures Strlen(s) == |s| * Utf8Width(c)
    decreases |s|
  {
    if s != [] {
      StrlenUniform(s[1..], c);
    }
  }

  /** The limit counts bytes: 120 copies of U+00E9 are 240 bytes, so such an
      output file name is refused although it has fewer than 235 characters. */
  lemma MultibyteTooLong(name: string)
    requires |name| == 120 && forall i :: 0 <= i < |name| ==> name[i] == '\U{E9}'
    ensures Startup([FileOpt(name)], ["/dev/video0"]) == TooLong(name)
  {
    StrlenUniform(name, '\U{E9}');
    var opts := [FileOpt(name)];
    assert opts[1..] == [];
    assert Fold(Defaults, opts) == Kernel.Some(Defaults.(outfile := Kernel.Some(name)));
  }

  /** How `main` ends before or at the capture: abort() after the usage text
      for an unknown option, exit(-1) after it unless exactly one operand (the
      device) is left, -1 for an output or sequence file name longer than 235
      bytes, and otherwise the capture with the settings. */
  datatype Launch = Aborted | Usage | TooLong(name: string) | Capture(settings: Settings, device: string)

  /** What `main` does with the options and the operands getopt leaves. */
  function Startup(opts: seq<Opt>, operands: seq<string>): (l: Launch)
    ensures l.Capture? ==> |operands| == 1 && l.device == operands[0]
    ensures l.Capture? ==> l.settings.outfile.Some? ==> Strlen(l.settings.outfile.value) <= 235
    ensures l.Capture? ==> l.settings.seqfile.Some? ==> Strlen(l.settings.seqfile.value) <= 235
    ensures l.TooLong? ==> |operands| == 1 && Strlen(l.name) > 235
    ensures l.Usage? ==> |operands| != 1
  {
    match Fold(Defaults, opts)
    case None => Aborted
    case Some(s) =>
      if |operands| != 1 then Usage
      else if s.outfile.Some? && Strlen(s.outfile.value) > 235 then TooLong(s.outfile.value)
      else if s.seqfile.Some? && Strlen(s.seqfile.value) > 235 then TooLong(s.seqfile.value)
      else Capture(s, operands[0])
  }

  /** The option handling of `main`. */
  method ParseCommandLine(opts: seq<Opt>, operands: seq<string>) returns (l: Launch)
    ensures l == Startup(opts, operands)
  {
    var s := Defaults;
    var i := 0;
    while i < |opts|
      invariant 0 <= i <= |opts|
      invariant Fold(s, opts[i..]) == Fold(Defaults, opts)
    {
      assert opts[i..][1..] == opts[i + 1..];
      match opts[i] {
      case BannerOpt(t) => s := s.(banner := Kernel.Some(t));
      case CountOpt(n) =>
        s := s.(count := n);
        if s.count < 0 { s := s.(count := 0); }
      case FileOpt(f) => s := s.(outfile := Kernel.Some(f));
      case JpegOpt(q) =>
        s := s.(jpeg := q);
        if s.jpeg < 0 { s := s.(jpeg := 1); }
        if s.jpeg > 3 { s := s.(jpeg := 3); }
      case SubsampOpt(n) =>
        s := s.(subsamp := n);
        if s.subsamp < 1 { s := s.(subsamp := 1); }
      case StdoutOpt => s := s.(stdoutp := true);
      case SeqOpt(f) => s := s.(seqfile := Kernel.Some(f));
      case RateOpt(ms) =>
        s := s.(rateMs := ms);
        if s.rateMs < 0 { s := s.(rateMs := 0); }
        s := s.(tstamp := true);
      case StampOpt => s := s.(tstamp := true);
      case Unknown => return Aborted;
      }
      i := i + 1;
    }
    assert opts[i..] == [];
    if |operands| != 1 { return Usage; }
    if s.outfile.Some? && Strlen(s.outfile.value) > 235 { return TooLong(s.outfile.value); }
    if s.seqfile.Some? && Strlen(s.seqfile.value) > 235 { return TooLong(s.seqfile.value); }
    return Capture(s, operands[0]);
  }

  lemma {:induction false} FoldClamps(s: Settings, opts: seq<Opt>)
    requires Clamped(s)
    ensures Fold(s, opts).Some? ==> Clamped(Fold(s, opts).value)
    decreases |opts|
  {
    if opts != [] && !opts[0].Unknown? {
      FoldClamps(Apply(s, opts[0]), opts[1..]);
    }
  }

  /** A capture starts with the device as the only operand, the numeric
      settings clamped, and file names of at most 235 bytes. */
  lemma StartupClamps(opts: seq<Opt>, operands: seq<string>)
    ensures var l := Startup(opts, operands);
      l.Capture? ==> && |operands| == 1 && l.device == operands[0] && Clamped(l.settings)
                     && (l.settings.outfile.Some? ==> Strlen(l.settings.outfile.value) <= 235)
                     && (l.settings.seqfile.Some? ==> Strlen(l.settings.seqfile.value) <= 235)
  {
    FoldClamps(Defaults, opts);
  }

  /** Any unknown option aborts, whatever comes before or after it. */
  lemma {:induction false} UnknownAborts(s: Settings, opts: seq<Opt>, i: nat)
    requires i < |opts| && opts[i].Unknown?
    ensures Fold(s, opts).None?
    decreases i
  {
    if !opts[0].Unknown? {
      UnknownAborts(Apply(s, opts[0]), opts[1..], i - 1);
    }
  }

  /** The settings keep the timestamp on once it is on. */
  lemma {:induction false} FoldKeepsStamp(s: Settings, opts: seq<Opt>)
    requires s.tstamp
    ensures Fold(s, opts).Some? ==> Fold(s, opts).value.tstamp
    decreases |opts|
  {
    if opts != [] && !opts[0].Unknown? {
      FoldKeepsStamp(Apply(s, opts[0]), opts[1..]);
    }
  }

  /** Because of the missing break, any `-r` turns the timestamp on. */
  lemma {:induction false} RateStamps(s: Settings, opts: seq<Opt>, i: nat)
    requires i < |opts| && opts[i].RateOpt?
    ensures Fold(s, opts).Some? ==> Fold(s, opts).value.tstamp
    decreases i
  {
    if i == 0 {
      FoldKeepsStamp(Apply(s, opts[0]), opts[1..]);
    } else if !opts[0].Unknown? {
      RateStamps(Apply(s, opts[0]), opts[1..], i - 1);
    }
  }

  // ---------------------------------------------------------------------------
  // on_frame: file names

  /** The ASCII digit for d. */
  function DigitChar(d: nat): (c: char)
    requires d < 10
    ensures '0' <= c <= '9' && c as int - '0' as int == d
  {
    ('0' as int + d) as char
  }

  /** The decimal digits of n, without leading zeros ("0" for zero). */
  function Digits(n: nat): (s: string)
    ensures |s| >= 1 && forall i :: 0 <= i < |s| ==> '0' <= s[i] <= '9'
  {
    if n < 10 then [DigitChar(n)] else Digits(n / 10) + [DigitChar(n % 10)]
  }

  /** k zero characters. */
  function Zeros(k: nat): (s: string)
    ensures |s| == k && forall i :: 0 <= i < k ==> s[i] == '0'
  {
    if k == 0 then [] else Zeros(k - 1) + ['0']
  }

  /** `%06zu`: the digits of n, padded with zeros to at least six characters. */
  function Padded(n: nat): string
  {
    var d := Digits(n);
    if |d| < 6 then Zeros(6 - |d|) + d else d
  }

  /** The number a string of decimal digits denotes. */
  function Value(s: string): int
  {
    if s == [] then 0 else 10 * Value(s[..|s| - 1]) + (s[|s| - 1] as int - '0' as int)
  }

  lemma {:induction false} DigitsValue(n: nat)
    ensures Value(Digits(n)) == n
  {
    if n >= 10 {
      DigitsValue(n / 10);
      var d := Digits(n / 10) + [DigitChar(n % 10)];
      assert d[..|d| - 1] == Digits(n / 10);
    }
  }

  /** Leading zeros do not change the value. */
  lemma {:induction false} ZerosValue(k: nat, s: string)
    ensures Value(Zeros(k) + s) == Value(s)
    decreases k, |s|
  {
    if s == [] {
      assert Zeros(k) + s == Zeros(k);
      if k > 0 {
        assert Zeros(k)[..k - 1] == Zeros(k - 1);
        ZerosValue(k - 1, []);
        assert Zeros(k - 1) + [] == Zeros(k - 1);
      }
    } else {
      var t := Zeros(k) + s;
      assert t[..|t| - 1] == Zeros(k) + s[..|s| - 1];
      ZerosValue(k, s[..|s| - 1]);
    }
  }

  /** `%06zu` is read back as the number it prints and is never shorter than
      six characters. */
  lemma PaddedValue(n: nat)
    ensures Value(Padded(n)) == n && |Padded(n)| >= 6
  {
    DigitsValue(n);
    if |Digits(n)| < 6 {
      ZerosValue(6 - |Digits(n)|, Digits(n));
    }
  }

  /** The temporary name of the output file: `<outfile>.tmp`. */
  function TmpName(f: string): string { f + ".tmp" }

  /** The name of sequence file number n: `<seqfile>-%06zu`. */
  function SeqName(f: string, n: nat): string { f + "-" + Padded(n) }

  /** Different frame numbers give different sequence file names. */
  lemma SeqNamesDistinct(f: string, n: nat, n': nat)
    requires n != n'
    ensures SeqName(f, n) != SeqName(f, n')
  {
    PaddedValue(n);
    PaddedValue(n');
    assert SeqName(f, n)[|f| + 1..] == Padded(n);
    assert SeqName(f, n')[|f| + 1..] == Padded(n');
  }

  // ---------------------------------------------------------------------------
  // on_frame: rate limit

  /** The monotonic clock: now(k) is its reading after k of the polling loop's
      10 ms sleeps, never earlier than the previous stamp start. */
  ghost predicate Ticking(now: nat -> int, start: int)
  {
    now(0) >= start && forall j: nat, k: nat :: j < k ==> now(j) + 10_000_000 * (k - j) <= now(k)
  }

  /** Whole milliseconds from start to reading t (`elapsed_nsec / 1000000`). */
  function ElapsedMs(t: int, start: int): int { (t - start) / 1_000_000 }

  /** The number of sleeps the polling loop makes from reading k on: it stops
      at the first reading more than rateMs whole milliseconds after start. */
  function Sleeps(now: nat -> int, start: int, rateMs: int, k: nat): (n: nat)
    requires Ticking(now, start) && rateMs >= 0
    ensures n >= k && ElapsedMs(now(n), start) > rateMs
    ensures forall j :: k <= j < n ==> ElapsedMs(now(j), start) <= rateMs
    decreases (rateMs + 1) * 1_000_000 - (now(k) - start)
  {
    if ElapsedMs(now(k), start) > rateMs then k
    else
      assert now(k) + 10_000_000 * (k + 1 - k) <= now(k + 1);
      Sleeps(now, start, rateMs, k + 1)
  }

  /** The strict comparison makes every call wait more than rateMs whole
      milliseconds: at least one millisecond even for a rate of 0. */
  lemma WaitsPastRate(now: nat -> int, start: int, rateMs: int)
    requires Ticking(now, start) && rateMs >= 0
    ensures now(Sleeps(now, start, rateMs, 0)) - start >= (rateMs + 1) * 1_000_000
  {
  }

  // ---------------------------------------------------------------------------
  // on_frame: overlay and JPEG

  /** What the frame needs for the overlay and the conversion to be in
      bounds: a w-by-h YUYV frame that is drawn on or converted fits the
      buffer, a string is drawn only on a frame of at least one pixel and only
      with characters of the font, and the RGB buffer of 3 * w * h bytes holds
      whole macropixels.  The source takes the fit for granted: `lfc_capture`
      passes the width and height of the format whose sizeimage it raised to
      at least 2 * w * h (LibFrameCap.FixFormat), the size drivers allocate
      their buffers by. */
  ghost predicate Fits(st: Settings, size: nat, w: nat, h: nat, fmt: nat, stamp: string)
  {
    fmt == Yuyv ==>
      && (st.banner.Some? || st.tstamp || st.jpeg != 0 ==> 2 * w * h <= size)
      && (st.banner.Some? ==> w >= 1 && h >= 1 && Overlay.Ascii(st.banner.value))
      && (st.tstamp ==> w >= 1 && h >= 1 && Overlay.Ascii(stamp))
      && (st.jpeg != 0 ==> (w * h) % 2 == 0)
  }

  /** The row the timestamp goes to: below the banner when there is one. */
  function StampRow(st: Settings): nat { if st.banner.Some? then 8 else 0 }

  /** The frame after the banner (row 0) and the timestamp are drawn; only
      YUYV frames are drawn on. */
  function Decorated(s: seq<byte>, w: nat, h: nat, fmt: nat, st: Settings, stamp: string): (t: seq<byte>)
    requires Fits(st, |s|, w, h, fmt, stamp)
    ensures |t| == |s|
  {
    if fmt != Yuyv then s
    else
      var b := if st.banner.Some? then Overlay.Render(s, w, h, st.banner.value, 0, 0, TgYuyv.Font, TgYuyv.Palette) else s;
      if st.tstamp then Overlay.Render(b, w, h, stamp, 0, StampRow(st), TgYuyv.Font, TgYuyv.Palette) else b
  }

  /** Byte j of the six RGB bytes of macropixel k, as `yuyv_to_rgb` of
      lib/tg_yuyv.h computes it with its channel functions. */
  function PixelByte(yuyv: seq<byte>, k: nat, j: nat): (r: byte)
    requires 4 * k + 3 < |yuyv| && j < 6
    ensures Yuv.Scales(Yuv.Sum(yuyv, k, j), r)
  {
    var y := if j < 3 then yuyv[4 * k] else yuyv[4 * k + 2];
    var cb, cr := yuyv[4 * k + 1], yuyv[4 * k + 3];
    if j == 0 || j == 3 then TgYuyv.IntYcrToR(y, cr)
    else if j == 1 || j == 4 then TgYuyv.IntYcrcbToG(y, cr, cb)
    else TgYuyv.IntYcbToB(y, cb)
  }

  /** The RGB24 image `yuyv_to_rgb` makes of the first `pairs` macropixels. */
  function Rgb(yuyv: seq<byte>, pairs: nat): (rgb: seq<byte>)
    requires 4 * pairs <= |yuyv|
    ensures |rgb| == 6 * pairs
  {
    seq(6 * pairs, i requires 0 <= i < 6 * pairs =>
      assert 4 * (i / 6) + 3 < |yuyv| by { DivUnique(i, 6, i / 6, i % 6); MulOrder(4, pairs, i / 6 + 1); }
      PixelByte(yuyv, i / 6, i % 6))
  }

  /** Whatever `yuyv_to_rgb` writes is that image. */
  lemma ConvertedIsRgb(yuyv: seq<byte>, rgb: seq<byte>, pairs: nat)
    requires 4 * pairs <= |yuyv| && |rgb| == 6 * pairs && Yuv.Converted(yuyv, rgb, pairs)
    ensures rgb == Rgb(yuyv, pairs)
  {
    forall i | 0 <= i < 6 * pairs
      ensures rgb[i] == Rgb(yuyv, pairs)[i]
    {
      Yuv.ConvertedBytes(yuyv, rgb, pairs, i);
      Yuv.ScalesUnique(Yuv.SumAt(yuyv, i), rgb[i], PixelByte(yuyv, i / 6, i % 6));
    }
  }

  /** The bytes the JPEG callback has collected from the first n chunks the
      encoder produced: a chunk whose allocation failed (allocOk false) is lost. */
  function JpegBytes(chunks: seq<seq<byte>>, allocOk: nat -> bool, n: nat): seq<byte>
    requires n <= |chunks|
  {
    if n == 0 then [] else JpegBytes(chunks, allocOk, n - 1) + (if allocOk(n - 1) then chunks[n - 1] else [])
  }

  /** All chunks in order. */
  function Flatten(chunks: seq<seq<byte>>): seq<byte>
  {
    if chunks == [] then [] else Flatten(chunks[..|chunks| - 1]) + chunks[|chunks| - 1]
  }

  /** With every allocation successful the callback assembles the encoder's
      whole output, chunk after chunk. */
  lemma {:induction false} JpegBytesWhole(chunks: seq<seq<byte>>, allocOk: nat -> bool, n: nat)
    requires n <= |chunks| && forall i :: 0 <= i < n ==> allocOk(i)
    ensures JpegBytes(chunks, allocOk, n) == Flatten(chunks[..n])
  {
    if n > 0 {
      JpegBytesWhole(chunks, allocOk, n - 1);
      assert chunks[..n][..n - 1] == chunks[..n - 1];
    }
  }

  /** `ImgBuf`: the bytes of the frame or of its JPEG, their count, and
      whether they were allocated by the JPEG callback. */
  class ImgBuf {
    var buf: seq<byte>
    var len: nat
    var fre: bool

    /** The empty buffer the JPEG path starts from. */
    constructor ()
      ensures buf == [] && len == 0 && !fre
    {
      buf, len, fre := [], 0, false;
    }

    /** `jpeg_handler`: appends a chunk of size bytes, unless the allocation
        of the bigger buffer fails, in which case nothing changes. */
    method JpegHandler(data: seq<byte>, allocOk: bool)
      requires len == |buf|
      modifies this
      ensures allocOk ==> buf == old(buf) + data && len == old(len) + |data| && fre
      ensures !allocOk ==> buf == old(buf) && len == old(len) && fre == old(fre)
      ensures len == |buf|
    {
      if !allocOk { return; }
      buf, len, fre := buf + data, len + |data|, true;
    }
  }

  /** The decorated frame, drawn in place with `tg_yuyv_putstr`. */
  method Decorate(frame: array<byte>, w: nat, h: nat, fmt: nat, st: Settings, stamp: string)
    requires Fits(st, frame.Length, w, h, fmt, stamp)
    modifies frame
    ensures frame[..] == Decorated(old(frame[..]), w, h, fmt, st, stamp)
  {
    ghost var s := frame[..];
    var bannerY := 0;
    if st.banner.Some? && fmt == Yuyv {
      TgYuyv.PutStr(frame, w, h, st.banner.value, 0, bannerY);
      bannerY := bannerY + 8;
    }
    ghost var b := frame[..];
    assert fmt == Yuyv ==> b == if st.banner.Some? then Overlay.Render(s, w, h, st.banner.value, 0, 0, TgYuyv.Font, TgYuyv.Palette) else s;
    assert fmt == Yuyv ==> bannerY == StampRow(st);
    if st.tstamp && fmt == Yuyv {
      TgYuyv.PutStr(frame, w, h, stamp, 0, bannerY);
    }
  }

  /** The overlay touches only the top rows of the frame: rows 0 to 7 of the
      banner and the 8 rows of the timestamp below it. */
  lemma DecoratedRows(s: seq<byte>, w: nat, h: nat, fmt: nat, st: Settings, stamp: string, i: nat)
    requires Fits(st, |s|, w, h, fmt, stamp) && i < |s|
    requires Decorated(s, w, h, fmt, st, stamp)[i] != s[i]
    ensures fmt == Yuyv && (st.banner.Some? || st.tstamp)
    ensures w >= 1 && i < 2 * w * h && (i / 2) / w < StampRow(st) + 8
  {
    var b := if st.banner.Some? then Overlay.Render(s, w, h, st.banner.value, 0, 0, TgYuyv.Font, TgYuyv.Palette) else s;
    if st.banner.Some? && b[i] != s[i] {
      Overlay.RenderFrame(s, w, h, st.banner.value, 0, 0, TgYuyv.Font, TgYuyv.Palette, i);
    } else {
      Overlay.RenderFrame(b, w, h, stamp, 0, StampRow(st), TgYuyv.Font, TgYuyv.Palette, i);
    }
  }

  /** The timestamp below a banner leaves the banner's rows as the banner
      left them. */
  lemma BannerSurvives(s: seq<byte>, w: nat, h: nat, st: Settings, stamp: string, x: nat, y: nat)
    requires Fits(st, |s|, w, h, Yuyv, stamp) && st.banner.Some? && x < w && y < h && y < 8
    ensures Overlay.LumaIndex(w, x, y) + 1 < |s|
    ensures var b := Overlay.Render(s, w, h, st.banner.value, 0, 0, TgYuyv.Font, TgYuyv.Palette);
      var t, i := Decorated(s, w, h, Yuyv, st, stamp), Overlay.LumaIndex(w, x, y);
      t[i] == b[i] && t[i + 1] == b[i + 1]
  {
    var b := Overlay.Render(s, w, h, st.banner.value, 0, 0, TgYuyv.Font, TgYuyv.Palette);
    Overlay.RenderAt(s, w, h, st.banner.value, 0, 0, TgYuyv.Font, TgYuyv.Palette, x, y);
    if st.tstamp {
      Overlay.RenderAt(b, w, h, stamp, 0, 8, TgYuyv.Font, TgYuyv.Palette, x, y);
    }
  }

  // ---------------------------------------------------------------------------
  // on_frame: JPEG and sinks

  /** An even pixel count fills whole macropixels: the converter then writes
      exactly 3 * npix bytes and reads exactly 2 * npix. */
  lemma EvenPairs(npix: nat)
    requires npix % 2 == 0
    ensures 4 * Yuv.Pairs(npix) == 2 * npix && 6 * Yuv.Pairs(npix) == 3 * npix
  {
    if npix > 0 {
      DivUnique(npix + 1, 2, npix / 2, 1);
    }
  }

  /** The bytes the file sinks receive: the first len bytes of the (decorated)
      frame, or for `-j` the JPEG the callback assembled from the encoder's
      chunks for the RGB image of the frame. */
  function Payload(st: Settings, t: seq<byte>, len: nat, w: nat, h: nat,
                   encode: (seq<byte>, int, nat, nat) -> seq<seq<byte>>, allocOk: nat -> bool): (p: seq<byte>)
    requires len <= |t|
    requires st.jpeg != 0 ==> 2 * w * h <= |t| && (w * h) % 2 == 0
    ensures st.jpeg == 0 ==> p == t[..len]
  {
    if st.jpeg == 0 then t[..len]
    else
      assert 4 * Yuv.Pairs(w * h) <= |t| by { EvenPairs(w * h); assert 2 * w * h == 2 * (w * h); }
      var chunks := encode(Rgb(t, Yuv.Pairs(w * h)), st.jpeg, w, h);
      JpegBytes(chunks, allocOk, |chunks|)
  }

  /** The outcome of the file-system calls of one frame: whether opening
      `<outfile>.tmp` succeeds, whether renaming it succeeds, and whether
      opening the sequence file succeeds. */
  datatype Fs = Fs(tmpOpens: bool, renames: bool, seqOpens: bool)

  /** A write to standard output, a write of a whole file, and a rename.
      The results of write and fsync are ignored by the code and not modelled. */
  datatype Effect = Stdout(data: seq<byte>) | Wrote(name: string, data: seq<byte>) | Renamed(from: string, to: string)

  /** Whether the sinks succeeded, and what they did. */
  datatype Written = Written(ok: bool, effects: seq<Effect>)

  /** The file sinks for payload data: the output file through its temporary
      name, then the sequence file with number index; the first failing open
      or rename ends the handler. */
  function Sinks(st: Settings, index: nat, data: seq<byte>, fs: Fs): (r: Written)
    ensures r.ok ==> |r.effects| == (if st.outfile.Some? then 2 else 0) + (if st.seqfile.Some? then 1 else 0)
    ensures !r.ok ==> |r.effects| <= 2 && (st.outfile.Some? || st.seqfile.Some?)
  {
    var out :=
      if st.outfile.None? then Written(true, [])
      else if !fs.tmpOpens then Written(false, [])
      else if !fs.renames then Written(false, [Wrote(TmpName(st.outfile.value), data)])
      else Written(true, [Wrote(TmpName(st.outfile.value), data), Renamed(TmpName(st.outfile.value), st.outfile.value)]);
    if !out.ok || st.seqfile.None? then out
    else if !fs.seqOpens then Written(false, out.effects)
    else Written(true, out.effects + [Wrote(SeqName(st.seqfile.value, index), data)])
  }

  /** What a call of `on_frame` returns, the frame counter after it, and what
      it wrote. */
  datatype Handled = Handled(ret: int, framecount: nat, effects: seq<Effect>)

  /** A frame is dropped unless the counter is a multiple of `subsamp`. */
  predicate Dropped(st: Settings, fc: nat)
    requires st.subsamp >= 1
  {
    fc % st.subsamp != 0
  }

  /** The stop rule once framecount has been incremented to fc'. */
  predicate Stops(st: Settings, fc': nat)
    requires st.subsamp >= 1
  {
    st.count > 0 && st.count == fc' / st.subsamp
  }

  /** What `on_frame` does with a frame it keeps, from the decorated frame t
      on: the raw bytes to standard output, the JPEG gate, the file sinks and
      the stop rule; fc is the counter before the call. */
  function Delivered(st: Settings, fc: nat, t: seq<byte>, len: nat, w: nat, h: nat, fmt: nat,
                   encode: (seq<byte>, int, nat, nat) -> seq<seq<byte>>, allocOk: nat -> bool, fs: Fs): (d: Handled)
    requires Clamped(st) && len <= |t|
    requires fmt == Yuyv && st.jpeg != 0 ==> 2 * w * h <= |t| && (w * h) % 2 == 0
    ensures d.ret == 0 || d.ret == -1
    ensures d.framecount == fc || d.framecount == fc + 1
    ensures d.ret == 0 ==> d.framecount == fc + 1
    ensures st.stdoutp <==> |d.effects| > 0 && d.effects[0] == Stdout(t[..len])
  {
    var out := if st.stdoutp then [Stdout(t[..len])] else [];
    if st.jpeg != 0 && fmt != Yuyv then Handled(-1, fc, out)
    else
      var sunk := Sinks(st, fc / st.subsamp, Payload(st, t, len, w, h, encode, allocOk), fs);
      if !sunk.ok then Handled(-1, fc, out + sunk.effects)
      else Handled(if Stops(st, fc + 1) then -1 else 0, fc + 1, out + sunk.effects)
  }

  /** The file sinks write the payload and nothing else, the output file is
      written only under its temporary name and renamed right after, and the
      sinks succeed exactly when every open and rename they need succeeds. */
  lemma SinksWrite(st: Settings, index: nat, data: seq<byte>, fs: Fs)
    ensures var r := Sinks(st, index, data, fs);
      && (r.ok <==> (st.outfile.Some? ==> fs.tmpOpens && fs.renames) && (st.seqfile.Some? ==> fs.seqOpens))
      && (forall i :: 0 <= i < |r.effects| ==>
            || (st.outfile.Some? && r.effects[i] == Wrote(TmpName(st.outfile.value), data))
            || (st.outfile.Some? && i > 0 && r.effects[i] == Renamed(TmpName(st.outfile.value), st.outfile.value)
                && r.effects[i - 1] == Wrote(TmpName(st.outfile.value), data))
            || (st.seqfile.Some? && r.effects[i] == Wrote(SeqName(st.seqfile.value, index), data)))
      && (r.ok && st.outfile.Some? ==> Renamed(TmpName(st.outfile.value), st.outfile.value) in r.effects)
      && (r.ok && st.seqfile.Some? ==> Wrote(SeqName(st.seqfile.value, index), data) in r.effects)
  {
  }

  /** `-j` on a frame that is not YUYV: the raw bytes still go to standard
      output, then the handler fails before any file sink and without
      counting the frame. */
  lemma JpegGate(st: Settings, fc: nat, t: seq<byte>, len: nat, w: nat, h: nat, fmt: nat,
                 encode: (seq<byte>, int, nat, nat) -> seq<seq<byte>>, allocOk: nat -> bool, fs: Fs)
    requires Clamped(st) && len <= |t| && st.jpeg != 0 && fmt != Yuyv
    ensures Delivered(st, fc, t, len, w, h, fmt, encode, allocOk, fs)
         == Handled(-1, fc, if st.stdoutp then [Stdout(t[..len])] else [])
  {
  }

  /** Standard output gets the raw decorated bytes; each file sink gets the
      payload (the JPEG for `-j`), and the sequence file is numbered by the
      count of processed frames before this one. */
  lemma DeliveredData(st: Settings, fc: nat, t: seq<byte>, len: nat, w: nat, h: nat, fmt: nat,
                      encode: (seq<byte>, int, nat, nat) -> seq<seq<byte>>, allocOk: nat -> bool, fs: Fs)
    requires Clamped(st) && len <= |t|
    requires fmt == Yuyv && st.jpeg != 0 ==> 2 * w * h <= |t| && (w * h) % 2 == 0
    requires st.jpeg == 0 || fmt == Yuyv
    ensures var d := Delivered(st, fc, t, len, w, h, fmt, encode, allocOk, fs);
      var out := if st.stdoutp then [Stdout(t[..len])] else [];
      var sunk := Sinks(st, fc / st.subsamp, Payload(st, t, len, w, h, encode, allocOk), fs);
      && d.effects == out + sunk.effects
      && (forall i :: 0 <= i < |d.effects| ==> d.effects[i].Stdout? ==> i == 0 && d.effects[i].data == t[..len])
      && (forall i :: 0 <= i < |d.effects| ==> d.effects[i].Wrote? ==>
            d.effects[i].data == Payload(st, t, len, w, h, encode, allocOk))
  {
    var out := if st.stdoutp then [Stdout(t[..len])] else [];
    var data := Payload(st, t, len, w, h, encode, allocOk);
    var sunk := Sinks(st, fc / st.subsamp, data, fs);
    SinksWrite(st, fc / st.subsamp, data, fs);
    forall i | 0 <= i < |out + sunk.effects|
      ensures (out + sunk.effects)[i].Stdout? ==> i == 0 && (out + sunk.effects)[i].data == t[..len]
      ensures (out + sunk.effects)[i].Wrote? ==> (out + sunk.effects)[i].data == data
    {
      if i >= |out| {
        assert (out + sunk.effects)[i] == sunk.effects[i - |out|];
      }
    }
  }

  /** A kept frame is counted exactly when it reaches the end of the handler;
      then the handler asks to stop exactly by the stop rule. */
  lemma DeliveredCounts(st: Settings, fc: nat, t: seq<byte>, len: nat, w: nat, h: nat, fmt: nat,
                        encode: (seq<byte>, int, nat, nat) -> seq<seq<byte>>, allocOk: nat -> bool, fs: Fs)
    requires Clamped(st) && len <= |t|
    requires fmt == Yuyv && st.jpeg != 0 ==> 2 * w * h <= |t| && (w * h) % 2 == 0
    ensures var d := Delivered(st, fc, t, len, w, h, fmt, encode, allocOk, fs);
      && (d.framecount == fc + 1 <==>
            (st.jpeg == 0 || fmt == Yuyv)
            && (st.outfile.Some? ==> fs.tmpOpens && fs.renames) && (st.seqfile.Some? ==> fs.seqOpens))
      && (d.framecount != fc + 1 ==> d.framecount == fc && d.ret == -1)
      && (d.framecount == fc + 1 ==> (d.ret == -1 <==> st.count > 0 && st.count == (fc + 1) / st.subsamp))
      && (d.ret == 0 || d.ret == -1)
  {
    if st.jpeg == 0 || fmt == Yuyv {
      SinksWrite(st, fc / st.subsamp, Payload(st, t, len, w, h, encode, allocOk), fs);
    }
  }

  /** Without `-j` the files get the raw bytes; with it and every allocation
      successful they get the encoder's whole output for the frame's RGB
      image. */
  lemma PayloadIs(st: Settings, t: seq<byte>, len: nat, w: nat, h: nat,
                  encode: (seq<byte>, int, nat, nat) -> seq<seq<byte>>, allocOk: nat -> bool)
    requires len <= |t|
    requires st.jpeg != 0 ==> 2 * w * h <= |t| && (w * h) % 2 == 0
    requires forall i: nat :: allocOk(i)
    ensures st.jpeg == 0 ==> Payload(st, t, len, w, h, encode, allocOk) == t[..len]
    ensures st.jpeg != 0 ==> 4 * Yuv.Pairs(w * h) <= |t|
    ensures st.jpeg != 0 ==>
      Payload(st, t, len, w, h, encode, allocOk) == Flatten(encode(Rgb(t, Yuv.Pairs(w * h)), st.jpeg, w, h))
  {
    if st.jpeg != 0 {
      EvenPairs(w * h);
      assert 2 * w * h == 2 * (w * h);
      var chunks := encode(Rgb(t, Yuv.Pairs(w * h)), st.jpeg, w, h);
      JpegBytesWhole(chunks, allocOk, |chunks|);
      assert chunks[..|chunks|] == chunks;
    }
  }

  // ---------------------------------------------------------------------------
  // on_frame: subsampling and the stop rule over a run of frames

  /** How many of the counter values 0 .. n - 1 are multiples of m: the
      frames among the first n that are kept. */
  function ProcessedCount(n: nat, m: nat): nat
    requires m >= 1
  {
    if n == 0 then 0 else ProcessedCount(n - 1, m) + (if (n - 1) % m == 0 then 1 else 0)
  }

  /** Of the first n frames, the ceiling of n / m are kept (the first one
      always). */
  lemma {:induction false} ProcessedIsCeiling(n: nat, m: nat)
    requires m >= 1
    ensures ProcessedCount(n, m) == (n + m - 1) / m
  {
    if n > 0 {
      ProcessedIsCeiling(n - 1, m);
      var q, r := (n - 1) / m, (n - 1) % m;
      DivUnique(n - 1, m, q, r);
      assert m * (q + 1) == m * q + m;
      if r == 0 {
        DivUnique(n + m - 2, m, q, m - 1);
        DivUnique(n + m - 1, m, q + 1, 0);
      } else {
        DivUnique(n + m - 2, m, q + 1, r - 1);
        DivUnique(n + m - 1, m, q + 1, r);
      }
    }
  }

  /** A kept frame's sequence number `framecount / subsamp` is the number of
      frames kept before it, so sequence files are numbered 0, 1, 2, ... */
  lemma SeqIndexCounts(k: nat, m: nat)
    requires m >= 1 && k % m == 0
    ensures k / m == ProcessedCount(k, m)
  {
    ProcessedIsCeiling(k, m);
    DivUnique(k, m, k / m, 0);
    DivUnique(k + m - 1, m, k / m, m - 1);
  }

  /** The kept frame with counter k (a multiple of m) stops the capture
      exactly when it is kept frame number c - 1 (counting from 0) for
      m == 1, but kept frame number c for m > 1: with subsampling one frame
      more than `-c` asks for is written. */
  lemma StopFrame(c: int, m: nat, k: nat)
    requires c > 0 && m >= 1 && k % m == 0
    ensures (c == (k + 1) / m) <==> k / m == (if m == 1 then c - 1 else c)
  {
    DivUnique(k, m, k / m, 0);
    if m > 1 {
      DivUnique(k + 1, m, k / m, 1);
    }
  }

  /** The handler's state: the settings `main` chose, the number of frames
      seen, and the clock reading the rate limit counts from. */
  class FrameCap {
    const settings: Settings
    var framecount: nat
    var startTime: int

    /** The record `main` hands to `lfc_capture`, stamped at start. */
    constructor (settings: Settings, start: int)
      ensures this.settings == settings && framecount == 0 && startTime == start
    {
      this.settings, framecount, startTime := settings, 0, start;
    }

    /** The polling loop: sleeps 10 ms at a time until more than `rate_ms`
        whole milliseconds have passed since the stamp, then stamps again with
        a fresh reading restamp, taken after the loop's last one. */
    method RateLimit(now: nat -> int, restamp: int)
      requires Ticking(now, startTime) && settings.rateMs >= 0
      requires restamp >= now(Sleeps(now, startTime, settings.rateMs, 0))
      modifies this
      ensures startTime == restamp
      ensures startTime - old(startTime) >= (settings.rateMs + 1) * 1_000_000
      ensures framecount == old(framecount)
    {
      var k := 0;
      while true
        invariant Sleeps(now, startTime, settings.rateMs, k) == Sleeps(now, startTime, settings.rateMs, 0)
        decreases (settings.rateMs + 1) * 1_000_000 - (now(k) - startTime)
      {
        if ElapsedMs(now(k), startTime) > settings.rateMs {
          break;
        }
        assert now(k) + 10_000_000 * (k + 1 - k) <= now(k + 1);
        k := k + 1;
      }
      WaitsPastRate(now, startTime, settings.rateMs);
      startTime := restamp;
    }

    /** The output file through `<outfile>.tmp` and a rename, then the
        sequence file number index. */
    method WriteSinks(index: nat, data: seq<byte>, fs: Fs) returns (w: Written)
      ensures w == Sinks(settings, index, data, fs)
    {
      var effects := [];
      if settings.outfile.Some? {
        var tmp := TmpName(settings.outfile.value);
        if !fs.tmpOpens {
          return Written(false, effects);
        }
        effects := effects + [Wrote(tmp, data)];
        if !fs.renames {
          return Written(false, effects);
        }
        effects := effects + [Renamed(tmp, settings.outfile.value)];
      }
      if settings.seqfile.Some? {
        if !fs.seqOpens {
          return Written(false, effects);
        }
        effects := effects + [Wrote(SeqName(settings.seqfile.value, index), data)];
      }
      return Written(true, effects);
    }

    /** The part of `on_frame` after the overlay, on the decorated frame. */
    method Deliver(frame: array<byte>, len: nat, w: nat, h: nat, fmt: nat,
                   encode: (seq<byte>, int, nat, nat) -> seq<seq<byte>>, allocOk: nat -> bool, fs: Fs)
      returns (ret: int, effects: seq<Effect>)
      requires Clamped(settings) && len <= frame.Length
      requires fmt == Yuyv && settings.jpeg != 0 ==> 2 * w * h <= frame.Length && (w * h) % 2 == 0
      modifies this
      ensures startTime == old(startTime)
      ensures Handled(ret, framecount, effects)
           == Delivered(settings, old(framecount), frame[..], len, w, h, fmt, encode, allocOk, fs)
    {
      effects := if settings.stdoutp then [Stdout(frame[..len])] else [];
      if settings.jpeg != 0 && fmt != Yuyv {
        return -1, effects;
      }
      var data := frame[..len];
      if settings.jpeg != 0 {
        data := Compress(frame, w, h, settings.jpeg, encode, allocOk);
      }
      assert data == Payload(settings, frame[..], len, w, h, encode, allocOk);
      var sunk := WriteSinks(framecount / settings.subsamp, data, fs);
      effects := effects + sunk.effects;
      if !sunk.ok {
        return -1, effects;
      }
      framecount := framecount + 1;
      ret := if settings.count > 0 && settings.count == framecount / settings.subsamp then -1 else 0;
    }

    /** `on_frame`: the rate limit, then either the subsample drop or the
        overlay followed by the delivery of the frame. */
    method OnFrame(frame: array<byte>, len: nat, w: nat, h: nat, fmt: nat, stamp: string,
                   now: nat -> int, restamp: int,
                   encode: (seq<byte>, int, nat, nat) -> seq<seq<byte>>, allocOk: nat -> bool, fs: Fs)
      returns (ret: int, effects: seq<Effect>)
      requires Clamped(settings) && Ticking(now, startTime) && len <= frame.Length
      requires restamp >= now(Sleeps(now, startTime, settings.rateMs, 0))
      requires Fits(settings, frame.Length, w, h, fmt, stamp)
      modifies this, frame
      ensures startTime == restamp
      ensures startTime - old(startTime) >= (settings.rateMs + 1) * 1_000_000
      ensures Dropped(settings, old(framecount)) ==>
        ret == 0 && effects == [] && framecount == old(framecount) + 1 && frame[..] == old(frame[..])
      ensures !Dropped(settings, old(framecount)) ==>
        && frame[..] == Decorated(old(frame[..]), w, h, fmt, settings, stamp)
        && Handled(ret, framecount, effects)
           == Delivered(settings, old(framecount), frame[..], len, w, h, fmt, encode, allocOk, fs)
    {
      RateLimit(now, restamp);
      if framecount % settings.subsamp != 0 {
        framecount := framecount + 1;
        return 0, [];
      }
      Decorate(frame, w, h, fmt, settings, stamp);
      ret, effects := Deliver(frame, len, w, h, fmt, encode, allocOk, fs);
    }

    /** The JPEG path: the RGB image of the frame in a buffer of 3 * w * h
        bytes, handed to the encoder, whose chunks the callback collects. */
    method Compress(frame: array<byte>, w: nat, h: nat, quality: int,
                    encode: (seq<byte>, int, nat, nat) -> seq<seq<byte>>, allocOk: nat -> bool)
      returns (data: seq<byte>)
      requires 2 * w * h <= frame.Length && (w * h) % 2 == 0
      ensures 4 * Yuv.Pairs(w * h) <= frame.Length
      ensures var chunks := encode(Rgb(frame[..], Yuv.Pairs(w * h)), quality, w, h);
        data == JpegBytes(chunks, allocOk, |chunks|)
    {
      var npix := w * h;
      EvenPairs(npix);
      assert 2 * w * h == 2 * npix;
      var rgb := new byte[3 * npix];
      TgYuyv.YuyvToRgb(rgb, frame, npix);
      ConvertedIsRgb(frame[..], rgb[..], Yuv.Pairs(npix));
      var chunks := encode(rgb[..], quality, w, h);
      var img := new ImgBuf();
      for i := 0 to |chunks|
        invariant img.buf == JpegBytes(chunks, allocOk, i) && img.len == |img.buf|
      {
        img.JpegHandler(chunks[i], allocOk(i));
      }
      data := img.buf;
    }
  }
}
