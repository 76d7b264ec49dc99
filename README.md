# framecap in Dafny

framecap is a small set of C tools for Linux video capture (V4L2) and for
YUYV 4:2:2 frame processing. This project models its core and proves
properties of the model:

- **YUYV to RGB24 conversion.** The three clamped fixed-point channel
  formulas and the macropixel loop appear three times in the source:
  `lib/tg_yuyv.h` shifts, while `common/util.c` and `util.c` divide. The
  two C files differ elsewhere, but their channel functions, `chunk`,
  `yuyv422_to_rgb24` and `yuyv_putstr` are the same code (util.c:204-258
  and common/util.c:43-97), so one module models those for both:
  `TgYuyv` models the shifting copy and `CommonUtil` the dividing one.
  Both are proved against one shared specification, `Yuv`.
- **Bitmap text overlay.** This is `tg_yuyv_putstr` and `yuyv_putstr`, an
  8x8 font drawn over a strip of the frame and clipped at the right and
  bottom edges. `Overlay` defines the overlaid frame as a value (`Render`)
  and proves the in-place loops against it.
- **ImgBlk re-tiling** (`util.c`). `yuyv2imgblk` visits the frame in tiles
  of 80x80 macropixels and quantizes each sample. It stores the samples
  semi-planar: Y0/Y1 interleaved in the first half, Cb in the third
  quarter and Cr in the fourth. `imgblk2yuyv` undoes the layout. `Util`
  states both as value functions (`Encode`, `Decode`) and proves the four
  nested loops of each against them. Decoding an encoded frame gives the
  frame quantized. Encoding a decoded, quantized ImgBlk gives it back.
- **The capture protocol.** This covers `lfc_capture` and `lfc_ioctl` in
  `include/libframecap.h`, and `v4l2cap_new/next/done/free` in
  `common/v4l2cap.c`. `Kernel` describes the operating system as a
  script of outcomes:
  - each open, ioctl, select, mmap and handler call takes the next
    outcome;
  - every call is appended to a log.

  Specification functions say what each operation does to that
  environment. Methods that make the same calls on a `Kernel.Device`
  object are proved to agree with them.
- **The framecap front end** (`apps/framecap.c`). `main` parses the
  options and clamps them. The frame handler `on_frame` applies, in turn:
  - the rate limit;
  - subsampling;
  - the banner and timestamp overlay;
  - the JPEG gate;
  - the file sinks;
  - the stop rule.

  Its state (`framecount`, `start_time`) lives in the class
  `FrameCapApp.FrameCap`. The clock, the timestamp text, the JPEG encoder,
  the allocator and the file-system outcomes are parameters. The writes
  are returned as a list of effects.
- **vcat** (`apps/vcat.c`). The option rules, then a round-robin schedule
  of `v4l2cap_next`/`v4l2cap_done` calls and frame writes over the
  devices.
- **histobytes** (`apps/histobytes.c`). A byte histogram together with its
  running maximum, printed as 256 scaled bars.

The model also records how the source behaves where its comments, its
usage text or a reasonable reading expect otherwise. Where the intent is
written down (a header comment, a usage text, a bound the code itself
uses), "## Findings" below pairs the behaviour as written with a corrected
definition. The other cases are proved as lemmas about the code as
written:

- The select test of `v4l2cap_next` is inverted. A device that reports
  ready yields NULL, and only a select that fails with an error other than
  EINTR leads on to the dequeue (`V4l2Cap.ReadyYieldsNothing`).
- `v4l2cap_new` never closes the device or unmaps a buffer on its failure
  paths (`V4l2Cap.NewHolds`).
- When an open fails, vcat exits without freeing the devices it has
  already opened (`Vcat.Run`).
- In framecap's `-r` case the `break` is missing, so the case falls into
  `-t` and turns the timestamp on (`FrameCapApp.RateStamps`).
- Subsampling changes how many frames are kept and when the capture stops:
  - of the first n frames, ⌈n/subsamp⌉ are kept, not ⌊n/subsamp⌋
    (`FrameCapApp.ProcessedIsCeiling`);
  - with subsampling, the stop rule writes one frame more than `-c` asks
    for (`FrameCapApp.StopFrame`).
- For an odd pixel count the converters write three bytes beyond the
  `3 * npix` their comment requires the caller to allocate
  (`Yuv.OddOverrun`).
- histobytes scales bars by `max/76` with integer division, so a bar can
  reach 152 marks rather than the intended 76 (`Histobytes.ScaledBounds`,
  `Histobytes.MarksBound`).
- `chunk` tests the context `jbuf` for NULL instead of the result of
  `realloc`. An allocation failure therefore goes undetected, and the
  model assumes `realloc` succeeds.

## Model

| member | source | states |
|---|---|---|
| Bits.ShlIsMul | lib/tg_yuyv.h:63 | a left shift by n multiplies by 2^n, so `_y<<5` is 32·Y |
| Bits.ShrIsDiv | lib/tg_yuyv.h:69 | a right shift by n divides by 2^n rounding down, so `r >> 5` divides by 32 |
| Yuv.ScalesUnique | lib/tg_yuyv.h:63-71 | the clamp-and-scale rule gives each scaled sum at most one channel byte |
| Yuv.ScalesExact | lib/tg_yuyv.h:63-69 | a sum of 32·r, with r a byte, scales back to r exactly |
| Yuv.NeutralChroma | lib/tg_yuyv.h:56-110 | with Cb = Cr = 128 all three sums are 32·Y and each scales to Y, with no studio-range expansion |
| Yuv.Pairs | lib/tg_yuyv.h:117 | the loop visits ⌈npix/2⌉ macropixels: the smallest k with 6k ≥ 3·npix, and 0 for npix ≤ 0 |
| Yuv.OddOverrun | lib/tg_yuyv.h:33-35 | for an odd npix the loop writes 3·npix + 3 bytes, three past the documented buffer |
| Yuv.ConvertedBytes | lib/tg_yuyv.h:117-134 | every RGB byte i of a conversion is channel i mod 3 of its pixel, scaled from the sum of its macropixel's luma and shared chroma |
| Yuv.ConvertStep | lib/tg_yuyv.h:117-134 | converting the next macropixel without touching earlier bytes extends a conversion by one macropixel |
| Yuv.ConvertedUnique | common/util.c:153-174 | two conversions of the same macropixels agree byte for byte, so every copy of the converter computes the same image |
| TgYuyv.IntYcrToR | lib/tg_yuyv.h:56-72 | red is 0 for a non-positive sum 32Y + 45(Cr−128), 255 from 32·255 on, and the sum shifted right by 5 otherwise |
| TgYuyv.IntYcrcbToG | lib/tg_yuyv.h:74-92 | green uses the sum 32Y − 11(Cb−128) − 23(Cr−128) with the same clamp |
| TgYuyv.IntYcbToB | lib/tg_yuyv.h:94-110 | blue uses the sum 32Y + 57(Cb−128) with the same clamp |
| TgYuyv.GreyIsLuma | lib/tg_yuyv.h:56-110 | with neutral chroma every channel equals the luma (235 stays 235) |
| TgYuyv.ExpandMacropixel | lib/tg_yuyv.h:118-133 | one loop iteration writes both pixels of macropixel k from its two lumas and shared chroma and changes no other RGB byte |
| TgYuyv.YuyvToRgb | lib/tg_yuyv.h:113-135 | `yuyv_to_rgb` converts the first ⌈npix/2⌉ macropixels and leaves every later RGB byte unchanged |
| TgYuyv.PutStr | lib/tg_yuyv.h:270-301 | `tg_yuyv_putstr` turns the frame into its overlay with `tg_font` and the TEXT/BACK colours |
| TgYuyv.TextColours | lib/tg_yuyv.h:289-298 | inside the clipped strip the luma becomes 0xFF on a set glyph bit and 0x00 otherwise, and the chroma becomes 0x7F; outside it both bytes keep their value |
| CommonUtil.YcrToR | common/util.c:43-59 | the dividing red channel satisfies the shared clamp-and-scale rule |
| CommonUtil.YcrcbToG | common/util.c:61-79 | the dividing green channel satisfies the shared clamp-and-scale rule |
| CommonUtil.YcbToB | common/util.c:81-97 | the dividing blue channel satisfies the shared clamp-and-scale rule |
| CommonUtil.ChannelsAgree | util.c:204-258 | the dividing channels (`/32`) equal the shifting ones (`>>5`) for every input |
| CommonUtil.ExpandMacropixel | common/util.c:157-173 | one iteration of `yuyv422_to_rgb24` converts macropixel k and touches no other byte |
| CommonUtil.Yuyv422ToRgb24 | common/util.c:153-174 | writes only RGB bytes below 6·⌈npix/2⌉, reads only YUYV bytes below 4·⌈npix/2⌉, and holds the conversion of those macropixels |
| CommonUtil.JBuf.constructor | common/util.c:99-102 | a fresh JPEG buffer is empty with length 0 |
| CommonUtil.JBuf.Chunk | common/util.c:106-116 | `chunk` appends the first size bytes after the old ones and grows len by exactly size |
| CommonUtil.YuyvPutStr | common/util.c:220-246 | `yuyv_putstr`, with arguments (str, x, y, yuyv, w, h), is the same clipped overlay for the given font and colours |
| Overlay.Render | lib/tg_yuyv.h:281-299 | the overlaid frame has the length of the original |
| Overlay.RenderAt | lib/tg_yuyv.h:283-298 | at a pixel inside the clipped strip both bytes get the glyph's ink; any other pixel keeps its bytes |
| Overlay.RenderBeyond | lib/tg_yuyv.h:291-297 | bytes past the 2·w·h bytes of the frame are never written |
| Overlay.RenderFrame | lib/tg_yuyv.h:281-299 | a byte that changes belongs to a pixel (x, y) with sx ≤ x < min(sx + 8·len, w) and sy ≤ y < min(sy + 8, h) |
| Overlay.PaintStep | lib/tg_yuyv.h:289-298 | drawing one pixel writes its two bytes with their ink and keeps every other byte |
| Overlay.PaintEnd | lib/tg_yuyv.h:281-284 | once eight rows are drawn, or the bottom edge is reached, the frame is the overlay |
| Overlay.PutStr | lib/tg_yuyv.h:281-300 | the row and column loops, clipped at `h - 1` and `w - 1`, leave the frame equal to its overlay |
| Util.Quantize | util.c:103-113 | a sample farther than the coarse threshold from 0x80 loses its three low bits, and one farther than the fine threshold loses two; otherwise it is unchanged, and it never grows |
| Util.QuantizeLuma | util.c:103-107 | a luma sample within 0x10 of 0x80 is kept, one farther than 0x20 becomes a multiple of 8, and none loses more than its three low bits |
| Util.QuantizeChroma | util.c:109-113 | a chroma sample within 0x08 of 0x80 is kept, one farther than 0x10 becomes a multiple of 8, and none loses more than its three low bits |
| Util.QuantizeIsBanded | util.c:103-113 | the `&`-mask quantizer equals the band rule written with remainders |
| Util.QuantizeIdempotent | util.c:103-113 | quantizing a quantized luma or chroma sample changes nothing |
| Util.QuantizeFrame | util.c:103-113 | quantizing every sample in place, by its position in the macropixel, keeps the frame's length |
| Util.StepCoordinates | util.c:64-68 | every step of the traversal has one band, tile, row and column, with the tile inside the band |
| Util.PixelCoordinates | util.c:64-73 | every macropixel of the frame lies in one band, tile, row and column of the traversal |
| Util.PosIndex | util.c:64-73 | step k of the traversal visits a macropixel of the frame, and the inverse gives k back |
| Util.IndexPos | util.c:64-73 | every macropixel of the frame is visited by exactly one step |
| Util.EntryInverse | util.c:59-62 | the ImgBlk entries of different samples are different bytes: Y0 at 2·idx, Y1 at 2·idx + 1, Cb at len/2 + idx, Cr at 3·len/4 + idx |
| Util.Encode | util.c:51-126 | the ImgBlk of a frame holds four bytes per macropixel |
| Util.Decode | util.c:128-157 | the frame of an ImgBlk holds four bytes per macropixel |
| Util.DecodeEncode | util.c:128-157 | `imgblk2yuyv(yuyv2imgblk(f))` is f with every sample quantized in place |
| Util.EncodeQuantized | util.c:103-120 | every byte of an ImgBlk is already quantized |
| Util.EncodeDecode | util.c:128-157 | encoding the decoding of a quantized ImgBlk gives the ImgBlk back |
| Util.StoreMacropixel | util.c:70-120 | the innermost body stores the four quantized samples of macropixel p at the entries of step idx and touches no other step |
| Util.StoreRow | util.c:68-121 | the `xx` loop stores 80 more steps |
| Util.StoreTile | util.c:67-122 | the `yy` loop stores a tile of 6400 steps |
| Util.StoreBand | util.c:66-123 | the `bx` loop stores a band of 80·W steps |
| Util.StoreBands | util.c:65-124 | the `by` loop stores every step of the frame |
| Util.YuyvToImgBlk | util.c:51-126 | `yuyv2imgblk` returns the encoding of the frame |
| Util.PlaceMacropixel | util.c:147-151 | the innermost body copies the four entries of step idx into macropixel p and touches no other macropixel |
| Util.PlaceRow | util.c:146-152 | the `xx` loop places 80 more steps |
| Util.PlaceTile | util.c:145-153 | the `yy` loop places a tile of 6400 steps |
| Util.PlaceBand | util.c:144-154 | the `bx` loop places a band of 80·W steps |
| Util.PlaceBands | util.c:143-155 | the `by` loop places every step |
| Util.ImgBlkToYuyv | util.c:128-157 | `imgblk2yuyv` returns the decoding of the ImgBlk |
| LibFrameCap.IoctlAnswer | include/libframecap.h:267-272 | the retry loop returns an outcome that is not EINTR and consumes at least one outcome unless the device has stopped answering |
| LibFrameCap.IoctlRest | include/libframecap.h:270 | the retry loop consumes a prefix of the script |
| LibFrameCap.IoctlSkips | include/libframecap.h:270 | every outcome it consumed except the last was an EINTR failure |
| LibFrameCap.IoctlLast | include/libframecap.h:270-271 | the result is the last outcome consumed, or a failure once the script has run out |
| LibFrameCap.IoctlRetries | include/libframecap.h:267-272 | the consumed outcomes are interrupted attempts followed by the result |
| LibFrameCap.IoctlLogs | include/libframecap.h:270 | the loop logs only repeated attempts of the same ioctl |
| LibFrameCap.LfcIoctl | include/libframecap.h:267-272 | `lfc_ioctl` on a device returns and leaves what the retry specification says |
| LibFrameCap.FixFormat | include/libframecap.h:146-152 | bytesperline ≥ 2·width and sizeimage ≥ bytesperline·height afterwards; each is raised only when it is smaller |
| LibFrameCap.SetupStage | include/libframecap.h:117-199 | setup succeeds only with the capture and streaming capabilities, exactly `LFC_FBUFS` buffers granted and the fixed format |
| LibFrameCap.MapStage | include/libframecap.h:171-194 | the buffer loop succeeds only after the driver answered the query, the mapping and the queueing of every slot |
| LibFrameCap.MapBuffers | include/libframecap.h:171-194 | the buffer loop queries, maps and queues each slot, the first failure ending it |
| LibFrameCap.Setup | include/libframecap.h:117-199 | the method part before the capture loop agrees with the setup specification |
| LibFrameCap.LoopExit | include/libframecap.h:202-240 | the loop as written ends without an error only when the handler returns a non-zero value |
| LibFrameCap.CaptureFrames | include/libframecap.h:202-240 | the capture loop agrees with its specification: EINTR on select and EAGAIN on DQBUF repeat, a timeout only warns, a rejected index or any other failure is an error, and a non-zero handler result leaves without requeueing |
| LibFrameCap.Unmaps | include/libframecap.h:254-255 | the teardown unmaps slots 0 .. n − 1 in order |
| LibFrameCap.TeardownRun | include/libframecap.h:245-263 | the shared exit returns −1 exactly when an error was set and 0 otherwise, after the earlier calls and at least STREAMOFF, the unmaps and close |
| LibFrameCap.CaptureRun | include/libframecap.h:101-264 | `lfc_capture` returns −1 or 0, and −1 whenever setup fails |
| LibFrameCap.Teardown | include/libframecap.h:245-263 | the shared exit stops streaming, unmaps every slot, closes, and returns −1 exactly when an error was set |
| LibFrameCap.LfcCapture | include/libframecap.h:101-264 | `lfc_capture` is setup, the loop when setup succeeded, then the teardown |
| LibFrameCap.LoopNeedsHandler | include/libframecap.h:233-235 | without a handler the loop can end only with an error |
| LibFrameCap.CaptureResult | include/libframecap.h:260-263 | the result is −1 or 0, never the handler's value; 0 needs a handler and a complete setup on a capture-and-stream device with `LFC_FBUFS` buffers |
| LibFrameCap.TeardownEnds | include/libframecap.h:249-258 | the teardown's last calls are STREAMOFF, munmap of slots 0 and 1, and close |
| LibFrameCap.CaptureTeardown | include/libframecap.h:245-258 | every path out of `lfc_capture`, even a failed open, ends with STREAMOFF, both munmaps and close |
| LibFrameCap.IndexOffByOne | include/libframecap.h:229-230 | a dequeued index of `LFC_FBUFS` passes the index test and reaches the handler |
| LibFrameCap.TimeoutStillDequeues | include/libframecap.h:209-222 | a select timeout goes on to DQBUF |
| LibFrameCap.MapRoundMaps | include/libframecap.h:171-194 | a successful round maps exactly its own slot |
| LibFrameCap.MapOrder | include/libframecap.h:171-194 | a successful buffer loop maps the slots in index order, once each |
| LibFrameCap.LoopStops | include/libframecap.h:232-235 | for any index bound, the loop ends without an error only through a handler that returned a non-zero value, which it reports |
| LibFrameCap.FixedResult | include/libframecap.h:86-89 | the corrected `lfc_capture` never returns 0: −1 after an error, otherwise the handler's non-zero value, which needs a handler and a complete setup |
| LibFrameCap.LoopHandles | include/libframecap.h:229-235 | every handler call the loop makes is for an index no greater than the bound it accepts |
| LibFrameCap.FixedHandlesSlots | include/libframecap.h:229-235 | with the test `index >= LFC_FBUFS` the handler is only called for one of the `LFC_FBUFS` mapped slots |
| V4l2Cap.IoctlAnswer | common/v4l2cap.c:52-64 | the retry loop returns an outcome that is not EINTR and consumes at least one outcome unless the device has stopped answering |
| V4l2Cap.IoctlRetries | common/v4l2cap.c:56-62 | the consumed outcomes are interrupted attempts followed by the result |
| V4l2Cap.IoctlSleeps | common/v4l2cap.c:56-62 | successive attempts are separated by one 10 ms sleep each |
| V4l2Cap.IoctlQuiet | common/v4l2cap.c:56-62 | the loop logs only ioctls and sleeps: no map, unmap or close |
| V4l2Cap.V4l2Ioctl | common/v4l2cap.c:52-64 | `v4l2cap_ioctl` on a device agrees with its specification |
| V4l2Cap.Cap.constructor | common/v4l2cap.c:80-86 | the zeroed context has its count, `currentbuf` −1 and a fresh address array |
| V4l2Cap.Identify | common/v4l2cap.c:88-100 | the first checks pass exactly when the open gives a non-negative fd and QUERYCAP returns 0 with both the capture and the streaming capability; nothing is mapped |
| V4l2Cap.Configure | common/v4l2cap.c:102-141 | the crop results are ignored; the stage passes exactly when the format read and the buffer request succeed and the driver grants exactly bufcnt buffers |
| V4l2Cap.BufferStage | common/v4l2cap.c:144-166 | a successful buffer loop has one address per buffer |
| V4l2Cap.NewStage | common/v4l2cap.c:68-174 | `v4l2cap_new` returns a context only for an open device with the capture and streaming capabilities that granted exactly bufcnt buffers, and the context has an address for each |
| V4l2Cap.MapBuffers | common/v4l2cap.c:144-166 | the buffer loop fills `fbuf` with the mmap results |
| V4l2Cap.New | common/v4l2cap.c:68-174 | `v4l2cap_new` returns a context exactly when every step succeeded, with the opened fd and the mapped addresses |
| V4l2Cap.NewHolds | common/v4l2cap.c:88-171 | the first call is the open, and no path unmaps or closes anything, failure paths included |
| V4l2Cap.BufferOrder | common/v4l2cap.c:144-166 | a successful buffer loop maps the slots in index order, once each |
| V4l2Cap.NewMaps | common/v4l2cap.c:144-173 | a new context has mapped slots 0 .. bufcnt − 1 in order, and its last call started streaming |
| V4l2Cap.IoctlTurns | common/v4l2cap.c:56-62 | a retried ioctl maps or queues what its request names once, however many attempts it makes |
| V4l2Cap.BufferTurns | common/v4l2cap.c:144-166 | a successful buffer loop maps each slot and then queues it, slot by slot in index order |
| V4l2Cap.NewQueues | common/v4l2cap.c:144-173 | a context `v4l2cap_new` returns has had every slot 0 .. bufcnt − 1 mapped and then queued; no other call maps or queues a buffer |
| V4l2Cap.SelectAnswer | common/v4l2cap.c:225-237 | the select loop repeats only on EINTR |
| V4l2Cap.DequeueAnswer | common/v4l2cap.c:256-267 | the dequeue loop repeats only on EAGAIN |
| V4l2Cap.NextGrab | common/v4l2cap.c:211-290 | a frame is handed out only for a dequeued index of at most bufcnt |
| V4l2Cap.Next | common/v4l2cap.c:211-290 | `v4l2cap_next` returns the specified frame and writes only the outputs the caller passed, and only for a frame |
| V4l2Cap.ReadyYieldsNothing | common/v4l2cap.c:225-237 | a frame comes only after a select failure other than EINTR; a ready device gives NULL |
| V4l2Cap.FrameSource | common/v4l2cap.c:269-289 | the frame is the address of the dequeued slot, or, for the index bufcnt, the word past the array |
| V4l2Cap.IndexOffByOne | common/v4l2cap.c:269-270 | with two buffers, index 2 hands out the stray word |
| V4l2Cap.Lowest | common/v4l2cap.c:299-306 | the search finds the lowest slot holding the frame, or −1 when no slot does |
| V4l2Cap.Done | common/v4l2cap.c:293-321 | `v4l2cap_done` returns −1 without any call for an unknown frame; otherwise it queues the lowest matching slot and returns −1 only if QBUF fails |
| V4l2Cap.NextDone | common/v4l2cap.c:289-306 | with distinct addresses, `done` finds the slot `next` dequeued, and a stray frame is refused |
| V4l2Cap.FixedFrameSource | common/v4l2cap.c:269-289 | with the test `index >= bufcnt` every frame is the address of the dequeued slot, and for distinct addresses `v4l2cap_done` hands that slot back |
| V4l2Cap.UnmapStage | common/v4l2cap.c:190-200 | the unmapping loop keeps what was logged before and logs at least one call per slot |
| V4l2Cap.FreeRun | common/v4l2cap.c:179-207 | `v4l2cap_free` keeps what was logged before and ends by closing the device |
| V4l2Cap.Free | common/v4l2cap.c:179-207 | `v4l2cap_free` always returns 0 after STREAMOFF, the unmapping loop and close |
| V4l2Cap.UnmapCount | common/v4l2cap.c:190-200 | the unmapping loop unmaps once per slot and maps nothing |
| V4l2Cap.FreeReleases | common/v4l2cap.c:185-203 | free unmaps bufcnt times, maps nothing and ends by closing |
| V4l2Cap.NewThenFree | common/v4l2cap.c:144-200 | a context that is set up and freed makes bufcnt maps and bufcnt unmaps |
| FrameCapApp.Apply | apps/framecap.c:282-333 | each option keeps the numeric settings in their clamped ranges |
| FrameCapApp.Strlen | apps/framecap.c:350-360 | `strlen` counts the bytes of a name's UTF-8 encoding before any NUL, one per character for ASCII |
| FrameCapApp.StrlenUniform | apps/framecap.c:350-356 | a name of one repeated character has that character's UTF-8 width in bytes per character |
| FrameCapApp.MultibyteTooLong | apps/framecap.c:350-354 | an output name of 120 two-byte characters is 240 bytes and is refused |
| FrameCapApp.Startup | apps/framecap.c:277-360 | a capture has exactly one operand, its device, and names of at most 235 bytes; a refused name is longer than 235 bytes; the usage exit means the operand count is not one |
| FrameCapApp.ParseCommandLine | apps/framecap.c:277-360 | the option loop and the operand and byte-length checks give the specified launch |
| FrameCapApp.FoldClamps | apps/framecap.c:287-333 | after any option list count ≥ 0, 0 ≤ jpeg ≤ 3, subsamp ≥ 1 and rate ≥ 0 |
| FrameCapApp.StartupClamps | apps/framecap.c:342-360 | a capture starts with one operand as the device, clamped settings and names of at most 235 bytes |
| FrameCapApp.UnknownAborts | apps/framecap.c:335-338 | an unknown option anywhere aborts |
| FrameCapApp.FoldKeepsStamp | apps/framecap.c:331-333 | once on, the timestamp stays on |
| FrameCapApp.RateStamps | apps/framecap.c:325-333 | any `-r` turns the timestamp on (missing break) |
| FrameCapApp.DigitsValue | apps/framecap.c:226 | the decimal digits of n read back as n |
| FrameCapApp.ZerosValue | apps/framecap.c:226 | leading zeros do not change the value |
| FrameCapApp.PaddedValue | apps/framecap.c:226 | the `%06zu` field has at least six digits and reads back as n |
| FrameCapApp.SeqNamesDistinct | apps/framecap.c:226 | different frame numbers give different sequence file names |
| FrameCapApp.Sleeps | apps/framecap.c:133-148 | the polling loop stops at the first reading more than rate_ms whole milliseconds after the stamp |
| FrameCapApp.WaitsPastRate | apps/framecap.c:137-142 | the strict test makes every call wait at least rate_ms + 1 milliseconds, so 1 ms even for rate 0 |
| FrameCapApp.Decorated | apps/framecap.c:160-172 | drawing the banner and timestamp keeps the frame's length |
| FrameCapApp.DecoratedRows | apps/framecap.c:160-172 | a byte changes only if the frame is YUYV with a banner or timestamp, and it lies in the first 2·w·h bytes above row StampRow + 8 |
| FrameCapApp.Decorate | apps/framecap.c:160-172 | drawing the banner and then the timestamp in place leaves the decorated frame |
| FrameCapApp.BannerSurvives | apps/framecap.c:161-172 | a drawn banner's pixels in rows 0..7 survive the timestamp drawn at row 8 |
| FrameCapApp.PixelByte | lib/tg_yuyv.h:118-133 | each RGB byte the frame handler's converter computes meets the shared clamp-and-scale rule |
| FrameCapApp.Rgb | apps/framecap.c:184-186 | the RGB image holds six bytes per macropixel |
| FrameCapApp.ConvertedIsRgb | apps/framecap.c:186 | any conversion buffer `yuyv_to_rgb` leaves is that RGB image |
| FrameCapApp.JpegBytesWhole | apps/framecap.c:91-108 | with every allocation successful, the callback's buffer is the concatenation of the chunks |
| FrameCapApp.ImgBuf.constructor | apps/framecap.c:189-191 | the JPEG buffer starts empty and not to be freed |
| FrameCapApp.ImgBuf.JpegHandler | apps/framecap.c:91-108 | `jpeg_handler` appends the chunk, grows len by its size and sets fre; on allocation failure nothing changes |
| FrameCapApp.EvenPairs | apps/framecap.c:184-186 | for an even npix the converter reads 2·npix bytes and writes 3·npix |
| FrameCapApp.Payload | apps/framecap.c:180-199 | without `-j` the file sinks get the first len bytes of the frame |
| FrameCapApp.Sinks | apps/framecap.c:203-236 | a success writes each configured file once and renames the output file once; a failure needs a configured file |
| FrameCapApp.Delivered | apps/framecap.c:174-249 | the handler returns 0 or −1, counts the frame at most once and returns 0 only for a counted frame; the standard output write comes first exactly when it is on |
| FrameCapApp.SinksWrite | apps/framecap.c:203-236 | the sinks write only the payload, the output file through `<file>.tmp` and a rename, and succeed exactly when each open and rename they need does |
| FrameCapApp.JpegGate | apps/framecap.c:175-198 | `-j` on a non-YUYV frame fails after the stdout write, before any file sink, without counting |
| FrameCapApp.DeliveredData | apps/framecap.c:175-236 | stdout gets the raw decorated bytes first; every file write is the payload, named by the processed-frame count |
| FrameCapApp.DeliveredCounts | apps/framecap.c:203-249 | a kept frame is counted exactly when every sink succeeds, and then it stops exactly when count > 0 and count == framecount/subsamp |
| FrameCapApp.PayloadIs | apps/framecap.c:180-199 | without `-j` the files get the raw bytes; with it, the encoder's whole output for the RGB image |
| FrameCapApp.ProcessedIsCeiling | apps/framecap.c:153-157 | ⌈n/subsamp⌉ of the first n frames are kept |
| FrameCapApp.SeqIndexCounts | apps/framecap.c:225-226 | a kept frame's sequence number is the number of frames kept before it |
| FrameCapApp.StopFrame | apps/framecap.c:245-249 | the capture stops after count kept frames for subsamp 1, but after count + 1 for subsamp > 1 |
| FrameCapApp.FrameCap.constructor | apps/framecap.c:258-274 | the handler state starts with framecount 0 and the start stamp |
| FrameCapApp.FrameCap.RateLimit | apps/framecap.c:133-150 | the polling loop waits until more than rate_ms whole milliseconds have passed, then start_time takes a separate later reading, at least rate_ms + 1 ms after the old stamp; framecount is unchanged |
| FrameCapApp.FrameCap.WriteSinks | apps/framecap.c:203-236 | the file sinks do what their specification says |
| FrameCapApp.FrameCap.Deliver | apps/framecap.c:174-249 | after the overlay the handler writes, counts and stops as specified |
| FrameCapApp.FrameCap.OnFrame | apps/framecap.c:113-250 | `on_frame` always re-stamps the clock with the reading taken after the rate limit; a dropped frame only increments framecount and returns 0; a kept one is decorated and delivered |
| FrameCapApp.FrameCap.Compress | apps/framecap.c:180-196 | the JPEG path encodes the RGB image of the frame and collects the chunks through the callback |
| Vcat.Options | apps/vcat.c:83-109 | any unknown option bails, and every `-e` that is kept is at least 1 |
| Vcat.Startup | apps/vcat.c:83-113 | a capture has one device per operand and at least one; no operand bails |
| Vcat.ParseCommandLine | apps/vcat.c:83-113 | the option loop gives the specified launch |
| Vcat.OptionsBounds | apps/vcat.c:88-104 | total and each stay at least 1 |
| Vcat.StartupBounds | apps/vcat.c:83-113 | a capture has at least one device and total, each ≥ 1 |
| Vcat.ZeroTotalForever | apps/vcat.c:88-92 | `-t 0` means `UINT64_MAX` iterations |
| Vcat.OptionsKeepTotal | apps/vcat.c:83-109 | without `-t` the total stays as it was |
| Vcat.DeviceOf | apps/vcat.c:137-146 | the device of an iteration is below devcnt |
| Vcat.OpenFrom | apps/vcat.c:116-124 | the devices are opened in order; every open before the last one made succeeded, and stopping early means that open failed |
| Vcat.OpenAll | apps/vcat.c:116-124 | the devices open in order; success means every open succeeded |
| Vcat.CaptureOne | apps/vcat.c:136-146 | one capture is the discards, one fetch, a write if a frame came back, and `done` either way |
| Vcat.CaptureEach | apps/vcat.c:133-147 | the inner loop makes `each` captures on one device |
| Vcat.Schedule | apps/vcat.c:130-148 | every fetch and return of the schedule is made on one of the opened devices |
| Vcat.CaptureAll | apps/vcat.c:130-148 | the outer loop follows the schedule |
| Vcat.FreeAll | apps/vcat.c:151-152 | every device is freed in order |
| Vcat.Run | apps/vcat.c:116-155 | a failed open exits 1 with no frees; otherwise the opens, the schedule, the frees and 0 |
| Vcat.CountAppend | apps/vcat.c:130-148 | write, fetch and return counts add up over concatenated call logs |
| Vcat.RoundsOnDevice | apps/vcat.c:133-147 | every call of an outer iteration is on its one device |
| Vcat.DiscardingOnDevice | apps/vcat.c:136-138 | the discards are on the iteration's device |
| Vcat.ScheduleDevices | apps/vcat.c:137-146 | iteration ii uses device ii mod devcnt for all its calls |
| Vcat.RoundCounts | apps/vcat.c:136-146 | a capture makes discard + 1 fetches and as many returns, and one write exactly when a frame came back |
| Vcat.RoundsFetches | apps/vcat.c:133-147 | an iteration makes each·(discard + 1) fetches and as many returns |
| Vcat.RoundsWrites | apps/vcat.c:133-147 | an iteration that always gets frames writes `each` of them |
| Vcat.ScheduleWrites | apps/vcat.c:130-148 | when every fetch returns a frame the program writes total·each frames |
| Vcat.FixedWrites | apps/vcat.c:53-54 | the capture the usage text describes, `each` frames per device until `total` are out, writes exactly `total` frames when every fetch returns one |
| Vcat.ScheduleFetches | apps/vcat.c:130-148 | it makes total·each·(discard + 1) fetches |
| Vcat.ScheduleBalanced | apps/vcat.c:140-146 | every fetched frame is handed back, NULL or not |
| Vcat.DeviceOfIsMod | apps/vcat.c:137 | the repeated subtraction is ii mod devcnt |
| Histobytes.Occurrences | apps/histobytes.c:19-20 | a bucket's count is at most the number of bytes counted, and 0 exactly when the value does not occur |
| Histobytes.Peak | apps/histobytes.c:21-23 | the running maximum is at most the number of bytes read |
| Histobytes.BucketsTotal | apps/histobytes.c:19-20 | the 256 counts add up to the number of bytes |
| Histobytes.PeakIsLargest | apps/histobytes.c:21-23 | the peak bounds every count and is itself a count |
| Histobytes.PeakUnique | apps/histobytes.c:21-23 | a count that bounds every bucket and is one is the peak |
| Histobytes.PeakPositive | apps/histobytes.c:16-23 | a non-empty input has a peak of at least 1 |
| Histobytes.Tally | apps/histobytes.c:19-24 | `histo[v]` is the number of bytes equal to v, and max is the largest count |
| Histobytes.Divisor | apps/histobytes.c:26 | max raised to 76 gives a divisor q ≥ 1 with 76·q ≤ max < 76·q + 76, so the bars never divide by zero |
| Histobytes.Marks | apps/histobytes.c:30-34 | a bar is empty exactly when its bucket is |
| Histobytes.ScaledBounds | apps/histobytes.c:32 | a scaled count is at most 151, and the peak scales to at least 76 |
| Histobytes.BarsOrdered | apps/histobytes.c:30-34 | bars keep the order of the counts |
| Histobytes.MarksBound | apps/histobytes.c:26-34 | a bar has at most 152 marks |
| Histobytes.Hex2 | apps/histobytes.c:29 | `%2x` is two characters wide |
| Histobytes.HexRoundTrip | apps/histobytes.c:29 | the label reads back as its bucket |
| Histobytes.Line | apps/histobytes.c:29-35 | a line has the marks plus four characters, a `|` after the two-character label, and ends in a newline |
| Histobytes.LineShape | apps/histobytes.c:29-35 | a line is the label, `|`, the marks and a newline, and its label names the bucket |
| Histobytes.PrintLine | apps/histobytes.c:29-35 | one iteration prints its line |
| Histobytes.PrintAll | apps/histobytes.c:28-36 | exactly 256 lines in bucket order, scaled by max/76 |
| Histobytes.Run | apps/histobytes.c:15-37 | empty input exits 1 with no output; otherwise status 0 and 256 lines, each for its bucket's count and the divisor |

## Findings

Nothing was executed. The as-written member proves the behaviour, either on the concrete input shown or for all inputs, the one shown among them; the corrected member proves the intended property for all inputs.

| source | as written | input that shows it | evidently intended | confidence | as-written member | corrected member |
|---|---|---|---|---|---|---|
| include/libframecap.h:260-263 | `lfc_capture` returns 0 when the handler stops the capture, and -1 on an error | a complete setup, then a handler returning 1 for the first frame: the result is 0 | return the handler's non-zero value, as the comments at include/libframecap.h:86-89 and 100 say | not executed | LibFrameCap.CaptureResult | LibFrameCap.FixedResult |
| include/libframecap.h:229-230 | `buf.index > LFC_FBUFS` lets index 2 through to the handler | select ready, then DQBUF with index 2: the handler is called with slot 2 | reject `index >= LFC_FBUFS`, the two slots the loop mapped | not executed | LibFrameCap.IndexOffByOne | LibFrameCap.FixedHandlesSlots |
| common/v4l2cap.c:269-270 | `buf.index > ctx->bufcnt` lets index bufcnt through and returns the word past `fbuf` | two buffers, then DQBUF with index 2: the frame is the stray word | reject `index >= bufcnt` | not executed | V4l2Cap.IndexOffByOne | V4l2Cap.FixedFrameSource |
| apps/vcat.c:130-148 | the outer loop runs `total` times and writes `each` frames each time | `-t 3 -e 2`, every fetch a frame: 6 frames are written | "Output [t] Total frames" (apps/vcat.c:53): `total` frames in all | not executed | Vcat.ScheduleWrites | Vcat.FixedWrites |

The corrected definitions are `LibFrameCap.LoopExitFixed` and `LibFrameCap.FixedRun` (the capture loop and `lfc_capture`), `V4l2Cap.NextGrabFixed` (`v4l2cap_next`) and `Vcat.FixedFrom` (the vcat capture). The methods model the code as written.

## Left out

- Device semantics: every open, ioctl, select and mmap of `include/libframecap.h` and `common/v4l2cap.c` answers with the next outcome of a script, and munmap, close and nanosleep are only logged. Which outcomes a real driver gives is not modelled.
- File and stream input/output: `file_read` (util.c:160-201) and `file_write_atomic` (util.c:284-311, common/util.c:123-150) are left out as system calls. The open, write, fsync and rename calls of `on_frame` are effects whose success is a parameter. The results of write and fsync are ignored by the code and are not modelled.
- JPEG encoding: `tje_encode_with_func` comes from tiny_jpeg.h, which is not part of this model. It is a parameter that returns the chunks. `yuyv422_to_jpeg` and `rgb24_to_jpeg` (common/util.c:177-217) are glue around it and are left out.
- Clock and time formatting: `clock_gettime` is the parameter `now` inside the polling loop and the parameter `restamp` after it, and `time`, `localtime` and `asctime` give the parameter `stamp`.
- FrameCapApp.FrameCap.RateLimit: `Ticking` requires each 10 ms sleep to advance the clock by at least 10 ms, so a `nanosleep` cut short by a signal is not modelled.
- FrameCapApp.Strlen: a name is a string of Unicode characters and `strlen` counts its UTF-8 bytes; argument bytes that are not valid UTF-8 are not modelled.
- Allocation: `malloc` failure is modelled only in `jpeg_handler` (a parameter). Elsewhere allocation succeeds: in `v4l2cap_new`, in `yuyv2imgblk` and `imgblk2yuyv`, for the RGB buffer of `on_frame`, and for `realloc` in `chunk`.
- Integer widths: counters and sizes are unbounded. This covers `framecount`, the histogram's `uint64_t` buckets, vcat's `uint64_t` loop counters and the `int` products `npix * 3`. Vcat's `-t 0` is the constant `UINT64_MAX`.
- Option parsing: getopt, atoi and strtoul are abstracted. Options arrive as a list of already converted values.
- Util.YuyvToImgBlk: requires xres to be a multiple of 160, yres a multiple of 80 and 2·xres·yres below 2^32. On other sizes the source's loops run past the frame, and that behaviour is not modelled.
- Util.ImgBlkToYuyv: has the same frame-size requirement as `yuyv2imgblk`, for the same reason.
- Overlay.PutStr: requires every character between 1 and 127. The source indexes `tg_font` with `(unsigned char)` and reads past the table for other characters, and a C string ends at its first NUL, so a NUL never reaches the loop. w and h must be at least 1, because `w - 1` and `h - 1` wrap in the source.
- TgYuyv.PutStr: has the same requirements as Overlay.PutStr, for the same reasons.
- CommonUtil.YuyvPutStr: has the same requirements as Overlay.PutStr, for the same reasons.
- FrameCapApp.FrameCap.Compress: requires an even w·h. For an odd count the conversion writes three bytes past the `3 * npix` buffer; `Yuv.OddOverrun` states this.
- V4l2Cap.Next: the word past the end of `fbuf`, which the off-by-one index reads, is the parameter `stray`.
- Histobytes.Marks: its contract states only that a bar is empty exactly when its bucket is. Marks is one `#` for a non-zero count plus count/q, and the bounds are stated separately by `Histobytes.ScaledBounds` and `Histobytes.MarksBound`.
- Vcat: whether `v4l2cap_new` succeeds and whether `v4l2cap_next` returns a frame are inputs. The device side of those calls is modelled in V4l2Cap and is not linked to the vcat schedule. The `fcntl` pipe-size call (apps/vcat.c:127) is left out.
- The frame handler result that `lfc_capture` receives is an outcome of the script. `FrameCapApp.FrameCap.OnFrame` is not linked to `LibFrameCap.LfcCapture`.
- `yuyv_putstr`'s font and colour bytes come from util.h, which is not part of this model. They are parameters of `CommonUtil.YuyvPutStr`.
- Not part of this model:
  - framecap.c at the top level (a floating-point, fixed-size prototype);
  - libframecap.h at the top level (an unfinished prototype);
  - apps/v4l2cat.c (a broken duplicate of apps/framecap.c);
  - apps/yuyv-util.c and apps/yuyv2imgblk.c (command-line glue);
  - the header files (declarations only);
  - usage texts and error messages.
