/**
 * include/libframecap.h: `lfc_capture`, a capture loop over a V4L2 device
 * with two memory-mapped buffers, and `lfc_ioctl`, which repeats an ioctl
 * for as long as it is interrupted by a signal.
 *
 * `lfc_capture` opens the device, checks its capabilities, reads its format,
 * maps and queues the buffers, starts streaming, and then hands every
 * dequeued buffer to the frame handler until the handler asks to stop or a
 * call fails.  Every `goto lfc_exit` of the source is an early exit to the
 * shared teardown here.  The specification functions (SetupStage, LoopExit,
 * TeardownRun, CaptureRun) describe what the calls do to an Env; the methods
 * make the same calls on a Kernel.Device and are proved to agree with them.
 */
module LibFrameCap {
  import opened Kernel

  /** `LFC_FBUFS`: the number of memory-mapped frame buffers. */
  const Fbufs: nat := 2

  // ---------------------------------------------------------------------------
  // lfc_ioctl

  /** The retry loop used the outcomes s[..|s| - |t|]: all but the last were
      interrupted and the last is the outcome returned, or every one of them
      was interrupted and the script ran out, so the call returned Gone. */
  predicate Retried(s: seq<Outcome>, t: seq<Outcome>, o: Outcome)
    requires Rest(t, s)
  {
    var used := |s| - |t|;
    && (forall i :: 0 <= i < used - 1 ==> Interrupted(s[i]))
    && (if used > 0 && !Interrupted(s[used - 1]) then o == s[used - 1] else t == [] && o == Gone)
  }

  /** l' is l followed by one or more copies of ev. */
  predicate Attempts(l: seq<Event>, l': seq<Event>, ev: Event)
  {
    |l| < |l'| && l'[..|l|] == l && forall i :: |l| <= i < |l'| ==> l'[i] == ev
  }

  /** The answer of `lfc_ioctl`: the first outcome that is not an EINTR
      failure, after as many attempts as it takes. */
  function IoctlAnswer(e: Env, req: Request): (a: Answer)
    ensures !Interrupted(a.o) && |a.env.script| <= |e.script|
    ensures a.o != Gone ==> |a.env.script| < |e.script|
    decreases |e.script|
  {
    var b := Consume(e, Ioctl(req));
    if Interrupted(b.o) then IoctlAnswer(b.env, req) else b
  }

  /** `lfc_ioctl` uses a tail of the script. */
  lemma {:induction false} IoctlRest(e: Env, req: Request)
    ensures Rest(IoctlAnswer(e, req).env.script, e.script)
    decreases |e.script|
  {
    var b := Consume(e, Ioctl(req));
    if Interrupted(b.o) {
      var a := IoctlAnswer(b.env, req);
      IoctlRest(b.env, req);
      assert e.script[1..][|e.script| - 1 - |a.env.script|..] == e.script[|e.script| - |a.env.script|..];
    }
  }

  /** Every outcome `lfc_ioctl` used before the last one was an EINTR failure. */
  lemma {:induction false} IoctlSkips(e: Env, req: Request)
    ensures var used := |e.script| - |IoctlAnswer(e, req).env.script|;
      forall i :: 0 <= i < used - 1 ==> Interrupted(e.script[i])
    decreases |e.script|
  {
    var b := Consume(e, Ioctl(req));
    if Interrupted(b.o) {
      IoctlSkips(b.env, req);
      assert forall i :: 1 <= i < |e.script| ==> e.script[1..][i - 1] == e.script[i];
    }
  }

  /** `lfc_ioctl` returns the last outcome it used, unless that one was
      interrupted too, in which case the script has run out. */
  lemma {:induction false} IoctlLast(e: Env, req: Request)
    ensures var a := IoctlAnswer(e, req); var used := |e.script| - |a.env.script|;
      if used > 0 && !Interrupted(e.script[used - 1]) then a.o == e.script[used - 1]
      else a.env.script == [] && a.o == Gone
    decreases |e.script|
  {
    var b := Consume(e, Ioctl(req));
    if Interrupted(b.o) {
      IoctlLast(b.env, req);
    }
  }

  /** `lfc_ioctl` skips exactly the interrupted outcomes before the one it
      returns, and logs one attempt of the request per outcome it uses. */
  lemma IoctlRetries(e: Env, req: Request)
    ensures var a := IoctlAnswer(e, req);
      Rest(a.env.script, e.script) && Retried(e.script, a.env.script, a.o)
  {
    IoctlRest(e, req);
    IoctlSkips(e, req);
    IoctlLast(e, req);
  }

  /** `lfc_ioctl` logs one attempt of the request per outcome it uses, and
      nothing else. */
  lemma {:induction false} IoctlLogs(e: Env, req: Request)
    ensures Attempts(e.log, IoctlAnswer(e, req).env.log, Ioctl(req))
    ensures Quiet(e.log, IoctlAnswer(e, req).env.log)
    decreases |e.script|
  {
    var b := Consume(e, Ioctl(req));
    if Interrupted(b.o) {
      var a := IoctlAnswer(b.env, req);
      IoctlLogs(b.env, req);
      assert a.env.log[..|b.env.log|][..|e.log|] == a.env.log[..|e.log|];
    }
  }

  /** One attempt of `lfc_ioctl`: an interrupted attempt is followed by another. */
  lemma IoctlUnfold(e: Env, req: Request)
    ensures var b := Consume(e, Ioctl(req));
      IoctlAnswer(e, req) == if Interrupted(b.o) then IoctlAnswer(b.env, req) else b
  {
  }

  /** `lfc_ioctl`. */
  method LfcIoctl(dev: Device, req: Request) returns (o: Outcome)
    modifies dev
    ensures Answer(o, dev.State()) == IoctlAnswer(old(dev.State()), req)
  {
    IoctlUnfold(dev.State(), req);
    o := dev.Call(Ioctl(req));
    while Interrupted(o)
      invariant Interrupted(o) ==> IoctlAnswer(old(dev.State()), req) == IoctlAnswer(dev.State(), req)
      invariant !Interrupted(o) ==> IoctlAnswer(old(dev.State()), req) == Answer(o, dev.State())
      decreases |dev.script| + if Interrupted(o) then 1 else 0
    {
      IoctlUnfold(dev.State(), req);
      o := dev.Call(Ioctl(req));
    }
  }

  // ---------------------------------------------------------------------------
  // lfc_capture: buffer setup

  /** The format after the "buggy driver paranoia" fix: bytesperline is the
      smallest value that is at least the reported one and at least two bytes
      per pixel, and sizeimage the smallest that is at least the reported one
      and at least bytesperline times the height. */
  function FixFormat(f: Format): (g: Format)
    ensures g.width == f.width && g.height == f.height && g.pixelformat == f.pixelformat
    ensures g.bytesperline >= f.bytesperline && g.bytesperline >= 2 * f.width
    ensures g.bytesperline == f.bytesperline || g.bytesperline == 2 * f.width
    ensures g.sizeimage >= f.sizeimage && g.sizeimage >= g.bytesperline * f.height
    ensures g.sizeimage == f.sizeimage || g.sizeimage == g.bytesperline * f.height
  {
    var bpl := if f.bytesperline < 2 * f.width then 2 * f.width else f.bytesperline;
    var size := if f.sizeimage < bpl * f.height then bpl * f.height else f.sizeimage;
    f.(bytesperline := bpl, sizeimage := size)
  }

  /** How far setup got: a failure, or a streaming device together with the
      capabilities, the granted buffer count and the (fixed) format it reported. */
  datatype Stage = Failed(env: Env) | Ready(env: Env, caps: Caps, granted: int, format: Format)

  /** Where the buffer loop stopped, and whether every buffer was set up. */
  datatype Mapping = Mapping(env: Env, ok: bool)

  /** One round of the buffer loop for slot ii: ask for the buffer's length,
      map it and queue it; ok is false at the first failure.  A successful
      round has had an answer from the driver for each of the three calls. */
  function MapRound(e: Env, ii: nat): (m: Mapping)
    ensures |m.env.script| <= |e.script|
    ensures m.ok ==> |m.env.script| + 3 <= |e.script|
  {
    var qb := IoctlAnswer(e, QueryBuf(ii));
    if qb.o.ret == -1 then Mapping(qb.env, false)
    else
      var mm := Consume(qb.env, Mmap(ii, BufferOf(qb.o.data).length));
      if mm.o.ret == -1 then Mapping(mm.env, false)
      else
        var q := IoctlAnswer(mm.env, QBuf(ii));
        Mapping(q.env, q.o.ret != -1)
  }

  /** Rounds ii.. `LFC_FBUFS` - 1 of the buffer loop, in index order,
      stopping at the first failure; success needs the driver to answer
      the query, the mapping and the queueing of every one of those slots. */
  function MapStage(e: Env, ii: nat): (m: Mapping)
    requires ii <= Fbufs
    ensures |m.env.script| <= |e.script|
    ensures m.ok ==> |m.env.script| + 3 * (Fbufs - ii) <= |e.script|
    decreases Fbufs - ii
  {
    if ii == Fbufs then Mapping(e, true)
    else
      var m := MapRound(e, ii);
      if m.ok then MapStage(m.env, ii + 1) else m
  }

  /** Everything `lfc_capture` does before its capture loop.  The crop ioctls'
      results are ignored; a failed format read is only `-1`, a failed
      capability query any non-zero value. */
  function SetupStage(e: Env): (s: Stage)
    ensures s.Ready? ==> s.caps.capture && s.caps.streaming && s.granted == Fbufs
    ensures s.Ready? ==> s.format.bytesperline >= 2 * s.format.width
    ensures s.Ready? ==> s.format.sizeimage >= s.format.bytesperline * s.format.height
  {
    var op := Consume(e, Open);
    if op.o.ret < 0 then Failed(op.env)
    else
      var qc := IoctlAnswer(op.env, QueryCap);
      var caps := CapsOf(qc.o.data);
      if qc.o.ret != 0 || !caps.capture || !caps.streaming then Failed(qc.env)
      else
        var gf := IoctlAnswer(IoctlAnswer(IoctlAnswer(qc.env, CropCap).env, SetCrop).env, GetFmt);
        if gf.o.ret == -1 then Failed(gf.env)
        else
          var rb := IoctlAnswer(gf.env, ReqBufs(Fbufs));
          var granted := GrantedOf(rb.o.data, Fbufs);
          if rb.o.ret == -1 || granted != Fbufs then Failed(rb.env)
          else
            var m := MapStage(rb.env, 0);
            if !m.ok then Failed(m.env)
            else
              var so := IoctlAnswer(m.env, StreamOn);
              if so.o.ret == -1 then Failed(so.env)
              else Ready(so.env, caps, granted, FixFormat(FormatOf(gf.o.data)))
  }

  /** The buffer loop of `lfc_capture`. */
  method MapBuffers(dev: Device) returns (ok: bool)
    modifies dev
    ensures Mapping(dev.State(), ok) == MapStage(old(dev.State()), 0)
  {
    for ii := 0 to Fbufs
      invariant MapStage(dev.State(), ii) == MapStage(old(dev.State()), 0)
    {
      var o := LfcIoctl(dev, QueryBuf(ii));
      if o.ret == -1 { return false; }
      var m := dev.Call(Mmap(ii, BufferOf(o.data).length));
      if m.ret == -1 { return false; }
      o := LfcIoctl(dev, QBuf(ii));
      if o.ret == -1 { return false; }
    }
    return true;
  }

  /** The part of `lfc_capture` before its capture loop; a false ok stands for
      a `goto lfc_exit`. */
  method Setup(dev: Device) returns (ok: bool, f: Format)
    modifies dev
    ensures var s := SetupStage(old(dev.State()));
      ok == s.Ready? && dev.State() == s.env && (ok ==> f == s.format)
  {
    f := Format(0, 0, 0, 0, 0);
    var o := dev.Call(Open);
    if o.ret < 0 { return false, f; }
    o := LfcIoctl(dev, QueryCap);
    var caps := CapsOf(o.data);
    if o.ret != 0 || !caps.capture || !caps.streaming { return false, f; }
    o := LfcIoctl(dev, CropCap);
    o := LfcIoctl(dev, SetCrop);
    o := LfcIoctl(dev, GetFmt);
    if o.ret == -1 { return false, f; }
    f := FixFormat(FormatOf(o.data));
    o := LfcIoctl(dev, ReqBufs(Fbufs));
    if o.ret == -1 || GrantedOf(o.data, Fbufs) != Fbufs { return false, f; }
    ok := MapBuffers(dev);
    if !ok { return false, f; }
    o := LfcIoctl(dev, StreamOn);
    ok := o.ret != -1;
  }

  // ---------------------------------------------------------------------------
  // lfc_capture: the capture loop

  /** How the capture loop ended: on an error, or because the handler asked
      to stop with the non-zero result value (0 after an error). */
  datatype Exit = Exit(env: Env, failed: bool, value: int)

  /** The capture loop, for the format f and a handler that is present or
      not, rejecting a dequeued index above top.  A select interrupted by
      EINTR and a dequeue failing with EAGAIN start the next round; a select
      timeout only warns and the dequeue goes ahead; any other failure is an
      error.  A non-zero handler result leaves the loop without requeueing
      the buffer. */
  function Loop(e: Env, f: Format, handler: bool, top: nat): Exit
    decreases |e.script|
  {
    var sel := Consume(e, Select);
    if sel.o.ret == -1 then
      if sel.o.errno == EINTR then Loop(sel.env, f, handler, top) else Exit(sel.env, true, 0)
    else
      var dq := IoctlAnswer(sel.env, DQBuf);
      if dq.o.ret == -1 then
        if dq.o.errno == EAGAIN then Loop(dq.env, f, handler, top) else Exit(dq.env, true, 0)
      else
        var b := BufferOf(dq.o.data);
        if b.index > top then Exit(dq.env, true, 0)
        else
          var hd := Consume(dq.env, Handle(b.index, b.bytesused, f.width, f.height, f.pixelformat));
          if handler && hd.o.ret != 0 then Exit(hd.env, false, hd.o.ret)
          else
            var q := IoctlAnswer(if handler then hd.env else dq.env, QBuf(b.index));
            if q.o.ret == -1 then Exit(q.env, true, 0) else Loop(q.env, f, handler, top)
  }

  /** The capture loop as written: the test `buf.index > LFC_FBUFS` lets the
      index `LFC_FBUFS` through. */
  function LoopExit(e: Env, f: Format, handler: bool): (x: Exit)
    ensures !x.failed ==> x.value != 0
    ensures x.failed ==> x.value == 0
  {
    LoopStops(e, f, handler, Fbufs);
    Loop(e, f, handler, Fbufs)
  }

  /** The `for (;;)` capture loop of `lfc_capture`; `failed` is true when it
      left by a `goto lfc_exit`. */
  method CaptureFrames(dev: Device, f: Format, handler: bool) returns (failed: bool, value: int)
    modifies dev
    ensures Exit(dev.State(), failed, value) == LoopExit(old(dev.State()), f, handler)
  {
    while true
      invariant Loop(dev.State(), f, handler, Fbufs) == LoopExit(old(dev.State()), f, handler)
      decreases |dev.script|
    {
      var r := dev.Call(Select);
      if r.ret == -1 {
        if r.errno == EINTR { continue; }
        return true, 0;
      }
      var o := LfcIoctl(dev, DQBuf);
      if o.ret == -1 {
        if o.errno == EAGAIN { continue; }
        return true, 0;
      }
      var b := BufferOf(o.data);
      if b.index > Fbufs { return true, 0; }
      if handler {
        var h := dev.Call(Handle(b.index, b.bytesused, f.width, f.height, f.pixelformat));
        if h.ret != 0 { return false, h.ret; }
      }
      o := LfcIoctl(dev, QBuf(b.index));
      if o.ret == -1 { return true, 0; }
    }
  }

  // ---------------------------------------------------------------------------
  // lfc_capture: teardown and the whole call

  /** The result of `lfc_capture` and the environment it leaves. */
  datatype Run = Run(r: int, env: Env)

  /** The unmapping of every buffer slot, mapped or not. */
  function Unmaps(n: nat): (l: seq<Event>)
    ensures |l| == n && forall i :: 0 <= i < n ==> l[i] == Munmap(i)
  {
    if n == 0 then [] else Unmaps(n - 1) + [Munmap(n - 1)]
  }

  /** The shared exit: stop streaming, unmap every slot, close the device;
      the result is -1 exactly when an error message was set, and 0
      otherwise.  What was logged before stays, followed by at least the
      STREAMOFF, the unmaps and the close. */
  function TeardownRun(e: Env, failed: bool): (t: Run)
    ensures t.r == -1 || t.r == 0
    ensures t.r == -1 <==> failed
    ensures |e.log| + Fbufs + 2 <= |t.env.log| && t.env.log[..|e.log|] == e.log
  {
    IoctlLogs(e, StreamOff);
    var so := IoctlAnswer(e, StreamOff);
    var t := Run(if failed then -1 else 0, Env(so.env.script, so.env.log + Unmaps(Fbufs) + [Close]));
    assert t.env.log[..|e.log|] == t.env.log[..|so.env.log|][..|e.log|];
    t
  }

  /** `lfc_capture` for a handler that is present or not: -1 or 0, and -1
      whenever setup fails. */
  function CaptureRun(e: Env, handler: bool): (run: Run)
    ensures run.r == -1 || run.r == 0
    ensures SetupStage(e).Failed? ==> run.r == -1
  {
    var s := SetupStage(e);
    if s.Failed? then TeardownRun(s.env, true)
    else
      var x := LoopExit(s.env, s.format, handler);
      TeardownRun(x.env, x.failed)
  }

  /** The code after the `lfc_exit` label. */
  method Teardown(dev: Device, failed: bool) returns (r: int)
    modifies dev
    ensures Run(r, dev.State()) == TeardownRun(old(dev.State()), failed)
  {
    var o := LfcIoctl(dev, StreamOff);
    ghost var e := dev.State();
    for ii := 0 to Fbufs
      invariant dev.State() == Env(e.script, e.log + Unmaps(ii))
    {
      dev.Note(Munmap(ii));
    }
    dev.Note(Close);
    r := if failed then -1 else 0;
  }

  /** `lfc_capture`: handler says whether a frame handler was given. */
  method LfcCapture(dev: Device, handler: bool) returns (r: int)
    modifies dev
    ensures Run(r, dev.State()) == CaptureRun(old(dev.State()), handler)
  {
    var failed := true;
    var ok, f := Setup(dev);
    if ok {
      var stop;
      failed, stop := CaptureFrames(dev, f, handler);
    }
    r := Teardown(dev, failed);
  }

  // ---------------------------------------------------------------------------
  // Properties

  /** Without a frame handler the capture loop never ends without an error. */
  lemma {:induction false} LoopNeedsHandler(e: Env, f: Format)
    ensures LoopExit(e, f, false).failed
    decreases |e.script|
  {
    var sel := Consume(e, Select);
    if sel.o.ret == -1 {
      if sel.o.errno == EINTR { LoopNeedsHandler(sel.env, f); }
    } else {
      var dq := IoctlAnswer(sel.env, DQBuf);
      if dq.o.ret == -1 {
        if dq.o.errno == EAGAIN { LoopNeedsHandler(dq.env, f); }
      } else if BufferOf(dq.o.data).index <= Fbufs {
        var q := IoctlAnswer(dq.env, QBuf(BufferOf(dq.o.data).index));
        if q.o.ret != -1 { LoopNeedsHandler(q.env, f); }
      }
    }
  }

  /** `lfc_capture` returns -1 or 0 and never the handler's own non-zero
      result, which its header comment promises; it returns 0 only after a
      complete setup on a device that can capture and stream and granted
      exactly `LFC_FBUFS` buffers, and only when a handler asked to stop. */
  lemma CaptureResult(e: Env, handler: bool)
    ensures var run := CaptureRun(e, handler); run.r == -1 || run.r == 0
    ensures CaptureRun(e, handler).r == 0 ==>
      var s := SetupStage(e);
      && handler && s.Ready? && s.caps.capture && s.caps.streaming && s.granted == Fbufs
  {
    var s := SetupStage(e);
    if s.Ready? && !handler {
      LoopNeedsHandler(s.env, s.format);
    }
  }

  /** The teardown ends by stopping the stream, unmapping both buffer slots
      and closing the device. */
  lemma TeardownEnds(e: Env, failed: bool)
    ensures var l := TeardownRun(e, failed).env.log;
      |l| >= 4 && l[|l| - 4..] == [Ioctl(StreamOff), Munmap(0), Munmap(1), Close]
  {
    IoctlLogs(e, StreamOff);
    var so := IoctlAnswer(e, StreamOff);
    assert so.env.log[|so.env.log| - 1] == Ioctl(StreamOff);
    assert Unmaps(Fbufs) == [Munmap(0), Munmap(1)];
  }

  /** Every path out of `lfc_capture`, including a failed open, ends by
      stopping the stream, unmapping both buffer slots (mapped or not) and
      closing the device. */
  lemma CaptureTeardown(e: Env, handler: bool)
    ensures var l := CaptureRun(e, handler).env.log;
      |l| >= 4 && l[|l| - 4..] == [Ioctl(StreamOff), Munmap(0), Munmap(1), Close]
  {
    var s := SetupStage(e);
    if s.Failed? {
      TeardownEnds(s.env, true);
    } else {
      var x := LoopExit(s.env, s.format, handler);
      TeardownEnds(x.env, x.failed);
    }
  }

  /** The index check lets `index == LFC_FBUFS` through: a driver that
      dequeues index 2 gets the handler called for a slot past the two
      buffers. */
  lemma IndexOffByOne(f: Format)
    ensures
      var ready, stop := Outcome(1, Other, Nothing), Outcome(1, Other, Nothing);
      var slot2 := Outcome(0, Other, Buffered(Buffer(Fbufs, 0, 0)));
      LoopExit(Env([ready, slot2, stop], []), f, true)
        == Exit(Env([], [Select, Ioctl(DQBuf), Handle(Fbufs, 0, f.width, f.height, f.pixelformat)]), false, 1)
  {
  }

  /** A select timeout only warns: the loop still dequeues a buffer. */
  lemma TimeoutStillDequeues(f: Format, handler: bool)
    ensures LoopExit(Env([Outcome(0, Other, Nothing)], []), f, handler)
      == Exit(Env([], [Select, Ioctl(DQBuf)]), true, 0)
  {
  }

  // ---------------------------------------------------------------------------
  // The loop and the result the header comment describes

  /** The capture loop with the index check `buf.index >= LFC_FBUFS`: only
      the two mapped slots reach the handler. */
  function LoopExitFixed(e: Env, f: Format, handler: bool): Exit
  {
    Loop(e, f, handler, Fbufs - 1)
  }

  /** `lfc_capture` returning the handler's non-zero value when the handler
      ends the capture, and -1 on an error, as its header comment says. */
  function FixedRun(e: Env, handler: bool): Run
  {
    var s := SetupStage(e);
    if s.Failed? then TeardownRun(s.env, true)
    else
      var x := LoopExitFixed(s.env, s.format, handler);
      TeardownRun(x.env, x.failed).(r := if x.failed then -1 else x.value)
  }

  /** The loop ends without an error only when a handler returned a non-zero
      value, and that is the value it reports. */
  lemma {:induction false} LoopStops(e: Env, f: Format, handler: bool, top: nat)
    ensures var x := Loop(e, f, handler, top); !x.failed ==> handler && x.value != 0
    ensures var x := Loop(e, f, handler, top); x.failed ==> x.value == 0
    decreases |e.script|
  {
    var sel := Consume(e, Select);
    if sel.o.ret == -1 {
      if sel.o.errno == EINTR { LoopStops(sel.env, f, handler, top); }
    } else {
      var dq := IoctlAnswer(sel.env, DQBuf);
      if dq.o.ret == -1 {
        if dq.o.errno == EAGAIN { LoopStops(dq.env, f, handler, top); }
      } else if BufferOf(dq.o.data).index <= top {
        var b := BufferOf(dq.o.data);
        var hd := Consume(dq.env, Handle(b.index, b.bytesused, f.width, f.height, f.pixelformat));
        if !(handler && hd.o.ret != 0) {
          var q := IoctlAnswer(if handler then hd.env else dq.env, QBuf(b.index));
          if q.o.ret != -1 { LoopStops(q.env, f, handler, top); }
        }
      }
    }
  }

  /** The corrected `lfc_capture` never returns 0: it returns -1 after an
      error and otherwise the handler's own non-zero stopping value, and it
      returns something other than -1 only after a complete setup and with a
      handler. */
  lemma FixedResult(e: Env, handler: bool)
    ensures FixedRun(e, handler).r != 0
    ensures var run := FixedRun(e, handler);
      run.r != -1 ==>
        && handler && SetupStage(e).Ready?
        && run.r == LoopExitFixed(SetupStage(e).env, SetupStage(e).format, handler).value
  {
    var s := SetupStage(e);
    if s.Ready? {
      LoopStops(s.env, s.format, handler, Fbufs - 1);
    }
  }

  /** l' is l followed by events among which every handler call is for a
      slot below n. */
  predicate HandlesBelow(l: seq<Event>, l': seq<Event>, n: nat)
  {
    |l| <= |l'| && l'[..|l|] == l && forall i :: |l| <= i < |l'| && l'[i].Handle? ==> l'[i].index < n
  }

  lemma HandlesTrans(l: seq<Event>, l': seq<Event>, l'': seq<Event>, n: nat)
    requires HandlesBelow(l, l', n) && HandlesBelow(l', l'', n)
    ensures HandlesBelow(l, l'', n)
  {
    assert l''[..|l|] == l''[..|l'|][..|l|];
  }

  /** Ioctls make no handler calls. */
  lemma IoctlHandles(e: Env, req: Request, n: nat)
    ensures HandlesBelow(e.log, IoctlAnswer(e, req).env.log, n)
  {
    IoctlLogs(e, req);
  }

  /** Every handler call of the loop is for a slot no greater than top. */
  lemma {:induction false} LoopHandles(e: Env, f: Format, handler: bool, top: nat)
    ensures HandlesBelow(e.log, Loop(e, f, handler, top).env.log, top + 1)
    decreases |e.script|
  {
    var n := top + 1;
    var sel := Consume(e, Select);
    assert HandlesBelow(e.log, sel.env.log, n);
    var x := Loop(e, f, handler, top);
    if sel.o.ret == -1 {
      if sel.o.errno == EINTR {
        LoopHandles(sel.env, f, handler, top);
        HandlesTrans(e.log, sel.env.log, x.env.log, n);
      }
    } else {
      var dq := IoctlAnswer(sel.env, DQBuf);
      IoctlHandles(sel.env, DQBuf, n);
      HandlesTrans(e.log, sel.env.log, dq.env.log, n);
      var b := BufferOf(dq.o.data);
      if dq.o.ret == -1 {
        if dq.o.errno == EAGAIN {
          LoopHandles(dq.env, f, handler, top);
          HandlesTrans(e.log, dq.env.log, x.env.log, n);
        }
      } else if b.index <= top {
        var hd := Consume(dq.env, Handle(b.index, b.bytesused, f.width, f.height, f.pixelformat));
        assert HandlesBelow(dq.env.log, hd.env.log, n);
        HandlesTrans(e.log, dq.env.log, hd.env.log, n);
        if !(handler && hd.o.ret != 0) {
          var before := if handler then hd.env else dq.env;
          var q := IoctlAnswer(before, QBuf(b.index));
          IoctlHandles(before, QBuf(b.index), n);
          HandlesTrans(e.log, before.log, q.env.log, n);
          if q.o.ret != -1 {
            LoopHandles(q.env, f, handler, top);
            HandlesTrans(e.log, q.env.log, x.env.log, n);
          }
        }
      }
    }
  }

  /** With the corrected check the handler is only ever called for one of
      the `LFC_FBUFS` mapped slots. */
  lemma FixedHandlesSlots(e: Env, f: Format, handler: bool)
    ensures HandlesBelow(e.log, LoopExitFixed(e, f, handler).env.log, Fbufs)
  {
    LoopHandles(e, f, handler, Fbufs - 1);
  }

  /** The slots ii, ii + 1, .., n - 1 in order. */
  function Slots(ii: nat, n: nat): (r: seq<nat>)
    ensures |r| == if ii <= n then n - ii else 0
    ensures forall k :: 0 <= k < |r| ==> r[k] == ii + k
    decreases n - ii
  {
    if ii >= n then [] else [ii] + Slots(ii + 1, n)
  }

  /** A successful round of the buffer loop maps slot ii and nothing else. */
  lemma MapRoundMaps(e: Env, ii: nat)
    ensures MapRound(e, ii).ok ==> Mmaps(MapRound(e, ii).env.log) == Mmaps(e.log) + [ii]
  {
    var qb := IoctlAnswer(e, QueryBuf(ii));
    IoctlLogs(e, QueryBuf(ii));
    QuietFilters(e.log, qb.env.log);
    var mm := Consume(qb.env, Mmap(ii, BufferOf(qb.o.data).length));
    assert mm.env.log[..|mm.env.log| - 1] == qb.env.log;
    IoctlLogs(mm.env, QBuf(ii));
    QuietFilters(mm.env.log, IoctlAnswer(mm.env, QBuf(ii)).env.log);
  }

  /** When buffer setup succeeds from slot ii on, it has mapped exactly the
      slots ii.. `LFC_FBUFS` - 1, once each, in index order. */
  lemma {:induction false} MapOrder(e: Env, ii: nat)
    requires ii <= Fbufs
    ensures MapStage(e, ii).ok ==> Mmaps(MapStage(e, ii).env.log) == Mmaps(e.log) + Slots(ii, Fbufs)
    decreases Fbufs - ii
  {
    if ii < Fbufs && MapStage(e, ii).ok {
      var m := MapRound(e, ii);
      MapRoundMaps(e, ii);
      MapOrder(m.env, ii + 1);
      assert Slots(ii, Fbufs) == [ii] + Slots(ii + 1, Fbufs);
      assert Mmaps(e.log) + [ii] + Slots(ii + 1, Fbufs) == Mmaps(e.log) + Slots(ii, Fbufs);
    }
  }
}
