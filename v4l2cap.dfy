/**
 * common/v4l2cap.c: a capture context for one V4L2 device that the caller
 * drives frame by frame (`v4l2cap_next` hands out a filled buffer,
 * `v4l2cap_done` gives it back to the driver), set up by `v4l2cap_new` and
 * released by `v4l2cap_free`.
 *
 * As in LibFrameCap, specification functions describe each operation's
 * calls on an Env and the methods, which make the same calls on a
 * Kernel.Device, are proved to agree with them.  Buffer addresses are the
 * values mmap returned; the caller's frame handle is a Ptr.
 */
module V4l2Cap {
  import opened Kernel
  import LibFrameCap

  /** A frame handle: NULL or an address. */
  datatype Ptr = Null | Addr(a: int)

  // ---------------------------------------------------------------------------
  // v4l2cap_ioctl

  /** t is attempts of ev with a sleep between every two: ev, Sleep, ev, .., ev. */
  predicate Sleepy(t: seq<Event>, ev: Event)
    decreases |t|
  {
    t == [ev] || (|t| >= 3 && t[0] == ev && t[1] == Sleep && Sleepy(t[2..], ev))
  }

  /** l' is l followed by such attempts of ev. */
  predicate SleepyAttempts(l: seq<Event>, l': seq<Event>, ev: Event)
  {
    |l| < |l'| && l'[..|l|] == l && Sleepy(l'[|l|..], ev)
  }

  /** Attempts of an ioctl and sleeps are all ioctls and sleeps. */
  lemma {:induction false} SleepyQuiet(t: seq<Event>, ev: Event)
    requires Sleepy(t, ev) && ev.Ioctl?
    ensures forall i :: 0 <= i < |t| ==> t[i].Ioctl? || t[i].Sleep?
    decreases |t|
  {
    if t != [ev] {
      SleepyQuiet(t[2..], ev);
      assert forall i :: 2 <= i < |t| ==> t[i] == t[2..][i - 2];
    }
  }

  /** The answer of `v4l2cap_ioctl`: the first outcome that is not an EINTR
      failure, with a 10 ms sleep after each interrupted attempt. */
  function IoctlAnswer(e: Env, req: Request): (a: Answer)
    ensures !Interrupted(a.o) && |a.env.script| <= |e.script|
    ensures a.o != Gone ==> |a.env.script| < |e.script|
    decreases |e.script|
  {
    var b := Consume(e, Ioctl(req));
    if Interrupted(b.o) then IoctlAnswer(Record(b.env, Sleep), req) else b
  }

  /** `v4l2cap_ioctl` uses a tail of the script. */
  lemma {:induction false} IoctlRest(e: Env, req: Request)
    ensures Rest(IoctlAnswer(e, req).env.script, e.script)
    decreases |e.script|
  {
    var b := Consume(e, Ioctl(req));
    if Interrupted(b.o) {
      var a := IoctlAnswer(Record(b.env, Sleep), req);
      IoctlRest(Record(b.env, Sleep), req);
      assert e.script[1..][|e.script| - 1 - |a.env.script|..] == e.script[|e.script| - |a.env.script|..];
    }
  }

  /** Every outcome `v4l2cap_ioctl` used before the last one was an EINTR failure. */
  lemma {:induction false} IoctlSkips(e: Env, req: Request)
    ensures var used := |e.script| - |IoctlAnswer(e, req).env.script|;
      forall i :: 0 <= i < used - 1 ==> Interrupted(e.script[i])
    decreases |e.script|
  {
    var b := Consume(e, Ioctl(req));
    if Interrupted(b.o) {
      IoctlSkips(Record(b.env, Sleep), req);
      assert forall i :: 1 <= i < |e.script| ==> e.script[1..][i - 1] == e.script[i];
    }
  }

  /** `v4l2cap_ioctl` returns the last outcome it used, unless that one was
      interrupted too, in which case the script has run out. */
  lemma {:induction false} IoctlLast(e: Env, req: Request)
    ensures var a := IoctlAnswer(e, req); var used := |e.script| - |a.env.script|;
      if used > 0 && !Interrupted(e.script[used - 1]) then a.o == e.script[used - 1]
      else a.env.script == [] && a.o == Gone
    decreases |e.script|
  {
    var b := Consume(e, Ioctl(req));
    if Interrupted(b.o) {
      IoctlLast(Record(b.env, Sleep), req);
    }
  }

  /** `v4l2cap_ioctl` skips exactly the interrupted outcomes before the one it
      returns. */
  lemma IoctlRetries(e: Env, req: Request)
    ensures var a := IoctlAnswer(e, req);
      Rest(a.env.script, e.script) && LibFrameCap.Retried(e.script, a.env.script, a.o)
  {
    IoctlRest(e, req);
    IoctlSkips(e, req);
    IoctlLast(e, req);
  }

  /** `v4l2cap_ioctl` logs its attempts with one sleep between every two. */
  lemma {:induction false} IoctlSleeps(e: Env, req: Request)
    ensures SleepyAttempts(e.log, IoctlAnswer(e, req).env.log, Ioctl(req))
    decreases |e.script|
  {
    var b := Consume(e, Ioctl(req));
    if Interrupted(b.o) {
      var e1 := Record(b.env, Sleep);
      var a := IoctlAnswer(e1, req);
      IoctlSleeps(e1, req);
      assert a.env.log[..|e1.log|][..|e.log|] == a.env.log[..|e.log|];
      assert a.env.log[|e.log|..][2..] == a.env.log[|e1.log|..];
      assert a.env.log[|e.log|] == e1.log[|e.log|] && a.env.log[|e.log| + 1] == e1.log[|e.log| + 1];
    } else {
      assert b.env.log[|e.log|..] == [Ioctl(req)];
    }
  }

  /** `v4l2cap_ioctl` makes no call but the ioctl attempts and the sleeps. */
  lemma IoctlQuiet(e: Env, req: Request)
    ensures Quiet(e.log, IoctlAnswer(e, req).env.log)
  {
    var l := IoctlAnswer(e, req).env.log;
    IoctlSleeps(e, req);
    SleepyQuiet(l[|e.log|..], Ioctl(req));
    assert forall i :: |e.log| <= i < |l| ==> l[i] == l[|e.log|..][i - |e.log|];
  }

  /** `v4l2cap_ioctl`. */
  method V4l2Ioctl(dev: Device, req: Request) returns (o: Outcome)
    modifies dev
    ensures Answer(o, dev.State()) == IoctlAnswer(old(dev.State()), req)
  {
    o := dev.Call(Ioctl(req));
    while Interrupted(o)
      invariant Interrupted(o) ==> IoctlAnswer(old(dev.State()), req) == IoctlAnswer(Record(dev.State(), Sleep), req)
      invariant !Interrupted(o) ==> IoctlAnswer(old(dev.State()), req) == Answer(o, dev.State())
      decreases |dev.script| + if Interrupted(o) then 1 else 0
    {
      dev.Note(Sleep);
      o := dev.Call(Ioctl(req));
    }
  }

  // ---------------------------------------------------------------------------
  // The context

  /** `struct V4L2Cap`: the device handle, the buffer count, the buffer in use
      (always -1: nothing updates it) and the buffer addresses. */
  class Cap {
    var fd: int
    var bufcnt: nat
    var currentbuf: int
    var fbuf: array<int>

    ghost predicate Valid()
      reads this
    {
      fbuf.Length == bufcnt
    }

    /** The zeroed context with its count set and its address array allocated. */
    constructor (bufcnt: nat)
      ensures Valid() && this.bufcnt == bufcnt && currentbuf == -1 && fd == 0 && fresh(fbuf)
    {
      this.bufcnt, currentbuf, fd := bufcnt, -1, 0;
      fbuf := new int[bufcnt];
    }
  }

  // ---------------------------------------------------------------------------
  // v4l2cap_new

  /** How far `v4l2cap_new` got: addrs are the addresses mapped so far, caps
      what `VIDIOC_QUERYCAP` reported and granted the count `VIDIOC_REQBUFS`
      left (nothing and 0 before those calls). */
  datatype Opening = Opening(env: Env, ok: bool, fd: int, addrs: seq<int>, caps: Caps, granted: int)

  /** An Opening that has not reached the capability query or the request. */
  function Opened(env: Env, ok: bool, fd: int, addrs: seq<int>): Opening
  {
    Opening(env, ok, fd, addrs, Caps(false, false), 0)
  }

  /** One round of the buffer loop for slot ii: ask for the buffer's length,
      map it (its address is the mmap result) and queue it. */
  function BufferRound(e: Env, ii: nat): Opening
  {
    var qb := IoctlAnswer(e, QueryBuf(ii));
    if qb.o.ret == -1 then Opened(qb.env, false, 0, [])
    else
      var mm := Consume(qb.env, Mmap(ii, BufferOf(qb.o.data).length));
      if mm.o.ret == -1 then Opened(mm.env, false, 0, [])
      else
        var q := IoctlAnswer(mm.env, QBuf(ii));
        Opened(q.env, q.o.ret != -1, 0, [mm.o.ret])
  }

  /** Rounds ii.. n - 1 of the buffer loop after the addresses addrs. */
  function BufferStage(e: Env, ii: nat, n: nat, addrs: seq<int>): (s: Opening)
    requires ii <= n && |addrs| == ii
    ensures s.ok ==> |s.addrs| == n
    decreases n - ii
  {
    if ii == n then Opened(e, true, 0, addrs)
    else
      var r := BufferRound(e, ii);
      if r.ok then BufferStage(r.env, ii + 1, n, addrs + r.addrs) else Opened(r.env, false, 0, addrs)
  }

  /** The first checks of `v4l2cap_new`: open the device and ask for its
      capabilities, which must include capture and streaming. */
  function Identify(e: Env): (s: Opening)
    ensures s.addrs == []
    ensures s.fd == Consume(e, Open).o.ret
    ensures s.ok ==> s.fd >= 0 && s.caps.capture && s.caps.streaming
    ensures s.ok ==> var qc := IoctlAnswer(Consume(e, Open).env, QueryCap);
                     qc.o.ret == 0 && s.caps == CapsOf(qc.o.data)
    ensures var op := Consume(e, Open); var qc := IoctlAnswer(op.env, QueryCap);
      s.ok <==> op.o.ret >= 0 && qc.o.ret == 0 && CapsOf(qc.o.data).capture && CapsOf(qc.o.data).streaming
  {
    var op := Consume(e, Open);
    if op.o.ret < 0 then Opened(op.env, false, op.o.ret, [])
    else
      var qc := IoctlAnswer(op.env, QueryCap);
      var caps := CapsOf(qc.o.data);
      Opening(qc.env, qc.o.ret == 0 && caps.capture && caps.streaming, op.o.ret, [], caps, 0)
  }

  /** The middle of `v4l2cap_new`: reset the crop (ignoring errors), read the
      format and request `bufcnt` buffers, which the driver must grant exactly. */
  function Configure(e: Env, bufcnt: nat): (s: Opening)
    ensures s.fd == 0 && s.addrs == []
    ensures s.ok ==> s.granted == bufcnt
    ensures var gf := IoctlAnswer(IoctlAnswer(IoctlAnswer(e, CropCap).env, SetCrop).env, GetFmt);
      var rb := IoctlAnswer(gf.env, ReqBufs(bufcnt));
      s.ok <==> gf.o.ret != -1 && rb.o.ret != -1 && GrantedOf(rb.o.data, bufcnt) == bufcnt
  {
    var gf := IoctlAnswer(IoctlAnswer(IoctlAnswer(e, CropCap).env, SetCrop).env, GetFmt);
    if gf.o.ret == -1 then Opened(gf.env, false, 0, [])
    else
      var rb := IoctlAnswer(gf.env, ReqBufs(bufcnt));
      var granted := GrantedOf(rb.o.data, bufcnt);
      Opening(rb.env, rb.o.ret != -1 && granted == bufcnt, 0, [], Caps(false, false), granted)
  }

  /** `v4l2cap_new` for `bufcnt` buffers: every failure returns NULL at once. */
  function NewStage(e: Env, bufcnt: nat): (s: Opening)
    ensures s.ok ==> |s.addrs| == bufcnt
    ensures s.ok ==> s.fd >= 0 && s.caps.capture && s.caps.streaming && s.granted == bufcnt
    ensures s.ok ==> s.caps == Identify(e).caps && Identify(e).ok
  {
    var id := Identify(e);
    if !id.ok then id
    else
      var cf := Configure(id.env, bufcnt);
      if !cf.ok then cf.(fd := id.fd)
      else
        var m := BufferStage(cf.env, 0, bufcnt, []);
        if !m.ok then m.(fd := id.fd)
        else
          var so := IoctlAnswer(m.env, StreamOn);
          Opening(so.env, so.o.ret != -1, id.fd, m.addrs, id.caps, cf.granted)
  }

  /** The buffer loop of `v4l2cap_new`, filling `ctx->fbuf`. */
  method MapBuffers(dev: Device, ctx: Cap) returns (ok: bool)
    requires ctx.Valid()
    modifies dev, ctx.fbuf
    ensures var s := BufferStage(old(dev.State()), 0, ctx.bufcnt, []);
      dev.State() == s.env && ok == s.ok && (ok ==> ctx.fbuf[..] == s.addrs)
  {
    for ii := 0 to ctx.bufcnt
      invariant BufferStage(dev.State(), ii, ctx.bufcnt, ctx.fbuf[..ii]) == BufferStage(old(dev.State()), 0, ctx.bufcnt, [])
    {
      var o := V4l2Ioctl(dev, QueryBuf(ii));
      if o.ret == -1 { return false; }
      var m := dev.Call(Mmap(ii, BufferOf(o.data).length));
      ctx.fbuf[ii] := m.ret;
      if m.ret == -1 { return false; }
      o := V4l2Ioctl(dev, QBuf(ii));
      if o.ret == -1 { return false; }
      assert ctx.fbuf[..ii + 1] == ctx.fbuf[..ii] + [m.ret];
    }
    assert ctx.fbuf[..ctx.bufcnt] == ctx.fbuf[..];
    return true;
  }

  /** `v4l2cap_new`: a new context, or null on the first failure. */
  method New(dev: Device, bufcnt: nat) returns (ctx: Cap?)
    modifies dev
    ensures var s := NewStage(old(dev.State()), bufcnt);
      && dev.State() == s.env && (ctx != null <==> s.ok)
      && (ctx != null ==> && fresh(ctx) && fresh(ctx.fbuf) && ctx.Valid() && ctx.bufcnt == bufcnt
                          && ctx.currentbuf == -1 && ctx.fd == s.fd && ctx.fbuf[..] == s.addrs)
  {
    var c := new Cap(bufcnt);
    var o := dev.Call(Open);
    c.fd := o.ret;
    if c.fd < 0 { return null; }
    o := V4l2Ioctl(dev, QueryCap);
    var caps := CapsOf(o.data);
    if o.ret != 0 || !caps.capture || !caps.streaming { return null; }
    o := V4l2Ioctl(dev, CropCap);
    o := V4l2Ioctl(dev, SetCrop);
    o := V4l2Ioctl(dev, GetFmt);
    if o.ret == -1 { return null; }
    o := V4l2Ioctl(dev, ReqBufs(bufcnt));
    if o.ret == -1 || GrantedOf(o.data, bufcnt) != bufcnt { return null; }
    var ok := MapBuffers(dev, c);
    if !ok { return null; }
    o := V4l2Ioctl(dev, StreamOn);
    if o.ret == -1 { return null; }
    return c;
  }

  /** A round of the buffer loop neither unmaps nor closes anything. */
  lemma BufferRoundHolds(e: Env, ii: nat)
    ensures Holds(e.log, BufferRound(e, ii).env.log)
  {
    var qb := IoctlAnswer(e, QueryBuf(ii));
    IoctlQuiet(e, QueryBuf(ii));
    QuietHolds(e.log, qb.env.log);
    var mm := Consume(qb.env, Mmap(ii, BufferOf(qb.o.data).length));
    AppendHolds(qb.env.log, Mmap(ii, BufferOf(qb.o.data).length));
    HoldsTrans(e.log, qb.env.log, mm.env.log);
    IoctlQuiet(mm.env, QBuf(ii));
    QuietHolds(mm.env.log, IoctlAnswer(mm.env, QBuf(ii)).env.log);
    HoldsTrans(e.log, mm.env.log, IoctlAnswer(mm.env, QBuf(ii)).env.log);
  }

  lemma {:induction false} BufferStageHolds(e: Env, ii: nat, n: nat, addrs: seq<int>)
    requires ii <= n && |addrs| == ii
    ensures Holds(e.log, BufferStage(e, ii, n, addrs).env.log)
    decreases n - ii
  {
    if ii < n {
      var r := BufferRound(e, ii);
      BufferRoundHolds(e, ii);
      if r.ok {
        BufferStageHolds(r.env, ii + 1, n, addrs + r.addrs);
        HoldsTrans(e.log, r.env.log, BufferStage(r.env, ii + 1, n, addrs + r.addrs).env.log);
      }
    }
  }

  /** `v4l2cap_ioctl` neither unmaps nor closes anything. */
  lemma IoctlHolds(e: Env, req: Request)
    ensures Holds(e.log, IoctlAnswer(e, req).env.log)
  {
    IoctlQuiet(e, req);
    QuietHolds(e.log, IoctlAnswer(e, req).env.log);
  }

  /** The capability steps open the device as their first call and release nothing. */
  lemma IdentifyHolds(e: Env)
    ensures var s := Identify(e);
      |s.env.log| > |e.log| && s.env.log[|e.log|] == Open && Holds(e.log, s.env.log)
  {
    var op := Consume(e, Open);
    AppendHolds(e.log, Open);
    var qc := IoctlAnswer(op.env, QueryCap);
    IoctlHolds(op.env, QueryCap);
    HoldsTrans(e.log, op.env.log, qc.env.log);
    assert qc.env.log[..|op.env.log|][|e.log|] == Open;
  }

  /** The crop, format and request calls make nothing but ioctl attempts and
      sleeps. */
  lemma ConfigureQuiet(e: Env, bufcnt: nat)
    ensures Quiet(e.log, Configure(e, bufcnt).env.log)
  {
    var cc := IoctlAnswer(e, CropCap);
    IoctlQuiet(e, CropCap);
    var sc := IoctlAnswer(cc.env, SetCrop);
    IoctlQuiet(cc.env, SetCrop);
    var gf := IoctlAnswer(sc.env, GetFmt);
    IoctlQuiet(sc.env, GetFmt);
    QuietTrans(e.log, cc.env.log, sc.env.log);
    QuietTrans(e.log, sc.env.log, gf.env.log);
    var rb := IoctlAnswer(gf.env, ReqBufs(bufcnt));
    IoctlQuiet(gf.env, ReqBufs(bufcnt));
    QuietTrans(e.log, gf.env.log, rb.env.log);
  }

  /** The capability steps map and unmap nothing. */
  lemma IdentifyFilters(e: Env)
    ensures Mmaps(Identify(e).env.log) == Mmaps(e.log)
  {
    var op := Consume(e, Open);
    FiltersAppend(e.log, Open);
    var qc := IoctlAnswer(op.env, QueryCap);
    IoctlQuiet(op.env, QueryCap);
    QuietFilters(op.env.log, qc.env.log);
  }

  /** The `v4l2cap_ioctl` log ends with an attempt of the request. */
  lemma {:induction false} IoctlEnds(e: Env, req: Request)
    ensures var l := IoctlAnswer(e, req).env.log; |l| > 0 && l[|l| - 1] == Ioctl(req)
    decreases |e.script|
  {
    var b := Consume(e, Ioctl(req));
    if Interrupted(b.o) {
      IoctlEnds(Record(b.env, Sleep), req);
    }
  }

  /** `v4l2cap_new` opens the device and then never unmaps a buffer or closes
      the device, not even on the paths that return NULL: a failure after the
      open leaks the descriptor and every buffer mapped so far. */
  lemma NewHolds(e: Env, bufcnt: nat)
    ensures var s := NewStage(e, bufcnt);
      |s.env.log| > |e.log| && s.env.log[|e.log|] == Open && Holds(e.log, s.env.log)
  {
    var id := Identify(e);
    IdentifyHolds(e);
    var cf := Configure(id.env, bufcnt);
    ConfigureQuiet(id.env, bufcnt);
    QuietHolds(id.env.log, cf.env.log);
    HoldsTrans(e.log, id.env.log, cf.env.log);
    var m := BufferStage(cf.env, 0, bufcnt, []);
    BufferStageHolds(cf.env, 0, bufcnt, []);
    HoldsTrans(e.log, cf.env.log, m.env.log);
    var so := IoctlAnswer(m.env, StreamOn);
    IoctlHolds(m.env, StreamOn);
    HoldsTrans(e.log, m.env.log, so.env.log);
    assert cf.env.log[..|id.env.log|][|e.log|] == Open;
    assert m.env.log[..|cf.env.log|][|e.log|] == Open;
    assert so.env.log[..|m.env.log|][|e.log|] == Open;
  }

  /** A successful round of the buffer loop maps slot ii and nothing else. */
  lemma BufferRoundMaps(e: Env, ii: nat)
    ensures BufferRound(e, ii).ok ==> Mmaps(BufferRound(e, ii).env.log) == Mmaps(e.log) + [ii]
  {
    var qb := IoctlAnswer(e, QueryBuf(ii));
    IoctlQuiet(e, QueryBuf(ii));
    QuietFilters(e.log, qb.env.log);
    var mm := Consume(qb.env, Mmap(ii, BufferOf(qb.o.data).length));
    FiltersAppend(qb.env.log, Mmap(ii, BufferOf(qb.o.data).length));
    IoctlQuiet(mm.env, QBuf(ii));
    QuietFilters(mm.env.log, IoctlAnswer(mm.env, QBuf(ii)).env.log);
  }

  /** When the buffer loop succeeds from slot ii on, it has mapped the slots
      ii.. n - 1, once each, in index order. */
  lemma {:induction false} BufferOrder(e: Env, ii: nat, n: nat, addrs: seq<int>)
    requires ii <= n && |addrs| == ii
    ensures var s := BufferStage(e, ii, n, addrs);
      s.ok ==> Mmaps(s.env.log) == Mmaps(e.log) + LibFrameCap.Slots(ii, n)
    decreases n - ii
  {
    if ii < n {
      var r := BufferRound(e, ii);
      BufferRoundMaps(e, ii);
      if r.ok {
        BufferOrder(r.env, ii + 1, n, addrs + r.addrs);
        assert LibFrameCap.Slots(ii, n) == [ii] + LibFrameCap.Slots(ii + 1, n);
        assert Mmaps(e.log) + [ii] + LibFrameCap.Slots(ii + 1, n) == Mmaps(e.log) + LibFrameCap.Slots(ii, n);
      }
    }
  }

  /** A context `v4l2cap_new` returns has mapped its buffer slots 0.. bufcnt - 1
      once each, in order, and its last call turned streaming on. */
  lemma NewMaps(e: Env, bufcnt: nat)
    ensures var s := NewStage(e, bufcnt);
      s.ok ==> && Mmaps(s.env.log) == Mmaps(e.log) + LibFrameCap.Slots(0, bufcnt)
               && |s.env.log| > 0 && s.env.log[|s.env.log| - 1] == Ioctl(StreamOn)
  {
    var id := Identify(e);
    IdentifyFilters(e);
    var cf := Configure(id.env, bufcnt);
    ConfigureQuiet(id.env, bufcnt);
    QuietFilters(id.env.log, cf.env.log);
    var m := BufferStage(cf.env, 0, bufcnt, []);
    BufferOrder(cf.env, 0, bufcnt, []);
    var so := IoctlAnswer(m.env, StreamOn);
    IoctlQuiet(m.env, StreamOn);
    QuietFilters(m.env.log, so.env.log);
    IoctlEnds(m.env, StreamOn);
  }

  /** The buffer work a call does: map a slot or queue it. */
  datatype Move = Map(slot: nat) | Queue(slot: nat)

  /** The move a call makes, if it makes one. */
  function MoveOf(ev: Event): Option<Move>
  {
    if ev.Mmap? then Some(Map(ev.index))
    else if ev.Ioctl? && ev.req.QBuf? then Some(Queue(ev.req.index))
    else None
  }

  /** m followed by a move; a queueing attempt that repeats the last move is
      that attempt retried and adds nothing. */
  function Push(m: seq<Move>, mv: Option<Move>): seq<Move>
  {
    if mv.None? then m
    else if mv.value.Queue? && |m| > 0 && m[|m| - 1] == mv.value then m
    else m + [mv.value]
  }

  /** The moves of a log, in order, with retried QBUF attempts counted once. */
  function Turns(l: seq<Event>): seq<Move>
  {
    if l == [] then [] else Push(Turns(l[..|l| - 1]), MoveOf(l[|l| - 1]))
  }

  /** Slots ii.. n - 1, each mapped and then queued. */
  function MapQueue(ii: nat, n: nat): seq<Move>
    decreases n - ii
  {
    if ii >= n then [] else [Map(ii), Queue(ii)] + MapQueue(ii + 1, n)
  }

  lemma TurnsAppend(l: seq<Event>, ev: Event)
    ensures Turns(l + [ev]) == Push(Turns(l), MoveOf(ev))
  {
    assert (l + [ev])[..|l|] == l;
  }

  /** `v4l2cap_ioctl` makes the move of its request once, however often it retries. */
  lemma {:induction false} IoctlTurns(e: Env, req: Request)
    ensures Turns(IoctlAnswer(e, req).env.log) == Push(Turns(e.log), MoveOf(Ioctl(req)))
    decreases |e.script|
  {
    var b := Consume(e, Ioctl(req));
    TurnsAppend(e.log, Ioctl(req));
    if Interrupted(b.o) {
      TurnsAppend(b.env.log, Sleep);
      IoctlTurns(Record(b.env, Sleep), req);
    }
  }

  /** Any other ioctl makes no move. */
  lemma IoctlKeeps(e: Env, req: Request)
    requires !req.QBuf?
    ensures Turns(IoctlAnswer(e, req).env.log) == Turns(e.log)
  {
    IoctlTurns(e, req);
  }

  /** A successful round of the buffer loop maps slot ii and then queues it. */
  lemma BufferRoundTurns(e: Env, ii: nat)
    ensures BufferRound(e, ii).ok ==> Turns(BufferRound(e, ii).env.log) == Turns(e.log) + [Map(ii), Queue(ii)]
  {
    var qb := IoctlAnswer(e, QueryBuf(ii));
    IoctlTurns(e, QueryBuf(ii));
    var mm := Consume(qb.env, Mmap(ii, BufferOf(qb.o.data).length));
    TurnsAppend(qb.env.log, Mmap(ii, BufferOf(qb.o.data).length));
    IoctlTurns(mm.env, QBuf(ii));
  }

  /** When the buffer loop succeeds from slot ii on, it has mapped and queued
      the slots ii.. n - 1 in that order. */
  lemma {:induction false} BufferTurns(e: Env, ii: nat, n: nat, addrs: seq<int>)
    requires ii <= n && |addrs| == ii
    ensures var s := BufferStage(e, ii, n, addrs);
      s.ok ==> Turns(s.env.log) == Turns(e.log) + MapQueue(ii, n)
    decreases n - ii
  {
    if ii < n {
      var r := BufferRound(e, ii);
      BufferRoundTurns(e, ii);
      if r.ok {
        BufferTurns(r.env, ii + 1, n, addrs + r.addrs);
        assert Turns(e.log) + [Map(ii), Queue(ii)] + MapQueue(ii + 1, n) == Turns(e.log) + MapQueue(ii, n);
      }
    }
  }

  /** The capability steps map and queue nothing. */
  lemma IdentifyTurns(e: Env)
    ensures Turns(Identify(e).env.log) == Turns(e.log)
  {
    var op := Consume(e, Open);
    TurnsAppend(e.log, Open);
    IoctlKeeps(op.env, QueryCap);
  }

  /** Neither do the crop, format and request calls. */
  lemma ConfigureTurns(e: Env, bufcnt: nat)
    ensures Turns(Configure(e, bufcnt).env.log) == Turns(e.log)
  {
    var cc := IoctlAnswer(e, CropCap);
    IoctlKeeps(e, CropCap);
    var sc := IoctlAnswer(cc.env, SetCrop);
    IoctlKeeps(cc.env, SetCrop);
    var gf := IoctlAnswer(sc.env, GetFmt);
    IoctlKeeps(sc.env, GetFmt);
    IoctlKeeps(gf.env, ReqBufs(bufcnt));
  }

  /** A context `v4l2cap_new` returns has had each of its slots 0.. bufcnt - 1
      mapped and then queued, slot by slot, each QBUF answering without a
      failure; no other call maps or queues anything. */
  lemma NewQueues(e: Env, bufcnt: nat)
    ensures var s := NewStage(e, bufcnt);
      s.ok ==> Turns(s.env.log) == Turns(e.log) + MapQueue(0, bufcnt)
  {
    var id := Identify(e);
    IdentifyTurns(e);
    var cf := Configure(id.env, bufcnt);
    ConfigureTurns(id.env, bufcnt);
    var m := BufferStage(cf.env, 0, bufcnt, []);
    BufferTurns(cf.env, 0, bufcnt, []);
    IoctlKeeps(m.env, StreamOn);
  }

  // ---------------------------------------------------------------------------
  // v4l2cap_next

  /** The select loop: it repeats only on a failure with EINTR. */
  function SelectAnswer(e: Env): (a: Answer)
    ensures !Interrupted(a.o)
    decreases |e.script|
  {
    var sel := Consume(e, Select);
    if Interrupted(sel.o) then SelectAnswer(sel.env) else sel
  }

  /** The dequeue loop: it repeats only on a failure with EAGAIN. */
  function DequeueAnswer(e: Env): (a: Answer)
    ensures !(a.o.ret == -1 && a.o.errno == EAGAIN)
    decreases |e.script|
  {
    var dq := IoctlAnswer(e, DQBuf);
    if dq.o.ret == -1 && dq.o.errno == EAGAIN then DequeueAnswer(dq.env) else dq
  }

  /** What `v4l2cap_next` returns, with the buffer and format it read. */
  datatype Grab = Grab(env: Env, frame: Ptr, buffer: Buffer, format: Format)

  /** `v4l2cap_next` on a context whose addresses are fbuf, rejecting a
      dequeued index above top; stray is the word stored just past the end of
      fbuf.  Only a select failure other than EINTR leads on to the dequeue:
      a timeout and a ready device both return NULL. */
  function Grabbed(e: Env, fbuf: seq<int>, stray: int, top: int): Grab
  {
    var sel := SelectAnswer(e);
    var none := Grab(sel.env, Null, Buffer(0, 0, 0), Format(0, 0, 0, 0, 0));
    if sel.o.ret != -1 then none
    else
      var gf := IoctlAnswer(sel.env, GetFmt);
      if gf.o.ret == -1 then none.(env := gf.env)
      else
        var dq := DequeueAnswer(gf.env);
        var b := BufferOf(dq.o.data);
        if dq.o.ret == -1 || b.index > top then none.(env := dq.env)
        else Grab(dq.env, Addr(if b.index < |fbuf| then fbuf[b.index] else stray), b, FormatOf(gf.o.data))
  }

  /** `v4l2cap_next` as written: the test `buf.index > ctx->bufcnt` lets the
      index `bufcnt` through, which reads the word past the address array. */
  function NextGrab(e: Env, fbuf: seq<int>, stray: int): (g: Grab)
    ensures g.frame != Null ==> g.buffer.index <= |fbuf|
  {
    GrabbedBound(e, fbuf, stray, |fbuf|);
    Grabbed(e, fbuf, stray, |fbuf|)
  }

  /** `v4l2cap_next` with the test `buf.index >= ctx->bufcnt`. */
  function NextGrabFixed(e: Env, fbuf: seq<int>): Grab
  {
    Grabbed(e, fbuf, 0, |fbuf| - 1)
  }

  /** Which of the optional outputs `l`, `w`, `h`, `fmt` the caller passed. */
  datatype Wanted = Wanted(l: bool, w: bool, h: bool, fmt: bool)

  /** The values written through those outputs; None where nothing was written. */
  datatype Meta = Meta(l: Option<nat>, w: Option<nat>, h: Option<nat>, fmt: Option<nat>)

  /** The outputs a grab writes: only the wanted ones, and only for a frame. */
  function MetaOf(g: Grab, want: Wanted): Meta
  {
    if g.frame.Null? then Meta(None, None, None, None)
    else Meta(if want.l then Some(g.buffer.bytesused) else None,
              if want.w then Some(g.format.width) else None,
              if want.h then Some(g.format.height) else None,
              if want.fmt then Some(g.format.pixelformat) else None)
  }

  /** `v4l2cap_next`. */
  method Next(ctx: Cap, dev: Device, want: Wanted, stray: int) returns (frame: Ptr, meta: Meta)
    requires ctx.Valid()
    modifies dev
    ensures var g := NextGrab(old(dev.State()), ctx.fbuf[..], stray);
      frame == g.frame && dev.State() == g.env && meta == MetaOf(g, want)
  {
    meta := Meta(None, None, None, None);
    var r: Outcome;
    while true
      invariant SelectAnswer(dev.State()) == SelectAnswer(old(dev.State()))
      decreases |dev.script|
    {
      r := dev.Call(Select);
      if r.ret == 0 { return Null, meta; }
      if r.ret == -1 {
        if r.errno == EINTR { continue; }
      } else {
        return Null, meta;
      }
      break;
    }
    var vfmt := V4l2Ioctl(dev, GetFmt);
    if vfmt.ret == -1 { return Null, meta; }
    ghost var e2 := dev.State();
    var o: Outcome;
    while true
      invariant DequeueAnswer(dev.State()) == DequeueAnswer(e2)
      decreases |dev.script|
    {
      o := V4l2Ioctl(dev, DQBuf);
      if o.ret == -1 {
        if o.errno == EAGAIN { continue; }
        return Null, meta;
      }
      break;
    }
    var b := BufferOf(o.data);
    if b.index > ctx.bufcnt { return Null, meta; }
    var f := FormatOf(vfmt.data);
    meta := Meta(if want.l then Some(b.bytesused) else None,
                 if want.w then Some(f.width) else None,
                 if want.h then Some(f.height) else None,
                 if want.fmt then Some(f.pixelformat) else None);
    frame := Addr(if b.index < ctx.bufcnt then ctx.fbuf[b.index] else stray);
  }

  /** `v4l2cap_next` returns a frame only after a select that failed with an
      error other than EINTR: a select that reports the device ready returns
      NULL at once. */
  lemma ReadyYieldsNothing(e: Env, fbuf: seq<int>, stray: int)
    ensures NextGrab(e, fbuf, stray).frame != Null ==>
      SelectAnswer(e).o.ret == -1 && SelectAnswer(e).o.errno != EINTR
    ensures e.script != [] && e.script[0].ret > 0 ==> NextGrab(e, fbuf, stray).frame == Null
  {
  }

  /** A frame is the address of the slot the driver dequeued, or, when the
      driver reports the index one past the last slot, the stray word just
      past the end of the address array. */
  lemma FrameSource(e: Env, fbuf: seq<int>, stray: int)
    ensures var g := NextGrab(e, fbuf, stray);
      g.frame != Null ==>
        if g.buffer.index < |fbuf| then g.frame == Addr(fbuf[g.buffer.index])
        else g.buffer.index == |fbuf| && g.frame == Addr(stray)
  {
  }

  /** The index check lets the index `bufcnt` through: with the device
      answering select with an error, the format, and a buffer whose index is
      2, a context of two buffers hands out the stray word. */
  lemma IndexOffByOne(stray: int)
    ensures var ready := Outcome(-1, Other, Nothing);
      var fmt := Outcome(0, Other, Formatted(Format(640, 480, 1280, 614400, 0)));
      var slot2 := Outcome(0, Other, Buffered(Buffer(2, 614400, 614400)));
      NextGrab(Env([ready, fmt, slot2], []), [10, 20], stray).frame == Addr(stray)
  {
    var ready := Outcome(-1, Other, Nothing);
    var fmt := Outcome(0, Other, Formatted(Format(640, 480, 1280, 614400, 0)));
    var slot2 := Outcome(0, Other, Buffered(Buffer(2, 614400, 614400)));
    var e := Env([ready, fmt, slot2], []);
    var sel := Consume(e, Select);
    assert SelectAnswer(e) == sel;
    var gf := Consume(sel.env, Ioctl(GetFmt));
    assert IoctlAnswer(sel.env, GetFmt) == gf;
    var dq := Consume(gf.env, Ioctl(DQBuf));
    assert IoctlAnswer(gf.env, DQBuf) == dq;
    assert DequeueAnswer(gf.env) == dq;
  }

  // ---------------------------------------------------------------------------
  // v4l2cap_done

  /** The lowest slot whose address is frame, or -1 when there is none. */
  function Lowest(fbuf: seq<int>, frame: Ptr): (k: int)
    ensures -1 <= k < |fbuf|
    ensures k == -1 <==> forall i :: 0 <= i < |fbuf| ==> frame != Addr(fbuf[i])
    ensures k >= 0 ==> frame == Addr(fbuf[k]) && forall i :: 0 <= i < k ==> frame != Addr(fbuf[i])
  {
    if fbuf == [] then -1
    else if frame == Addr(fbuf[0]) then 0
    else
      var k := Lowest(fbuf[1..], frame);
      assert forall i :: 1 <= i < |fbuf| ==> fbuf[1..][i - 1] == fbuf[i];
      if k == -1 then -1 else k + 1
  }

  /** `v4l2cap_done`: -1 without any call when frame is none of the buffers;
      otherwise the lowest matching buffer is queued again, and the result
      is -1 exactly when that fails. */
  method Done(ctx: Cap, dev: Device, frame: Ptr) returns (r: int)
    requires ctx.Valid()
    modifies dev
    ensures var k := Lowest(ctx.fbuf[..], frame);
      if k == -1 then r == -1 && dev.State() == old(dev.State())
      else var a := IoctlAnswer(old(dev.State()), QBuf(k));
        dev.State() == a.env && r == if a.o.ret == -1 then -1 else 0
  {
    var indx := -1;
    for ii := 0 to ctx.bufcnt
      invariant indx == -1 && forall i :: 0 <= i < ii ==> frame != Addr(ctx.fbuf[i])
    {
      if frame != Addr(ctx.fbuf[ii]) { continue; }
      indx := ii;
      break;
    }
    if indx < 0 { return -1; }
    var o := V4l2Ioctl(dev, QBuf(indx));
    if o.ret == -1 { return -1; }
    return 0;
  }

  /** Handing a frame back: when the slot addresses are distinct, `v4l2cap_done`
      finds the very slot `v4l2cap_next` dequeued it from; a stray frame that is
      none of the addresses is refused. */
  lemma NextDone(e: Env, fbuf: seq<int>, stray: int)
    requires forall i, j :: 0 <= i < j < |fbuf| ==> fbuf[i] != fbuf[j]
    ensures var g := NextGrab(e, fbuf, stray);
      g.frame != Null ==>
        if g.buffer.index < |fbuf| then Lowest(fbuf, g.frame) == g.buffer.index
        else (stray in fbuf || Lowest(fbuf, g.frame) == -1)
  {
    FrameSource(e, fbuf, stray);
    var g := NextGrab(e, fbuf, stray);
    if g.frame != Null && g.buffer.index < |fbuf| {
      var k := Lowest(fbuf, g.frame);
      assert k != -1 by { assert g.frame == Addr(fbuf[g.buffer.index]); }
    }
  }

  /** A frame comes from a dequeued index no greater than top. */
  lemma GrabbedBound(e: Env, fbuf: seq<int>, stray: int, top: int)
    ensures var g := Grabbed(e, fbuf, stray, top);
      g.frame != Null ==>
        && g.buffer.index <= top
        && g.frame == Addr(if g.buffer.index < |fbuf| then fbuf[g.buffer.index] else stray)
  {
  }

  /** With the corrected check every frame is the address of the slot the
      driver dequeued, and, when the slot addresses are distinct,
      `v4l2cap_done` hands exactly that slot back. */
  lemma FixedFrameSource(e: Env, fbuf: seq<int>)
    ensures var g := NextGrabFixed(e, fbuf);
      g.frame != Null ==> g.buffer.index < |fbuf| && g.frame == Addr(fbuf[g.buffer.index])
    ensures var g := NextGrabFixed(e, fbuf);
      g.frame != Null && (forall i, j :: 0 <= i < j < |fbuf| ==> fbuf[i] != fbuf[j]) ==>
        Lowest(fbuf, g.frame) == g.buffer.index
  {
    var g := NextGrabFixed(e, fbuf);
    GrabbedBound(e, fbuf, 0, |fbuf| - 1);
    if g.frame != Null && (forall i, j :: 0 <= i < j < |fbuf| ==> fbuf[i] != fbuf[j]) {
      var k := Lowest(fbuf, g.frame);
      assert k != -1 by { assert g.frame == Addr(fbuf[g.buffer.index]); }
    }
  }

  // ---------------------------------------------------------------------------
  // v4l2cap_free

  /** The slot a `VIDIOC_QUERYBUF` for slot ii names: the driver's answer, or
      ii itself when it filled nothing. */
  function QueriedIndex(d: Data, ii: nat): nat { if d.Buffered? then d.buffer.index else ii }

  /** Rounds ii.. n - 1 of the unmapping loop: query the buffer, then unmap
      the slot it names whether or not the query failed. */
  function UnmapStage(e: Env, ii: nat, n: nat): (u: Env)
    requires ii <= n
    ensures |u.script| <= |e.script|
    ensures |e.log| + (n - ii) <= |u.log| && u.log[..|e.log|] == e.log
    decreases n - ii
  {
    if ii == n then e
    else
      var qb := IoctlAnswer(e, QueryBuf(ii));
      IoctlQuiet(e, QueryBuf(ii));
      var r := Record(qb.env, Munmap(QueriedIndex(qb.o.data, ii)));
      var u := UnmapStage(r, ii + 1, n);
      assert u.log[..|e.log|] == u.log[..|r.log|][..|e.log|];
      u
  }

  /** `v4l2cap_free` for a context of `bufcnt` buffers: it keeps what was
      logged before and ends by closing the device. */
  function FreeRun(e: Env, bufcnt: nat): (f: Env)
    ensures |e.log| + bufcnt < |f.log| && f.log[..|e.log|] == e.log && f.log[|f.log| - 1] == Close
  {
    IoctlQuiet(e, StreamOff);
    var so := IoctlAnswer(e, StreamOff);
    var f := Record(UnmapStage(so.env, 0, bufcnt), Close);
    assert f.log[..|e.log|] == f.log[..|so.env.log|][..|e.log|];
    f
  }

  /** `v4l2cap_free`: always 0. */
  method Free(ctx: Cap, dev: Device) returns (r: int)
    requires ctx.Valid()
    modifies dev
    ensures r == 0 && dev.State() == FreeRun(old(dev.State()), ctx.bufcnt)
  {
    var o := V4l2Ioctl(dev, StreamOff);
    for ii := 0 to ctx.bufcnt
      invariant UnmapStage(dev.State(), ii, ctx.bufcnt) == UnmapStage(IoctlAnswer(old(dev.State()), StreamOff).env, 0, ctx.bufcnt)
    {
      o := V4l2Ioctl(dev, QueryBuf(ii));
      dev.Note(Munmap(QueriedIndex(o.data, ii)));
    }
    dev.Note(Close);
    return 0;
  }

  /** The unmapping loop unmaps once per slot and maps nothing. */
  lemma {:induction false} UnmapCount(e: Env, ii: nat, n: nat)
    requires ii <= n
    ensures var u := UnmapStage(e, ii, n);
      |Munmaps(u.log)| == |Munmaps(e.log)| + (n - ii) && Mmaps(u.log) == Mmaps(e.log)
    decreases n - ii
  {
    if ii < n {
      var qb := IoctlAnswer(e, QueryBuf(ii));
      IoctlQuiet(e, QueryBuf(ii));
      QuietFilters(e.log, qb.env.log);
      var ev := Munmap(QueriedIndex(qb.o.data, ii));
      FiltersAppend(qb.env.log, ev);
      UnmapCount(Record(qb.env, ev), ii + 1, n);
    }
  }

  /** `v4l2cap_free` makes one munmap call per buffer, maps nothing, and ends
      by closing the device. */
  lemma FreeReleases(e: Env, bufcnt: nat)
    ensures var f := FreeRun(e, bufcnt);
      && |Munmaps(f.log)| == |Munmaps(e.log)| + bufcnt && Mmaps(f.log) == Mmaps(e.log)
      && f.log[|f.log| - 1] == Close
  {
    var so := IoctlAnswer(e, StreamOff);
    IoctlQuiet(e, StreamOff);
    QuietFilters(e.log, so.env.log);
    var u := UnmapStage(so.env, 0, bufcnt);
    UnmapCount(so.env, 0, bufcnt);
    FiltersAppend(u.log, Close);
  }

  /** A context that `v4l2cap_new` set up and `v4l2cap_free` released has
      made as many munmap calls as mmap calls: bufcnt of each. */
  lemma NewThenFree(e: Env, bufcnt: nat)
    ensures var s := NewStage(e, bufcnt); var f := FreeRun(s.env, bufcnt);
      s.ok ==> && |Mmaps(f.log)| == |Mmaps(e.log)| + bufcnt
               && |Munmaps(f.log)| == |Munmaps(e.log)| + bufcnt
  {
    var s := NewStage(e, bufcnt);
    NewMaps(e, bufcnt);
    NewHolds(e, bufcnt);
    HoldsFilters(e.log, s.env.log);
    FreeReleases(s.env, bufcnt);
  }
}
