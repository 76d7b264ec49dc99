/**
 * The operating system as the capture code sees it: every system call whose
 * result steers the code (open, ioctl, select, mmap) and every call of the
 * user's frame handler consumes the next outcome of a script, and every call
 * is recorded in a log.  Calls whose results the code ignores (munmap,
 * close, nanosleep) only add to the log.  A script that has run out answers
 * every further call with a failure other than EINTR or EAGAIN, so a device
 * that stops answering ends every retry loop.
 */
module Kernel {

  datatype Option<T> = None | Some(value: T)

  /** The errno values the code distinguishes; Other stands for every other one. */
  datatype Errno = EINTR | EAGAIN | Other

  /** The capability bits `V4L2_CAP_VIDEO_CAPTURE` and `V4L2_CAP_STREAMING`. */
  datatype Caps = Caps(capture: bool, streaming: bool)

  /** The `fmt.pix` fields of a `struct v4l2_format`. */
  datatype Format = Format(width: nat, height: nat, bytesperline: nat, sizeimage: nat, pixelformat: nat)

  /** The `struct v4l2_buffer` fields the code reads back. */
  datatype Buffer = Buffer(index: nat, length: nat, bytesused: nat)

  /** What a call fills in besides its return value. */
  datatype Data = Nothing | Capabilities(caps: Caps) | Formatted(format: Format)
                | Granted(count: int) | Buffered(buffer: Buffer)

  /** One answer: the return value, errno, and the structure the call filled. */
  datatype Outcome = Outcome(ret: int, errno: Errno, data: Data)

  /** The answer of a device that has stopped answering. */
  const Gone := Outcome(-1, Other, Nothing)

  /** The ioctl requests of the capture code. */
  datatype Request = QueryCap | CropCap | SetCrop | GetFmt | ReqBufs(count: nat)
                   | QueryBuf(index: nat) | QBuf(index: nat) | DQBuf | StreamOn | StreamOff

  /** One recorded call. */
  datatype Event = Open | Ioctl(req: Request) | Select | Mmap(index: nat, length: nat) | Munmap(index: nat)
                 | Close | Sleep | Handle(index: nat, bytesused: nat, width: nat, height: nat, pixelformat: nat)

  /** The outcomes still to come and the calls made so far. */
  datatype Env = Env(script: seq<Outcome>, log: seq<Event>)

  /** An outcome together with the environment after the call. */
  datatype Answer = Answer(o: Outcome, env: Env)

  /** A failure with EINTR: the call was interrupted by a signal. */
  predicate Interrupted(o: Outcome) { o.ret == -1 && o.errno == EINTR }

  /** The fields `VIDIOC_QUERYCAP` reported; none when it filled nothing. */
  function CapsOf(d: Data): Caps { if d.Capabilities? then d.caps else Caps(false, false) }

  /** The format `VIDIOC_G_FMT` reported into the zeroed structure. */
  function FormatOf(d: Data): Format { if d.Formatted? then d.format else Format(0, 0, 0, 0, 0) }

  /** The count `VIDIOC_REQBUFS` left in a request for `asked` buffers. */
  function GrantedOf(d: Data, asked: int): int { if d.Granted? then d.count else asked }

  /** The buffer `VIDIOC_DQBUF` reported into the zeroed structure. */
  function BufferOf(d: Data): Buffer { if d.Buffered? then d.buffer else Buffer(0, 0, 0) }

  /** A call that consumes an outcome: the first of the script, or Gone once
      the script is empty. */
  function Consume(e: Env, ev: Event): (a: Answer)
    ensures a.env.log == e.log + [ev]
    ensures e.script == [] ==> a.o == Gone && a.env.script == []
    ensures e.script != [] ==> a.o == e.script[0] && a.env.script == e.script[1..]
  {
    if e.script == [] then Answer(Gone, Env([], e.log + [ev]))
    else Answer(e.script[0], Env(e.script[1..], e.log + [ev]))
  }

  /** A call whose result is ignored: it is only recorded. */
  function Record(e: Env, ev: Event): (e': Env)
    ensures e'.script == e.script && e'.log == e.log + [ev]
  {
    Env(e.script, e.log + [ev])
  }

  /** s is what is left of t once some of its first elements are used. */
  predicate Rest(s: seq<Outcome>, t: seq<Outcome>)
  {
    |s| <= |t| && s == t[|t| - |s|..]
  }

  /** l' is l followed by ioctl attempts and sleeps only. */
  predicate Quiet(l: seq<Event>, l': seq<Event>)
  {
    |l| <= |l'| && l'[..|l|] == l && forall i :: |l| <= i < |l'| ==> l'[i].Ioctl? || l'[i].Sleep?
  }

  /** l' is l followed by calls that neither unmap a buffer nor close the device. */
  predicate Holds(l: seq<Event>, l': seq<Event>)
  {
    |l| <= |l'| && l'[..|l|] == l && forall i :: |l| <= i < |l'| ==> !l'[i].Munmap? && !l'[i].Close?
  }

  lemma HoldsTrans(l: seq<Event>, l': seq<Event>, l'': seq<Event>)
    requires Holds(l, l') && Holds(l', l'')
    ensures Holds(l, l'')
  {
    assert l''[..|l|] == l''[..|l'|][..|l|];
  }

  lemma QuietTrans(l: seq<Event>, l': seq<Event>, l'': seq<Event>)
    requires Quiet(l, l') && Quiet(l', l'')
    ensures Quiet(l, l'')
  {
    assert l''[..|l|] == l''[..|l'|][..|l|];
  }

  lemma QuietHolds(l: seq<Event>, l': seq<Event>)
    requires Quiet(l, l')
    ensures Holds(l, l')
  {
  }

  /** The slot indices of the mmap calls in a log, in order. */
  function Mmaps(l: seq<Event>): seq<nat>
  {
    if l == [] then []
    else Mmaps(l[..|l| - 1]) + (if l[|l| - 1].Mmap? then [l[|l| - 1].index] else [])
  }

  /** The slot indices of the munmap calls in a log, in order. */
  function Munmaps(l: seq<Event>): seq<nat>
  {
    if l == [] then []
    else Munmaps(l[..|l| - 1]) + (if l[|l| - 1].Munmap? then [l[|l| - 1].index] else [])
  }

  /** One more call adds its own slot to the filter it belongs to. */
  lemma FiltersAppend(l: seq<Event>, ev: Event)
    ensures Mmaps(l + [ev]) == Mmaps(l) + (if ev.Mmap? then [ev.index] else [])
    ensures Munmaps(l + [ev]) == Munmaps(l) + (if ev.Munmap? then [ev.index] else [])
  {
    assert (l + [ev])[..|l|] == l;
  }

  /** A call other than munmap and close holds on to everything. */
  lemma AppendHolds(l: seq<Event>, ev: Event)
    requires !ev.Munmap? && !ev.Close?
    ensures Holds(l, l + [ev])
  {
    assert (l + [ev])[..|l|] == l;
  }

  /** Ioctl attempts and sleeps neither map nor unmap anything. */
  lemma {:induction false} QuietFilters(l: seq<Event>, l': seq<Event>)
    requires Quiet(l, l')
    ensures Mmaps(l') == Mmaps(l) && Munmaps(l') == Munmaps(l)
    decreases |l'|
  {
    if |l'| > |l| {
      var k := l'[..|l'| - 1];
      assert k[..|l|] == l;
      QuietFilters(l, k);
    } else {
      assert l' == l;
    }
  }

  /** Calls that hold on to everything add no munmap. */
  lemma {:induction false} HoldsFilters(l: seq<Event>, l': seq<Event>)
    requires Holds(l, l')
    ensures Munmaps(l') == Munmaps(l)
    decreases |l'|
  {
    if |l'| > |l| {
      var k := l'[..|l'| - 1];
      assert k[..|l|] == l;
      HoldsFilters(l, k);
    } else {
      assert l' == l;
    }
  }

  /** The device the model's code talks to: a mutable cell around an Env. */
  class Device {
    var script: seq<Outcome>
    var log: seq<Event>

    function State(): Env
      reads this
    {
      Env(script, log)
    }

    constructor (script: seq<Outcome>)
      ensures State() == Env(script, [])
    {
      this.script, this.log := script, [];
    }

    /** Makes a call that consumes an outcome. */
    method Call(ev: Event) returns (o: Outcome)
      modifies this
      ensures Answer(o, State()) == Consume(old(State()), ev)
    {
      var a := Consume(State(), ev);
      o, script, log := a.o, a.env.script, a.env.log;
    }

    /** Makes a call whose result is ignored. */
    method Note(ev: Event)
      modifies this
      ensures State() == Record(old(State()), ev)
    {
      log := log + [ev];
    }
  }
}
