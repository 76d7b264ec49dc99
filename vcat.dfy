/**
 * apps/vcat.c: opens one or more capture devices, then reads frames from
 * them round-robin and writes each frame it gets to standard output.
 *
 * The model records the calls `main` makes, device by device: the opens,
 * every `v4l2cap_next`, every write of a frame and every `v4l2cap_done`,
 * and the frees.  Whether an open succeeds and whether a `v4l2cap_next`
 * returns a frame are inputs; the device side of those calls is modelled in
 * V4l2Cap.
 */
module Vcat {
  import opened Bits

  /** `UINT64_MAX`: the `-1` stored in the unsigned total. */
  const Forever: nat := 0xFFFF_FFFF_FFFF_FFFF

  /** An option as getopt returns it for `t:d:e:`, the argument already
      converted by strtoul; Bad stands for any other letter and for a
      missing argument. */
  datatype Opt = TotalOpt(n: nat) | DiscardOpt(n: nat) | EachOpt(n: nat) | Bad

  /** The loop bounds `main` works with. */
  datatype Args = Args(total: nat, each: nat, discard: nat)

  /** The defaults `-t 0 -d 0 -e 1`, with `-t 0` already read as forever. */
  const Defaults := Args(Forever, 1, 0)

  /** How `main` ends before the capture: bail() with a usage message, or
      the capture itself with its bounds and the number of devices. */
  datatype Launch = Bail | Go(args: Args, devcnt: nat)

  /** The option loop: `-t 0` means forever, `-e 0` and any unknown option
      bail. */
  function Options(a: Args, opts: seq<Opt>): (r: Launch)
    ensures r.Go? ==> r.devcnt == 0 && (r.args.each == a.each || r.args.each >= 1)
    ensures (exists i :: 0 <= i < |opts| && opts[i].Bad?) ==> r.Bail?
    decreases |opts|
  {
    if opts == [] then Go(a, 0)
    else match opts[0]
      case TotalOpt(n) => Options(a.(total := if n < 1 then Forever else n), opts[1..])
      case DiscardOpt(n) => Options(a.(discard := n), opts[1..])
      case EachOpt(n) => if n < 1 then Bail else Options(a.(each := n), opts[1..])
      case Bad => Bail
  }

  /** The options, then the operands: at least one device is needed. */
  function Startup(opts: seq<Opt>, devices: seq<string>): (l: Launch)
    ensures l.Go? ==> l.devcnt == |devices| >= 1
    ensures devices == [] ==> l.Bail?
  {
    match Options(Defaults, opts)
    case Bail => Bail
    case Go(a, _) => if |devices| < 1 then Bail else Go(a, |devices|)
  }

  /** The option handling of `main`. */
  method ParseCommandLine(opts: seq<Opt>, devices: seq<string>) returns (l: Launch)
    ensures l == Startup(opts, devices)
  {
    var a := Defaults;
    var i := 0;
    while i < |opts|
      invariant 0 <= i <= |opts|
      invariant Options(a, opts[i..]) == Options(Defaults, opts)
    {
      assert opts[i..][1..] == opts[i + 1..];
      match opts[i] {
      case TotalOpt(n) =>
        a := a.(total := n);
        if a.total < 1 { a := a.(total := Forever); }
      case DiscardOpt(n) => a := a.(discard := n);
      case EachOpt(n) =>
        if n < 1 { return Bail; }
        a := a.(each := n);
      case Bad => return Bail;
      }
      i := i + 1;
    }
    assert opts[i..] == [];
    if |devices| < 1 { return Bail; }
    return Go(a, |devices|);
  }

  lemma {:induction false} OptionsBounds(a: Args, opts: seq<Opt>)
    requires a.total >= 1 && a.each >= 1
    ensures Options(a, opts).Go? ==> Options(a, opts).args.total >= 1 && Options(a, opts).args.each >= 1
    decreases |opts|
  {
    if opts != [] {
      match opts[0]
      case TotalOpt(n) => OptionsBounds(a.(total := if n < 1 then Forever else n), opts[1..]);
      case DiscardOpt(n) => OptionsBounds(a.(discard := n), opts[1..]);
      case EachOpt(n) => if n >= 1 { OptionsBounds(a.(each := n), opts[1..]); }
      case Bad =>
    }
  }

  /** A capture starts with at least one device, one or more frames per
      device and a total of at least one (forever for `-t 0`). */
  lemma StartupBounds(opts: seq<Opt>, devices: seq<string>)
    ensures var l := Startup(opts, devices);
      l.Go? ==> l.devcnt == |devices| >= 1 && l.args.total >= 1 && l.args.each >= 1
  {
    OptionsBounds(Defaults, opts);
  }

  /** `-t 0` anywhere among the options reads as forever unless a later
      `-t` overrides it; in particular a lone `-t 0` is the default. */
  lemma ZeroTotalForever(a: Args, rest: seq<Opt>)
    requires forall i :: 0 <= i < |rest| ==> !rest[i].TotalOpt?
    ensures var l := Options(a, [TotalOpt(0)] + rest);
      l.Go? ==> l.args.total == Forever
  {
    assert ([TotalOpt(0)] + rest)[1..] == rest;
    OptionsKeepTotal(a.(total := Forever), rest);
  }

  lemma {:induction false} OptionsKeepTotal(a: Args, opts: seq<Opt>)
    requires forall i :: 0 <= i < |opts| ==> !opts[i].TotalOpt?
    ensures Options(a, opts).Go? ==> Options(a, opts).args.total == a.total
    decreases |opts|
  {
    if opts != [] {
      assert forall i :: 0 <= i < |opts[1..]| ==> opts[1..][i] == opts[i + 1];
      match opts[0]
      case DiscardOpt(n) => OptionsKeepTotal(a.(discard := n), opts[1..]);
      case EachOpt(n) => if n >= 1 { OptionsKeepTotal(a.(each := n), opts[1..]); }
      case Bad =>
    }
  }

  // ---------------------------------------------------------------------------
  // The calls of main

  /** One call of `main`, with the device it is made on; Write is the write
      of a frame to standard output. */
  datatype Op = Open(dev: nat) | Next(dev: nat) | Write | Done(dev: nat, frame: bool) | Free(dev: nat)

  /** The opens from device i on: every device is opened in turn, and the
      first that fails ends the program. */
  function OpenFrom(devcnt: nat, opens: nat -> bool, i: nat): (ops: seq<Op>)
    ensures |ops| <= if i <= devcnt then devcnt - i else 0
    ensures forall p :: 0 <= p < |ops| ==> ops[p] == Open(i + p)
    ensures forall p :: 0 <= p < |ops| - 1 ==> opens(ops[p].dev)
    ensures i < devcnt && |ops| < devcnt - i ==> |ops| > 0 && !opens(i + |ops| - 1)
    decreases devcnt - i
  {
    if i >= devcnt then [] else [Open(i)] + (if opens(i) then OpenFrom(devcnt, opens, i + 1) else [])
  }

  /** The first d discarded frames before capture j of outer iteration i:
      each is fetched and handed straight back, frame or not. got(i, j, k)
      says whether the k-th fetch of that capture returns a frame. */
  function Discarding(dev: nat, got: (nat, nat, nat) -> bool, i: nat, j: nat, d: nat): seq<Op>
  {
    if d == 0 then [] else Discarding(dev, got, i, j, d - 1) + [Next(dev), Done(dev, got(i, j, d - 1))]
  }

  /** Capture j of outer iteration i: the discarded frames, then one fetch,
      a write if a frame came back, and `v4l2cap_done` either way. */
  function Round(dev: nat, got: (nat, nat, nat) -> bool, i: nat, j: nat, discard: nat): seq<Op>
  {
    Discarding(dev, got, i, j, discard) + [Next(dev)] + (if got(i, j, discard) then [Write] else [])
      + [Done(dev, got(i, j, discard))]
  }

  /** The first e captures of outer iteration i, all on device dev. */
  function Rounds(dev: nat, got: (nat, nat, nat) -> bool, i: nat, e: nat, discard: nat): seq<Op>
  {
    if e == 0 then [] else Rounds(dev, got, i, e - 1, discard) + Round(dev, got, i, e - 1, discard)
  }

  /** The device of outer iteration i: i mod devcnt, by repeated
      subtraction. */
  function DeviceOf(i: nat, devcnt: nat): (d: nat)
    requires devcnt >= 1
    ensures d < devcnt
  {
    if i < devcnt then i else DeviceOf(i - devcnt, devcnt)
  }

  /** The first t outer iterations: iteration i uses device i mod devcnt for
      all of its captures and discards. */
  function Schedule(devcnt: nat, got: (nat, nat, nat) -> bool, t: nat, each: nat, discard: nat): (ops: seq<Op>)
    requires devcnt >= 1
    ensures forall p :: 0 <= p < |ops| ==> ops[p].Write? || ops[p].dev < devcnt
  {
    if t == 0 then []
    else
      var s, d := Schedule(devcnt, got, t - 1, each, discard), DeviceOf(t - 1, devcnt);
      var r := Rounds(d, got, t - 1, each, discard);
      RoundsOnDevice(d, got, t - 1, each, discard);
      assert forall p :: |s| <= p < |s + r| ==> (s + r)[p] == r[p - |s|];
      s + r
  }

  /** The frees of devices 0 .. n - 1. */
  function Frees(n: nat): seq<Op>
  {
    if n == 0 then [] else Frees(n - 1) + [Free(n - 1)]
  }

  /** The open loop. */
  /** The open of device ii, then the opens after it if it succeeded. */
  lemma OpenStep(devcnt: nat, opens: nat -> bool, ops: seq<Op>, ii: nat)
    requires ii < devcnt
    ensures opens(ii) ==> ops + OpenFrom(devcnt, opens, ii) == (ops + [Open(ii)]) + OpenFrom(devcnt, opens, ii + 1)
    ensures !opens(ii) ==> ops + OpenFrom(devcnt, opens, ii) == ops + [Open(ii)]
  {
    var rest := OpenFrom(devcnt, opens, ii + 1);
    assert (ops + [Open(ii)]) + rest == ops + ([Open(ii)] + rest);
  }

  method OpenAll(devcnt: nat, opens: nat -> bool) returns (ok: bool, ops: seq<Op>)
    ensures ops == OpenFrom(devcnt, opens, 0)
    ensures ok <==> forall i :: 0 <= i < devcnt ==> opens(i)
  {
    ops := [];
    var ii := 0;
    while ii < devcnt
      invariant ii <= devcnt
      invariant ops + OpenFrom(devcnt, opens, ii) == OpenFrom(devcnt, opens, 0)
      invariant forall i :: 0 <= i < ii ==> opens(i)
    {
      OpenStep(devcnt, opens, ops, ii);
      if !opens(ii) {
        return false, ops + [Open(ii)];
      }
      ops := ops + [Open(ii)];
      ii := ii + 1;
    }
    assert OpenFrom(devcnt, opens, ii) == [];
    return true, ops;
  }

  /** One capture: the discard loop, the kept fetch, the write if a frame
      came back, and the `v4l2cap_done` for it. */
  method CaptureOne(dev: nat, got: (nat, nat, nat) -> bool, ii: nat, jj: nat, discard: nat)
    returns (ops: seq<Op>)
    ensures ops == Round(dev, got, ii, jj, discard)
  {
    ops := [];
    for kk := 0 to discard
      invariant ops == Discarding(dev, got, ii, jj, kk)
    {
      ops := ops + [Next(dev), Done(dev, got(ii, jj, kk))];
    }
    var frame := got(ii, jj, discard);
    ops := ops + [Next(dev)];
    if frame {
      ops := ops + [Write];
    }
    ops := ops + [Done(dev, frame)];
  }

  /** The `each` captures of one outer iteration, on one device. */
  method CaptureEach(dev: nat, got: (nat, nat, nat) -> bool, ii: nat, each: nat, discard: nat)
    returns (ops: seq<Op>)
    ensures ops == Rounds(dev, got, ii, each, discard)
  {
    ops := [];
    for jj := 0 to each
      invariant ops == Rounds(dev, got, ii, jj, discard)
    {
      var r := CaptureOne(dev, got, ii, jj, discard);
      ops := ops + r;
    }
  }

  /** The capture loops: total outer iterations of `each` captures, each
      preceded by `discard` fetches that are handed back unwritten. */
  method CaptureAll(devcnt: nat, got: (nat, nat, nat) -> bool, total: nat, each: nat, discard: nat)
    returns (ops: seq<Op>)
    requires devcnt >= 1
    ensures ops == Schedule(devcnt, got, total, each, discard)
  {
    ops := [];
    for ii := 0 to total
      invariant ops == Schedule(devcnt, got, ii, each, discard)
    {
      DeviceOfIsMod(ii, devcnt);
      var r := CaptureEach(ii % devcnt, got, ii, each, discard);
      ops := ops + r;
    }
  }

  /** The free loop. */
  method FreeAll(devcnt: nat) returns (ops: seq<Op>)
    ensures ops == Frees(devcnt)
  {
    ops := [];
    for ii := 0 to devcnt
      invariant ops == Frees(ii)
    {
      ops := ops + [Free(ii)];
    }
  }

  /** `main` after the options: EXIT_FAILURE (1) as soon as an open fails,
      without freeing the devices already opened; otherwise the capture, the
      frees and 0. */
  method Run(devcnt: nat, args: Args, opens: nat -> bool, got: (nat, nat, nat) -> bool)
    returns (status: int, ops: seq<Op>)
    requires devcnt >= 1
    ensures status == 0 || status == 1
    ensures var openCalls := OpenFrom(devcnt, opens, 0);
      if forall i :: 0 <= i < devcnt ==> opens(i)
      then status == 0 && ops == openCalls + Schedule(devcnt, got, args.total, args.each, args.discard) + Frees(devcnt)
      else status == 1 && ops == openCalls
  {
    var ok, openCalls := OpenAll(devcnt, opens);
    if !ok {
      return 1, openCalls;
    }
    var captured := CaptureAll(devcnt, got, args.total, args.each, args.discard);
    var freed := FreeAll(devcnt);
    return 0, openCalls + captured + freed;
  }

  // ---------------------------------------------------------------------------
  // Properties of the schedule

  /** Which calls a count counts. */
  datatype Kind = Writing | Fetching | Returning

  predicate Is(op: Op, k: Kind)
  {
    match k
    case Writing => op.Write?
    case Fetching => op.Next?
    case Returning => op.Done?
  }

  /** The number of calls of kind k in a run of calls. */
  function Count(ops: seq<Op>, k: Kind): nat
  {
    if ops == [] then 0 else (if Is(ops[0], k) then 1 else 0) + Count(ops[1..], k)
  }

  /** The number of frames written in a run of calls. */
  function Writes(ops: seq<Op>): nat { Count(ops, Writing) }

  /** The number of fetches in a run of calls. */
  function Nexts(ops: seq<Op>): nat { Count(ops, Fetching) }

  /** The number of `v4l2cap_done` calls, with a frame or with NULL, in a
      run of calls. */
  function Dones(ops: seq<Op>): nat { Count(ops, Returning) }

  /** Counts of one kind add up over a concatenation. */
  lemma {:induction false} CountAppendOf(a: seq<Op>, b: seq<Op>, k: Kind)
    ensures Count(a + b, k) == Count(a, k) + Count(b, k)
    decreases |a|
  {
    if a == [] {
      assert a + b == b;
    } else {
      assert (a + b)[1..] == a[1..] + b;
      CountAppendOf(a[1..], b, k);
    }
  }

  lemma CountAppend(a: seq<Op>, b: seq<Op>)
    ensures Writes(a + b) == Writes(a) + Writes(b)
    ensures Nexts(a + b) == Nexts(a) + Nexts(b)
    ensures Dones(a + b) == Dones(a) + Dones(b)
  {
    CountAppendOf(a, b, Writing);
    CountAppendOf(a, b, Fetching);
    CountAppendOf(a, b, Returning);
  }

  /** Every call in ops except the writes is made on device dev. */
  predicate OnDevice(ops: seq<Op>, dev: nat)
  {
    forall p :: 0 <= p < |ops| ==> ops[p].Write? || ops[p].dev == dev
  }

  lemma OnDeviceAppend(a: seq<Op>, b: seq<Op>, dev: nat)
    requires OnDevice(a, dev) && OnDevice(b, dev)
    ensures OnDevice(a + b, dev)
  {
    assert forall p :: |a| <= p < |a + b| ==> (a + b)[p] == b[p - |a|];
  }

  /** Every call of an outer iteration except the writes is made on its
      device. */
  lemma {:induction false} RoundsOnDevice(dev: nat, got: (nat, nat, nat) -> bool, i: nat, e: nat, discard: nat)
    ensures OnDevice(Rounds(dev, got, i, e, discard), dev)
  {
    if e > 0 {
      RoundsOnDevice(dev, got, i, e - 1, discard);
      DiscardingOnDevice(dev, got, i, e - 1, discard);
      var d, w := Discarding(dev, got, i, e - 1, discard), if got(i, e - 1, discard) then [Write] else [];
      OnDeviceAppend(d, [Next(dev)], dev);
      OnDeviceAppend(d + [Next(dev)], w, dev);
      OnDeviceAppend(d + [Next(dev)] + w, [Done(dev, got(i, e - 1, discard))], dev);
      OnDeviceAppend(Rounds(dev, got, i, e - 1, discard), Round(dev, got, i, e - 1, discard), dev);
    }
  }

  lemma {:induction false} DiscardingOnDevice(dev: nat, got: (nat, nat, nat) -> bool, i: nat, j: nat, d: nat)
    ensures OnDevice(Discarding(dev, got, i, j, d), dev)
  {
    if d > 0 {
      DiscardingOnDevice(dev, got, i, j, d - 1);
      OnDeviceAppend(Discarding(dev, got, i, j, d - 1), [Next(dev), Done(dev, got(i, j, d - 1))], dev);
    }
  }

  /** Outer iteration i makes its calls on device i mod devcnt. */
  lemma ScheduleDevices(devcnt: nat, got: (nat, nat, nat) -> bool, t: nat, each: nat, discard: nat)
    requires devcnt >= 1 && t > 0
    ensures var s := Schedule(devcnt, got, t - 1, each, discard);
      && Schedule(devcnt, got, t, each, discard) == s + Rounds((t - 1) % devcnt, got, t - 1, each, discard)
      && OnDevice(Schedule(devcnt, got, t, each, discard)[|s|..], (t - 1) % devcnt)
  {
    DeviceOfIsMod(t - 1, devcnt);
    var s, r := Schedule(devcnt, got, t - 1, each, discard), Rounds((t - 1) % devcnt, got, t - 1, each, discard);
    RoundsOnDevice((t - 1) % devcnt, got, t - 1, each, discard);
    assert (s + r)[|s|..] == r;
  }

  /** The counts of a single call. */
  lemma CountsOne(op: Op)
    ensures Writes([op]) == (if op.Write? then 1 else 0)
    ensures Nexts([op]) == (if op.Next? then 1 else 0)
    ensures Dones([op]) == (if op.Done? then 1 else 0)
  {
    assert [op][1..] == [];
    assert Count([], Writing) == 0 && Count([], Fetching) == 0 && Count([], Returning) == 0;
  }

  /** The discard loop fetches d frames and hands each back, writing none. */
  lemma {:induction false} DiscardingCounts(dev: nat, got: (nat, nat, nat) -> bool, i: nat, j: nat, d: nat)
    ensures var r := Discarding(dev, got, i, j, d);
      Nexts(r) == d && Dones(r) == d && Writes(r) == 0
  {
    if d > 0 {
      var r := Discarding(dev, got, i, j, d - 1);
      var done := Done(dev, got(i, j, d - 1));
      DiscardingCounts(dev, got, i, j, d - 1);
      assert r + [Next(dev), done] == (r + [Next(dev)]) + [done];
      CountsOne(Next(dev));
      CountsOne(done);
      CountAppend(r, [Next(dev)]);
      CountAppend(r + [Next(dev)], [done]);
    }
  }

  /** One capture: discard + 1 fetches, as many `v4l2cap_done` calls, and a
      write exactly when the kept fetch returned a frame. */
  lemma RoundCounts(dev: nat, got: (nat, nat, nat) -> bool, i: nat, j: nat, discard: nat)
    ensures var r := Round(dev, got, i, j, discard);
      && Nexts(r) == discard + 1 && Dones(r) == discard + 1
      && Writes(r) == (if got(i, j, discard) then 1 else 0)
  {
    var d := Discarding(dev, got, i, j, discard);
    var w := if got(i, j, discard) then [Write] else [];
    var done := Done(dev, got(i, j, discard));
    DiscardingCounts(dev, got, i, j, discard);
    CountsOne(Next(dev));
    CountsOne(Write);
    CountsOne(done);
    CountAppend(d, [Next(dev)]);
    CountAppend(d + [Next(dev)], w);
    CountAppend(d + [Next(dev)] + w, [done]);
  }

  /** t groups of `each`, by repeated addition. */
  function Groups(t: nat, each: nat): nat
  {
    if t == 0 then 0 else Groups(t - 1, each) + each
  }

  lemma {:induction false} GroupsIsMul(t: nat, each: nat)
    ensures Groups(t, each) == t * each
  {
    if t > 0 {
      GroupsIsMul(t - 1, each);
      MulPred(t, each);
    }
  }

  /** e captures make e groups of discard + 1 fetches, and as many
      returns (k is Fetching or Returning). */
  lemma {:induction false} RoundsGroups(dev: nat, got: (nat, nat, nat) -> bool, i: nat, e: nat, discard: nat, k: Kind)
    requires k != Writing
    ensures Count(Rounds(dev, got, i, e, discard), k) == Groups(e, discard + 1)
  {
    if e == 0 {
      assert Rounds(dev, got, i, e, discard) == [];
    } else {
      var before, last := Rounds(dev, got, i, e - 1, discard), Round(dev, got, i, e - 1, discard);
      RoundsGroups(dev, got, i, e - 1, discard, k);
      RoundCounts(dev, got, i, e - 1, discard);
      CountAppendOf(before, last, k);
    }
  }

  /** e captures make e * (discard + 1) fetches and hand every one back. */
  lemma RoundsFetches(dev: nat, got: (nat, nat, nat) -> bool, i: nat, e: nat, discard: nat)
    ensures Nexts(Rounds(dev, got, i, e, discard)) == e * (discard + 1)
    ensures Dones(Rounds(dev, got, i, e, discard)) == e * (discard + 1)
  {
    RoundsGroups(dev, got, i, e, discard, Fetching);
    RoundsGroups(dev, got, i, e, discard, Returning);
    GroupsIsMul(e, discard + 1);
  }

  /** With every kept fetch returning a frame, e captures write e frames. */
  lemma {:induction false} RoundsWrites(dev: nat, got: (nat, nat, nat) -> bool, i: nat, e: nat, discard: nat)
    requires forall j :: 0 <= j < e ==> got(i, j, discard)
    ensures Writes(Rounds(dev, got, i, e, discard)) == e
  {
    if e == 0 {
      assert Rounds(dev, got, i, e, discard) == [];
    } else {
      var before, last := Rounds(dev, got, i, e - 1, discard), Round(dev, got, i, e - 1, discard);
      RoundsWrites(dev, got, i, e - 1, discard);
      RoundCounts(dev, got, i, e - 1, discard);
      CountAppend(before, last);
      assert Writes(before) == e - 1 && Writes(last) == 1;
    }
  }

  /** With every kept fetch returning a frame, t outer iterations write t
      groups of `each` frames. */
  lemma {:induction false} ScheduleWritesGroups(devcnt: nat, got: (nat, nat, nat) -> bool, t: nat, each: nat, discard: nat)
    requires devcnt >= 1
    requires forall i, j :: 0 <= i < t && 0 <= j < each ==> got(i, j, discard)
    ensures Writes(Schedule(devcnt, got, t, each, discard)) == Groups(t, each)
  {
    if t == 0 {
      assert Schedule(devcnt, got, t, each, discard) == [];
    } else {
      var s, r := Schedule(devcnt, got, t - 1, each, discard), Rounds(DeviceOf(t - 1, devcnt), got, t - 1, each, discard);
      ScheduleWritesGroups(devcnt, got, t - 1, each, discard);
      RoundsWrites(DeviceOf(t - 1, devcnt), got, t - 1, each, discard);
      CountAppendOf(s, r, Writing);
    }
  }

  /** `-t` counts outer iterations, not frames: with every kept fetch
      returning a frame the capture writes total * each frames. */
  lemma ScheduleWrites(devcnt: nat, got: (nat, nat, nat) -> bool, t: nat, each: nat, discard: nat)
    requires devcnt >= 1
    requires forall i, j :: 0 <= i < t && 0 <= j < each ==> got(i, j, discard)
    ensures Writes(Schedule(devcnt, got, t, each, discard)) == t * each
  {
    ScheduleWritesGroups(devcnt, got, t, each, discard);
    GroupsIsMul(t, each);
  }

  /** t outer iterations make t groups of `each` groups of discard + 1
      fetches, and as many returns (k is Fetching or Returning). */
  lemma {:induction false} ScheduleGroups(devcnt: nat, got: (nat, nat, nat) -> bool, t: nat, each: nat, discard: nat, k: Kind)
    requires devcnt >= 1 && k != Writing
    ensures Count(Schedule(devcnt, got, t, each, discard), k) == Groups(t, Groups(each, discard + 1))
  {
    if t == 0 {
      assert Schedule(devcnt, got, t, each, discard) == [];
    } else {
      var s, r := Schedule(devcnt, got, t - 1, each, discard), Rounds(DeviceOf(t - 1, devcnt), got, t - 1, each, discard);
      ScheduleGroups(devcnt, got, t - 1, each, discard, k);
      RoundsGroups(DeviceOf(t - 1, devcnt), got, t - 1, each, discard, k);
      CountAppendOf(s, r, k);
    }
  }

  /** The capture makes total * each * (discard + 1) fetches. */
  lemma ScheduleFetches(devcnt: nat, got: (nat, nat, nat) -> bool, t: nat, each: nat, discard: nat)
    requires devcnt >= 1
    ensures Nexts(Schedule(devcnt, got, t, each, discard)) == t * (each * (discard + 1))
  {
    ScheduleGroups(devcnt, got, t, each, discard, Fetching);
    GroupsIsMul(each, discard + 1);
    GroupsIsMul(t, each * (discard + 1));
  }

  /** Every fetch is handed back with `v4l2cap_done`, whether it returned a
      frame or not. */
  lemma ScheduleBalanced(devcnt: nat, got: (nat, nat, nat) -> bool, t: nat, each: nat, discard: nat)
    requires devcnt >= 1
    ensures Dones(Schedule(devcnt, got, t, each, discard)) == Nexts(Schedule(devcnt, got, t, each, discard))
  {
    ScheduleGroups(devcnt, got, t, each, discard, Fetching);
    ScheduleGroups(devcnt, got, t, each, discard, Returning);
  }

  lemma {:induction false} DeviceOfIsMod(i: nat, devcnt: nat)
    requires devcnt >= 1
    ensures DeviceOf(i, devcnt) == i % devcnt
    decreases i
  {
    if i >= devcnt {
      DeviceOfIsMod(i - devcnt, devcnt);
      DivUnique(i, devcnt, (i - devcnt) / devcnt + 1, (i - devcnt) % devcnt);
    }
  }

  // ---------------------------------------------------------------------------
  // The capture the usage text describes

  /** The capture as the usage text describes it, from group i on with left
      frames still to write: `-t` counts the frames written in all, and
      group i takes up to `each` of them from device i mod devcnt, the last
      group only the frames that are left. */
  function FixedFrom(devcnt: nat, got: (nat, nat, nat) -> bool, i: nat, left: nat, each: nat, discard: nat): seq<Op>
    requires devcnt >= 1 && each >= 1
    decreases left
  {
    if left == 0 then []
    else
      var n := if left < each then left else each;
      Rounds(DeviceOf(i, devcnt), got, i, n, discard) + FixedFrom(devcnt, got, i + 1, left - n, each, discard)
  }

  /** With every kept fetch returning a frame, the intended capture writes
      exactly the frames that are left: total frames from group 0 on. */
  lemma {:induction false} FixedWrites(devcnt: nat, got: (nat, nat, nat) -> bool, i: nat, left: nat, each: nat,
                                       discard: nat)
    requires devcnt >= 1 && each >= 1
    requires forall i', j :: i <= i' && 0 <= j < each ==> got(i', j, discard)
    ensures Writes(FixedFrom(devcnt, got, i, left, each, discard)) == left
    decreases left
  {
    if left == 0 {
      assert FixedFrom(devcnt, got, i, left, each, discard) == [];
    } else {
      var n := if left < each then left else each;
      var r, rest := Rounds(DeviceOf(i, devcnt), got, i, n, discard), FixedFrom(devcnt, got, i + 1, left - n, each, discard);
      assert FixedFrom(devcnt, got, i, left, each, discard) == r + rest;
      RoundsWrites(DeviceOf(i, devcnt), got, i, n, discard);
      FixedWrites(devcnt, got, i + 1, left - n, each, discard);
      CountAppendOf(r, rest, Writing);
    }
  }
}
