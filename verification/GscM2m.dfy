/** The memory-to-memory path of the G-Scaler: one picture in, one picture out, with a driver that may fail anywhere. */
module GscM2m {
  import opened V4l2Queue

  /** One side: the handle's stream flag, and the driver's queue of that direction. */
  datatype Side = Side(streamOn: bool, streaming: bool, queue: seq<nat>, count: nat)

  datatype Device = Device(src: Side, dst: Side)

  /** How far setting the format of one side got. */
  datatype FormatPoint = BadFormat | StreamoffFailed | SetUpFailed | ReqbufsFailed | FormatSet

  /** Where a conversion ended: the call that failed, or the end. */
  datatype Point =
    | BadSizes
    | SrcFormat(p: FormatPoint) | DstFormat(p: FormatPoint)
    | SrcAddr | DstAddr | ColorSpace
    | SrcStreamon | DstStreamon
    | SrcDqbuf | DstDqbuf
    | SrcStreamoff | DstStreamoff
    | SrcRelease | DstRelease
    | Converted

  // The calls as steps.

  function Stopped(s: Side): Side {
    if s.streamOn then s.(streamOn := false, streaming := false, queue := []) else s
  }

  function AfterFormat(s: Side, p: FormatPoint): Side {
    match p
    case BadFormat => s
    case StreamoffFailed => s
    case SetUpFailed => Stopped(s)
    case ReqbufsFailed => Stopped(s)
    case FormatSet => Stopped(s).(count := 1, queue := [])
  }

  function Queued(s: Side): Side {
    s.(queue := s.queue + [0])
  }

  function Started(s: Side): Side {
    s.(streamOn := true, streaming := true)
  }

  function Dequeued(s: Side): Side {
    if s.queue == [] then s else s.(queue := s.queue[1..])
  }

  function Released(s: Side): Side {
    s.(count := 0, queue := [])
  }

  /** The same call for both sides, first for the source: neither, only the source, or both have taken effect. */
  function Both(d: Device, src: Side, dst: Side, ok: bool, first: bool): Device {
    if ok then Device(src, dst) else if first then d else Device(src, d.dst)
  }

  /** The part up to the running streams. */
  function AfterRunCore(d: Device, p: Point): Device {
    match p
    case BadSizes => d
    case SrcFormat(f) => d.(src := AfterFormat(d.src, f))
    case DstFormat(f) => Device(AfterFormat(d.src, FormatSet), AfterFormat(d.dst, f))
    case _ =>
      var (src, dst) := (AfterFormat(d.src, FormatSet), AfterFormat(d.dst, FormatSet));
      match p
      case SrcAddr => Device(src, dst)
      case DstAddr => Device(Queued(src), dst)
      case ColorSpace => Device(Queued(src), Queued(dst))
      case SrcStreamon => Device(Queued(src), Queued(dst))
      case DstStreamon => Device(Started(Queued(src)), Queued(dst))
      case _ => Device(Started(Queued(src)), Started(Queued(dst)))
  }

  function AfterWait(d: Device, p: Point): Device {
    match p
    case SrcDqbuf => d
    case DstDqbuf => d.(src := Dequeued(d.src))
    case SrcStreamoff => Device(Dequeued(d.src), Dequeued(d.dst))
    case DstStreamoff => Device(Stopped(Dequeued(d.src)), Dequeued(d.dst))
    case SrcRelease => Device(Stopped(Dequeued(d.src)), Stopped(Dequeued(d.dst)))
    case DstRelease => Device(Released(Stopped(Dequeued(d.src))), Stopped(Dequeued(d.dst)))
    case Converted => Device(Released(Stopped(Dequeued(d.src))), Released(Stopped(Dequeued(d.dst))))
    case _ => d
  }

  /** The streams were started. */
  predicate Ran(p: Point) {
    p.SrcDqbuf? || p.DstDqbuf? || p.SrcStreamoff? || p.DstStreamoff? || p.SrcRelease? || p.DstRelease? || p.Converted?
  }

  function AfterConvert(d: Device, p: Point): Device {
    if Ran(p) then AfterWait(AfterRunCore(d, p), p) else AfterRunCore(d, p)
  }

  // Every run of conversions.

  /** The flag tells whether the driver streams, and the driver holds at most the one buffer. */
  predicate Consistent(s: Side) {
    s.streamOn == s.streaming && (s.queue == [] || s.queue == [0])
  }

  function After(d: Device, ps: seq<Point>): Device
    decreases |ps|
  {
    if ps == [] then d else After(AfterConvert(d, ps[0]), ps[1..])
  }

  lemma ConversionKeepsFlags(d: Device, p: Point)
    requires Consistent(d.src) && Consistent(d.dst)
    ensures Consistent(AfterConvert(d, p).src) && Consistent(AfterConvert(d, p).dst)
  {
    var e := AfterRunCore(d, p);
    FormatKeeps(d.src, if p.SrcFormat? then p.p else FormatSet);
    FormatKeeps(d.dst, if p.DstFormat? then p.p else FormatSet);
    hide AfterFormat;
    assert Consistent(e.src) && Consistent(e.dst);
  }

  lemma FormatKeeps(s: Side, p: FormatPoint)
    requires Consistent(s)
    ensures Consistent(AfterFormat(s, p))
    ensures AfterFormat(s, FormatSet) == Side(false, false, [], 1)
  {
  }

  /** Whatever fails in whatever conversions, the flags stay true to the driver. */
  lemma {:induction false} ConversionsKeepFlags(d: Device, ps: seq<Point>)
    requires Consistent(d.src) && Consistent(d.dst)
    ensures Consistent(After(d, ps).src) && Consistent(After(d, ps).dst)
    decreases |ps|
  {
    hide AfterConvert;
    if ps != [] {
      ConversionKeepsFlags(d, ps[0]);
      ConversionsKeepFlags(AfterConvert(d, ps[0]), ps[1..]);
    }
  }

  /** When a conversion queues the buffer 0, the driver holds nothing and does not stream, on either side. */
  lemma QueuesIntoEmptyQueue(d: Device, ps: seq<Point>)
    requires Consistent(d.src) && Consistent(d.dst)
    ensures var e := AfterRunCore(After(d, ps), SrcAddr);
            && e.src == Side(false, false, [], 1) && e.dst == Side(false, false, [], 1)
  {
    ConversionsKeepFlags(d, ps);
  }

  /** After any run, a conversion in which nothing fails releases both sides: no failure has a lasting effect. */
  lemma FailuresDoNotLast(d: Device, ps: seq<Point>)
    requires Consistent(d.src) && Consistent(d.dst)
    ensures AfterConvert(After(d, ps), Converted) == Device(Side(false, false, [], 0), Side(false, false, [], 0))
  {
    ConversionsKeepFlags(d, ps);
  }

  // The handle.

  class GscInfo {
    const fd: Queue
    var streamOn: bool

    constructor (fd: Queue)
      requires !fd.streaming && fd.queue == []
      ensures this.fd == fd && fresh(this) && Valid()
    {
      this.fd := fd;
      streamOn := false;
    }

    ghost function State(): Side
      reads this, fd
    {
      Side(streamOn, fd.streaming, fd.queue, fd.count)
    }

    ghost predicate Valid()
      reads this, fd
    {
      Consistent(State())
    }

    /** Stops a stream that an earlier, failed conversion may have left running, and asks for one buffer anew. */
    method SetFormat(formatOk: bool) returns (ok: bool, ghost p: FormatPoint)
      requires Valid()
      modifies this, fd
      ensures Valid() && fd.healthy == old(fd.healthy) && fd.returned == old(fd.returned)
      ensures State() == AfterFormat(old(State()), p) && (ok <==> p == FormatSet)
      ensures p == BadFormat <==> !formatOk
      ensures fd.healthy && formatOk ==> ok
    {
      if !formatOk {
        return false, BadFormat;
      }
      if streamOn {
        ok := fd.Streamoff();
        if !ok {
          return false, StreamoffFailed;
        }
        streamOn := false;
      }
      ok := fd.SetUp();
      if !ok {
        return false, SetUpFailed;
      }
      ok := fd.Reqbufs(1);
      p := if ok then FormatSet else ReqbufsFailed;
    }

    /** Queues the one buffer; the driver must not hold it already. */
    method SetAddr(planesOk: bool) returns (ok: bool)
      requires State() == Side(false, false, [], 1)
      modifies fd
      ensures Valid() && fd.healthy == old(fd.healthy) && fd.returned == old(fd.returned)
      ensures State() == if ok then Queued(old(State())) else old(State())
      ensures ok ==> planesOk
      ensures fd.healthy && planesOk ==> ok
    {
      if !planesOk {
        return false;
      }
      ok := fd.Qbuf(0);
    }

    method Start() returns (ok: bool)
      requires Valid()
      modifies this, fd`streaming
      ensures Valid() && State() == if ok then Started(old(State())) else old(State())
      ensures fd.healthy ==> ok
    {
      ok := true;
      if !streamOn {
        ok := fd.Streamon();
        if ok {
          streamOn := true;
        }
      }
    }

    method Take() returns (ok: bool)
      requires Valid()
      modifies fd`queue, fd`returned
      ensures Valid() && State() == if ok then Dequeued(old(State())) else old(State())
      ensures fd.returned == old(fd.returned) + if ok then 1 else 0
      ensures fd.healthy && streamOn && old(fd.queue) != [] ==> ok
    {
      var index;
      ok, index := fd.Dqbuf();
    }

    method Stop() returns (ok: bool)
      requires Valid() && streamOn
      modifies this, fd`streaming, fd`queue
      ensures Valid() && State() == if ok then Stopped(old(State())) else old(State())
      ensures ok ==> !streamOn
      ensures fd.healthy ==> ok
    {
      ok := fd.Streamoff();
      if ok {
        streamOn := false;
      }
    }

    method Release() returns (ok: bool)
      requires Valid()
      modifies fd`queue, fd`count
      ensures Valid() && State() == if ok then Released(old(State())) else old(State())
      ensures fd.healthy && !streamOn ==> ok
    {
      ok := fd.Reqbufs(0);
    }
  }

  lemma RunningIsTheSame(d: Device, p: Point)
    requires Ran(p)
    ensures AfterRunCore(d, p) == AfterRunCore(d, Converted)
  {
  }

  /** When the streams run, both sides hold their buffer. */
  lemma RunHolds(d: Device)
    requires Consistent(d.src) && Consistent(d.dst)
    ensures AfterRunCore(d, Converted) == Device(Side(true, true, [0], 1), Side(true, true, [0], 1))
  {
  }

  /** What the caller has set before a conversion. */
  datatype Settings = Settings(sizesOk: bool, srcFormatOk: bool, dstFormatOk: bool, srcPlanesOk: bool,
                               dstPlanesOk: bool) {
    predicate Ok() {
      sizesOk && srcFormatOk && dstFormatOk && srcPlanesOk && dstPlanesOk
    }
  }

  class GscHandle {
    const src: GscInfo
    const dst: GscInfo

    ghost predicate Valid()
      reads this, src, dst, src.fd, dst.fd
    {
      src != dst && src.fd != dst.fd && src.Valid() && dst.Valid()
    }

    ghost function State(): Device
      reads this, src, dst, src.fd, dst.fd
    {
      Device(src.State(), dst.State())
    }

    ghost predicate Healthy()
      reads this, src, dst, src.fd, dst.fd
    {
      src.fd.healthy && dst.fd.healthy
    }

    ghost function Returned(): (nat, nat)
      reads this, src, dst, src.fd, dst.fd
    {
      (src.fd.returned, dst.fd.returned)
    }

    constructor (src: GscInfo, dst: GscInfo)
      requires src != dst && src.fd != dst.fd && src.Valid() && dst.Valid()
      ensures this.src == src && this.dst == dst && Valid()
    {
      this.src, this.dst := src, dst;
    }

    // Each of these makes the same call for both sides; `first` tells which one failed.

    method Formats(s: Settings) returns (ok: bool, ghost first: bool, ghost f: FormatPoint)
      requires Valid()
      modifies src, dst, src.fd, dst.fd
      ensures Valid() && Healthy() == old(Healthy()) && Returned() == old(Returned())
      ensures f == FormatSet <==> ok
      ensures State() == if first && !ok then old(State()).(src := AfterFormat(old(src.State()), f))
                         else Device(AfterFormat(old(src.State()), FormatSet), AfterFormat(old(dst.State()), f))
      ensures ok ==> s.srcFormatOk && s.dstFormatOk
      ensures Healthy() && s.Ok() ==> ok
    {
      hide AfterFormat, Consistent;
      ok, f := src.SetFormat(s.srcFormatOk);
      first := !ok;
      if ok {
        ok, f := dst.SetFormat(s.dstFormatOk);
      }
    }

    method QueueBoth(s: Settings) returns (ok: bool, ghost first: bool)
      requires Valid() && src.State() == Side(false, false, [], 1) && dst.State() == Side(false, false, [], 1)
      modifies src.fd, dst.fd
      ensures Valid() && Healthy() == old(Healthy()) && Returned() == old(Returned())
      ensures State() == Both(old(State()), Queued(old(src.State())), Queued(old(dst.State())), ok, first)
      ensures ok ==> s.srcPlanesOk && s.dstPlanesOk
      ensures Healthy() && s.Ok() ==> ok
    {
      ok := src.SetAddr(s.srcPlanesOk);
      first := !ok;
      if ok {
        ok := dst.SetAddr(s.dstPlanesOk);
      }
    }

    method StartBoth() returns (ok: bool, ghost first: bool)
      requires Valid()
      modifies src, dst, src.fd`streaming, dst.fd`streaming
      ensures Valid()
      ensures State() == Both(old(State()), Started(old(src.State())), Started(old(dst.State())), ok, first)
      ensures Healthy() ==> ok
    {
      ok := src.Start();
      first := !ok;
      if ok {
        ok := dst.Start();
      }
    }

    method TakeBoth() returns (ok: bool, ghost first: bool)
      requires Valid()
      modifies src.fd`queue, dst.fd`queue, src.fd`returned, dst.fd`returned
      ensures Valid()
      ensures State() == Both(old(State()), Dequeued(old(src.State())), Dequeued(old(dst.State())), ok, first)
      ensures ok ==> Returned() == (old(Returned()).0 + 1, old(Returned()).1 + 1)
      ensures Healthy() && old(src.streamOn && dst.streamOn && src.fd.queue == [0] && dst.fd.queue == [0]) ==> ok
    {
      ok := src.Take();
      first := !ok;
      if ok {
        ok := dst.Take();
      }
    }

    method StopBoth() returns (ok: bool, ghost first: bool)
      requires Valid() && src.streamOn && dst.streamOn
      modifies src, dst, src.fd`queue, dst.fd`queue, src.fd`streaming, dst.fd`streaming
      ensures Valid()
      ensures State() == Both(old(State()), Stopped(old(src.State())), Stopped(old(dst.State())), ok, first)
      ensures ok ==> !src.streamOn && !dst.streamOn
      ensures Healthy() ==> ok
    {
      ok := src.Stop();
      first := !ok;
      if ok {
        ok := dst.Stop();
      }
    }

    method ReleaseBoth() returns (ok: bool, ghost first: bool)
      requires Valid()
      modifies src.fd`queue, dst.fd`queue, src.fd`count, dst.fd`count
      ensures Valid()
      ensures State() == Both(old(State()), Released(old(src.State())), Released(old(dst.State())), ok, first)
      ensures Healthy() && !src.streamOn && !dst.streamOn ==> ok
    {
      ok := src.Release();
      first := !ok;
      if ok {
        ok := dst.Release();
      }
    }

    method RunCore(s: Settings) returns (ok: bool, ghost p: Point)
      requires Valid()
      modifies src, dst, src.fd, dst.fd
      ensures Valid() && Healthy() == old(Healthy()) && Returned() == old(Returned())
      ensures State() == AfterRunCore(old(State()), p) && (ok <==> Ran(p))
      ensures ok ==> s.Ok()
      ensures Healthy() && s.Ok() ==> ok
    {
      hide Consistent, AfterFormat, Queued, Started;
      FormatKeeps(src.State(), FormatSet);
      FormatKeeps(dst.State(), FormatSet);
      if !s.sizesOk {
        return false, BadSizes;
      }
      ghost var first, f;
      ok, first, f := Formats(s);
      if !ok {
        return false, if first then SrcFormat(f) else DstFormat(f);
      }
      ok, first := QueueBoth(s);
      if !ok {
        return false, if first then SrcAddr else DstAddr;
      }
      ok := src.fd.SetUp();
      if !ok {
        return false, ColorSpace;
      }
      ok, first := StartBoth();
      if !ok {
        return false, if first then SrcStreamon else DstStreamon;
      }
      return true, Converted;
    }

    /** `SrcDqbuf` also stands for the return without a running stream. */
    method WaitFrameDone() returns (ok: bool, ghost p: Point)
      requires Valid()
      modifies src, dst, src.fd, dst.fd
      ensures Valid() && Healthy() == old(Healthy()) && Ran(p)
      ensures State() == AfterWait(old(State()), p) && (ok <==> p == Converted)
      ensures ok ==> Returned() == (old(Returned()).0 + 1, old(Returned()).1 + 1)
      ensures Healthy() && old(src.streamOn && dst.streamOn && src.fd.queue == [0] && dst.fd.queue == [0]) ==> ok
    {
      hide Consistent, Dequeued, Stopped, Released;
      if !src.streamOn || !dst.streamOn {
        return false, SrcDqbuf;
      }
      ghost var first;
      ok, first := TakeBoth();
      if !ok {
        return false, if first then SrcDqbuf else DstDqbuf;
      }
      ok, first := StopBoth();
      if !ok {
        return false, if first then SrcStreamoff else DstStreamoff;
      }
      ok, first := ReleaseBoth();
      p := if ok then Converted else if first then SrcRelease else DstRelease;
    }

    /**
     One conversion: the step of the device for the point where it ended. It succeeds whenever the settings are
     supported and the driver is healthy, whatever an earlier conversion left behind, and then one buffer of each
     side has been through the driver.
     */
    method Convert(s: Settings) returns (ret: int, ghost p: Point)
      requires Valid()
      modifies src, dst, src.fd, dst.fd
      ensures Valid() && Healthy() == old(Healthy())
      ensures State() == AfterConvert(old(State()), p)
      ensures ret == if p == Converted then 0 else -1
      ensures ret == 0 ==> s.Ok() && Returned() == (old(Returned()).0 + 1, old(Returned()).1 + 1)
      ensures Healthy() && s.Ok() ==> ret == 0
    {
      hide AfterRunCore, AfterWait;
      ret := -1;
      var ok;
      RunHolds(State());
      ok, p := RunCore(s);
      if !ok {
        return;
      }
      RunningIsTheSame(old(State()), p);
      ok, p := WaitFrameDone();
      RunningIsTheSame(old(State()), p);
      if !ok {
        return;
      }
      ret := 0;
    }
  }
}
