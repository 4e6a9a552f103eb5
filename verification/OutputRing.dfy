/**
 The ring of three output buffers of the G-Scaler's local-path output and its twin in the HDMI mixer: how the
 library's own counters follow the buffers that the driver holds.
 */
module OutputRing {
  import opened V4l2Queue

  const BUFFERS: nat := 3

  datatype Kind = Gscaler | Mixer

  /** The counters of the handle and, beside them, the driver. */
  datatype Ring = Ring(bufIdx: nat, qbufCnt: nat, streamOn: bool, queue: seq<nat>, streaming: bool, count: nat)

  /** `JustStop` stops the stream but keeps the requested buffers; `Stop` gives them up as well. */
  datatype Event = Config | Run | WaitDone | Stop | JustStop

  /** How far a call got. */
  datatype Outcome =
    | Done
    | Refused
    | SetUpFailed
    | QbufFailed
    | StreamonFailed
    | DqbufFailed
    | StreamoffFailed
    | SysmmuFailed
    | ReqbufsFailed

  // The calls as steps of a state machine.

  function AfterConfig(kind: Kind, s: Ring, o: Outcome): Ring {
    if s.streamOn || o == Refused then s
    else
      var r := if kind == Gscaler then s.(bufIdx := 0, qbufCnt := 0) else s;
      if o == Done then r.(count := BUFFERS, queue := []) else r
  }

  function AfterRun(s: Ring, o: Outcome): Ring {
    if o == Refused || o == QbufFailed then s
    else
      var r := s.(queue := s.queue + [s.bufIdx], bufIdx := s.bufIdx + 1, qbufCnt := s.qbufCnt + 1);
      if !r.streamOn && r.bufIdx == BUFFERS - 2 then
        if o == Done then r.(streamOn := true, streaming := true) else r
      else
        r.(bufIdx := r.bufIdx % BUFFERS)
  }

  /** Whether waiting for a frame asks the driver at all. */
  predicate Dequeues(kind: Kind, s: Ring) {
    s.qbufCnt >= BUFFERS && (kind == Gscaler || s.streamOn)
  }

  function AfterWaitDone(kind: Kind, s: Ring, o: Outcome): Ring {
    if Dequeues(kind, s) && o == Done && s.queue != [] then s.(queue := s.queue[1..]) else s
  }

  function AfterStop(s: Ring, o: Outcome, clear: bool): Ring {
    var r := s.(bufIdx := 0, qbufCnt := 0, streamOn := false);
    if s.streamOn && o == StreamoffFailed then r
    else
      var off := if s.streamOn then r.(streaming := false, queue := []) else r;
      if clear && o == Done then off.(count := 0, queue := []) else off
  }

  function Step(kind: Kind, s: Ring, e: Event, o: Outcome): Ring {
    match e
    case Config => AfterConfig(kind, s, o)
    case Run => AfterRun(s, o)
    case WaitDone => AfterWaitDone(kind, s, o)
    case Stop => AfterStop(s, o, true)
    case JustStop => AfterStop(s, o, false)
  }

  /** Every request that the call makes is one that the V4L2 interface allows and that returns. */
  predicate Accepts(kind: Kind, s: Ring, e: Event) {
    match e
    case Config => !s.streamOn && !s.streaming
    case Run => s.bufIdx < s.count && s.bufIdx !in s.queue
    case WaitDone => Dequeues(kind, s) ==> s.streaming && s.queue != []
    case Stop => s.streamOn || !s.streaming
    case JustStop => true
  }

  /** What can come out of a call, whatever the driver does. */
  predicate Possible(kind: Kind, s: Ring, e: Event, o: Outcome) {
    match e
    case Config => o == Done ==> !s.streamOn && !s.streaming
    case Run => o != Refused && o != QbufFailed ==> s.bufIdx < s.count && s.bufIdx !in s.queue
    case WaitDone => o == Done && Dequeues(kind, s) ==> s.streaming && s.queue != []
    case Stop => o == Done ==> s.streamOn || !s.streaming
    case JustStop => true
  }

  // The calls.

  class OutputHandle {
    const kind: Kind
    const fd: Queue
    var bufIdx: nat
    var qbufCnt: nat
    var streamOn: bool

    ghost function State(): Ring
      reads this, fd
    {
      Ring(bufIdx, qbufCnt, streamOn, fd.queue, fd.streaming, fd.count)
    }

    /**
     What a call promises: the step of the state machine, and success with a healthy driver that is asked properly.
     */
    twostate predicate Stepped(e: Event, o: Outcome)
      reads this, fd
    {
      && State() == Step(kind, old(State()), e, o)
      && Possible(kind, old(State()), e, o)
      && (fd.healthy && Accepts(kind, old(State()), e) ==> o == Done || o == Refused)
    }

    constructor (kind: Kind, fd: Queue)
      ensures this.kind == kind && this.fd == fd
      ensures bufIdx == 0 && qbufCnt == 0 && !streamOn
    {
      this.kind, this.fd := kind, fd;
      bufIdx, qbufCnt, streamOn := 0, 0, false;
    }

    /** `imageOk`: the sizes and the scale ratio are supported. */
    method Config(imageOk: bool) returns (o: Outcome)
      modifies this, fd
      ensures Stepped(Event.Config, o)
      ensures o == Refused <==> old(streamOn) || !imageOk
    {
      if streamOn {
        return Refused;
      }
      if !imageOk {
        return Refused;
      }
      if kind == Gscaler {
        bufIdx, qbufCnt := 0, 0;
      }
      var ok := fd.SetUp();
      if !ok {
        return SetUpFailed;
      }
      ok := fd.Reqbufs(BUFFERS);
      return if ok then Done else ReqbufsFailed;
    }

    /** `planesOk`: the colour format has a known plane size. */
    method Run(planesOk: bool) returns (o: Outcome)
      modifies this, fd
      ensures Stepped(Event.Run, o)
      ensures o == Refused <==> !planesOk
    {
      if !planesOk {
        return Refused;
      }
      var ok := fd.Qbuf(bufIdx);
      if !ok {
        return QbufFailed;
      }
      bufIdx := bufIdx + 1;
      qbufCnt := qbufCnt + 1;
      if !streamOn {
        if bufIdx == BUFFERS - 2 {
          ok := fd.Streamon();
          if !ok {
            return StreamonFailed;
          }
          streamOn := true;
        }
      }
      bufIdx := bufIdx % BUFFERS;
      return Done;
    }

    method WaitDone() returns (o: Outcome)
      modifies this, fd
      ensures Stepped(Event.WaitDone, o)
      ensures o != Refused
    {
      if qbufCnt < BUFFERS {
        return Done;
      }
      if kind == Gscaler || streamOn {
        var ok, index := fd.Dqbuf();
        if !ok {
          return DqbufFailed;
        }
      }
      return Done;
    }

    method Stop() returns (o: Outcome)
      modifies this, fd
      ensures Stepped(Event.Stop, o)
      ensures o != Refused
    {
      var ok;
      var wasOn := streamOn;
      bufIdx, qbufCnt, streamOn := 0, 0, false;
      if wasOn {
        ok := fd.Streamoff();
        if !ok {
          return StreamoffFailed;
        }
        if kind == Gscaler {
          ok := fd.SetUp();
          if !ok {
            return SysmmuFailed;
          }
        }
      }
      ok := fd.Reqbufs(0);
      return if ok then Done else ReqbufsFailed;
    }

    method JustStop() returns (o: Outcome)
      modifies this, fd
      ensures Stepped(Event.JustStop, o)
      ensures o != Refused
    {
      var wasOn := streamOn;
      bufIdx, qbufCnt, streamOn := 0, 0, false;
      if wasOn {
        var ok := fd.Streamoff();
        if !ok {
          return StreamoffFailed;
        }
      }
      return Done;
    }
  }

  // Runs without failures.

  /** What the callers do: configure a stopped ring, queue and wait in turn, stop whenever they like. */
  predicate Disciplined(s: Ring, ran: bool, e: Event) {
    match e
    case Config => !s.streamOn
    case Run => !ran && s.count == BUFFERS
    case WaitDone => ran || s.qbufCnt < BUFFERS
    case Stop => true
    case JustStop => true
  }

  predicate RunOf(kind: Kind, s: Ring, ran: bool, es: seq<Event>)
    decreases |es|
  {
    es == [] ||
    (Disciplined(s, ran, es[0]) && RunOf(kind, Step(kind, s, es[0], Done), es[0] == Run, es[1..]))
  }

  function After(kind: Kind, s: Ring, es: seq<Event>): Ring
    decreases |es|
  {
    if es == [] then s else After(kind, Step(kind, s, es[0], Done), es[1..])
  }

  /** Every call of the run makes only requests that the driver accepts. */
  predicate AllAccepted(kind: Kind, s: Ring, es: seq<Event>)
    decreases |es|
  {
    es == [] || (Accepts(kind, s, es[0]) && AllAccepted(kind, Step(kind, s, es[0], Done), es[1..]))
  }

  /** The driver holds the `n` most recently queued buffers, in order. */
  predicate HoldsLast(s: Ring, n: nat) {
    n <= s.qbufCnt && |s.queue| == n &&
    forall k | 0 <= k < n :: s.queue[k] == (s.qbufCnt - n + k) % BUFFERS
  }

  /** `ran`: a buffer has been queued and not yet waited for. */
  predicate Good(s: Ring, ran: bool) {
    && s.streamOn == s.streaming
    && s.bufIdx == s.qbufCnt % BUFFERS
    && (s.streamOn <==> s.qbufCnt > 0)
    && (s.count == 0 || s.count == BUFFERS) && (s.qbufCnt > 0 ==> s.count == BUFFERS)
    && (ran ==> s.qbufCnt > 0)
    && HoldsLast(s, var most := if ran then 3 else 2; if s.qbufCnt < most then s.qbufCnt else most)
  }

  const FRESH: Ring := Ring(0, 0, false, [], false, 0)

  lemma GoodRun(s: Ring)
    requires Good(s, false) && s.count == BUFFERS
    ensures Accepts(Gscaler, s, Run) && Good(AfterRun(s, Done), true)
  {
  }

  lemma GoodWait(kind: Kind, s: Ring, ran: bool)
    requires Good(s, ran) && (ran || s.qbufCnt < BUFFERS)
    ensures Accepts(kind, s, WaitDone) && Good(AfterWaitDone(kind, s, Done), false)
  {
  }

  lemma GoodStep(kind: Kind, s: Ring, ran: bool, e: Event)
    requires Good(s, ran) && Disciplined(s, ran, e)
    ensures Accepts(kind, s, e) && Good(Step(kind, s, e, Done), e == Run)
  {
    match e
    case Run => GoodRun(s);
    case WaitDone => GoodWait(kind, s, ran);
    case Config =>
    case Stop =>
    case JustStop =>
  }

  /** Waiting with a full ring gets back the very buffer that the next run will queue. */
  lemma WaitFreesTheNextBuffer(s: Ring)
    requires Good(s, true) && s.qbufCnt >= BUFFERS
    ensures s.queue != [] && s.queue[0] == s.bufIdx && s.bufIdx !in s.queue[1..]
  {
  }

  /**
   Every failure-free run of either ring: no request is refused or blocks, no buffer is queued twice, the index is
   the count modulo three, and at most three buffers are out after a run and two after a wait.
   */
  lemma {:induction false} RunsAreSafe(kind: Kind, s: Ring, ran: bool, es: seq<Event>)
    requires Good(s, ran) && RunOf(kind, s, ran, es)
    ensures AllAccepted(kind, s, es)
    ensures Good(After(kind, s, es), if es == [] then ran else es[|es| - 1] == Run)
    decreases |es|
  {
    if es != [] {
      GoodStep(kind, s, ran, es[0]);
      RunsAreSafe(kind, Step(kind, s, es[0], Done), es[0] == Run, es[1..]);
    }
  }

  lemma FreshRunsAreSafe(kind: Kind, es: seq<Event>)
    requires RunOf(kind, FRESH, false, es)
    ensures AllAccepted(kind, FRESH, es)
    ensures var s := After(kind, FRESH, es);
            && s.bufIdx == s.qbufCnt % BUFFERS && s.streamOn == s.streaming
            && |s.queue| <= (if es != [] && es[|es| - 1] == Run then 3 else 2)
            && (forall j, k | 0 <= j < k < |s.queue| :: s.queue[j] != s.queue[k])
  {
    RunsAreSafe(kind, FRESH, false, es);
  }

  // Runs with failures.

  /** Calls in any order, each with any outcome that the driver can bring about. */
  predicate AnyRun(kind: Kind, s: Ring, es: seq<(Event, Outcome)>)
    decreases |es|
  {
    es == [] ||
    (Possible(kind, s, es[0].0, es[0].1) && AnyRun(kind, Step(kind, s, es[0].0, es[0].1), es[1..]))
  }

  function AfterAny(kind: Kind, s: Ring, es: seq<(Event, Outcome)>): Ring
    decreases |es|
  {
    if es == [] then s else AfterAny(kind, Step(kind, s, es[0].0, es[0].1), es[1..])
  }

  /** A running stream could not be stopped. */
  predicate LosesTrack(s: Ring, e: Event, o: Outcome) {
    (e == Stop || e == JustStop) && s.streamOn && o == StreamoffFailed
  }

  predicate NeverLosesTrack(kind: Kind, s: Ring, es: seq<(Event, Outcome)>)
    decreases |es|
  {
    es == [] ||
    (!LosesTrack(s, es[0].0, es[0].1) && NeverLosesTrack(kind, Step(kind, s, es[0].0, es[0].1), es[1..]))
  }

  /** All along, the handle knows whether the driver streams. */
  predicate AlwaysTracks(kind: Kind, s: Ring, es: seq<(Event, Outcome)>)
    decreases |es|
  {
    s.streamOn == s.streaming && (es == [] || AlwaysTracks(kind, Step(kind, s, es[0].0, es[0].1), es[1..]))
  }

  /** Whatever else fails, the handle knows whether the driver streams until a running stream cannot be stopped. */
  lemma {:induction false} StreamOnTracksExactly(kind: Kind, s: Ring, es: seq<(Event, Outcome)>)
    requires s.streamOn == s.streaming
    ensures AlwaysTracks(kind, s, es) <==> NeverLosesTrack(kind, s, es)
    decreases |es|
  {
    if es != [] {
      var t := Step(kind, s, es[0].0, es[0].1);
      assert t.streamOn == t.streaming <==> !LosesTrack(s, es[0].0, es[0].1);
      if t.streamOn == t.streaming {
        StreamOnTracksExactly(kind, t, es[1..]);
      }
    }
  }

  // A failed stream-off.

  /** The driver still streams, but the handle has forgotten it. */
  predicate Lost(s: Ring) {
    !s.streamOn && s.streaming && s.count == BUFFERS && s.bufIdx == 0 && s.qbufCnt == 0
  }

  /** Some calls, whatever they are and however they go, make handle and driver agree again. */
  ghost predicate Recoverable(kind: Kind, s: Ring) {
    exists es :: AnyRun(kind, s, es) && var t := AfterAny(kind, s, es); t.streamOn == t.streaming
  }

  /** With buffer 0 at the driver nothing changes any more. */
  lemma {:induction false} LostSticks(kind: Kind, s: Ring, es: seq<(Event, Outcome)>)
    requires Lost(s) && 0 in s.queue && AnyRun(kind, s, es)
    ensures AfterAny(kind, s, es) == s
    decreases |es|
  {
    if es != [] {
      assert Step(kind, s, es[0].0, es[0].1) == s;
      LostSticks(kind, s, es[1..]);
    }
  }

  lemma LostRecovers(kind: Kind, s: Ring)
    requires Lost(s) && 0 !in s.queue
    ensures Recoverable(kind, s)
  {
    var es := [(Run, Done)];
    var t := Step(kind, s, Run, Done);
    assert t.streamOn && t.streaming && es[1..] == [];
    assert AnyRun(kind, t, es[1..]) && AfterAny(kind, t, es[1..]) == t;
    assert AnyRun(kind, s, es) && AfterAny(kind, s, es) == t;
  }

  /**
   A failed stream-off can be recovered from exactly if the ring had come round to buffer 0 and the last frame had
   been waited for. Otherwise the driver streams for ever: no stop or configuration reaches it any more.
   */
  lemma FailedStreamoffExactly(kind: Kind, s: Ring, ran: bool, e: Event)
    requires Good(s, ran) && s.streamOn && (e == Stop || e == JustStop)
    ensures Recoverable(kind, Step(kind, s, e, StreamoffFailed)) <==>
            !ran && s.qbufCnt >= BUFFERS && s.bufIdx == 0
  {
    var t := Step(kind, s, e, StreamoffFailed);
    assert Lost(t);
    if !ran && s.qbufCnt >= BUFFERS && s.bufIdx == 0 {
      assert s.queue[0] == 1 && s.queue[1] == 2;
      LostRecovers(kind, t);
    } else {
      HeldZero(s, ran);
      forall es | AnyRun(kind, t, es)
        ensures var u := AfterAny(kind, t, es); u.streamOn != u.streaming
      {
        LostSticks(kind, t, es);
      }
    }
  }

  lemma HeldZero(s: Ring, ran: bool)
    requires Good(s, ran) && s.streamOn && !(!ran && s.qbufCnt >= BUFFERS && s.bufIdx == 0)
    ensures 0 in s.queue
  {
    var n := |s.queue|;
    var k := if n == s.qbufCnt then 0 else if n == 3 then (3 - s.bufIdx) % 3 else 2 - s.bufIdx;
    assert s.queue[k] == (s.qbufCnt - n + k) % BUFFERS;
  }

  // A failed stream-on.

  /** The driver does not stream, and it has got buffer 0 or no buffers are requested. */
  predicate Blocked(s: Ring) {
    !s.streamOn && !s.streaming && s.bufIdx < BUFFERS && (0 in s.queue || s.count == 0)
  }

  lemma FailedStreamon(kind: Kind, s: Ring)
    requires Good(s, false) && s.qbufCnt == 0
    ensures var t := Step(kind, s, Run, StreamonFailed); Blocked(t) && t.queue == [0] && t.bufIdx == 1
  {
  }

  /** Some calls without a configuration that succeeds start the stream. */
  ghost predicate CanStart(kind: Kind, s: Ring) {
    exists es :: AnyRun(kind, s, es) && (Config, Done) !in es && AfterAny(kind, s, es).streaming
  }

  ghost predicate EverCanStart(kind: Kind, s: Ring, es: seq<(Event, Outcome)>)
    decreases |es|
  {
    CanStart(kind, s) || (es != [] && EverCanStart(kind, Step(kind, s, es[0].0, es[0].1), es[1..]))
  }

  lemma BlockedStep(kind: Kind, s: Ring, e: Event, o: Outcome)
    requires Blocked(s) && Possible(kind, s, e, o) && (e, o) != (Config, Done)
    ensures Blocked(Step(kind, s, e, o))
  {
  }

  lemma {:induction false} BlockedSticks(kind: Kind, s: Ring, es: seq<(Event, Outcome)>)
    requires Blocked(s) && AnyRun(kind, s, es) && (Config, Done) !in es
    ensures Blocked(AfterAny(kind, s, es))
    decreases |es|
  {
    if es != [] {
      BlockedStep(kind, s, es[0].0, es[0].1);
      BlockedSticks(kind, Step(kind, s, es[0].0, es[0].1), es[1..]);
    }
  }

  lemma BlockedCannotStart(kind: Kind, s: Ring)
    requires Blocked(s)
    ensures !CanStart(kind, s)
  {
    forall es | AnyRun(kind, s, es) && (Config, Done) !in es
      ensures !AfterAny(kind, s, es).streaming
    {
      BlockedSticks(kind, s, es);
    }
  }

  function Frames(n: nat): (es: seq<(Event, Outcome)>) {
    seq(n, _ => (Run, Done))
  }

  /** After a configuration the stream starts with the first frame that wraps the index round to 1. */
  lemma ConfiguredStarts(kind: Kind, s: Ring)
    requires !s.streamOn && !s.streaming && s.queue == [] && s.count == BUFFERS && s.bufIdx < BUFFERS
    ensures var n := if s.bufIdx == 0 then 1 else 4 - s.bufIdx;
            AnyRun(kind, s, Frames(n)) && AfterAny(kind, s, Frames(n)).streaming
    ensures CanStart(kind, s)
  {
    var n := if s.bufIdx == 0 then 1 else 4 - s.bufIdx;
    FramesRun(kind, s, n);
    assert (Config, Done) !in Frames(n);
  }

  lemma {:induction false} FramesRun(kind: Kind, s: Ring, n: nat)
    requires !s.streamOn && !s.streaming && s.count == BUFFERS && s.bufIdx < BUFFERS
    requires n == if s.bufIdx == 0 then 1 else 4 - s.bufIdx
    requires forall k <- s.queue :: 0 < k < s.bufIdx || (s.bufIdx == 0 && k != 0)
    ensures AnyRun(kind, s, Frames(n)) && AfterAny(kind, s, Frames(n)).streaming
    decreases n
  {
    var t := Step(kind, s, Run, Done);
    assert Frames(n)[0] == (Run, Done) && Frames(n)[1..] == Frames(n - 1);
    if n > 1 {
      FramesRun(kind, t, n - 1);
    } else {
      assert t.streaming && Frames(0) == [];
    }
  }

  /** After a failed stream-on the stream can be started again exactly if a configuration has succeeded since. */
  lemma {:induction false} FailedStreamonExactly(kind: Kind, s: Ring, es: seq<(Event, Outcome)>)
    requires Blocked(s) && AnyRun(kind, s, es)
    ensures EverCanStart(kind, s, es) <==> (Config, Done) in es
    decreases |es|
  {
    BlockedCannotStart(kind, s);
    if es != [] {
      var t := Step(kind, s, es[0].0, es[0].1);
      if es[0] == (Config, Done) {
        ConfiguredStarts(kind, t);
      } else {
        BlockedStep(kind, s, es[0].0, es[0].1);
        FailedStreamonExactly(kind, t, es[1..]);
        assert es == [es[0]] + es[1..];
      }
    }
  }

  // Repairing the ring.

  /** Every disciplined failure-free run from here makes only requests that the driver accepts. */
  ghost predicate RunsAccepted(kind: Kind, s: Ring) {
    forall es | RunOf(kind, s, false, es) :: AllAccepted(kind, s, es)
  }

  /** The driver holds the buffers queued last, whatever the counter of queued frames says beyond that. */
  predicate InStep(s: Ring, ran: bool) {
    && s.streamOn == s.streaming
    && (s.count == 0 || s.count == BUFFERS) && s.bufIdx < BUFFERS
    && (!s.streamOn ==> s.bufIdx == 0 && s.queue == [] && !ran)
    && (s.streamOn ==> s.count == BUFFERS)
    && (ran ==> s.queue != [])
    && |s.queue| <= s.qbufCnt && |s.queue| <= (if ran then 3 else 2)
    && forall k | 0 <= k < |s.queue| :: s.queue[k] == (s.bufIdx + BUFFERS - |s.queue| + k) % BUFFERS
  }

  lemma InStepRun(s: Ring)
    requires InStep(s, false) && s.count == BUFFERS
    ensures Accepts(Gscaler, s, Run) && InStep(AfterRun(s, Done), true)
  {
  }

  lemma InStepWait(kind: Kind, s: Ring, ran: bool)
    requires InStep(s, ran) && (ran || s.qbufCnt < BUFFERS)
    ensures Accepts(kind, s, WaitDone) && InStep(AfterWaitDone(kind, s, Done), false)
  {
    if Dequeues(kind, s) && s.queue != [] {
      var t := AfterWaitDone(kind, s, Done);
      assert forall k | 0 <= k < |t.queue| :: t.queue[k] == s.queue[k + 1];
    }
  }

  lemma InStepStep(kind: Kind, s: Ring, ran: bool, e: Event)
    requires InStep(s, ran) && Disciplined(s, ran, e)
    ensures Accepts(kind, s, e) && InStep(Step(kind, s, e, Done), e == Run)
  {
    match e
    case Run => InStepRun(s);
    case WaitDone => InStepWait(kind, s, ran);
    case Config =>
    case Stop =>
    case JustStop =>
  }

  lemma {:induction false} InStepRuns(kind: Kind, s: Ring, ran: bool, es: seq<Event>)
    requires InStep(s, ran) && RunOf(kind, s, ran, es)
    ensures AllAccepted(kind, s, es)
    decreases |es|
  {
    hide InStep;
    if es != [] {
      InStepStep(kind, s, ran, es[0]);
      InStepRuns(kind, Step(kind, s, es[0], Done), es[0] == Run, es[1..]);
    }
  }

  /** Queue a frame, stop, and queue frames again. */
  const REFUSED: seq<Event> := [Run, JustStop, Run, WaitDone, Run, WaitDone, Run]

  /** With the index past 0, a frame queued before the stream starts stays behind and is met again. */
  lemma PastZeroRefuses(s: Ring)
    requires !s.streamOn && !s.streaming && s.queue == [] && s.count == BUFFERS && 0 < s.bufIdx < BUFFERS
    ensures RunOf(Mixer, s, false, REFUSED) && !AllAccepted(Mixer, s, REFUSED)
  {
    var s1 := Step(Mixer, s, Run, Done);
    var s2 := Step(Mixer, s1, JustStop, Done);
    var s3 := Step(Mixer, s2, Run, Done);
    assert s2 == Ring(0, 0, false, [s.bufIdx], false, BUFFERS);
    assert s3 == Ring(1, 1, true, [s.bufIdx, 0], true, BUFFERS);
    LeftBehind(s3, s.bufIdx);
    hide Step, Accepts, Disciplined;
    Unfolded(s2, false, Run, [WaitDone, Run, WaitDone, Run]);
    Unfolded(s1, true, JustStop, [Run, WaitDone, Run, WaitDone, Run]);
    Unfolded(s, false, Run, [JustStop, Run, WaitDone, Run, WaitDone, Run]);
  }

  lemma LeftBehind(s: Ring, k: nat)
    requires s == Ring(1, 1, true, [k, 0], true, BUFFERS) && 0 < k < BUFFERS
    ensures RunOf(Mixer, s, true, [WaitDone, Run, WaitDone, Run])
    ensures !AllAccepted(Mixer, s, [WaitDone, Run, WaitDone, Run])
  {
    var t := Step(Mixer, s, Run, Done);
    assert t == Ring(2, 2, true, [k, 0, 1], true, BUFFERS);
    assert Step(Mixer, s, WaitDone, Done) == s && Step(Mixer, t, WaitDone, Done) == t;
    assert !Accepts(Mixer, s, Run) || !Accepts(Mixer, t, Run);
    var u := Step(Mixer, t, Run, Done);
    hide Step, Accepts;
    Unfolded(t, false, Run, []);
    Unfolded(t, true, WaitDone, [Run]);
    Unfolded(s, false, Run, [WaitDone, Run]);
    Unfolded(s, true, WaitDone, [Run, WaitDone, Run]);
  }

  lemma Unfolded(s: Ring, ran: bool, e: Event, rest: seq<Event>)
    ensures RunOf(Mixer, s, ran, [e] + rest) <==>
            Disciplined(s, ran, e) && RunOf(Mixer, Step(Mixer, s, e, Done), e == Run, rest)
    ensures AllAccepted(Mixer, s, [e] + rest) <==>
            Accepts(Mixer, s, e) && AllAccepted(Mixer, Step(Mixer, s, e, Done), rest)
  {
    assert ([e] + rest)[1..] == rest;
  }

  /**
   After a failed stream-on and a configuration, every disciplined run is accepted: in the scaler always, in the mixer
   exactly if the index is back at 0, which a stop before the configuration sees to.
   */
  lemma ConfigRepairsExactly(kind: Kind, s: Ring)
    requires Blocked(s)
    ensures RunsAccepted(kind, Step(kind, s, Config, Done)) <==> kind == Gscaler || s.bufIdx == 0
  {
    var t := Step(kind, s, Config, Done);
    if kind == Gscaler || s.bufIdx == 0 {
      forall es | RunOf(kind, t, false, es)
        ensures AllAccepted(kind, t, es)
      {
        InStepRuns(kind, t, false, es);
      }
    } else {
      PastZeroRefuses(t);
    }
  }

  /** Such a state of the mixer is reached: configured, with a failed stream-on. */
  lemma MixerGoesWrong()
    ensures AnyRun(Mixer, FRESH, [(Config, Done), (Run, StreamonFailed), (Config, Done)])
    ensures !RunsAccepted(Mixer, AfterAny(Mixer, FRESH, [(Config, Done), (Run, StreamonFailed), (Config, Done)]))
  {
    var s1 := Step(Mixer, FRESH, Config, Done);
    var s2 := Step(Mixer, s1, Run, StreamonFailed);
    var run := [(Config, Done), (Run, StreamonFailed), (Config, Done)];
    assert run[1..] == [(Run, StreamonFailed), (Config, Done)] && run[1..][1..] == [(Config, Done)];
    assert run[1..][1..][1..] == [];
    ConfigRepairsExactly(Mixer, s2);
    hide RunsAccepted;
  }

  /** A full stop clears everything, so a new configuration starts afresh. */
  lemma StopRecovers(kind: Kind, s: Ring)
    requires s.streamOn == s.streaming
    ensures Accepts(kind, s, Stop) && Step(kind, s, Stop, Done) == FRESH
    ensures Good(FRESH, false) && Good(Step(kind, FRESH, Config, Done), false)
  {
  }

  // Stops and configurations that are not complete.

  /** A plain stop keeps the buffers, so the ring runs on without a configuration. */
  lemma JustStopKeepsBuffers(kind: Kind, s: Ring, ran: bool)
    requires Good(s, ran) && s.count == BUFFERS
    ensures var t := Step(kind, s, JustStop, Done);
            && Good(t, false) && t.count == BUFFERS && t.queue == [] && !t.streaming
            && Accepts(kind, t, Run) && Step(kind, t, Run, Done).streaming
  {
  }

  /** A full stop that fails behind the stream-off has stopped the stream, but keeps the buffers requested. */
  lemma HalfStopped(kind: Kind, s: Ring, ran: bool, o: Outcome)
    requires Good(s, ran) && (o == SysmmuFailed || o == ReqbufsFailed)
    ensures var t := Step(kind, s, Stop, o);
            && Good(t, false) && t == FRESH.(count := s.count)
            && Accepts(kind, t, Config) && Accepts(kind, t, Stop)
  {
  }

  /** A configuration that fails leaves the driver as it was, and can be made again. */
  lemma FailedConfig(kind: Kind, s: Ring, o: Outcome)
    requires Good(s, false) && !s.streamOn && o != Done
    ensures var t := Step(kind, s, Config, o); Good(t, false) && t == s && Accepts(kind, t, Config)
  {
  }

  /** When frames are out and the stream was not started, waiting fails in the scaler, but not in the mixer. */
  lemma BlockedWait(s: Ring)
    requires Blocked(s) && s.qbufCnt >= BUFFERS
    ensures !Possible(Gscaler, s, WaitDone, Done)
    ensures Accepts(Mixer, s, WaitDone) && Possible(Mixer, s, WaitDone, Done) && Step(Mixer, s, WaitDone, Done) == s
  {
  }
}
