/**
 The TV-out service: callers hand pictures to one flush thread per layer class and disable layers, under the service
 mutex; the flush threads wait for a signal. Every step below is one action on a mutex, a condition variable or a
 message pointer. A wait on a condition variable may also return without a signal.
 */
module TvOutService {

  /** The layer classes: the two graphic layers share one message, the video layer has its own. */
  datatype Class = UI | VIDEO

  datatype Owner = Nobody | FlushThread | Caller(t: nat)

  datatype FlushPc =
    | AtTop        // about to lock the sync mutex
    | AboutToWait  // holds the sync mutex
    | Waiting      // in the condition wait, without the mutex
    | Signalled    // about to take the sync mutex again
    | WaitOver     // the wait has returned; holds the sync mutex
    | WantsFlush   // about to lock the disable mutex
    | Flushing     // holds the disable mutex and reads the message
    | Cleared      // has set the message to null; holds the disable mutex

  datatype CallerPc =
    | Idle
    | BlitStart(c: Class, msg: nat)   // holds the service mutex, about to lock the sync mutex
    | BlitLocked(c: Class, msg: nat)  // about to store the message
    | BlitStored(c: Class)            // about to signal
    | BlitSent(c: Class)              // about to unlock the sync mutex and return
    | Polling(c: Class)               // holds the service mutex, about to lock the disable mutex
    | Looking(c: Class)               // holds the disable mutex, about to read the pointer
    | Looked(c: Class, safe: bool)    // about to unlock the disable mutex
    | Disabling(c: Class)             // has seen null; disables the layer

  /** A message pointer, null or the number of a message. */
  datatype Pointer = Null | To(msg: nat)

  datatype Channel = Channel(msg: Pointer, sync: Owner, disable: Owner, flush: FlushPc)

  datatype State = State(mLock: Owner, callers: seq<CallerPc>, ui: Channel, video: Channel) {
    function Get(c: Class): Channel { if c == UI then ui else video }

    function Put(c: Class, ch: Channel): State { if c == UI then this.(ui := ch) else this.(video := ch) }
  }

  datatype Action =
    | StartBlit(t: nat, c: Class, msg: nat)
    | StartDisable(t: nat, c: Class)
    | Proceed(t: nat)
    | Flush(c: Class)
    | Spurious(c: Class)  // the wait returns without a signal

  predicate Enabled(s: State, a: Action) {
    match a
    case StartBlit(t, _, _) => t < |s.callers| && s.callers[t].Idle? && s.mLock == Nobody
    case StartDisable(t, _) => t < |s.callers| && s.callers[t].Idle? && s.mLock == Nobody
    case Proceed(t) =>
      t < |s.callers| && !s.callers[t].Idle? &&
      (s.callers[t].BlitStart? ==> s.Get(s.callers[t].c).sync == Nobody) &&
      (s.callers[t].Polling? ==> s.Get(s.callers[t].c).disable == Nobody)
    case Flush(c) =>
      var ch := s.Get(c);
      ch.flush != Waiting &&
      (ch.flush == AtTop || ch.flush == Signalled ==> ch.sync == Nobody) &&
      (ch.flush == WantsFlush ==> ch.disable == Nobody)
    case Spurious(c) => s.Get(c).flush == Waiting
  }

  /** The flush thread's next step. */
  function FlushStep(ch: Channel): Channel {
    match ch.flush
    case AtTop => ch.(flush := AboutToWait, sync := FlushThread)
    case AboutToWait => ch.(flush := Waiting, sync := Nobody)
    case Waiting => ch
    case Signalled => ch.(flush := WaitOver, sync := FlushThread)
    case WaitOver => ch.(flush := WantsFlush, sync := Nobody)
    case WantsFlush => ch.(flush := Flushing, disable := FlushThread)
    case Flushing => ch.(flush := Cleared, msg := Null)
    case Cleared => ch.(flush := AtTop, disable := Nobody)
  }

  /** A signal wakes the flush thread if it waits, and is lost otherwise. */
  function Signal(ch: Channel): Channel {
    if ch.flush == Waiting then ch.(flush := Signalled) else ch
  }

  /** A caller's next step: on the channel, and its new place. */
  function CallerStep(ch: Channel, t: nat, pc: CallerPc): (r: (Channel, CallerPc)) {
    match pc
    case Idle => (ch, Idle)
    case BlitStart(c, msg) => (ch.(sync := Caller(t)), BlitLocked(c, msg))
    case BlitLocked(c, msg) => (ch.(msg := To(msg)), BlitStored(c))
    case BlitStored(c) => (Signal(ch), BlitSent(c))
    case BlitSent(_) => (ch.(sync := Nobody), Idle)
    case Polling(c) => (ch.(disable := Caller(t)), Looking(c))
    case Looking(c) => (ch, Looked(c, ch.msg == Null))
    case Looked(c, safe) => (ch.(disable := Nobody), if safe then Disabling(c) else Polling(c))
    case Disabling(_) => (ch, Idle)
  }

  function Do(s: State, a: Action): State
    requires Enabled(s, a)
  {
    match a
    case StartBlit(t, c, msg) => s.(mLock := Caller(t), callers := s.callers[t := BlitStart(c, msg)])
    case StartDisable(t, c) => s.(mLock := Caller(t), callers := s.callers[t := Polling(c)])
    case Proceed(t) =>
      var pc := s.callers[t];
      var (ch, pc') := CallerStep(s.Get(pc.c), t, pc);
      var s' := s.Put(pc.c, ch).(callers := s.callers[t := pc']);
      if pc'.Idle? then s'.(mLock := Nobody) else s'
    case Flush(c) => s.Put(c, FlushStep(s.Get(c)))
    case Spurious(c) => s.Put(c, Signal(s.Get(c)))
  }

  /** A wake-up without a signal does no harm if there is a message, or a caller is about to store one. */
  predicate Harmless(s: State, a: Action) {
    a.Spurious? ==>
      var ch := s.Get(a.c);
      ch.msg != Null || (ch.sync.Caller? && ch.sync.t < |s.callers| && s.callers[ch.sync.t].BlitLocked?)
  }

  // The invariant.

  /** The wait is over, and the message has not been taken yet. */
  predicate PastWait(f: FlushPc) {
    f == Signalled || f == WaitOver || f == WantsFlush || f == Flushing
  }

  predicate HasSync(pc: CallerPc, c: Class) {
    (pc.BlitLocked? || pc.BlitStored? || pc.BlitSent?) && pc.c == c
  }

  predicate HasDisable(pc: CallerPc, c: Class) {
    (pc.Looking? || pc.Looked?) && pc.c == c
  }

  predicate SawNull(pc: CallerPc, c: Class) {
    (pc.Disabling? || (pc.Looked? && pc.safe)) && pc.c == c
  }

  /** The flush thread's own part. */
  predicate FlushInv(ch: Channel) {
    && (PastWait(ch.flush) ==> ch.msg != Null || (ch.flush == Signalled && ch.sync.Caller?))
    && (ch.sync == FlushThread <==> ch.flush == AboutToWait || ch.flush == WaitOver)
    && (ch.disable == FlushThread <==> ch.flush == Flushing || ch.flush == Cleared)
  }

  /** The part of the caller `t`. */
  predicate CallerInv(ch: Channel, t: nat, pc: CallerPc, c: Class) {
    && (HasSync(pc, c) <==> ch.sync == Caller(t))
    && (HasDisable(pc, c) <==> ch.disable == Caller(t))
    // a thread that has woken up finds the message that a caller has stored
    && (PastWait(ch.flush) && HasSync(pc, c) && !pc.BlitLocked? ==> ch.msg != Null)
    && (pc == BlitSent(c) ==> ch.flush != Waiting)
    && ((pc.Polling? || pc.Looking? || pc.Looked?) && pc.c == c ==> !ch.sync.Caller?)
    // a message that is about to be signalled to a waiting thread is still there
    && (pc == BlitStored(c) && ch.flush == Waiting ==> ch.msg != Null)
    // after the disabler has seen null, the flush thread is before or in its wait
    && (SawNull(pc, c) ==> ch.msg == Null && (ch.flush == AtTop || ch.flush == AboutToWait || ch.flush == Waiting))
  }

  /** The mutexes are held by callers that there are. */
  predicate Accounted(s: State, c: Class) {
    && (s.Get(c).sync.Caller? ==> s.Get(c).sync.t < |s.callers|)
    && (s.Get(c).disable.Caller? ==> s.Get(c).disable.t < |s.callers|)
  }

  predicate ChannelInv(s: State, c: Class) {
    FlushInv(s.Get(c)) && Accounted(s, c) && forall t | 0 <= t < |s.callers| :: CallerInv(s.Get(c), t, s.callers[t], c)
  }

  predicate Inv(s: State) {
    && (forall t | 0 <= t < |s.callers| :: !s.callers[t].Idle? <==> s.mLock == Caller(t))
    && ChannelInv(s, UI) && ChannelInv(s, VIDEO)
  }

  predicate Initial(s: State) {
    && s.mLock == Nobody && (forall t | 0 <= t < |s.callers| :: s.callers[t] == Idle)
    && s.ui == Channel(Null, Nobody, Nobody, AtTop) && s.video == s.ui
  }

  lemma FlushKeeps(s: State, c: Class, d: Class)
    requires Inv(s) && Enabled(s, Flush(c))
    ensures ChannelInv(Do(s, Flush(c)), d)
  {
    assert ChannelInv(s, d);
    if c == d {
      forall t | 0 <= t < |s.callers|
        ensures CallerInv(FlushStep(s.Get(c)), t, s.callers[t], c)
      {
        assert CallerInv(s.Get(c), t, s.callers[t], c);
      }
    }
  }

  lemma SpuriousKeeps(s: State, c: Class, d: Class)
    requires Inv(s) && Enabled(s, Spurious(c)) && Harmless(s, Spurious(c))
    ensures ChannelInv(Do(s, Spurious(c)), d)
  {
    assert ChannelInv(s, d);
    if c == d {
      var ch := s.Get(c);
      forall t | 0 <= t < |s.callers|
        ensures CallerInv(Signal(ch), t, s.callers[t], c)
      {
        assert CallerInv(ch, t, s.callers[t], c);
        if ch.msg == Null {
          OthersAreIdle(s, c, t);
        }
      }
    }
  }

  /** While a caller holds the sync mutex, the others are idle, so nobody has seen null. */
  lemma OthersAreIdle(s: State, c: Class, t: nat)
    requires Inv(s) && t < |s.callers| && s.Get(c).sync.Caller? && s.Get(c).sync.t < |s.callers|
    requires s.callers[s.Get(c).sync.t].BlitLocked?
    ensures t != s.Get(c).sync.t ==> s.callers[t].Idle?
  {
  }

  lemma StartKeeps(s: State, a: Action, d: Class)
    requires Inv(s) && (a.StartBlit? || a.StartDisable?) && Enabled(s, a)
    ensures ChannelInv(Do(s, a), d)
  {
    assert ChannelInv(s, d);
    assert CallerInv(s.Get(d), a.t, s.callers[a.t], d);
  }

  /** What a caller's step does to its own channel. */
  lemma CallerStepKeeps(ch: Channel, t: nat, pc: CallerPc)
    requires !pc.Idle? && FlushInv(ch) && CallerInv(ch, t, pc, pc.c)
    requires pc.BlitStart? ==> ch.sync == Nobody
    requires pc.Polling? ==> ch.disable == Nobody
    ensures var (ch', pc') := CallerStep(ch, t, pc); FlushInv(ch') && CallerInv(ch', t, pc', pc.c)
    ensures var (ch', pc') := CallerStep(ch, t, pc); pc'.Idle? || pc'.c == pc.c
  {
  }

  /** A caller's step on the other channel. */
  lemma OtherChannelKeeps(ch: Channel, t: nat, pc: CallerPc, pc': CallerPc, d: Class)
    requires CallerInv(ch, t, pc, d) && !pc.Idle? && pc.c != d && (pc'.Idle? || pc'.c == pc.c)
    ensures CallerInv(ch, t, pc', d)
  {
  }

  /** Idle callers are not concerned by what another one does. */
  lemma IdleKeeps(ch: Channel, t: nat, pc: CallerPc, u: nat, d: Class)
    requires !pc.Idle? && u != t && CallerInv(ch, u, Idle, d)
    ensures CallerInv(CallerStep(ch, t, pc).0, u, Idle, d)
  {
  }

  lemma ProceedKeeps(s: State, t: nat, d: Class)
    requires Inv(s) && Enabled(s, Proceed(t))
    ensures ChannelInv(Do(s, Proceed(t)), d)
  {
    var pc := s.callers[t];
    var ch := s.Get(pc.c);
    var (ch', pc') := CallerStep(ch, t, pc);
    assert ChannelInv(s, d) && ChannelInv(s, pc.c);
    assert CallerInv(ch, t, pc, pc.c) && CallerInv(s.Get(d), t, pc, d);
    hide CallerInv, FlushInv, CallerStep;
    CallerStepKeeps(ch, t, pc);
    var s' := Do(s, Proceed(t));
    forall u | 0 <= u < |s'.callers|
      ensures CallerInv(s'.Get(d), u, s'.callers[u], d)
    {
      if u != t {
        assert CallerInv(s.Get(d), u, Idle, d);
        IdleKeeps(ch, t, pc, u, pc.c) by { assert CallerInv(s.Get(pc.c), u, s.callers[u], pc.c); }
      } else if pc.c != d {
        OtherChannelKeeps(s.Get(d), t, pc, pc', d);
      }
    }
  }

  lemma StepKeeps(s: State, a: Action)
    requires Inv(s) && Enabled(s, a) && Harmless(s, a)
    ensures Inv(Do(s, a))
  {
    hide ChannelInv;
    forall d
      ensures ChannelInv(Do(s, a), d)
    {
      match a
      case StartBlit(_, _, _) => StartKeeps(s, a, d);
      case StartDisable(_, _) => StartKeeps(s, a, d);
      case Proceed(t) => ProceedKeeps(s, t, d);
      case Flush(c) => FlushKeeps(s, c, d);
      case Spurious(c) => SpuriousKeeps(s, c, d);
    }
  }

  // Runs.

  predicate RunOf(s: State, run: seq<Action>)
    decreases |run|
  {
    run == [] || (Enabled(s, run[0]) && RunOf(Do(s, run[0]), run[1..]))
  }

  function After(s: State, run: seq<Action>): State
    requires RunOf(s, run)
    decreases |run|
  {
    if run == [] then s else After(Do(s, run[0]), run[1..])
  }

  /** Every wake-up without a signal is harmless. */
  predicate HarmlessRun(s: State, run: seq<Action>)
    requires RunOf(s, run)
    decreases |run|
  {
    run == [] || (Harmless(s, run[0]) && HarmlessRun(Do(s, run[0]), run[1..]))
  }

  lemma {:induction false} RunKeeps(s: State, run: seq<Action>)
    requires Inv(s) && RunOf(s, run) && HarmlessRun(s, run)
    ensures Inv(After(s, run))
    decreases |run|
  {
    hide Inv;
    if run != [] {
      StepKeeps(s, run[0]);
      RunKeeps(Do(s, run[0]), run[1..]);
    }
  }

  /** Over every interleaving without harmful wake-ups, a flush thread that has left its wait finds a message. */
  lemma FlushHasMessage(s: State, run: seq<Action>, c: Class)
    requires Initial(s) && RunOf(s, run) && HarmlessRun(s, run)
    ensures PastWait(After(s, run).Get(c).flush) && After(s, run).Get(c).flush != Signalled ==>
              After(s, run).Get(c).msg != Null
  {
    RunKeeps(s, run);
    assert ChannelInv(After(s, run), c);
  }

  /** In every state of the run the caller has seen null and has not returned yet. */
  predicate StaysDisabling(s: State, run: seq<Action>, t: nat, c: Class)
    requires RunOf(s, run)
    decreases |run|
  {
    t < |s.callers| && SawNull(s.callers[t], c) &&
    (run == [] || StaysDisabling(Do(s, run[0]), run[1..], t, c))
  }

  /** No flush of the class is running or has left its wait, in any state of the run. */
  predicate NoFlush(s: State, run: seq<Action>, c: Class)
    requires RunOf(s, run)
    decreases |run|
  {
    !PastWait(s.Get(c).flush) && s.Get(c).flush != Cleared && s.Get(c).msg == Null &&
    (run == [] || NoFlush(Do(s, run[0]), run[1..], c))
  }

  lemma {:induction false} DisablingKeepsOut(s: State, run: seq<Action>, t: nat, c: Class)
    requires Inv(s) && RunOf(s, run) && HarmlessRun(s, run) && StaysDisabling(s, run, t, c)
    ensures NoFlush(s, run, c)
    decreases |run|
  {
    assert ChannelInv(s, c) && CallerInv(s.Get(c), t, s.callers[t], c);
    hide Inv, ChannelInv;
    if run != [] {
      StepKeeps(s, run[0]);
      DisablingKeepsOut(Do(s, run[0]), run[1..], t, c);
    }
  }

  /**
   Over every interleaving of any number of callers, without harmful wake-ups: once a disabler has seen the pointer
   null, no flush of that class is running, and none starts, until its call returns.
   */
  lemma DisableExcludesFlush(s: State, before: seq<Action>, during: seq<Action>, t: nat, c: Class)
    requires Initial(s) && RunOf(s, before) && RunOf(After(s, before), during)
    requires HarmlessRun(s, before) && HarmlessRun(After(s, before), during)
    requires StaysDisabling(After(s, before), during, t, c)
    ensures NoFlush(After(s, before), during, c)
  {
    RunKeeps(s, before);
    DisablingKeepsOut(After(s, before), during, t, c);
  }

  // Harmful wake-ups.

  /** The flush thread reads a null message. */
  predicate ReadsNull(s: State) {
    (s.ui.flush == Flushing && s.ui.msg == Null) || (s.video.flush == Flushing && s.video.msg == Null)
  }

  /** From here on no null message is read, whatever harmless steps follow. */
  ghost predicate Safe(s: State) {
    forall run | RunOf(s, run) && HarmlessRun(s, run) :: !ReadsNull(After(s, run))
  }

  lemma InvIsSafe(s: State)
    requires Inv(s)
    ensures Safe(s)
  {
    forall run | RunOf(s, run) && HarmlessRun(s, run)
      ensures !ReadsNull(After(s, run))
    {
      RunKeeps(s, run);
      var e := After(s, run);
      assert ChannelInv(e, UI) && ChannelInv(e, VIDEO);
    }
  }

  lemma Longer(s: State, a: Action, rest: seq<Action>)
    requires Enabled(s, a) && RunOf(Do(s, a), rest)
    ensures RunOf(s, [a] + rest) && After(s, [a] + rest) == After(Do(s, a), rest)
  {
    assert ([a] + rest)[1..] == rest;
  }

  lemma UnsafeBefore(s: State, a: Action)
    requires Enabled(s, a) && Harmless(s, a) && !Safe(Do(s, a))
    ensures !Safe(s)
  {
    var rest :| RunOf(Do(s, a), rest) && HarmlessRun(Do(s, a), rest) && ReadsNull(After(Do(s, a), rest));
    var run := [a] + rest;
    assert run[1..] == rest;
    assert RunOf(s, run) && HarmlessRun(s, run) && After(s, run) == After(Do(s, a), rest);
  }

  lemma ReadingNullIsNotSafe(s: State)
    requires ReadsNull(s)
    ensures !Safe(s)
  {
    assert RunOf(s, []) && HarmlessRun(s, []) && After(s, []) == s;
  }

  /** With the mutexes free, a thread that has woken up goes on to read. */
  lemma WokenIsNotSafe(s: State, c: Class)
    requires s.Get(c) == Channel(Null, Nobody, Nobody, Signalled)
    ensures !Safe(s)
  {
    var s1 := Do(s, Flush(c));
    var s2 := Do(s1, Flush(c));
    ReadingNullIsNotSafe(Do(s2, Flush(c)));
    hide Safe;
    UnsafeBefore(s2, Flush(c));
    UnsafeBefore(s1, Flush(c));
    UnsafeBefore(s, Flush(c));
  }

  /** A caller that has looked at the pointer lets go of the disable mutex. */
  lemma LookedIsNotSafe(s: State, c: Class, t: nat)
    requires s.Get(c) == Channel(Null, Nobody, Caller(t), Signalled)
    requires t < |s.callers| && s.callers[t].Looked? && s.callers[t].c == c
    ensures !Safe(s)
  {
    WokenIsNotSafe(Do(s, Proceed(t)), c);
    hide Safe;
    UnsafeBefore(s, Proceed(t));
  }

  lemma LookingIsNotSafe(s: State, c: Class, t: nat)
    requires s.Get(c) == Channel(Null, Nobody, Caller(t), Signalled)
    requires t < |s.callers| && s.callers[t] == Looking(c)
    ensures !Safe(s)
  {
    LookedIsNotSafe(Do(s, Proceed(t)), c, t);
    hide Safe;
    UnsafeBefore(s, Proceed(t));
  }

  /** When a wake-up can do harm: the message is null, and nobody holds the sync mutex. */
  lemma HarmfulChannel(s: State, c: Class)
    requires Inv(s) && Enabled(s, Spurious(c)) && !Harmless(s, Spurious(c))
    ensures s.Get(c).msg == Null && s.Get(c).sync == Nobody && s.Get(c).flush == Waiting
    ensures s.Get(c).disable == Nobody || (s.Get(c).disable.Caller? && s.Get(c).disable.t < |s.callers| &&
              HasDisable(s.callers[s.Get(c).disable.t], c))
  {
    assert ChannelInv(s, c);
    var ch := s.Get(c);
    if ch.sync.Caller? {
      assert false;
    }
    if ch.disable.Caller? {
      assert CallerInv(ch, ch.disable.t, s.callers[ch.disable.t], c);
    }
  }

  lemma HarmIsNotSafe(s: State, c: Class)
    requires Inv(s) && Enabled(s, Spurious(c)) && !Harmless(s, Spurious(c))
    ensures !Safe(Do(s, Spurious(c)))
  {
    HarmfulChannel(s, c);
    hide Safe, Inv;
    var s' := Do(s, Spurious(c));
    var d := s.Get(c).disable;
    if d == Nobody {
      WokenIsNotSafe(s', c);
    } else if s.callers[d.t].Looking? {
      LookingIsNotSafe(s', c, d.t);
    } else {
      LookedIsNotSafe(s', c, d.t);
    }
  }

  /** Every state of the run is safe. */
  ghost predicate AllSafe(s: State, run: seq<Action>)
    requires RunOf(s, run)
    decreases |run|
  {
    Safe(s) && (run == [] || AllSafe(Do(s, run[0]), run[1..]))
  }

  lemma {:induction false} RunIsHarmlessExactly(s: State, run: seq<Action>)
    requires Inv(s) && RunOf(s, run)
    ensures HarmlessRun(s, run) <==> AllSafe(s, run)
    decreases |run|
  {
    InvIsSafe(s);
    hide Inv, Harmless, Safe;
    if run != [] {
      var a := run[0];
      if Harmless(s, a) {
        StepKeeps(s, a);
        RunIsHarmlessExactly(Do(s, a), run[1..]);
      } else {
        assert a.Spurious? by { OnlySpuriousHarms(s, a); }
        HarmIsNotSafe(s, a.c);
      }
    }
  }

  lemma OnlySpuriousHarms(s: State, a: Action)
    requires !Harmless(s, a)
    ensures a.Spurious?
  {
  }

  /**
   Over every interleaving, wake-ups without a signal included: no flush thread reads a null message, nor can come to
   through harmless steps, exactly if every such wake-up finds a message, or a caller that is about to store one.
   */
  lemma MessagesAreReadExactly(s: State, run: seq<Action>)
    requires Initial(s) && RunOf(s, run)
    ensures HarmlessRun(s, run) <==> AllSafe(s, run)
  {
    RunIsHarmlessExactly(s, run);
  }

  /** It does happen, without any caller: the flush thread waits, wakes up and reads. */
  lemma SpuriousWakeup(s: State, c: Class) returns (run: seq<Action>)
    requires Initial(s)
    ensures RunOf(s, run) && ReadsNull(After(s, run))
  {
    var s1 := Do(s, Flush(c));
    var s2 := Do(s1, Flush(c));
    WokenIsNotSafe(Do(s2, Spurious(c)), c);
    hide ReadsNull, HarmlessRun, RunOf, After;
    var rest :| RunOf(Do(s2, Spurious(c)), rest) && ReadsNull(After(Do(s2, Spurious(c)), rest));
    Longer(s2, Spurious(c), rest);
    Longer(s1, Flush(c), [Spurious(c)] + rest);
    Longer(s, Flush(c), [Flush(c)] + ([Spurious(c)] + rest));
    run := [Flush(c)] + ([Flush(c)] + ([Spurious(c)] + rest));
  }

  // Disablers that never return.

  /** The caller is in a call that disables the class. */
  predicate Disables(pc: CallerPc, c: Class) {
    (pc.Polling? || pc.Looking? || pc.Looked? || pc.Disabling?) && pc.c == c
  }

  /** The flush thread takes no message before it has been woken up once more. */
  predicate BeforeWake(f: FlushPc) {
    f == Cleared || f == AtTop || f == AboutToWait || f == Waiting
  }

  /** No wait of the class returns without a signal. */
  predicate NoWakeups(run: seq<Action>, c: Class) {
    Spurious(c) !in run
  }

  ghost predicate CanReturn(s: State, t: nat, c: Class) {
    exists run :: NoWakeups(run, c) && RunOf(s, run) && t < |After(s, run).callers| && After(s, run).callers[t] == Idle
  }

  /** A message is left, the flush thread has yet to be woken up for it, and the one caller at work polls. */
  predicate Stuck(s: State, t: nat, c: Class) {
    && t < |s.callers| && Disables(s.callers[t], c) && !SawNull(s.callers[t], c) && s.mLock == Caller(t)
    && (forall u | 0 <= u < |s.callers| && u != t :: s.callers[u].Idle?)
    && s.Get(c).msg != Null && BeforeWake(s.Get(c).flush)
  }

  lemma StuckStays(s: State, a: Action, t: nat, c: Class)
    requires Stuck(s, t, c) && Enabled(s, a) && a != Spurious(c)
    ensures Stuck(Do(s, a), t, c)
  {
  }

  lemma {:induction false} StuckForEver(s: State, run: seq<Action>, t: nat, c: Class)
    requires Stuck(s, t, c) && RunOf(s, run) && NoWakeups(run, c)
    ensures Stuck(After(s, run), t, c)
    decreases |run|
  {
    hide Stuck, Enabled, Do;
    if run != [] {
      assert run[0] in run && NoWakeups(run[1..], c);
      StuckStays(s, run[0], t, c);
      StuckForEver(Do(s, run[0]), run[1..], t, c);
    }
  }

  lemma ReturnBefore(s: State, a: Action, t: nat, c: Class)
    requires Enabled(s, a) && a != Spurious(c) && CanReturn(Do(s, a), t, c)
    ensures CanReturn(s, t, c)
  {
    hide Enabled, Do;
    var rest :| NoWakeups(rest, c) && RunOf(Do(s, a), rest) &&
      t < |After(Do(s, a), rest).callers| && After(Do(s, a), rest).callers[t] == Idle;
    Longer(s, a, rest);
    assert NoWakeups([a] + rest, c);
  }

  lemma Returned(s: State, t: nat, c: Class)
    requires t < |s.callers| && s.callers[t] == Idle
    ensures CanReturn(s, t, c)
  {
    assert NoWakeups([], c) && RunOf(s, []) && After(s, []) == s;
  }

  lemma SawNullReturns(s: State, t: nat, c: Class)
    requires t < |s.callers| && Disables(s.callers[t], c) && SawNull(s.callers[t], c)
    ensures CanReturn(s, t, c)
    decreases s.callers[t].Looked?
  {
    var s' := Do(s, Proceed(t));
    hide CanReturn;
    if s.callers[t].Looked? {
      SawNullReturns(s', t, c);
    } else {
      Returned(s', t, c);
    }
    ReturnBefore(s, Proceed(t), t, c);
  }

  /** With the message gone and the disable mutex at hand, the next look succeeds. */
  lemma NullReturns(s: State, t: nat, c: Class)
    requires t < |s.callers| && Disables(s.callers[t], c) && s.Get(c).msg == Null
    requires s.callers[t].Polling? ==> s.Get(c).disable == Nobody
    ensures CanReturn(s, t, c)
    decreases if s.callers[t].Looked? then 2 else if s.callers[t].Polling? then 1 else 0
  {
    if SawNull(s.callers[t], c) {
      SawNullReturns(s, t, c);
    } else {
      var s' := Do(s, Proceed(t));
      hide CanReturn;
      if s.callers[t].Looking? {
        SawNullReturns(s', t, c);
      } else {
        NullReturns(s', t, c);
      }
      ReturnBefore(s, Proceed(t), t, c);
    }
  }

  function Ahead(f: FlushPc): nat {
    match f
    case Signalled => 5
    case WaitOver => 4
    case WantsFlush => 3
    case Flushing => 2
    case Cleared => 1
    case _ => 0
  }

  /** While the disabler polls, the flush thread goes on until it has let go of the disable mutex. */
  lemma {:induction false} FlushedReturns(s: State, t: nat, c: Class)
    requires t < |s.callers| && s.callers[t] == Polling(c) && !s.Get(c).sync.Caller? && !s.Get(c).disable.Caller?
    requires FlushInv(s.Get(c)) && (s.Get(c).msg == Null || Ahead(s.Get(c).flush) >= 2)
    ensures CanReturn(s, t, c)
    decreases Ahead(s.Get(c).flush)
  {
    if Ahead(s.Get(c).flush) == 0 {
      NullReturns(s, t, c);
    } else {
      var s' := Do(s, Flush(c));
      assert s'.Get(c) == FlushStep(s.Get(c)) && s'.callers == s.callers;
      hide CanReturn;
      FlushedReturns(s', t, c);
      ReturnBefore(s, Flush(c), t, c);
    }
  }

  /** A disabler that has not seen null lets go of the disable mutex first. */
  lemma PollsAgain(s: State, t: nat, c: Class)
    requires Inv(s) && t < |s.callers| && Disables(s.callers[t], c) && !SawNull(s.callers[t], c)
    requires s.Get(c).msg != Null && Ahead(s.Get(c).flush) >= 2
    ensures CanReturn(s, t, c)
    decreases if s.callers[t].Looking? then 2 else if s.callers[t].Looked? then 1 else 0
  {
    assert ChannelInv(s, c) && CallerInv(s.Get(c), t, s.callers[t], c);
    if s.callers[t].Polling? {
      NobodyElse(s, t, c);
      FlushedReturns(s, t, c);
    } else {
      StepKeeps(s, Proceed(t));
      hide CanReturn, Inv;
      PollsAgain(Do(s, Proceed(t)), t, c);
      ReturnBefore(s, Proceed(t), t, c);
    }
  }

  lemma NobodyElse(s: State, t: nat, c: Class)
    requires Inv(s) && t < |s.callers| && s.callers[t] == Polling(c)
    ensures !s.Get(c).sync.Caller? && !s.Get(c).disable.Caller? && FlushInv(s.Get(c))
  {
    assert ChannelInv(s, c);
    var ch := s.Get(c);
    assert CallerInv(ch, t, s.callers[t], c);
    if ch.disable.Caller? {
      assert false;
    }
  }

  /**
   When a disabler can return, as long as no wait returns without a signal: if the message has been taken, or the
   flush thread has been woken up for it. Otherwise it polls for ever, with the service mutex in its hands.
   */
  lemma DisablerReturnsExactly(s: State, t: nat, c: Class)
    requires Inv(s) && t < |s.callers| && Disables(s.callers[t], c)
    ensures CanReturn(s, t, c) <==> s.Get(c).msg == Null || !BeforeWake(s.Get(c).flush)
  {
    assert ChannelInv(s, c) && CallerInv(s.Get(c), t, s.callers[t], c);
    if SawNull(s.callers[t], c) {
      SawNullReturns(s, t, c);
    } else if s.Get(c).msg != Null && BeforeWake(s.Get(c).flush) {
      forall run | NoWakeups(run, c) && RunOf(s, run)
        ensures t < |After(s, run).callers| && After(s, run).callers[t] != Idle
      {
        StuckForEver(s, run, t, c);
      }
    } else if s.Get(c).msg != Null {
      PollsAgain(s, t, c);
    } else if s.callers[t].Polling? {
      NobodyElse(s, t, c);
      FlushedReturns(s, t, c);
    } else {
      NullReturns(s, t, c);
    }
  }

  /** It does happen: a picture comes before the flush thread has reached its wait, and then the layer is disabled. */
  lemma LostSignal(s: State, c: Class) returns (run: seq<Action>)
    requires Initial(s) && |s.callers| > 0
    ensures RunOf(s, run) && Stuck(After(s, run), 0, c)
  {
    var s1 := Do(s, StartBlit(0, c, 1));
    var s2 := Do(s1, Proceed(0));
    var s3 := Do(s2, Proceed(0));
    var s4 := Do(s3, Proceed(0));
    var s5 := Do(s4, Proceed(0));
    var s6 := Do(s5, StartDisable(0, c));
    assert Stuck(s6, 0, c);
    hide Do, Enabled, Stuck;
    assert RunOf(s6, []) && After(s6, []) == s6;
    Longer(s5, StartDisable(0, c), []);
    run := [StartDisable(0, c)] + [];
    Longer(s4, Proceed(0), run);
    run := [Proceed(0)] + run;
    Longer(s3, Proceed(0), run);
    run := [Proceed(0)] + run;
    Longer(s2, Proceed(0), run);
    run := [Proceed(0)] + run;
    Longer(s1, Proceed(0), run);
    run := [Proceed(0)] + run;
    Longer(s, StartBlit(0, c, 1), run);
    run := [StartBlit(0, c, 1)] + run;
  }

  // What is flushed.

  /** What each caller came in with last, and the message stored last in each channel, by the steps taken. */
  datatype Log = Log(asked: map<nat, (Class, nat)>, ui: Pointer, video: Pointer) {
    function Last(c: Class): Pointer { if c == UI then ui else video }
  }

  function Logged(l: Log, s: State, a: Action): Log {
    match a
    case StartBlit(t, c, msg) => l.(asked := l.asked[t := (c, msg)])
    case Proceed(t) =>
      if t < |s.callers| && s.callers[t].BlitLocked? && t in l.asked then
        var (c, msg) := l.asked[t];
        if c == UI then l.(ui := To(msg)) else l.(video := To(msg))
      else l
    case _ => l
  }

  function LogOf(s: State, run: seq<Action>, l: Log): Log
    requires RunOf(s, run)
    decreases |run|
  {
    if run == [] then l else LogOf(Do(s, run[0]), run[1..], Logged(l, s, run[0]))
  }

  const NOTHING: Log := Log(map[], Null, Null)

  /** The caller hands over the message it came with, to the class it came with. */
  predicate HandsOver(pc: CallerPc, l: Log, t: nat) {
    && (pc.BlitStart? || pc.BlitLocked? ==> t in l.asked && l.asked[t] == (pc.c, pc.msg))
    && (pc.BlitStored? || pc.BlitSent? ==> t in l.asked && l.asked[t].0 == pc.c)
  }

  /** A channel holds nothing or the message stored last. */
  predicate Holds(s: State, l: Log) {
    && (forall t | 0 <= t < |s.callers| :: HandsOver(s.callers[t], l, t))
    && (s.ui.msg == Null || s.ui.msg == l.ui) && (s.video.msg == Null || s.video.msg == l.video)
  }

  lemma StepHolds(s: State, l: Log, a: Action)
    requires Holds(s, l) && Enabled(s, a)
    ensures Holds(Do(s, a), Logged(l, s, a))
  {
  }

  lemma {:induction false} RunHolds(s: State, l: Log, run: seq<Action>)
    requires Holds(s, l) && RunOf(s, run)
    ensures Holds(After(s, run), LogOf(s, run, l))
    decreases |run|
  {
    hide Holds, Do, Enabled, Logged;
    if run != [] {
      StepHolds(s, l, run[0]);
      RunHolds(Do(s, run[0]), Logged(l, s, run[0]), run[1..]);
    }
  }

  /** The message stored last, and what the callers came with, are messages that were handed over for the class. */
  ghost predicate FromRun(l: Log, run: seq<Action>) {
    && (forall t | t in l.asked :: StartBlit(t, l.asked[t].0, l.asked[t].1) in run)
    && (l.ui != Null ==> exists t :: StartBlit(t, UI, l.ui.msg) in run)
    && (l.video != Null ==> exists t :: StartBlit(t, VIDEO, l.video.msg) in run)
  }

  lemma LoggedFromRun(l: Log, run: seq<Action>, s: State, a: Action)
    requires FromRun(l, run)
    ensures FromRun(Logged(l, s, a), run + [a])
  {
    var l' := Logged(l, s, a);
    forall t | t in l'.asked
      ensures StartBlit(t, l'.asked[t].0, l'.asked[t].1) in run + [a]
    {
      assert a in run + [a];
    }
    if l'.ui != Null {
      var t :| StartBlit(t, UI, l'.ui.msg) in run;
      assert StartBlit(t, UI, l'.ui.msg) in run + [a];
    }
    if l'.video != Null {
      var t :| StartBlit(t, VIDEO, l'.video.msg) in run;
      assert StartBlit(t, VIDEO, l'.video.msg) in run + [a];
    }
  }

  lemma {:induction false} LogFromRun(s: State, run: seq<Action>, l: Log, before: seq<Action>)
    requires RunOf(s, run) && FromRun(l, before)
    ensures FromRun(LogOf(s, run, l), before + run)
    decreases |run|
  {
    hide FromRun, Logged, Do, Enabled;
    if run == [] {
      assert before + run == before;
    } else {
      LoggedFromRun(l, before, s, run[0]);
      LogFromRun(Do(s, run[0]), run[1..], Logged(l, s, run[0]), before + [run[0]]);
      assert before + [run[0]] + run[1..] == before + run;
    }
  }

  /**
   Over every interleaving, wake-ups without a signal included: the message of a channel is null or the one stored
   there last, which a caller handed over for that class. That is what a flush thread reads.
   */
  lemma FlushesWhatWasHandedOver(s: State, run: seq<Action>, c: Class)
    requires Initial(s) && RunOf(s, run)
    ensures var msg, l := After(s, run).Get(c).msg, LogOf(s, run, NOTHING);
            msg == Null || (msg == l.Last(c) && exists t :: StartBlit(t, c, msg.msg) in run)
  {
    RunHolds(s, NOTHING, run);
    LogFromRun(s, run, NOTHING, []);
    assert [] + run == run;
    hide After, LogOf, RunOf;
  }

  /** The steps of a caller that is about to store, and then of the flush thread it wakes up. */
  function Delivery(t: nat, c: Class): seq<Action> {
    [Proceed(t), Proceed(t), Proceed(t), Flush(c), Flush(c), Flush(c)]
  }

  /** A message stored for a waiting flush thread is signalled, and then read. */
  lemma WaitingIsDelivered(s: State, t: nat, c: Class, msg: nat)
    requires Inv(s) && t < |s.callers| && s.callers[t] == BlitLocked(c, msg) && s.Get(c).flush == Waiting
    ensures RunOf(s, Delivery(t, c))
    ensures var e := After(s, Delivery(t, c)); e.Get(c).flush == Flushing && e.Get(c).msg == To(msg)
  {
    assert ChannelInv(s, c) && CallerInv(s.Get(c), t, s.callers[t], c);
    DisableIsFree(s, t, c);
    hide Inv, ChannelInv, CallerInv;
    var s1 := Do(s, Proceed(t));
    var s2 := Do(s1, Proceed(t));
    var s3 := Do(s2, Proceed(t));
    assert s3.Get(c) == Channel(To(msg), Nobody, Nobody, Signalled);
    WokenReads(s3, c);
    hide Do, Enabled, RunOf, After;
    var flushes := [Flush(c), Flush(c), Flush(c)];
    Longer(s2, Proceed(t), flushes);
    Longer(s1, Proceed(t), [Proceed(t)] + flushes);
    Longer(s, Proceed(t), [Proceed(t)] + ([Proceed(t)] + flushes));
    assert [Proceed(t)] + ([Proceed(t)] + ([Proceed(t)] + flushes)) == Delivery(t, c);
  }

  lemma WokenReads(s: State, c: Class)
    requires s.Get(c).sync == Nobody && s.Get(c).disable == Nobody && s.Get(c).flush == Signalled
    ensures RunOf(s, [Flush(c), Flush(c), Flush(c)])
    ensures var e := After(s, [Flush(c), Flush(c), Flush(c)]);
            e.Get(c).flush == Flushing && e.Get(c).msg == s.Get(c).msg
  {
    var s1 := Do(s, Flush(c));
    var s2 := Do(s1, Flush(c));
    var s3 := Do(s2, Flush(c));
    assert s3.Get(c).flush == Flushing && s3.Get(c).msg == s.Get(c).msg;
    hide Do, Enabled;
    assert RunOf(s3, []) && After(s3, []) == s3;
    hide RunOf, After;
    Longer(s2, Flush(c), []);
    Longer(s1, Flush(c), [Flush(c)] + []);
    Longer(s, Flush(c), [Flush(c)] + ([Flush(c)] + []));
    assert [Flush(c)] + ([Flush(c)] + ([Flush(c)] + [])) == [Flush(c), Flush(c), Flush(c)];
  }

  /** While a caller is blitting, and the flush thread waits, nobody has the disable mutex. */
  lemma DisableIsFree(s: State, t: nat, c: Class)
    requires Inv(s) && t < |s.callers| && s.callers[t].BlitLocked? && s.Get(c).flush == Waiting
    ensures s.Get(c).disable == Nobody
  {
    assert ChannelInv(s, c);
    var ch := s.Get(c);
    if ch.disable.Caller? {
      assert false;
    }
  }
}
